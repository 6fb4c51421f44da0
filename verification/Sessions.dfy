/** Who owns each session: session creation with its fallback ladder, the requests of a model,
    the identity probe and the disposal of the base, as one transition system over
    src/session.mts, src/model.mts and src/lifecycle.mts. A promise that has settled but whose
    reader has not run yet is a state of its own, so an abort can fall between any two layers. */
module Sessions {

  /** Sessions are numbered in the order they come into being. */
  type Sid = nat

  /** What a request or a probe works with: a session of its own, or the base itself. */
  datatype Handle = Owned(id: Sid) | Shared

  /** How often session `x` is held through `h`. */
  function Held(h: Handle, x: Sid): nat {
    if h == Owned(x) then 1 else 0
  }

  /** A step of a component: its new state, whether a session came into being, and the session
      it destroyed, if it was not the base. */
  datatype Move<T> = Move(to: T, born: bool, destroyed: Handle)

  function Still<T>(to: T): Move<T> {
    Move(to, false, Shared)
  }

  /** `destroySession` guarded by `session !== state.session`. */
  function Dispose<T>(to: T, h: Handle): Move<T> {
    Move(to, false, h)
  }

  /** How often `x` is held by all the parts together. */
  function Total<T>(held: (T, Sid) -> nat, parts: seq<T>, x: Sid): nat {
    if parts == [] then 0 else held(parts[0], x) + Total(held, parts[1..], x)
  }

  // ---------- createSessionAttempt, createWithFallback, cloneSession ----------

  /** The inner race of one attempt: racing, settled but not yet read, or read; `unsupported`
      says that the error counts as an unsupported option. */
  datatype Inner = Racing | Won(handle: Handle) | Lost(unsupported: bool) | Read(unsupported: bool)

  /** One attempt: whether the factory's promise is still open, and the race around it. */
  datatype Attempt = Attempt(open: bool, inner: Inner)

  /** How a session is obtained: from the factory, by cloning, or by sharing the base. */
  datatype Mode = Factory | Clone | Same

  /** The promise of the async function around the attempts. */
  datatype Out = Working | Returned(handle: Handle) | Failed | Taken

  datatype Supply = Supply(mode: Mode, attempts: seq<Attempt>, out: Out)

  datatype SupplyEvent =
    | CreateResolves(k: nat)
    | CreateRejects(k: nat, unsupported: bool)
    | Continue
    | CloneResolves(same: bool)
    | CloneRejects

  /** `throwIfAborted` comes before every `create`, so an aborted owner starts none. */
  function StartSupply(mode: Mode, aborted: bool): Supply {
    match mode
    case Factory => if aborted then Supply(mode, [], Failed) else Supply(mode, [Attempt(true, Racing)], Working)
    case Clone => Supply(mode, [], Working)
    case Same => Supply(mode, [], Returned(Shared))
  }

  predicate SupplyEnabled(s: Supply, e: SupplyEvent) {
    match e
    case CreateResolves(k) => k < |s.attempts| && s.attempts[k].open
    case CreateRejects(k, _) => k < |s.attempts| && s.attempts[k].open
    case Continue => s.out.Working? && s.attempts != [] &&
      var inner := s.attempts[|s.attempts| - 1].inner; inner.Won? || inner.Lost?
    case CloneResolves(_) => s.mode.Clone? && s.out.Working?
    case CloneRejects => s.mode.Clone? && s.out.Working?
  }

  function ReadAttempt(a: Attempt): Attempt {
    a.(inner := Read(a.inner.Lost? && a.inner.unsupported))
  }

  function SupplyStep(s: Supply, e: SupplyEvent, aborted: bool, sid: Sid): Move<Supply>
    requires SupplyEnabled(s, e)
  {
    match e
    case CreateResolves(k) =>
      var a := s.attempts[k];
      if a.inner.Racing? then
        Move(s.(attempts := s.attempts[k := Attempt(false, Won(Owned(sid)))]), true, Shared)
      else
        Move(s.(attempts := s.attempts[k := a.(open := false)]), true, Owned(sid))
    case CreateRejects(k, unsupported) =>
      var a := s.attempts[k];
      Still(s.(attempts := s.attempts[k := Attempt(false, if a.inner.Racing? then Lost(unsupported) else a.inner)]))
    case Continue =>
      var last := |s.attempts| - 1;
      var read := s.attempts[last := ReadAttempt(s.attempts[last])];
      match s.attempts[last].inner {
        case Won(handle) => Still(s.(attempts := read, out := Returned(handle)))
        case Lost(unsupported) =>
          if unsupported && |read| < 3 && !aborted
          then Still(s.(attempts := read + [Attempt(true, Racing)]))
          else Still(s.(attempts := read, out := Failed))
        case _ => Still(s)
      }
    case CloneResolves(same) =>
      if same then Still(s.(out := Returned(Shared)))
      else Move(s.(out := Returned(Owned(sid))), true, Shared)
    case CloneRejects => Still(s.(out := Failed))
  }

  /** The owner's abort: every inner race still running rejects with the signal's reason. */
  function AbortAttempts(attempts: seq<Attempt>, unsupported: bool): seq<Attempt> {
    seq(|attempts|, i requires 0 <= i < |attempts| =>
      if attempts[i].inner.Racing? then attempts[i].(inner := Lost(unsupported)) else attempts[i])
  }

  function AbortSupply(s: Supply, unsupported: bool): Supply {
    s.(attempts := AbortAttempts(s.attempts, unsupported))
  }

  function HeldByAttempt(a: Attempt, x: Sid): nat {
    if a.inner.Won? then Held(a.inner.handle, x) else 0
  }

  function HeldBySupply(s: Supply, x: Sid): nat {
    Total(HeldByAttempt, s.attempts, x) + if s.out.Returned? then Held(s.out.handle, x) else 0
  }

  // ---------- the race around it ----------

  datatype OuterRace = Open | Holding(handle: Handle) | Refused | Done

  datatype Outer = Outer(supply: Supply, race: OuterRace)

  datatype OuterEvent = Supplying(e: SupplyEvent) | React

  function StartOuter(mode: Mode, aborted: bool): Outer {
    Outer(StartSupply(mode, aborted), if aborted then Refused else Open)
  }

  predicate OuterEnabled(o: Outer, e: OuterEvent) {
    match e
    case Supplying(se) => SupplyEnabled(o.supply, se)
    case React => o.supply.out.Returned? || o.supply.out.Failed?
  }

  function OuterStep(o: Outer, e: OuterEvent, aborted: bool, sid: Sid): Move<Outer>
    requires OuterEnabled(o, e)
  {
    match e
    case Supplying(se) =>
      var m := SupplyStep(o.supply, se, aborted, sid);
      Move(o.(supply := m.to), m.born, m.destroyed)
    case React =>
      var read := o.supply.(out := Taken);
      if o.supply.out.Failed? then Still(Outer(read, if o.race.Open? then Refused else o.race))
      else if o.race.Open? then Still(Outer(read, Holding(o.supply.out.handle)))
      else Dispose(Outer(read, o.race), o.supply.out.handle)
  }

  function RefuseOuter(o: Outer): Outer {
    if o.race.Open? then o.(race := Refused) else o
  }

  function AbortOuter(o: Outer, unsupported: bool): Outer {
    RefuseOuter(o.(supply := AbortSupply(o.supply, unsupported)))
  }

  function HeldByOuter(o: Outer, x: Sid): nat {
    HeldBySupply(o.supply, x) + if o.race.Holding? then Held(o.race.handle, x) else 0
  }

  // ---------- a request of the model ----------

  datatype Status = Looping | Waiting | Prompting(handle: Handle) | Finished

  /** The retry loop of `promptStructured`; `promptStreaming` is the loop with one attempt.
      Every acquisition stays listed, since its session may arrive late. */
  datatype Request = Request(
    attempt: nat,
    attempts: nat,
    status: Status,
    aborted: bool,
    outers: seq<Outer>,
    prompted: seq<Handle>)

  datatype RequestEvent =
    | LoopHead(mode: Mode)
    | Outering(i: nat, oe: OuterEvent)
    | TakeSession
    | SeeRefusal
    | PromptSettles(retry: bool)

  predicate RequestEnabled(r: Request, e: RequestEvent) {
    match e
    case LoopHead(_) => r.status.Looping?
    case Outering(i, oe) => i < |r.outers| && OuterEnabled(r.outers[i], oe)
    case TakeSession => r.status.Waiting? && r.outers != [] && r.outers[|r.outers| - 1].race.Holding?
    case SeeRefusal => r.status.Waiting? && r.outers != [] && r.outers[|r.outers| - 1].race.Refused?
    case PromptSettles(_) => r.status.Prompting?
  }

  /** `aborted` is the owner's signal; `r.aborted` the request's own, which includes it. */
  function RequestStep(r: Request, e: RequestEvent, aborted: bool, sid: Sid): Move<Request>
    requires RequestEnabled(r, e)
  {
    match e
    case LoopHead(mode) =>
      if r.aborted || r.attempt == r.attempts then Still(r.(status := Finished))
      else Still(r.(status := Waiting, outers := r.outers + [StartOuter(mode, aborted)]))
    case Outering(i, oe) =>
      var m := OuterStep(r.outers[i], oe, aborted, sid);
      Move(r.(outers := r.outers[i := m.to]), m.born, m.destroyed)
    case TakeSession =>
      var last := |r.outers| - 1;
      var handle := r.outers[last].race.handle;
      Still(r.(status := Prompting(handle), outers := r.outers[last := r.outers[last].(race := Done)],
               prompted := if r.aborted then r.prompted else r.prompted + [handle]))
    case SeeRefusal => Still(r.(status := Finished))
    case PromptSettles(retry) =>
      Dispose(r.(attempt := r.attempt + 1, status := if retry then Looping else Finished), r.status.handle)
  }

  function RefuseOuters(outers: seq<Outer>): seq<Outer> {
    seq(|outers|, i requires 0 <= i < |outers| => RefuseOuter(outers[i]))
  }

  function AbortOuters(outers: seq<Outer>, unsupported: bool): seq<Outer> {
    seq(|outers|, i requires 0 <= i < |outers| => AbortOuter(outers[i], unsupported))
  }

  /** How often `x` has been prompted by the request, and whether it is being prompted. */
  function Prompted(r: Request, x: Sid): nat {
    Total(Held, r.prompted, x)
  }

  function PromptedNow(r: Request, x: Sid): nat {
    if r.status.Prompting? then Held(r.status.handle, x) else 0
  }

  function HeldByRequest(r: Request, x: Sid): nat {
    Total(HeldByOuter, r.outers, x) + PromptedNow(r, x)
  }

  // ---------- the identity probe ----------

  /** `detectSessionModelName`: the session it obtains, whether it has settled, the session once
      it has arrived, and whether `detectModelName` has been asked and has not answered yet. */
  datatype Probe = Probe(supply: Supply, settled: bool, arrived: bool, probe: Handle, asking: bool)

  datatype ProbeEvent = Fetching(e: SupplyEvent) | Arrive | FetchFails | Timer | IdentitySettles

  function StartProbe(mode: Mode, aborted: bool): Probe {
    Probe(StartSupply(mode, aborted), false, false, Shared, false)
  }

  predicate ProbeEnabled(p: Probe, e: ProbeEvent) {
    match e
    case Fetching(se) => SupplyEnabled(p.supply, se)
    case Arrive => p.supply.out.Returned?
    case FetchFails => p.supply.out.Failed?
    case Timer => !p.settled
    case IdentitySettles => p.asking
  }

  /** `finish` */
  function Finish(p: Probe): Move<Probe> {
    if p.settled then Still(p)
    else if p.arrived then Dispose(p.(settled := true), p.probe)
    else Still(p.(settled := true))
  }

  function ProbeStep(p: Probe, e: ProbeEvent, aborted: bool, sid: Sid): Move<Probe>
    requires ProbeEnabled(p, e)
  {
    match e
    case Fetching(se) =>
      var m := SupplyStep(p.supply, se, aborted, sid);
      Move(p.(supply := m.to), m.born, m.destroyed)
    case Arrive =>
      var arrived := p.(supply := p.supply.(out := Taken), arrived := true, probe := p.supply.out.handle,
                        asking := !p.settled);
      if p.settled then Dispose(arrived, p.supply.out.handle) else Still(arrived)
    case FetchFails => Finish(p.(supply := p.supply.(out := Taken)))
    case Timer => Finish(p)
    case IdentitySettles => Finish(p.(asking := false))
  }

  function HeldByProbe(p: Probe, x: Sid): nat {
    HeldBySupply(p.supply, x) + if p.arrived && !p.settled then Held(p.probe, x) else 0
  }

  // ---------- the base session ----------

  datatype Creation = Acquiring | Detecting(base: Sid) | HandedOut(base: Sid) | Closed

  function HeldByCreation(c: Creation, x: Sid): nat {
    match c
    case Detecting(base) => if base == x then 1 else 0
    case HandedOut(base) => if base == x then 1 else 0
    case _ => 0
  }

  // ---------- the whole ----------

  /** One `createOdaiModel` call and everything its model is asked to do. `unsupported` says
      whether the abort reason counts as an unsupported option. */
  datatype World = World(
    interactive: bool,
    unsupported: bool,
    aborted: bool,
    next: Sid,
    base: Outer,
    creation: Creation,
    probes: seq<Probe>,
    requests: seq<Request>,
    destroyed: multiset<Sid>)

  datatype Event =
    | AbortOwner
    | AbortCaller(i: nat)
    | Base(oe: OuterEvent)
    | TakeBase(mode: Mode)
    | BaseRefused
    | Detected
    | DetectionAborted
    | Probing(i: nat, pe: ProbeEvent)
    | NewRequest(attempts: nat, callerAborted: bool)
    | Requesting(i: nat, re: RequestEvent)
    | Release

  /** The world when `createWithFallback` has been called; `early` says that the owner had aborted
      by then. */
  function Begun(interactive: bool, unsupported: bool, early: bool): World {
    World(interactive, unsupported, early, 0, StartOuter(Factory, early), Acquiring, [], [], multiset{})
  }

  predicate Enabled(w: World, e: Event) {
    match e
    case AbortOwner => true
    case AbortCaller(i) => i < |w.requests|
    case Base(oe) => OuterEnabled(w.base, oe)
    case TakeBase(_) => w.creation.Acquiring? && w.base.race.Holding? && w.base.race.handle.Owned?
    case BaseRefused => w.creation.Acquiring? && w.base.race.Refused?
    case Detected => w.creation.Detecting? && exists p | p in w.probes :: p.settled
    case DetectionAborted => w.creation.Detecting? && w.aborted
    case Probing(i, pe) => i < |w.probes| && ProbeEnabled(w.probes[i], pe)
    case NewRequest(_, _) => true
    case Requesting(i, re) => i < |w.requests| && RequestEnabled(w.requests[i], re)
    case Release => w.creation.HandedOut?
  }

  function AbortProbes(probes: seq<Probe>, unsupported: bool): seq<Probe> {
    seq(|probes|, i requires 0 <= i < |probes| => probes[i].(supply := AbortSupply(probes[i].supply, unsupported)))
  }

  function AbortRequests(requests: seq<Request>, unsupported: bool): seq<Request> {
    seq(|requests|, i requires 0 <= i < |requests| =>
      requests[i].(aborted := true, outers := AbortOuters(requests[i].outers, unsupported)))
  }

  function AbortWorld(w: World): World {
    w.(aborted := true,
       base := AbortOuter(w.base, w.unsupported),
       probes := AbortProbes(w.probes, w.unsupported),
       requests := AbortRequests(w.requests, w.unsupported))
  }

  /** Sessions come into being one at a time, so `next` counts them. */
  function Account<T>(w: World, m: Move<T>): World {
    w.(next := if m.born then w.next + 1 else w.next,
       destroyed := if m.destroyed.Owned? then w.destroyed + multiset{m.destroyed.id} else w.destroyed)
  }

  function Step(w: World, e: Event): World
    requires Enabled(w, e)
  {
    match e
    case AbortOwner => AbortWorld(w)
    case AbortCaller(i) =>
      var r := w.requests[i];
      w.(requests := w.requests[i := r.(aborted := true, outers := RefuseOuters(r.outers))])
    case Base(oe) =>
      var m := OuterStep(w.base, oe, w.aborted, w.next);
      Account(w, m).(base := m.to)
    case TakeBase(mode) =>
      var base := w.base.race.handle.id;
      if w.interactive then w.(base := w.base.(race := Done), creation := HandedOut(base))
      else w.(base := w.base.(race := Done), creation := Detecting(base), probes := w.probes + [StartProbe(mode, w.aborted)])
    case BaseRefused => w.(creation := Closed)
    case Detected => w.(creation := HandedOut(w.creation.base))
    case DetectionAborted => w.(creation := Closed, destroyed := w.destroyed + multiset{w.creation.base})
    case Probing(i, pe) =>
      var m := ProbeStep(w.probes[i], pe, w.aborted, w.next);
      Account(w, m).(probes := w.probes[i := m.to])
    case NewRequest(attempts, callerAborted) =>
      w.(requests := w.requests + [Request(0, attempts, Looping, callerAborted || w.aborted, [], [])])
    case Requesting(i, re) =>
      var m := RequestStep(w.requests[i], re, w.aborted, w.next);
      Account(w, m).(requests := w.requests[i := m.to])
    case Release =>
      var over := AbortWorld(w);
      over.(creation := Closed, destroyed := w.destroyed + multiset{w.creation.base})
  }

  /** How often somebody answers for session `x`. */
  function HeldByWorld(w: World, x: Sid): nat {
    HeldByOuter(w.base, x) + HeldByCreation(w.creation, x) + Total(HeldByProbe, w.probes, x)
    + Total(HeldByRequest, w.requests, x)
  }

  /** A run from the start; `Possible` says every event could happen when it did. */
  predicate Possible(interactive: bool, unsupported: bool, early: bool, events: seq<Event>)
    decreases |events|, 0
  {
    events == []
    || (&& Possible(interactive, unsupported, early, events[..|events| - 1])
        && Enabled(After(interactive, unsupported, early, events[..|events| - 1]), events[|events| - 1]))
  }

  function After(interactive: bool, unsupported: bool, early: bool, events: seq<Event>): World
    requires Possible(interactive, unsupported, early, events)
    decreases |events|, 1
  {
    if events == [] then Begun(interactive, unsupported, early)
    else Step(After(interactive, unsupported, early, events[..|events| - 1]), events[|events| - 1])
  }
}
