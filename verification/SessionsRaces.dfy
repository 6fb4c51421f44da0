/** Every race inside the transition system is a run of `awaitCancellable`: over every run of a
    model, each race has heard a list of aborts and settlements of its own, is in the state that
    list leads to, and what it disposed of is what was destroyed. */
module SessionsRaces {
  import C = Cancellation
  import opened Sessions
  import opened SessionsShape
  import opened SessionsLaws
  import opened SessionsRuns

  type RaceEvents = seq<C.Event<Handle, bool>>

  // ---------- the races of a world ----------

  /** Where a session is obtained: for the base, for a probe, or for an acquisition of a request. */
  datatype Place = AtBase | AtProbe(i: nat) | AtRequest(i: nat, j: nat)

  /** The race of an attempt, or the race around the creation or an acquisition. */
  datatype RaceId = Attempting(place: Place, k: nat) | Around(place: Place)

  predicate There(w: World, p: Place) {
    match p
    case AtBase => true
    case AtProbe(i) => i < |w.probes|
    case AtRequest(i, j) => i < |w.requests| && j < |w.requests[i].outers|
  }

  function OuterAt(w: World, p: Place): Outer
    requires There(w, p) && !p.AtProbe?
  {
    if p.AtBase? then w.base else w.requests[p.i].outers[p.j]
  }

  function SupplyAt(w: World, p: Place): Supply
    requires There(w, p)
  {
    if p.AtProbe? then w.probes[p.i].supply else OuterAt(w, p).supply
  }

  predicate UnderWay(w: World, id: RaceId) {
    && There(w, id.place)
    && if id.Attempting? then id.k < |SupplyAt(w, id.place).attempts| else !id.place.AtProbe?
  }

  // ---------- what a race hears ----------

  /** What an event means at a place. */
  datatype Cause = Nothing | Stepped(e: OuterEvent) | OwnerAborted | CallerAborted

  function CauseAt(e: Event, p: Place): Cause {
    match e
    case AbortOwner => OwnerAborted
    case Release => OwnerAborted
    case AbortCaller(i) => if p.AtRequest? && p.i == i then CallerAborted else Nothing
    case Base(oe) => if p.AtBase? then Stepped(oe) else Nothing
    case Probing(i, pe) => if p == AtProbe(i) && pe.Fetching? then Stepped(Supplying(pe.e)) else Nothing
    case Requesting(i, re) =>
      if re.Outering? && p == AtRequest(i, re.i) then Stepped(re.oe) else Nothing
    case _ => Nothing
  }

  /** The factory's promise settles. */
  function AttemptHears(e: SupplyEvent, k: nat, sid: Sid): RaceEvents {
    match e
    case CreateResolves(j) => if j == k then [C.Resolve(Owned(sid))] else []
    case CreateRejects(j, unsupported) => if j == k then [C.Reject(unsupported)] else []
    case _ => []
  }

  /** The promise of the async function around the attempts settles. */
  function OuterHears(o: Outer, e: OuterEvent): RaceEvents {
    if e.Supplying? then []
    else if o.supply.out.Returned? then [C.Resolve(o.supply.out.handle)]
    else [C.Reject(false)]
  }

  /** What a race hears of an event; one that starts after the owner's abort hears that. */
  function Hears(w: World, e: Event, id: RaceId): RaceEvents
    requires Enabled(w, e)
  {
    if !UnderWay(w, id) then
      if id.Around? && w.aborted && UnderWay(Step(w, e), id) then [C.Abort(false)] else []
    else
      match CauseAt(e, id.place)
      case Nothing => []
      case Stepped(oe) =>
        if id.Around? then OuterHears(OuterAt(w, id.place), oe)
        else if oe.Supplying? then AttemptHears(oe.e, id.k, w.next)
        else []
      case OwnerAborted => [C.Abort(w.unsupported)]
      case CallerAborted => if id.Around? then [C.Abort(w.unsupported)] else []
  }

  /** All that a race has heard in a run. */
  function Heard(interactive: bool, unsupported: bool, early: bool, events: seq<Event>, id: RaceId): RaceEvents
    requires Possible(interactive, unsupported, early, events)
    decreases |events|
  {
    if events == [] then if early && id == Around(AtBase) then [C.Abort(false)] else []
    else
      var before := events[..|events| - 1];
      Heard(interactive, unsupported, early, before, id)
      + Hears(After(interactive, unsupported, early, before), events[|events| - 1], id)
  }

  // ---------- what a race shows ----------

  /** What an attempt shows of its race. */
  predicate AttemptShows(a: Attempt, r: C.Race<Handle, bool>) {
    && (r.settled <==> !a.inner.Racing?) && (r.over <==> !a.open)
    && (a.inner.Won? ==> r.outcome == C.Fulfilled(a.inner.handle))
    && (a.inner.Lost? ==> r.outcome == C.Rejected(a.inner.unsupported))
    && (a.inner == Read(true) ==> r.outcome == C.Rejected(true))
  }

  /** What the creation or an acquisition shows of the race around it. */
  predicate OuterShows(o: Outer, r: C.Race<Handle, bool>) {
    && (r.settled <==> !o.race.Open?) && (r.over <==> o.supply.out.Taken?)
    && (o.race.Holding? ==> r.outcome == C.Fulfilled(o.race.handle))
    && (o.race.Refused? ==> r.outcome.Rejected?)
  }

  /** Every session a race has disposed of has been destroyed; a handle to the base is spared. */
  predicate Gone(disposed: seq<Handle>, gone: multiset<Sid>) {
    forall h | h in disposed && h.Owned? :: h.id in gone
  }

  ghost predicate AttemptRuns(a: Attempt, es: RaceEvents, gone: multiset<Sid>) {
    C.Possible(es) && AttemptShows(a, C.After(es)) && Gone(C.After(es).disposed, gone)
  }

  ghost predicate OuterRuns(o: Outer, es: RaceEvents, gone: multiset<Sid>) {
    C.Possible(es) && OuterShows(o, C.After(es)) && Gone(C.After(es).disposed, gone)
  }

  /** The race is in the state its events lead to; one that has not started has heard nothing. */
  ghost predicate RaceRuns(w: World, id: RaceId, es: RaceEvents) {
    if !UnderWay(w, id) then es == []
    else if id.Attempting? then AttemptRuns(SupplyAt(w, id.place).attempts[id.k], es, w.destroyed)
    else OuterRuns(OuterAt(w, id.place), es, w.destroyed)
  }

  // ---------- single events ----------

  lemma RunOn(es: RaceEvents, e: C.Event<Handle, bool>)
    requires C.Possible(es) && C.Enabled(C.After(es), e)
    ensures C.Possible(es + [e]) && C.After(es + [e]) == C.Step(C.After(es), e)
  {
    assert (es + [e])[..|es|] == es;
  }

  lemma NothingYet(gone: multiset<Sid>)
    ensures C.Possible<Handle, bool>([]) && C.After<Handle, bool>([]) == C.Begun<Handle, bool>()
    ensures AttemptRuns(Attempt(true, Racing), [], gone)
  {
  }

  lemma AbortedAtOnce()
    ensures var es: RaceEvents := [C.Abort(false)];
      C.Possible(es) && C.After(es) == C.Race(true, false, C.Rejected(false), [])
  {
    var none: RaceEvents := [];
    RunOn(none, C.Abort(false));
    assert none + [C.Abort(false)] == [C.Abort(false)];
  }

  /** What has been destroyed after a step. */
  predicate Destroys<T>(gone: multiset<Sid>, m: Move<T>, more: multiset<Sid>) {
    more == if m.destroyed.Owned? then gone + multiset{m.destroyed.id} else gone
  }

  lemma AttemptRunsOn(s: Supply, e: SupplyEvent, aborted: bool, sid: Sid, k: nat, es: RaceEvents,
      gone: multiset<Sid>, more: multiset<Sid>)
    requires SupplyOk(s) && SupplyEnabled(s, e) && k < |s.attempts| && AttemptRuns(s.attempts[k], es, gone)
    requires Destroys(gone, SupplyStep(s, e, aborted, sid), more)
    ensures k < |SupplyStep(s, e, aborted, sid).to.attempts|
    ensures AttemptRuns(SupplyStep(s, e, aborted, sid).to.attempts[k], es + AttemptHears(e, k, sid), more)
  {
    var heard := AttemptHears(e, k, sid);
    if heard == [] {
      assert es + heard == es;
    } else {
      RunOn(es, heard[0]);
    }
    hide C.Possible, C.After;
  }

  /** New attempts start from nothing. */
  lemma NewAttempts(s: Supply, e: SupplyEvent, aborted: bool, sid: Sid, k: nat)
    requires SupplyEnabled(s, e) && |s.attempts| <= k < |SupplyStep(s, e, aborted, sid).to.attempts|
    ensures SupplyStep(s, e, aborted, sid).to.attempts[k] == Attempt(true, Racing)
  {
  }

  lemma AttemptAborts(a: Attempt, unsupported: bool, es: RaceEvents, gone: multiset<Sid>)
    requires AttemptOk(a) && AttemptRuns(a, es, gone)
    ensures AttemptRuns(if a.inner.Racing? then a.(inner := Lost(unsupported)) else a, es + [C.Abort(unsupported)], gone)
  {
    RunOn(es, C.Abort(unsupported));
    hide C.Possible, C.After;
  }

  lemma OuterRunsOn(o: Outer, e: OuterEvent, aborted: bool, sid: Sid, es: RaceEvents,
      gone: multiset<Sid>, more: multiset<Sid>)
    requires OuterOk(o) && OuterEnabled(o, e) && OuterRuns(o, es, gone)
    requires Destroys(gone, OuterStep(o, e, aborted, sid), more)
    ensures OuterRuns(OuterStep(o, e, aborted, sid).to, es + OuterHears(o, e), more)
  {
    hide SupplyOk, SupplyStep;
    match e
    case Supplying(se) =>
      SupplyKeeps(o.supply, se, aborted, sid);
      assert es + [] == es;
    case React =>
      RunOn(es, OuterHears(o, e)[0]);
      hide C.Possible, C.After;
  }

  lemma OuterAborts(o: Outer, unsupported: bool, es: RaceEvents, gone: multiset<Sid>)
    requires OuterOk(o) && OuterRuns(o, es, gone)
    ensures OuterRuns(RefuseOuter(o), es + [C.Abort(unsupported)], gone)
    ensures OuterRuns(AbortOuter(o, unsupported), es + [C.Abort(unsupported)], gone)
  {
    hide SupplyOk;
    RunOn(es, C.Abort(unsupported));
    hide C.Possible, C.After;
  }

  // ---------- what a step does at a place ----------

  lemma PlaceOk(w: World, p: Place)
    requires WorldOk(w) && There(w, p)
    ensures SupplyOk(SupplyAt(w, p)) && (!p.AtProbe? ==> OuterOk(OuterAt(w, p)))
  {
    hide SupplyOk;
  }

  lemma PlaceStays(w: World, e: Event, p: Place)
    requires Enabled(w, e) && There(w, p)
    ensures There(Step(w, e), p)
  {
    hide OuterStep, ProbeStep;
  }

  /** A place that is new starts its attempts from nothing, and its race where the owner is. */
  lemma PlaceStarts(w: World, e: Event, p: Place)
    requires Enabled(w, e) && !There(w, p) && There(Step(w, e), p)
    ensures forall k | 0 <= k < |SupplyAt(Step(w, e), p).attempts| ::
      SupplyAt(Step(w, e), p).attempts[k] == Attempt(true, Racing)
    ensures !p.AtProbe? ==>
      && OuterAt(Step(w, e), p).race == (if w.aborted then Refused else Open)
      && !OuterAt(Step(w, e), p).supply.out.Taken?
  {
    hide OuterStep, ProbeStep, StartOuter, StartSupply;
    var t := Step(w, e);
    if e.Requesting? && e.re.LoopHead? {
      StartsFresh(e.re.mode, w.aborted);
      assert OuterAt(t, p) == StartOuter(e.re.mode, w.aborted);
    } else if e.TakeBase? {
      StartsFresh(e.mode, w.aborted);
      assert SupplyAt(t, p) == StartSupply(e.mode, w.aborted);
    }
  }

  lemma StartsFresh(mode: Mode, aborted: bool)
    ensures forall k | 0 <= k < |StartSupply(mode, aborted).attempts| ::
      StartSupply(mode, aborted).attempts[k] == Attempt(true, Racing)
    ensures StartOuter(mode, aborted).supply == StartSupply(mode, aborted)
    ensures StartOuter(mode, aborted).race == if aborted then Refused else Open
    ensures !StartSupply(mode, aborted).out.Taken?
  {
  }

  lemma DestroyedGrows(w: World, e: Event)
    requires Enabled(w, e)
    ensures w.destroyed <= Step(w, e).destroyed
  {
    hide OuterStep, ProbeStep, RequestStep;
    AbortLeaves(w);
  }

  /** A race around an acquisition changes by a step of its own, an abort, or when its session is
      taken. */
  ghost predicate RaceMoved(w: World, e: Event, p: Place)
    requires Enabled(w, e) && There(w, p) && There(Step(w, e), p) && !p.AtProbe?
  {
    var o, t := OuterAt(w, p), OuterAt(Step(w, e), p);
    match CauseAt(e, p)
    case Stepped(oe) =>
      && OuterEnabled(o, oe) && t == OuterStep(o, oe, w.aborted, w.next).to
      && Destroys(w.destroyed, OuterStep(o, oe, w.aborted, w.next), Step(w, e).destroyed)
    case OwnerAborted => t == AbortOuter(o, w.unsupported)
    case CallerAborted => t == RefuseOuter(o)
    case Nothing => t == o || (o.race.Holding? && t == o.(race := Done))
  }

  lemma RaceMoves(w: World, e: Event, p: Place)
    requires Enabled(w, e) && There(w, p) && !p.AtProbe?
    ensures There(Step(w, e), p) && RaceMoved(w, e, p)
  {
    hide OuterStep, ProbeStep, AbortOuter, RefuseOuter, StartOuter, StartProbe;
    PlaceStays(w, e, p);
  }

  /** The attempts at a place change by the step of their supply, or by the owner's abort. */
  ghost predicate SupplyMoved(w: World, e: Event, p: Place)
    requires Enabled(w, e) && There(w, p) && There(Step(w, e), p)
  {
    var s, t := SupplyAt(w, p), SupplyAt(Step(w, e), p);
    match CauseAt(e, p)
    case Stepped(Supplying(se)) =>
      && SupplyEnabled(s, se) && t == SupplyStep(s, se, w.aborted, w.next).to
      && Destroys(w.destroyed, SupplyStep(s, se, w.aborted, w.next), Step(w, e).destroyed)
    case OwnerAborted => t == AbortSupply(s, w.unsupported)
    case _ => t.attempts == s.attempts
  }

  lemma SupplyMoves(w: World, e: Event, p: Place)
    requires Enabled(w, e) && There(w, p)
    ensures There(Step(w, e), p) && SupplyMoved(w, e, p)
  {
    hide Step, SupplyStep, AbortSupply;
    if p.AtProbe? {
      ProbeMoves(w, e, p);
    } else {
      RaceMoves(w, e, p);
    }
  }

  lemma ProbeMoves(w: World, e: Event, p: Place)
    requires Enabled(w, e) && There(w, p) && p.AtProbe?
    ensures There(Step(w, e), p) && SupplyMoved(w, e, p)
  {
    hide SupplyStep, AbortSupply, OuterStep, RequestStep, StartProbe, AbortOuter;
  }

  // ---------- every step of the system ----------

  /** Every event extends what each race has heard by at most one event, and the race by the step
      of `awaitCancellable` for it. */
  lemma StepRuns(w: World, e: Event, id: RaceId, es: RaceEvents)
    requires WorldOk(w) && Enabled(w, e) && RaceRuns(w, id, es)
    ensures RaceRuns(Step(w, e), id, es + Hears(w, e, id)) && |Hears(w, e, id)| <= 1
  {
    hide WorldOk, Step, AttemptRuns, OuterRuns, SupplyMoved, RaceMoved;
    var p := id.place;
    assert es + [] == es && [] + Hears(w, e, id) == Hears(w, e, id);
    if There(w, p) {
      PlaceOk(w, p);
      DestroyedGrows(w, e);
      if id.Attempting? {
        AttemptStepRuns(w, e, p, id.k, es);
      } else if !p.AtProbe? {
        OuterStepRuns(w, e, p, es);
      }
    } else if There(Step(w, e), p) {
      RaceStarts(w, e, id);
    }
  }

  lemma RaceStarts(w: World, e: Event, id: RaceId)
    requires Enabled(w, e) && !There(w, id.place) && There(Step(w, e), id.place)
    ensures RaceRuns(Step(w, e), id, Hears(w, e, id)) && |Hears(w, e, id)| <= 1
  {
    hide Step;
    PlaceStarts(w, e, id.place);
    NothingYet(Step(w, e).destroyed);
    AbortedAtOnce();
  }

  lemma AttemptStepRuns(w: World, e: Event, p: Place, k: nat, es: RaceEvents)
    requires Enabled(w, e) && There(w, p) && RaceRuns(w, Attempting(p, k), es)
    requires SupplyOk(SupplyAt(w, p)) && w.destroyed <= Step(w, e).destroyed
    ensures RaceRuns(Step(w, e), Attempting(p, k), es + Hears(w, e, Attempting(p, k)))
    ensures |Hears(w, e, Attempting(p, k))| <= 1
  {
    hide Step, SupplyStep, AttemptRuns;
    var s := SupplyAt(w, p);
    SupplyMoves(w, e, p);
    assert es + [] == es;
    NothingYet(Step(w, e).destroyed);
    match CauseAt(e, p)
    case Stepped(Supplying(se)) =>
      if k < |s.attempts| {
        AttemptRunsOn(s, se, w.aborted, w.next, k, es, w.destroyed, Step(w, e).destroyed);
      } else if k < |SupplyStep(s, se, w.aborted, w.next).to.attempts| {
        NewAttempts(s, se, w.aborted, w.next, k);
      }
    case OwnerAborted =>
      if k < |s.attempts| {
        AttemptAborts(s.attempts[k], w.unsupported, es, w.destroyed);
        AttemptMoreGone(AbortSupply(s, w.unsupported).attempts[k], es + [C.Abort(w.unsupported)],
                        w.destroyed, Step(w, e).destroyed);
      }
    case _ =>
      if k < |s.attempts| {
        AttemptMoreGone(s.attempts[k], es, w.destroyed, Step(w, e).destroyed);
      }
  }

  lemma AttemptMoreGone(a: Attempt, es: RaceEvents, gone: multiset<Sid>, more: multiset<Sid>)
    requires AttemptRuns(a, es, gone) && gone <= more
    ensures AttemptRuns(a, es, more)
  {
  }

  lemma OuterStepRuns(w: World, e: Event, p: Place, es: RaceEvents)
    requires Enabled(w, e) && There(w, p) && !p.AtProbe? && OuterRuns(OuterAt(w, p), es, w.destroyed)
    requires OuterOk(OuterAt(w, p)) && w.destroyed <= Step(w, e).destroyed
    ensures RaceRuns(Step(w, e), Around(p), es + Hears(w, e, Around(p)))
    ensures |Hears(w, e, Around(p))| <= 1
  {
    hide Step, OuterStep, OuterRuns, OuterOk;
    var o, more := OuterAt(w, p), Step(w, e).destroyed;
    RaceMoves(w, e, p);
    match CauseAt(e, p)
    case Stepped(oe) => OuterRunsOn(o, oe, w.aborted, w.next, es, w.destroyed, more);
    case Nothing =>
      assert es + [] == es;
      OuterMoreGone(o, es, w.destroyed, more);
    case _ =>
      OuterAborts(o, w.unsupported, es, w.destroyed);
      OuterMoreGone(OuterAt(Step(w, e), p), es + [C.Abort(w.unsupported)], w.destroyed, more);
  }

  lemma OuterMoreGone(o: Outer, es: RaceEvents, gone: multiset<Sid>, more: multiset<Sid>)
    requires OuterRuns(o, es, gone) && gone <= more
    ensures OuterRuns(o, es, more)
    ensures o.race.Holding? ==> OuterRuns(o.(race := Done), es, more)
  {
  }

  // ---------- over every run ----------

  /** In every reachable state every race is in the state that `awaitCancellable` reaches by what
      the race has heard, and what it disposed of has been destroyed. */
  lemma {:induction false} RacesAreRuns(interactive: bool, unsupported: bool, early: bool, events: seq<Event>, id: RaceId)
    requires Possible(interactive, unsupported, early, events)
    ensures RaceRuns(After(interactive, unsupported, early, events), id,
                     Heard(interactive, unsupported, early, events, id))
    decreases |events|
  {
    hide Step, WorldOk, Accounted, RaceRuns, HeldByWorld, Hears;
    if events == [] {
      BegunRuns(interactive, unsupported, early, id);
    } else {
      var before := events[..|events| - 1];
      RacesAreRuns(interactive, unsupported, early, before, id);
      ExactlyOnce(interactive, unsupported, early, before, 0);
      StepRuns(After(interactive, unsupported, early, before), events[|events| - 1], id,
               Heard(interactive, unsupported, early, before, id));
    }
  }

  lemma BegunRuns(interactive: bool, unsupported: bool, early: bool, id: RaceId)
    ensures RaceRuns(Begun(interactive, unsupported, early), id, Heard(interactive, unsupported, early, [], id))
  {
    NothingYet(multiset{});
    AbortedAtOnce();
  }

  /** Whatever a race disposed of arrived after its abort, was destroyed exactly once, and is held
      by nobody. */
  lemma DisposedOnce(interactive: bool, unsupported: bool, early: bool, events: seq<Event>, id: RaceId, x: Sid)
    requires Possible(interactive, unsupported, early, events)
    ensures var es := Heard(interactive, unsupported, early, events, id);
      var w := After(interactive, unsupported, early, events);
      Owned(x) in C.After(es).disposed ==>
        && es != [] && es[0].Abort? && C.Delivered(es) == [Owned(x)]
        && w.destroyed[x] == 1 && HeldByWorld(w, x) == 0
  {
    hide Step, WorldOk, HeldByWorld, Total, After, Possible, Heard;
    var es := Heard(interactive, unsupported, early, events, id);
    RacesAreRuns(interactive, unsupported, early, events, id);
    assert C.Possible(es) && Gone(C.After(es).disposed, After(interactive, unsupported, early, events).destroyed);
    C.DeliveredOnce(es);
    ExactlyOnce(interactive, unsupported, early, events, x);
  }

  /** Whenever a session or the base reaches a race, the very same step destroys it if it is a
      session and the race was already settled, and destroys nothing otherwise. */
  lemma ArrivalDestroys(interactive: bool, unsupported: bool, early: bool, events: seq<Event>, id: RaceId, h: Handle)
    requires Possible(interactive, unsupported, early, events) && events != []
    ensures Possible(interactive, unsupported, early, events[..|events| - 1])
    ensures var before := events[..|events| - 1]; var w := After(interactive, unsupported, early, before);
      Hears(w, events[|events| - 1], id) == [C.Resolve(h)] ==>
        var was := C.After(Heard(interactive, unsupported, early, before, id));
        var now := C.After(Heard(interactive, unsupported, early, events, id));
        && now.disposed == was.disposed + (if was.settled then [h] else [])
        && After(interactive, unsupported, early, events).destroyed
           == w.destroyed + if was.settled && h.Owned? then multiset{h.id} else multiset{}
  {
    hide Step, WorldOk, Hears, RaceRuns, HeldByWorld, Accounted;
    var before := events[..|events| - 1];
    var w := After(interactive, unsupported, early, before);
    RacesAreRuns(interactive, unsupported, early, before, id);
    ExactlyOnce(interactive, unsupported, early, before, 0);
    if Hears(w, events[|events| - 1], id) == [C.Resolve(h)] {
      StepDestroysLate(w, events[|events| - 1], id, Heard(interactive, unsupported, early, before, id), h);
    }
  }

  lemma StepDestroysLate(w: World, e: Event, id: RaceId, es: RaceEvents, h: Handle)
    requires WorldOk(w) && Enabled(w, e) && RaceRuns(w, id, es) && Hears(w, e, id) == [C.Resolve(h)]
    ensures C.After(es + [C.Resolve(h)]).disposed == C.After(es).disposed + (if C.After(es).settled then [h] else [])
    ensures Step(w, e).destroyed == w.destroyed + if C.After(es).settled && h.Owned? then multiset{h.id} else multiset{}
  {
    hide WorldOk, Step, SupplyOk;
    var p := id.place;
    PlaceOk(w, p);
    SupplyMoves(w, e, p);
    if id.Around? {
      RaceMoves(w, e, p);
    }
    RunsOnResolve(es, h);
    hide C.Possible, C.After;
  }

  lemma RunsOnResolve(es: RaceEvents, h: Handle)
    ensures C.After(es + [C.Resolve(h)]) == C.Step(C.After(es), C.Resolve(h))
  {
    assert (es + [C.Resolve(h)])[..|es|] == es;
  }
}
