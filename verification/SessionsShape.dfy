/** The shape every reachable state keeps, and that no part of it can get stuck: what is
    pending always has a step to take. */
module SessionsShape {
  import opened Sessions

  // ---------- obtaining a session ----------

  predicate AttemptOk(a: Attempt) {
    (a.inner.Racing? ==> a.open) && (a.inner.Won? ==> a.inner.handle.Owned?)
  }

  /** Attempts are made one after the other, at most three, each after an unsupported option
      only, and only the last one is undecided; the factory's sessions are never the base. */
  predicate SupplyOk(s: Supply) {
    && |s.attempts| <= 3
    && (forall i | 0 <= i < |s.attempts| :: AttemptOk(s.attempts[i]))
    && (forall i | 0 <= i < |s.attempts| :: s.attempts[i].inner.Read? <==> i < |s.attempts| - 1 || !s.out.Working?)
    && (forall i | 0 <= i < |s.attempts| - 1 :: s.attempts[i].inner == Read(true))
    && (!s.mode.Factory? ==> s.attempts == [])
    && (s.mode.Factory? && s.out.Working? ==> s.attempts != [])
    && (s.mode.Same? ==> !s.out.Working?)
    && (s.mode.Factory? && s.out.Returned? ==> s.out.handle.Owned?)
  }

  predicate OuterOk(o: Outer) {
    && SupplyOk(o.supply)
    && (o.race.Open? ==> !o.supply.out.Taken?)
    && (o.supply.mode.Factory? && o.race.Holding? ==> o.race.handle.Owned?)
  }

  predicate Undecided(o: Outer) {
    o.race.Open? || o.race.Holding?
  }

  /** The attempts bound everything, and only the last acquisition of a waiting request holds a
      session. */
  predicate RequestOk(r: Request) {
    && (forall i | 0 <= i < |r.outers| :: OuterOk(r.outers[i]))
    && (forall i | 0 <= i < |r.outers| ::
        Undecided(r.outers[i]) ==> r.status.Waiting? && i == |r.outers| - 1)
    && (r.status.Waiting? ==> r.outers != [] && !r.outers[|r.outers| - 1].race.Done?)
    && r.attempt <= r.attempts
    && (r.status.Waiting? || r.status.Prompting? ==> r.attempt < r.attempts)
    && (r.status.Looping? ==> |r.outers| == r.attempt && |r.prompted| <= r.attempt)
    && (r.status.Waiting? ==> |r.outers| == r.attempt + 1 && |r.prompted| <= r.attempt)
    && (r.status.Prompting? ==> |r.outers| == r.attempt + 1)
    && |r.prompted| <= |r.outers| <= r.attempts
  }

  predicate ProbeOk(p: Probe) {
    && SupplyOk(p.supply)
    && (p.arrived ==> p.supply.out.Taken?)
    && (p.supply.out.Taken? ==> p.arrived || p.settled)
    && (p.asking ==> p.arrived)
    && (p.arrived && !p.settled ==> p.asking)
  }

  predicate WorldOk(w: World) {
    && OuterOk(w.base) && w.base.supply.mode.Factory?
    && (Undecided(w.base) ==> w.creation.Acquiring?)
    && (w.creation.Acquiring? ==> !w.base.race.Done?)
    && (forall i | 0 <= i < |w.probes| :: ProbeOk(w.probes[i]))
    && (w.creation.Detecting? ==> w.probes != [])
    && (forall i | 0 <= i < |w.requests| ::
        RequestOk(w.requests[i]) && (w.aborted ==> w.requests[i].aborted))
  }

  // ---------- every step keeps it ----------

  lemma StartOk(mode: Mode, aborted: bool)
    ensures SupplyOk(StartSupply(mode, aborted)) && OuterOk(StartOuter(mode, aborted))
    ensures StartSupply(mode, aborted).mode == mode
  {
  }

  lemma SupplyKeeps(s: Supply, e: SupplyEvent, aborted: bool, sid: Sid)
    requires SupplyOk(s) && SupplyEnabled(s, e)
    ensures var t := SupplyStep(s, e, aborted, sid).to;
      SupplyOk(t) && t.mode == s.mode && (t.out.Taken? <==> s.out.Taken?)
  {
  }

  lemma AbortSupplyKeeps(s: Supply, unsupported: bool)
    requires SupplyOk(s)
    ensures SupplyOk(AbortSupply(s, unsupported))
  {
  }

  lemma OuterKeeps(o: Outer, e: OuterEvent, aborted: bool, sid: Sid)
    requires OuterOk(o) && OuterEnabled(o, e)
    ensures var t := OuterStep(o, e, aborted, sid).to;
      OuterOk(t) && t.supply.mode == o.supply.mode && (t.race.Done? <==> o.race.Done?)
      && (Undecided(t) ==> Undecided(o))
  {
    hide SupplyStep, SupplyOk;
    match e
    case Supplying(se) => SupplyKeeps(o.supply, se, aborted, sid);
    case React => ReadKeeps(o.supply);
  }

  lemma ReadKeeps(s: Supply)
    requires SupplyOk(s) && !s.out.Working?
    ensures SupplyOk(s.(out := Taken))
    ensures s.mode.Factory? && s.out.Returned? ==> s.out.handle.Owned?
  {
  }

  lemma AbortOuterKeeps(o: Outer, unsupported: bool)
    requires OuterOk(o)
    ensures OuterOk(RefuseOuter(o)) && OuterOk(AbortOuter(o, unsupported))
  {
    hide SupplyOk;
    AbortSupplyKeeps(o.supply, unsupported);
  }

  lemma RequestKeeps(r: Request, e: RequestEvent, aborted: bool, sid: Sid)
    requires RequestOk(r) && RequestEnabled(r, e)
    ensures var t := RequestStep(r, e, aborted, sid).to;
      RequestOk(t) && t.aborted == r.aborted && t.attempts == r.attempts
  {
    hide OuterStep, StartOuter, OuterOk;
    match e
    case LoopHead(mode) =>
      StartOk(mode, aborted);
      StartIsOpen(mode, aborted);
    case Outering(i, oe) => OuterKeeps(r.outers[i], oe, aborted, sid);
    case TakeSession => DoneKeeps(r.outers[|r.outers| - 1]);
    case _ =>
  }

  lemma StartIsOpen(mode: Mode, aborted: bool)
    ensures var race := StartOuter(mode, aborted).race; race.Open? || race.Refused?
  {
  }

  lemma DoneKeeps(o: Outer)
    requires OuterOk(o)
    ensures OuterOk(o.(race := Done))
  {
  }

  lemma AbortRequestKeeps(r: Request, unsupported: bool)
    requires RequestOk(r)
    ensures RequestOk(r.(aborted := true, outers := RefuseOuters(r.outers)))
    ensures RequestOk(r.(aborted := true, outers := AbortOuters(r.outers, unsupported)))
  {
    hide OuterOk;
    forall i | 0 <= i < |r.outers|
      ensures OuterOk(RefuseOuter(r.outers[i])) && OuterOk(AbortOuter(r.outers[i], unsupported))
    {
      AbortOuterKeeps(r.outers[i], unsupported);
    }
  }

  lemma ProbeKeeps(p: Probe, e: ProbeEvent, aborted: bool, sid: Sid)
    requires ProbeOk(p) && ProbeEnabled(p, e)
    ensures ProbeOk(ProbeStep(p, e, aborted, sid).to)
  {
    hide SupplyStep, SupplyOk;
    match e
    case Fetching(se) => SupplyKeeps(p.supply, se, aborted, sid);
    case Arrive => ReadKeeps(p.supply);
    case FetchFails => ReadKeeps(p.supply);
    case _ =>
  }

  lemma AbortWorldKeeps(w: World)
    requires WorldOk(w)
    ensures WorldOk(AbortWorld(w))
  {
    hide OuterOk, SupplyOk, RequestOk, AbortSupply, AbortOuters;
    AbortOuterKeeps(w.base, w.unsupported);
    forall i | 0 <= i < |w.probes|
      ensures ProbeOk(AbortProbes(w.probes, w.unsupported)[i])
    {
      AbortSupplyKeeps(w.probes[i].supply, w.unsupported);
      AbortSupplyLeaves(w.probes[i].supply, w.unsupported);
    }
    AbortSupplyLeaves(w.base.supply, w.unsupported);
    forall i | 0 <= i < |w.requests|
      ensures RequestOk(AbortRequests(w.requests, w.unsupported)[i])
    {
      AbortRequestKeeps(w.requests[i], w.unsupported);
    }
  }

  lemma AbortSupplyLeaves(s: Supply, unsupported: bool)
    ensures AbortSupply(s, unsupported).out == s.out && AbortSupply(s, unsupported).mode == s.mode
  {
  }

  lemma TakeBaseKeeps(w: World, mode: Mode)
    requires WorldOk(w) && Enabled(w, TakeBase(mode))
    ensures WorldOk(Step(w, TakeBase(mode)))
  {
    hide SupplyOk, RequestOk, StartSupply;
    StartOk(mode, w.aborted);
    StartIsOut(mode, w.aborted);
  }

  lemma StartIsOut(mode: Mode, aborted: bool)
    ensures !StartSupply(mode, aborted).out.Taken?
  {
  }

  lemma StepKeeps(w: World, e: Event)
    requires WorldOk(w) && Enabled(w, e)
    ensures WorldOk(Step(w, e))
  {
    hide OuterOk, RequestOk, ProbeOk, AbortWorld, OuterStep, RequestStep, ProbeStep, StartProbe;
    match e
    case AbortOwner => AbortWorldKeeps(w);
    case AbortCaller(i) => AbortRequestKeeps(w.requests[i], w.unsupported);
    case Base(oe) => OuterKeeps(w.base, oe, w.aborted, w.next);
    case TakeBase(mode) => TakeBaseKeeps(w, mode);
    case Probing(i, pe) => ProbeKeeps(w.probes[i], pe, w.aborted, w.next);
    case NewRequest(attempts, callerAborted) => NewRequestOk(attempts, callerAborted || w.aborted);
    case Requesting(i, re) => RequestKeeps(w.requests[i], re, w.aborted, w.next);
    case Release => ReleaseKeeps(w);
    case _ =>
  }

  lemma NewRequestOk(attempts: nat, aborted: bool)
    ensures RequestOk(Request(0, attempts, Looping, aborted, [], []))
  {
  }

  lemma ReleaseKeeps(w: World)
    requires WorldOk(w) && Enabled(w, Release)
    ensures WorldOk(Step(w, Release))
  {
    hide OuterOk, RequestOk, ProbeOk, AbortWorld;
    AbortWorldKeeps(w);
    AbortLeaves(w);
  }

  lemma AbortLeaves(w: World)
    ensures var over := AbortWorld(w);
      over.creation == w.creation && over.destroyed == w.destroyed && over.next == w.next && over.aborted
      && (Undecided(over.base) ==> Undecided(w.base))
  {
  }

  // ---------- nothing gets stuck ----------

  lemma {:induction false} NothingIsWon(attempts: seq<Attempt>, x: Sid)
    requires forall i | 0 <= i < |attempts| :: !attempts[i].inner.Won?
    ensures Total(HeldByAttempt, attempts, x) == 0
    decreases |attempts|
  {
    if attempts != [] {
      NothingIsWon(attempts[1..], x);
    }
  }

  lemma TakenHoldsNothing(s: Supply, x: Sid)
    requires SupplyOk(s) && s.out.Taken?
    ensures HeldBySupply(s, x) == 0
  {
    NothingIsWon(s.attempts, x);
  }

  lemma SupplyMoves(s: Supply) returns (e: SupplyEvent)
    requires SupplyOk(s) && s.out.Working?
    ensures SupplyEnabled(s, e)
  {
    if s.mode.Clone? {
      return CloneRejects;
    }
    var last := |s.attempts| - 1;
    return if s.attempts[last].inner.Racing? then CreateRejects(last, false) else Continue;
  }

  /** A session on its way, or one a race still waits for, has a step to take. */
  lemma OuterMoves(o: Outer, x: Sid) returns (e: OuterEvent)
    requires OuterOk(o) && (o.race.Open? || HeldBySupply(o.supply, x) > 0)
    ensures OuterEnabled(o, e)
  {
    if o.supply.out.Taken? {
      TakenHoldsNothing(o.supply, x);
    }
    if o.supply.out.Working? {
      var se := SupplyMoves(o.supply);
      return Supplying(se);
    }
    return React;
  }

  lemma ProbeMoves(p: Probe, x: Sid) returns (e: ProbeEvent)
    requires ProbeOk(p) && (!p.settled || HeldByProbe(p, x) > 0)
    ensures ProbeEnabled(p, e)
  {
    if !p.settled {
      return Timer;
    }
    if p.supply.out.Taken? {
      TakenHoldsNothing(p.supply, x);
    }
    if p.supply.out.Working? {
      var se := SupplyMoves(p.supply);
      return Fetching(se);
    }
    return if p.supply.out.Returned? then Arrive else FetchFails;
  }

  lemma {:induction false} SomePartHolds<T>(held: (T, Sid) -> nat, parts: seq<T>, x: Sid) returns (i: nat)
    requires Total(held, parts, x) > 0
    ensures i < |parts| && held(parts[i], x) > 0
    decreases |parts|
  {
    i := 0;
    if held(parts[0], x) == 0 {
      var j := SomePartHolds(held, parts[1..], x);
      i := j + 1;
    }
  }

  lemma RequestMoves(r: Request, x: Sid) returns (e: RequestEvent)
    requires RequestOk(r) && (!r.status.Finished? || HeldByRequest(r, x) > 0)
    ensures RequestEnabled(r, e)
  {
    if r.status.Looping? {
      return LoopHead(Same);
    }
    if r.status.Prompting? {
      return PromptSettles(false);
    }
    var last := |r.outers| - 1;
    if r.status.Waiting? && !r.outers[last].race.Open? {
      return if r.outers[last].race.Holding? then TakeSession else SeeRefusal;
    }
    var i := last;
    if r.status.Finished? {
      i := SomePartHolds(HeldByOuter, r.outers, x);
    }
    var oe := OuterMoves(r.outers[i], x);
    return Outering(i, oe);
  }
}
