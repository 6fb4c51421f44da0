/** Ownership over every run: each session is held by exactly one owner or has been destroyed
    exactly once. */
module SessionsLaws {
  import opened Sessions
  import opened SessionsShape

  // ---------- sums over parts ----------

  lemma {:induction false} TotalUpdate<T>(held: (T, Sid) -> nat, parts: seq<T>, i: nat, part: T, x: Sid)
    requires i < |parts|
    ensures Total(held, parts[i := part], x) + held(parts[i], x) == Total(held, parts, x) + held(part, x)
    decreases |parts|
  {
    var updated := parts[i := part];
    if i == 0 {
      assert updated[1..] == parts[1..];
    } else {
      assert updated[1..] == parts[1..][i - 1 := part];
      TotalUpdate(held, parts[1..], i - 1, part, x);
    }
  }

  lemma {:induction false} TotalAppend<T>(held: (T, Sid) -> nat, parts: seq<T>, part: T, x: Sid)
    ensures Total(held, parts + [part], x) == Total(held, parts, x) + held(part, x)
    decreases |parts|
  {
    if parts == [] {
      assert parts + [part] == [part];
      assert [part][1..] == [];
    } else {
      assert (parts + [part])[1..] == parts[1..] + [part];
      TotalAppend(held, parts[1..], part, x);
    }
  }

  lemma {:induction false} TotalSame<T>(held: (T, Sid) -> nat, parts: seq<T>, others: seq<T>, x: Sid)
    requires |parts| == |others| && forall i | 0 <= i < |parts| :: held(parts[i], x) == held(others[i], x)
    ensures Total(held, parts, x) == Total(held, others, x)
    decreases |parts|
  {
    if parts != [] {
      TotalSame(held, parts[1..], others[1..], x);
    }
  }

  // ---------- every step conserves ----------

  /** What a step adds to the account of `x`. */
  function Born<T>(m: Move<T>, sid: Sid, x: Sid): nat {
    if m.born && x == sid then 1 else 0
  }

  lemma AttemptChange(s: Supply, k: nat, a: Attempt, x: Sid)
    requires k < |s.attempts|
    ensures HeldBySupply(s.(attempts := s.attempts[k := a]), x) + HeldByAttempt(s.attempts[k], x)
         == HeldBySupply(s, x) + HeldByAttempt(a, x)
  {
    hide Total, HeldByAttempt;
    TotalUpdate(HeldByAttempt, s.attempts, k, a, x);
  }

  /** Nothing appears or vanishes: `x` is afterwards held or destroyed as often as it was held
      or came into being. A session the factory delivers is destroyed by that very step exactly
      when its attempt no longer waits for it, and no other step destroys one. */
  lemma SupplyConserves(s: Supply, e: SupplyEvent, aborted: bool, sid: Sid, x: Sid)
    requires SupplyEnabled(s, e)
    ensures var m := SupplyStep(s, e, aborted, sid);
      HeldBySupply(m.to, x) + Held(m.destroyed, x) == HeldBySupply(s, x) + Born(m, sid, x)
    ensures var m := SupplyStep(s, e, aborted, sid);
      m.destroyed == (if e.CreateResolves? && !s.attempts[e.k].inner.Racing? then Owned(sid) else Shared)
  {
    hide Total;
    match e
    case CreateResolves(k) =>
      AttemptChange(s, k, SupplyStep(s, e, aborted, sid).to.attempts[k], x);
    case CreateRejects(k, _) =>
      AttemptChange(s, k, SupplyStep(s, e, aborted, sid).to.attempts[k], x);
    case Continue =>
      var last := |s.attempts| - 1;
      var read := ReadAttempt(s.attempts[last]);
      TotalUpdate(HeldByAttempt, s.attempts, last, read, x);
      TotalAppend(HeldByAttempt, s.attempts[last := read], Attempt(true, Racing), x);
    case _ =>
  }

  lemma AbortSupplyHolds(s: Supply, unsupported: bool, x: Sid)
    ensures HeldBySupply(AbortSupply(s, unsupported), x) == HeldBySupply(s, x)
  {
    hide Total;
    TotalSame(HeldByAttempt, s.attempts, AbortAttempts(s.attempts, unsupported), x);
  }

  lemma StartHolds(mode: Mode, aborted: bool, x: Sid)
    ensures HeldBySupply(StartSupply(mode, aborted), x) == 0
    ensures HeldByOuter(StartOuter(mode, aborted), x) == 0
  {
    TotalAppend(HeldByAttempt, [], Attempt(true, Racing), x);
    assert [] + [Attempt(true, Racing)] == [Attempt(true, Racing)];
  }

  lemma OuterConserves(o: Outer, e: OuterEvent, aborted: bool, sid: Sid, x: Sid)
    requires OuterEnabled(o, e)
    ensures var m := OuterStep(o, e, aborted, sid);
      HeldByOuter(m.to, x) + Held(m.destroyed, x) == HeldByOuter(o, x) + Born(m, sid, x)
  {
    hide Total, SupplyStep;
    match e
    case Supplying(se) => SupplyConserves(o.supply, se, aborted, sid, x);
    case React =>
  }

  lemma AbortOuterHolds(o: Outer, unsupported: bool, x: Sid)
    ensures HeldByOuter(RefuseOuter(o), x) == HeldByOuter(o, x)
    ensures HeldByOuter(AbortOuter(o, unsupported), x) == HeldByOuter(o, x)
  {
    hide HeldBySupply;
    AbortSupplyHolds(o.supply, unsupported, x);
  }

  lemma RequestConserves(r: Request, e: RequestEvent, aborted: bool, sid: Sid, x: Sid)
    requires RequestEnabled(r, e)
    ensures var m := RequestStep(r, e, aborted, sid);
      HeldByRequest(m.to, x) + Held(m.destroyed, x) == HeldByRequest(r, x) + Born(m, sid, x)
  {
    hide Total, OuterStep, StartOuter, HeldBySupply;
    match e
    case LoopHead(mode) =>
      StartHolds(mode, aborted, x);
      TotalAppend(HeldByOuter, r.outers, StartOuter(mode, aborted), x);
    case Outering(i, oe) =>
      OuterConserves(r.outers[i], oe, aborted, sid, x);
      TotalUpdate(HeldByOuter, r.outers, i, OuterStep(r.outers[i], oe, aborted, sid).to, x);
    case TakeSession =>
      var last := |r.outers| - 1;
      TotalUpdate(HeldByOuter, r.outers, last, r.outers[last].(race := Done), x);
    case _ =>
  }

  lemma AbortRequestHolds(r: Request, unsupported: bool, x: Sid)
    ensures HeldByRequest(r.(aborted := true, outers := AbortOuters(r.outers, unsupported)), x) == HeldByRequest(r, x)
    ensures HeldByRequest(r.(aborted := true, outers := RefuseOuters(r.outers)), x) == HeldByRequest(r, x)
  {
    hide Total, HeldByOuter, AbortOuter, RefuseOuter;
    forall i | 0 <= i < |r.outers|
      ensures HeldByOuter(AbortOuter(r.outers[i], unsupported), x) == HeldByOuter(r.outers[i], x)
      ensures HeldByOuter(RefuseOuter(r.outers[i]), x) == HeldByOuter(r.outers[i], x)
    {
      AbortOuterHolds(r.outers[i], unsupported, x);
    }
    TotalSame(HeldByOuter, r.outers, AbortOuters(r.outers, unsupported), x);
    TotalSame(HeldByOuter, r.outers, RefuseOuters(r.outers), x);
  }

  lemma ProbeConserves(p: Probe, e: ProbeEvent, aborted: bool, sid: Sid, x: Sid)
    requires ProbeOk(p) && ProbeEnabled(p, e)
    ensures var m := ProbeStep(p, e, aborted, sid);
      HeldByProbe(m.to, x) + Held(m.destroyed, x) == HeldByProbe(p, x) + Born(m, sid, x)
  {
    hide Total, SupplyOk;
    match e
    case Fetching(se) => SupplyConserves(p.supply, se, aborted, sid, x);
    case _ =>
  }

  lemma AbortProbeHolds(p: Probe, unsupported: bool, x: Sid)
    ensures HeldByProbe(p.(supply := AbortSupply(p.supply, unsupported)), x) == HeldByProbe(p, x)
  {
    hide HeldBySupply;
    AbortSupplyHolds(p.supply, unsupported, x);
  }

  // ---------- a session is prompted at most once ----------

  /** A prompted session is one being prompted, or has been destroyed. */
  lemma RequestPrompts(r: Request, e: RequestEvent, aborted: bool, sid: Sid, x: Sid)
    requires RequestEnabled(r, e)
    ensures var m := RequestStep(r, e, aborted, sid);
      Prompted(m.to, x) + PromptedNow(r, x) <= Prompted(r, x) + PromptedNow(m.to, x) + Held(m.destroyed, x)
  {
    hide OuterStep, StartOuter;
    if e.TakeSession? && !r.aborted {
      TotalAppend(Held, r.prompted, r.outers[|r.outers| - 1].race.handle, x);
    }
  }

  // ---------- the whole ----------

  /** The account of session `x`. */
  predicate Accounted(w: World, x: Sid) {
    && HeldByWorld(w, x) + w.destroyed[x] == (if x < w.next then 1 else 0)
    && Total(Prompted, w.requests, x) <= Total(PromptedNow, w.requests, x) + w.destroyed[x]
  }

  lemma AbortBalances(w: World, x: Sid)
    ensures HeldByWorld(AbortWorld(w), x) == HeldByWorld(w, x)
    ensures Total(Prompted, AbortWorld(w).requests, x) == Total(Prompted, w.requests, x)
    ensures Total(PromptedNow, AbortWorld(w).requests, x) == Total(PromptedNow, w.requests, x)
  {
    hide Total, HeldByOuter, HeldByRequest, HeldByProbe, AbortOuter, AbortOuters, AbortSupply;
    AbortOuterHolds(w.base, w.unsupported, x);
    forall i | 0 <= i < |w.probes|
      ensures HeldByProbe(AbortProbes(w.probes, w.unsupported)[i], x) == HeldByProbe(w.probes[i], x)
    {
      AbortProbeHolds(w.probes[i], w.unsupported, x);
    }
    TotalSame(HeldByProbe, AbortProbes(w.probes, w.unsupported), w.probes, x);
    var requests := AbortRequests(w.requests, w.unsupported);
    forall i | 0 <= i < |w.requests|
      ensures HeldByRequest(requests[i], x) == HeldByRequest(w.requests[i], x)
    {
      AbortRequestHolds(w.requests[i], w.unsupported, x);
    }
    TotalSame(HeldByRequest, requests, w.requests, x);
    TotalSame(Prompted, requests, w.requests, x);
    TotalSame(PromptedNow, requests, w.requests, x);
  }

  lemma RequestingBalances(w: World, i: nat, re: RequestEvent, x: Sid)
    requires Accounted(w, x) && Enabled(w, Requesting(i, re))
    ensures Accounted(Step(w, Requesting(i, re)), x)
  {
    hide Total, HeldByOuter, HeldByRequest, RequestStep, Prompted, PromptedNow;
    var r := RequestStep(w.requests[i], re, w.aborted, w.next).to;
    RequestConserves(w.requests[i], re, w.aborted, w.next, x);
    RequestPrompts(w.requests[i], re, w.aborted, w.next, x);
    TotalUpdate(HeldByRequest, w.requests, i, r, x);
    TotalUpdate(Prompted, w.requests, i, r, x);
    TotalUpdate(PromptedNow, w.requests, i, r, x);
  }

  lemma CallerBalances(w: World, i: nat, x: Sid)
    requires Accounted(w, x) && Enabled(w, AbortCaller(i))
    ensures Accounted(Step(w, AbortCaller(i)), x)
  {
    hide Total, HeldByOuter, HeldByRequest, RefuseOuters;
    var r := w.requests[i];
    var refused := r.(aborted := true, outers := RefuseOuters(r.outers));
    AbortRequestHolds(r, w.unsupported, x);
    TotalUpdate(HeldByRequest, w.requests, i, refused, x);
    TotalUpdate(Prompted, w.requests, i, refused, x);
    TotalUpdate(PromptedNow, w.requests, i, refused, x);
  }

  lemma NewRequestBalances(w: World, attempts: nat, callerAborted: bool, x: Sid)
    requires Accounted(w, x)
    ensures Accounted(Step(w, NewRequest(attempts, callerAborted)), x)
  {
    hide HeldByOuter, HeldBySupply, HeldByProbe, StartOuter;
    var r := Request(0, attempts, Looping, callerAborted || w.aborted, [], []);
    TotalAppend(HeldByRequest, w.requests, r, x);
    TotalAppend(Prompted, w.requests, r, x);
    TotalAppend(PromptedNow, w.requests, r, x);
  }

  lemma ProbingBalances(w: World, i: nat, pe: ProbeEvent, x: Sid)
    requires Accounted(w, x) && WorldOk(w) && Enabled(w, Probing(i, pe))
    ensures Accounted(Step(w, Probing(i, pe)), x)
  {
    hide Total, HeldByOuter, HeldByProbe, ProbeStep;
    ProbeConserves(w.probes[i], pe, w.aborted, w.next, x);
    TotalUpdate(HeldByProbe, w.probes, i, ProbeStep(w.probes[i], pe, w.aborted, w.next).to, x);
  }

  lemma TakeBaseBalances(w: World, mode: Mode, x: Sid)
    requires Accounted(w, x) && Enabled(w, TakeBase(mode))
    ensures Accounted(Step(w, TakeBase(mode)), x)
  {
    hide Total, HeldBySupply, StartSupply;
    StartHolds(mode, w.aborted, x);
    TotalAppend(HeldByProbe, w.probes, StartProbe(mode, w.aborted), x);
  }

  lemma BaseBalances(w: World, oe: OuterEvent, x: Sid)
    requires Accounted(w, x) && Enabled(w, Base(oe))
    ensures Accounted(Step(w, Base(oe)), x)
  {
    hide Total, HeldByOuter, OuterStep;
    OuterConserves(w.base, oe, w.aborted, w.next, x);
  }

  lemma StepBalances(w: World, e: Event, x: Sid)
    requires Accounted(w, x) && WorldOk(w) && Enabled(w, e)
    ensures Accounted(Step(w, e), x)
  {
    hide Total, HeldByOuter, AbortWorld, WorldOk;
    match e
    case AbortOwner =>
      AbortBalances(w, x);
      AbortLeaves(w);
    case AbortCaller(i) => CallerBalances(w, i, x);
    case Base(oe) => BaseBalances(w, oe, x);
    case TakeBase(mode) => TakeBaseBalances(w, mode, x);
    case BaseRefused =>
    case Detected =>
    case DetectionAborted =>
    case Probing(i, pe) => ProbingBalances(w, i, pe, x);
    case NewRequest(attempts, callerAborted) => NewRequestBalances(w, attempts, callerAborted, x);
    case Requesting(i, re) => RequestingBalances(w, i, re, x);
    case Release =>
      AbortBalances(w, x);
      AbortLeaves(w);
  }
}
