/** How much a model still has to do: a measure that every step of a promise, race or timer
    lowers, so that a model left alone comes to rest. */
module SessionsVariant {
  import opened Sessions
  import opened SessionsShape
  import opened SessionsLaws

  // ---------- the measure ----------

  function Ignoring<T>(weight: T -> nat): (T, Sid) -> nat {
    (part, x) => weight(part)
  }

  function Sum<T>(weight: T -> nat, parts: seq<T>): nat {
    Total(Ignoring(weight), parts, 0)
  }

  function AttemptWeight(a: Attempt): nat {
    (if a.open then 1 else 0) + if a.inner.Racing? then 2 else if a.inner.Read? then 0 else 1
  }

  function OutWeight(out: Out): nat {
    if out.Working? then 2 else if out.Taken? then 0 else 1
  }

  /** Attempts that may still be made count more than any attempt. */
  function SupplyWeight(s: Supply): nat {
    Sum(AttemptWeight, s.attempts) + OutWeight(s.out) + if |s.attempts| < 3 then 4 * (3 - |s.attempts|) else 0
  }

  function OuterWeight(o: Outer): nat {
    SupplyWeight(o.supply)
  }

  function StatusWeight(status: Status): nat {
    match status
    case Looping => 20
    case Waiting => 2
    case Prompting(_) => 1
    case Finished => 0
  }

  function RequestWeight(r: Request): nat {
    Sum(OuterWeight, r.outers) + StatusWeight(r.status)
    + if r.attempt < r.attempts then 20 * (r.attempts - r.attempt) else 0
  }

  function ProbeWeight(p: Probe): nat {
    2 * SupplyWeight(p.supply) + (if p.settled then 0 else 1) + if p.asking then 1 else 0
  }

  function CreationWeight(c: Creation): nat {
    match c
    case Acquiring => 40
    case Detecting(_) => 1
    case _ => 0
  }

  function Weight(w: World): nat {
    OuterWeight(w.base) + CreationWeight(w.creation) + Sum(ProbeWeight, w.probes) + Sum(RequestWeight, w.requests)
  }

  lemma SumUpdate<T>(weight: T -> nat, parts: seq<T>, i: nat, part: T)
    requires i < |parts|
    ensures Sum(weight, parts[i := part]) + weight(parts[i]) == Sum(weight, parts) + weight(part)
  {
    TotalUpdate(Ignoring(weight), parts, i, part, 0);
  }

  lemma SumAppend<T>(weight: T -> nat, parts: seq<T>, part: T)
    ensures Sum(weight, parts + [part]) == Sum(weight, parts) + weight(part)
  {
    TotalAppend(Ignoring(weight), parts, part, 0);
  }

  lemma {:induction false} SumAtMost<T>(weight: T -> nat, parts: seq<T>, others: seq<T>)
    requires |parts| == |others| && forall i | 0 <= i < |parts| :: weight(parts[i]) <= weight(others[i])
    ensures Sum(weight, parts) <= Sum(weight, others)
    decreases |parts|
  {
    if parts != [] {
      SumAtMost(weight, parts[1..], others[1..]);
    }
  }

  // ---------- every step of its own lowers it ----------

  lemma SupplyLowers(s: Supply, e: SupplyEvent, aborted: bool, sid: Sid)
    requires SupplyOk(s) && SupplyEnabled(s, e)
    ensures SupplyWeight(SupplyStep(s, e, aborted, sid).to) < SupplyWeight(s)
  {
    hide Sum;
    match e
    case CreateResolves(k) =>
      SumUpdate(AttemptWeight, s.attempts, k, SupplyStep(s, e, aborted, sid).to.attempts[k]);
    case CreateRejects(k, _) =>
      SumUpdate(AttemptWeight, s.attempts, k, SupplyStep(s, e, aborted, sid).to.attempts[k]);
    case Continue =>
      var last := |s.attempts| - 1;
      var read := ReadAttempt(s.attempts[last]);
      SumUpdate(AttemptWeight, s.attempts, last, read);
      SumAppend(AttemptWeight, s.attempts[last := read], Attempt(true, Racing));
    case _ =>
  }

  lemma StartWeighs(mode: Mode, aborted: bool)
    ensures OuterWeight(StartOuter(mode, aborted)) <= 14
    ensures ProbeWeight(StartProbe(mode, aborted)) <= 29
  {
    SumAppend(AttemptWeight, [], Attempt(true, Racing));
    assert [] + [Attempt(true, Racing)] == [Attempt(true, Racing)];
  }

  lemma OuterLowers(o: Outer, e: OuterEvent, aborted: bool, sid: Sid)
    requires OuterOk(o) && OuterEnabled(o, e)
    ensures OuterWeight(OuterStep(o, e, aborted, sid).to) < OuterWeight(o)
  {
    hide Sum, SupplyOk, SupplyStep;
    match e
    case Supplying(se) => SupplyLowers(o.supply, se, aborted, sid);
    case React =>
  }

  lemma RequestLowers(r: Request, e: RequestEvent, aborted: bool, sid: Sid)
    requires RequestOk(r) && RequestEnabled(r, e)
    ensures RequestWeight(RequestStep(r, e, aborted, sid).to) < RequestWeight(r)
  {
    hide Sum, OuterOk, OuterStep, OuterWeight, StartOuter;
    match e
    case LoopHead(mode) =>
      StartWeighs(mode, aborted);
      SumAppend(OuterWeight, r.outers, StartOuter(mode, aborted));
    case Outering(i, oe) =>
      OuterLowers(r.outers[i], oe, aborted, sid);
      SumUpdate(OuterWeight, r.outers, i, OuterStep(r.outers[i], oe, aborted, sid).to);
    case TakeSession =>
      var last := |r.outers| - 1;
      TakenWeighs(r.outers[last]);
      SumUpdate(OuterWeight, r.outers, last, r.outers[last].(race := Done));
    case _ =>
  }

  lemma TakenWeighs(o: Outer)
    ensures OuterWeight(o.(race := Done)) == OuterWeight(o)
  {
  }

  lemma ProbeLowers(p: Probe, e: ProbeEvent, aborted: bool, sid: Sid)
    requires ProbeOk(p) && ProbeEnabled(p, e)
    ensures ProbeWeight(ProbeStep(p, e, aborted, sid).to) < ProbeWeight(p)
  {
    hide Sum, SupplyOk, SupplyStep;
    match e
    case Fetching(se) => SupplyLowers(p.supply, se, aborted, sid);
    case _ =>
  }

  /** Events that come from outside, and may never come. */
  predicate FromOutside(e: Event) {
    e.AbortOwner? || e.AbortCaller? || e.NewRequest? || e.Release?
  }

  lemma TakeBaseLowers(w: World, mode: Mode)
    requires Enabled(w, TakeBase(mode))
    ensures Weight(Step(w, TakeBase(mode))) < Weight(w)
  {
    hide Sum, ProbeWeight, StartProbe;
    StartWeighs(mode, w.aborted);
    SumAppend(ProbeWeight, w.probes, StartProbe(mode, w.aborted));
  }

  /** Whatever does not come from outside brings the model closer to rest. */
  lemma StepLowers(w: World, e: Event)
    requires WorldOk(w) && Enabled(w, e) && !FromOutside(e)
    ensures Weight(Step(w, e)) < Weight(w)
  {
    hide Sum, OuterOk, RequestOk, ProbeOk, OuterWeight, ProbeWeight, RequestWeight, OuterStep, ProbeStep, RequestStep;
    match e
    case Base(oe) => OuterLowers(w.base, oe, w.aborted, w.next);
    case TakeBase(mode) => TakeBaseLowers(w, mode);
    case Probing(i, pe) =>
      ProbeLowers(w.probes[i], pe, w.aborted, w.next);
      SumUpdate(ProbeWeight, w.probes, i, ProbeStep(w.probes[i], pe, w.aborted, w.next).to);
    case Requesting(i, re) =>
      RequestLowers(w.requests[i], re, w.aborted, w.next);
      SumUpdate(RequestWeight, w.requests, i, RequestStep(w.requests[i], re, w.aborted, w.next).to);
    case _ =>
  }

  // ---------- only a new request adds to it ----------

  lemma AbortSupplyWeighs(s: Supply, unsupported: bool)
    ensures SupplyWeight(AbortSupply(s, unsupported)) <= SupplyWeight(s)
  {
    hide Sum;
    SumAtMost(AttemptWeight, AbortAttempts(s.attempts, unsupported), s.attempts);
  }

  lemma AbortRequestWeighs(r: Request, unsupported: bool)
    ensures RequestWeight(r.(aborted := true, outers := AbortOuters(r.outers, unsupported))) <= RequestWeight(r)
    ensures RequestWeight(r.(aborted := true, outers := RefuseOuters(r.outers))) <= RequestWeight(r)
  {
    hide Sum, SupplyWeight;
    forall i | 0 <= i < |r.outers|
      ensures OuterWeight(AbortOuter(r.outers[i], unsupported)) <= OuterWeight(r.outers[i])
    {
      AbortSupplyWeighs(r.outers[i].supply, unsupported);
    }
    SumAtMost(OuterWeight, AbortOuters(r.outers, unsupported), r.outers);
    SumAtMost(OuterWeight, RefuseOuters(r.outers), r.outers);
  }

  lemma AbortWeighs(w: World)
    ensures Weight(AbortWorld(w)) <= Weight(w)
  {
    hide Sum, SupplyWeight, RequestWeight, AbortOuters, AbortSupply;
    AbortSupplyWeighs(w.base.supply, w.unsupported);
    forall i | 0 <= i < |w.probes|
      ensures ProbeWeight(AbortProbes(w.probes, w.unsupported)[i]) <= ProbeWeight(w.probes[i])
    {
      AbortSupplyWeighs(w.probes[i].supply, w.unsupported);
    }
    SumAtMost(ProbeWeight, AbortProbes(w.probes, w.unsupported), w.probes);
    forall i | 0 <= i < |w.requests|
      ensures RequestWeight(AbortRequests(w.requests, w.unsupported)[i]) <= RequestWeight(w.requests[i])
    {
      AbortRequestWeighs(w.requests[i], w.unsupported);
    }
    SumAtMost(RequestWeight, AbortRequests(w.requests, w.unsupported), w.requests);
  }

  /** Of what comes from outside, only a new request gives the model more to do, by an amount
      its attempts bound. */
  lemma OutsideWeighs(w: World, e: Event)
    requires Enabled(w, e) && FromOutside(e)
    ensures Weight(Step(w, e)) <= Weight(w) + if e.NewRequest? then 20 + 20 * e.attempts else 0
  {
    hide Sum, OuterWeight, ProbeWeight, RefuseOuters, AbortWorld;
    match e
    case AbortOwner => AbortWeighs(w);
    case AbortCaller(i) =>
      hide RequestWeight;
      var r := w.requests[i];
      AbortRequestWeighs(r, w.unsupported);
      SumUpdate(RequestWeight, w.requests, i, r.(aborted := true, outers := RefuseOuters(r.outers)));
    case NewRequest(attempts, callerAborted) =>
      var r := Request(0, attempts, Looping, callerAborted || w.aborted, [], []);
      assert Sum(OuterWeight, []) == 0 by { NothingWeighs(); }
      SumAppend(RequestWeight, w.requests, r);
    case Release =>
      AbortWeighs(w);
      AbortKeepsCreation(w);
    case _ =>
  }

  lemma NothingWeighs()
    ensures Sum(OuterWeight, []) == 0
  {
  }

  lemma AbortKeepsCreation(w: World)
    ensures AbortWorld(w).creation == w.creation
  {
  }
}
