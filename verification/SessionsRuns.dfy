/** What holds over every run of a model, in every interleaving of promises settling, aborts and
    timers. */
module SessionsRuns {
  import opened Sessions
  import opened SessionsShape
  import opened SessionsLaws
  import opened SessionsVariant

  // ---------- exactly once ----------

  /** In every reachable state each session that came into being is held by exactly one owner or
      has been destroyed exactly once, never both and never twice, and it has been prompted at
      most once. */
  lemma {:induction false} ExactlyOnce(interactive: bool, unsupported: bool, early: bool, events: seq<Event>, x: Sid)
    requires Possible(interactive, unsupported, early, events)
    ensures var w := After(interactive, unsupported, early, events);
      && WorldOk(w) && Accounted(w, x)
      && (x < w.next ==> w.destroyed[x] == 1 - HeldByWorld(w, x))
      && (x >= w.next ==> w.destroyed[x] == HeldByWorld(w, x) == 0)
      && Total(Prompted, w.requests, x) <= 1
    decreases |events|
  {
    hide Step;
    if events == [] {
      BegunOk(interactive, unsupported, early, x);
    } else {
      var before := events[..|events| - 1];
      ExactlyOnce(interactive, unsupported, early, before, x);
      StepKeeps(After(interactive, unsupported, early, before), events[|events| - 1]);
      StepBalances(After(interactive, unsupported, early, before), events[|events| - 1], x);
    }
    PromptedIsHeld(After(interactive, unsupported, early, events).requests, x);
  }

  lemma BegunOk(interactive: bool, unsupported: bool, early: bool, x: Sid)
    ensures WorldOk(Begun(interactive, unsupported, early)) && Accounted(Begun(interactive, unsupported, early), x)
  {
    StartOk(Factory, early);
    StartHolds(Factory, early, x);
  }

  lemma {:induction false} PromptedIsHeld(requests: seq<Request>, x: Sid)
    ensures Total(PromptedNow, requests, x) <= Total(HeldByRequest, requests, x)
    decreases |requests|
  {
    hide HeldByOuter;
    if requests != [] {
      PromptedIsHeld(requests[1..], x);
    }
  }

  // ---------- the base ----------

  predicate IsBase(w: World, x: Sid) {
    w.creation == Detecting(x) || w.creation == HandedOut(x)
  }

  /** The base is alive while the model is being made or is in its owner's hands; no request and
      no probe destroys it; an abort during detection and the owner's release destroy it once. */
  lemma BaseOutlivesRequests(interactive: bool, unsupported: bool, early: bool, events: seq<Event>, e: Event, base: Sid)
    requires Possible(interactive, unsupported, early, events)
    requires IsBase(After(interactive, unsupported, early, events), base)
    requires Enabled(After(interactive, unsupported, early, events), e)
    ensures var w := After(interactive, unsupported, early, events);
      && w.destroyed[base] == 0
      && (if e.Release? || e.DetectionAborted? then Step(w, e).destroyed[base] == 1
          else IsBase(Step(w, e), base) && Step(w, e).destroyed[base] == 0)
  {
    hide HeldByOuter, HeldByProbe, HeldByRequest, Total, OuterStep, ProbeStep, RequestStep;
    var w := After(interactive, unsupported, early, events);
    ExactlyOnce(interactive, unsupported, early, events, base);
    StepBalances(w, e, base);
    AbortLeaves(w);
  }

  /** What has been destroyed once stays destroyed, and is not destroyed again. */
  lemma {:induction false} DestroyedForGood(interactive: bool, unsupported: bool, early: bool,
      events: seq<Event>, more: seq<Event>, x: Sid)
    requires Possible(interactive, unsupported, early, events + more)
    ensures Possible(interactive, unsupported, early, events)
    ensures After(interactive, unsupported, early, events).destroyed[x] == 1 ==>
      After(interactive, unsupported, early, events + more).destroyed[x] == 1
    decreases |more|
  {
    hide Step;
    if more == [] {
      assert events + more == events;
    } else {
      var before := more[..|more| - 1];
      assert (events + more)[..|events + more| - 1] == events + before;
      DestroyedForGood(interactive, unsupported, early, events, before, x);
      StepDestroys(After(interactive, unsupported, early, events + before), more[|more| - 1], x);
      ExactlyOnce(interactive, unsupported, early, events + more, x);
    }
  }

  lemma StepDestroys(w: World, e: Event, x: Sid)
    requires Enabled(w, e)
    ensures w.destroyed[x] <= Step(w, e).destroyed[x]
  {
    hide OuterStep, ProbeStep, RequestStep;
    AbortLeaves(w);
  }

  // ---------- nothing leaks ----------

  /** No promise, race or timer can take a step. */
  ghost predicate Quiet(w: World) {
    forall e :: Enabled(w, e) ==> FromOutside(e)
  }

  /** What is still to be done: the creation, a request, or a session `x` held by anybody but
      the owner of the base. */
  predicate Pending(w: World, x: Sid) {
    || w.creation.Acquiring? || w.creation.Detecting?
    || HeldByOuter(w.base, x) > 0
    || Total(HeldByProbe, w.probes, x) > 0
    || Total(HeldByRequest, w.requests, x) > 0
    || exists r | r in w.requests :: !r.status.Finished?
  }

  lemma CreationMoves(w: World) returns (e: Event)
    requires WorldOk(w) && (w.creation.Acquiring? || w.creation.Detecting?)
    ensures Enabled(w, e) && !FromOutside(e)
  {
    hide SupplyOk, RequestOk;
    if w.creation.Detecting? {
      assert w.probes[0] in w.probes;
      return if w.probes[0].settled then Detected else Probing(0, Timer);
    }
    if w.base.race.Open? {
      var oe := OuterMoves(w.base, 0);
      return Base(oe);
    }
    return if w.base.race.Holding? then TakeBase(Clone) else BaseRefused;
  }

  lemma RequestsMove(w: World, x: Sid) returns (e: Event)
    requires WorldOk(w)
    requires Total(HeldByRequest, w.requests, x) > 0 || exists r | r in w.requests :: !r.status.Finished?
    ensures Enabled(w, e) && !FromOutside(e)
  {
    hide RequestOk, OuterOk, SupplyOk, HeldByRequest, RequestEnabled, Total;
    var i: nat;
    if Total(HeldByRequest, w.requests, x) > 0 {
      i := SomePartHolds(HeldByRequest, w.requests, x);
    } else {
      i :| i < |w.requests| && !w.requests[i].status.Finished?;
    }
    var re := RequestMoves(w.requests[i], x);
    return Requesting(i, re);
  }

  /** What is pending has a step of its own to take, and the step brings it closer to rest. */
  lemma PendingMoves(w: World, x: Sid) returns (e: Event)
    requires WorldOk(w) && Pending(w, x)
    ensures Enabled(w, e) && !FromOutside(e) && Weight(Step(w, e)) < Weight(w)
  {
    hide RequestOk, SupplyOk, HeldBySupply, HeldByProbe, HeldByRequest, Total, Weight, Step;
    if w.creation.Acquiring? || w.creation.Detecting? {
      e := CreationMoves(w);
    } else if HeldByOuter(w.base, x) > 0 {
      var oe := OuterMoves(w.base, x);
      e := Base(oe);
    } else if Total(HeldByProbe, w.probes, x) > 0 {
      var i := SomePartHolds(HeldByProbe, w.probes, x);
      var pe := ProbeMoves(w.probes[i], x);
      e := Probing(i, pe);
    } else {
      e := RequestsMove(w, x);
    }
    StepLowers(w, e);
  }

  /** Nothing gets stuck and nothing leaks: when no promise, race or timer can take a step any
      more, the creation has ended, every request has finished, and every session but a base in
      its owner's hands has been destroyed exactly once. */
  lemma QuietIsClean(interactive: bool, unsupported: bool, early: bool, events: seq<Event>, x: Sid)
    requires Possible(interactive, unsupported, early, events)
    requires Quiet(After(interactive, unsupported, early, events))
    ensures var w := After(interactive, unsupported, early, events);
      && (w.creation.HandedOut? || w.creation.Closed?)
      && (forall i | 0 <= i < |w.requests| :: w.requests[i].status.Finished?)
      && (x < w.next ==> w.destroyed[x] == if w.creation == HandedOut(x) then 0 else 1)
  {
    hide HeldByOuter, HeldByProbe, HeldByRequest, Total, Enabled, WorldOk;
    var w := After(interactive, unsupported, early, events);
    ExactlyOnce(interactive, unsupported, early, events, x);
    if Pending(w, x) {
      var e := PendingMoves(w, x);
    }
  }

  // ---------- every run comes to rest ----------

  lemma RunSnoc(interactive: bool, unsupported: bool, early: bool, events: seq<Event>, e: Event)
    requires Possible(interactive, unsupported, early, events) && Enabled(After(interactive, unsupported, early, events), e)
    ensures Possible(interactive, unsupported, early, events + [e])
    ensures After(interactive, unsupported, early, events + [e]) == Step(After(interactive, unsupported, early, events), e)
  {
    hide Step, Enabled;
    assert (events + [e])[..|events|] == events;
  }

  /** From every reachable state the model's own steps lead to rest, and there are no more of
      them than its weight. */
  lemma {:induction false} ComesToRest(interactive: bool, unsupported: bool, early: bool, events: seq<Event>) returns (more: seq<Event>)
    requires Possible(interactive, unsupported, early, events)
    ensures Possible(interactive, unsupported, early, events + more)
    ensures forall e | e in more :: !FromOutside(e)
    ensures |more| <= Weight(After(interactive, unsupported, early, events))
    ensures Quiet(After(interactive, unsupported, early, events + more))
    decreases Weight(After(interactive, unsupported, early, events))
  {
    hide Step, Enabled, Weight, WorldOk, Accounted, HeldByWorld, Total;
    var w := After(interactive, unsupported, early, events);
    if Quiet(w) {
      more := [];
      assert events + [] == events;
    } else {
      var e :| Enabled(w, e) && !FromOutside(e);
      ExactlyOnce(interactive, unsupported, early, events, 0);
      StepLowers(w, e);
      RunSnoc(interactive, unsupported, early, events, e);
      var rest := ComesToRest(interactive, unsupported, early, events + [e]);
      more := [e] + rest;
      assert events + more == (events + [e]) + rest;
    }
  }

  /** The steps of a run that did not come from outside. */
  function OwnSteps(events: seq<Event>): nat {
    if events == [] then 0
    else OwnSteps(events[..|events| - 1]) + if FromOutside(events[|events| - 1]) then 0 else 1
  }

  /** What a run may take: a fixed amount for the creation, and for each request an amount
      proportional to its attempts. */
  function Budget(events: seq<Event>): nat {
    if events == [] then 54
    else
      var e := events[|events| - 1];
      Budget(events[..|events| - 1]) + if e.NewRequest? then 20 + 20 * e.attempts else 0
  }

  /** Over every run, in every order of events, the model's own steps are bounded by what was
      asked of it: no promise, race, retry or timer repeats for ever. */
  lemma {:induction false} OwnStepsAreBounded(interactive: bool, unsupported: bool, early: bool, events: seq<Event>)
    requires Possible(interactive, unsupported, early, events)
    ensures OwnSteps(events) + Weight(After(interactive, unsupported, early, events)) <= Budget(events)
    decreases |events|
  {
    hide Step, Enabled, Weight, WorldOk, Accounted, HeldByWorld, Total;
    if events == [] {
      BegunWeighs(interactive, unsupported, early);
    } else {
      var before, e := events[..|events| - 1], events[|events| - 1];
      OwnStepsAreBounded(interactive, unsupported, early, before);
      ExactlyOnce(interactive, unsupported, early, before, 0);
      if FromOutside(e) {
        OutsideWeighs(After(interactive, unsupported, early, before), e);
      } else {
        StepLowers(After(interactive, unsupported, early, before), e);
      }
    }
  }

  lemma BegunWeighs(interactive: bool, unsupported: bool, early: bool)
    ensures Weight(Begun(interactive, unsupported, early)) <= 54
  {
    hide OuterWeight;
    StartWeighs(Factory, early);
  }

  // ---------- bounds ----------

  /** The factory is called at most three times, and again only after an unsupported option. */
  predicate Laddered(s: Supply) {
    && |s.attempts| <= 3
    && forall i | 0 <= i < |s.attempts| - 1 :: s.attempts[i].inner == Read(true)
  }

  /** A request acquires a session at most once per attempt and prompts at most what it
      acquired; an aborted owner has aborted every request; and every acquisition, of the base
      or for a request, keeps to the fallback ladder. */
  lemma AttemptsAreBounded(interactive: bool, unsupported: bool, early: bool, events: seq<Event>, i: nat)
    requires Possible(interactive, unsupported, early, events)
    requires i < |After(interactive, unsupported, early, events).requests|
    ensures var w := After(interactive, unsupported, early, events); var r := w.requests[i];
      && |r.prompted| <= |r.outers| <= r.attempts && (w.aborted ==> r.aborted)
      && Laddered(w.base.supply) && forall j | 0 <= j < |r.outers| :: Laddered(r.outers[j].supply)
  {
    ExactlyOnce(interactive, unsupported, early, events, 0);
  }

  // ---------- no create after an abort ----------

  /** No acquisition of the second request has called the factory more often than in the first. */
  predicate SameCreates(r: Request, t: Request) {
    && |t.outers| == |r.outers|
    && forall i | 0 <= i < |r.outers| :: |t.outers[i].supply.attempts| == |r.outers[i].supply.attempts|
  }

  /** From `w` to `v` the factory was not called: no call was added to what there was, and what
      is new has made none. */
  predicate NoCreates(w: World, v: World) {
    && v.aborted
    && |v.base.supply.attempts| == |w.base.supply.attempts|
    && |w.probes| <= |v.probes| && |w.requests| <= |v.requests|
    && (forall i | 0 <= i < |w.probes| :: |v.probes[i].supply.attempts| == |w.probes[i].supply.attempts|)
    && (forall i | |w.probes| <= i < |v.probes| :: v.probes[i].supply.attempts == [])
    && (forall i | 0 <= i < |w.requests| :: SameCreates(w.requests[i], v.requests[i]))
    && (forall i | |w.requests| <= i < |v.requests| :: v.requests[i].outers == [])
  }

  lemma AbortedSupply(s: Supply, e: SupplyEvent, sid: Sid)
    requires SupplyEnabled(s, e)
    ensures |SupplyStep(s, e, true, sid).to.attempts| == |s.attempts|
  {
  }

  lemma AbortedRequest(r: Request, e: RequestEvent, sid: Sid)
    requires RequestEnabled(r, e) && r.aborted
    ensures SameCreates(r, RequestStep(r, e, true, sid).to)
  {
    hide SupplyStep;
    if e.Outering? && e.oe.Supplying? {
      AbortedSupply(r.outers[e.i].supply, e.oe.e, sid);
    }
  }

  lemma AbortedProbe(p: Probe, e: ProbeEvent, sid: Sid)
    requires ProbeEnabled(p, e)
    ensures |ProbeStep(p, e, true, sid).to.supply.attempts| == |p.supply.attempts|
  {
    hide SupplyStep;
    if e.Fetching? {
      AbortedSupply(p.supply, e.e, sid);
    }
  }

  lemma AbortedOuter(o: Outer, e: OuterEvent, sid: Sid)
    requires OuterEnabled(o, e)
    ensures |OuterStep(o, e, true, sid).to.supply.attempts| == |o.supply.attempts|
  {
    hide SupplyStep;
    if e.Supplying? {
      AbortedSupply(o.supply, e.e, sid);
    }
  }

  lemma AbortCreatesNothing(w: World)
    ensures NoCreates(w, AbortWorld(w))
  {
  }

  lemma AbortedStep(w: World, e: Event)
    requires WorldOk(w) && Enabled(w, e) && w.aborted
    ensures NoCreates(w, Step(w, e))
  {
    hide OuterStep, ProbeStep, RequestStep, AbortWorld, OuterOk, ProbeOk, RequestOk;
    match e
    case AbortOwner => AbortCreatesNothing(w);
    case Release => AbortCreatesNothing(w);
    case Base(oe) => AbortedOuter(w.base, oe, w.next);
    case Probing(i, pe) => AbortedProbe(w.probes[i], pe, w.next);
    case Requesting(i, re) => AbortedRequest(w.requests[i], re, w.next);
    case _ =>
  }

  lemma NothingCreated(w: World)
    requires w.aborted
    ensures NoCreates(w, w)
  {
  }

  lemma StillAborted(w: World, v: World)
    requires NoCreates(w, v)
    ensures v.aborted
  {
  }

  lemma NoCreatesSince(u: World, w: World, v: World)
    requires NoCreates(u, w) && NoCreates(w, v)
    ensures NoCreates(u, v)
  {
  }

  /** Once the owner has aborted, the factory is never called again, by the creation, its probe
      or any request, old or new. */
  lemma {:induction false} NoCreateAfterAbort(interactive: bool, unsupported: bool, early: bool,
      events: seq<Event>, more: seq<Event>)
    requires Possible(interactive, unsupported, early, events + more) && Possible(interactive, unsupported, early, events)
    requires After(interactive, unsupported, early, events).aborted
    ensures NoCreates(After(interactive, unsupported, early, events), After(interactive, unsupported, early, events + more))
    decreases |more|
  {
    hide Step, Enabled, WorldOk, Accounted, NoCreates, HeldByWorld, Total;
    if more == [] {
      assert events + more == events;
      NothingCreated(After(interactive, unsupported, early, events));
    } else {
      var before := more[..|more| - 1];
      assert (events + more)[..|events + more| - 1] == events + before;
      NoCreateAfterAbort(interactive, unsupported, early, events, before);
      ExactlyOnce(interactive, unsupported, early, events + before, 0);
      var w := After(interactive, unsupported, early, events + before);
      StillAborted(After(interactive, unsupported, early, events), w);
      AbortedStep(w, more[|more| - 1]);
      NoCreatesSince(After(interactive, unsupported, early, events), w, Step(w, more[|more| - 1]));
    }
  }
}
