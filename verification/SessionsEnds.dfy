/** How things end, over every run of a model: when the fallback ladder fails and what it returns,
    when a request finishes and which sessions it prompts, and when the base is handed out. */
module SessionsEnds {
  import C = Cancellation
  import opened Sessions
  import opened SessionsShape
  import opened SessionsLaws
  import opened SessionsRuns
  import opened SessionsRaces

  // ---------- the fallback ladder ----------

  /** A factory's supply has failed exactly when no attempt was made because the owner had aborted,
      or its last attempt was rejected and either the error is no unsupported option, or it was the
      third attempt, or the owner has aborted; it has returned exactly the session its last attempt
      was fulfilled with. */
  ghost predicate LadderRight(s: Supply, last: C.Race<Handle, bool>, aborted: bool) {
    var n := |s.attempts|;
    s.mode.Factory? && !s.out.Working? && !s.out.Taken? ==>
      && (n == 0 ==> aborted && s.out.Failed?)
      && (n > 0 ==>
          && (s.out.Failed? <==> last.outcome.Rejected?)
          && (s.out.Failed? ==> !last.outcome.reason || n == 3 || aborted)
          && (forall h :: s.out == Returned(h) <==> last.outcome == C.Fulfilled(h)))
  }

  /** What the last attempt at a place has heard. */
  function LastHeard(interactive: bool, unsupported: bool, early: bool, events: seq<Event>, p: Place): RaceEvents
    requires Possible(interactive, unsupported, early, events) && There(After(interactive, unsupported, early, events), p)
  {
    var n := |SupplyAt(After(interactive, unsupported, early, events), p).attempts|;
    if n == 0 then [] else Heard(interactive, unsupported, early, events, Attempting(p, n - 1))
  }

  lemma ContinueIsRight(s: Supply, aborted: bool, sid: Sid, last: C.Race<Handle, bool>, e: SupplyEvent)
    requires SupplyOk(s) && SupplyEnabled(s, e) && s.attempts != []
    requires AttemptShows(s.attempts[|s.attempts| - 1], last) && LadderRight(s, last, aborted)
    ensures var t := SupplyStep(s, e, aborted, sid).to;
      |t.attempts| == |s.attempts| && e.Continue? ==> LadderRight(t, last, aborted)
  {
  }

  /** An event that is no reading of the last attempt leaves a supply that has ended as it is. */
  lemma EndedStays(s: Supply, e: SupplyEvent, aborted: bool, sid: Sid)
    requires SupplyOk(s) && SupplyEnabled(s, e) && s.mode.Factory? && !e.Continue?
    ensures var t := SupplyStep(s, e, aborted, sid).to;
      t.out == s.out && t.mode == s.mode && |t.attempts| == |s.attempts|
  {
  }

  /** A settled race keeps its outcome. */
  lemma OutcomeStays(es: RaceEvents, more: RaceEvents)
    requires C.Possible(es) && C.After(es).settled && |more| <= 1
    ensures C.After(es + more).outcome == C.After(es).outcome
  {
    if more == [] {
      assert es + more == es;
    } else {
      assert (es + more)[..|es|] == es;
    }
  }

  /** How the way a supply has ended changes outside its own steps. */
  lemma OutMoves(w: World, e: Event, p: Place)
    requires WorldOk(w) && Enabled(w, e) && There(w, p)
    ensures There(Step(w, e), p)
    ensures var s, t := SupplyAt(w, p), SupplyAt(Step(w, e), p);
      t.mode == s.mode && (t.out == s.out || t.out.Taken? || (CauseAt(e, p).Stepped? && CauseAt(e, p).e.Supplying?))
    ensures w.aborted ==> Step(w, e).aborted
    ensures CauseAt(e, p).OwnerAborted? ==> Step(w, e).aborted
  {
    hide Step, OuterStep, SupplyStep, AbortSupply, SupplyMoved, WorldOk;
    PlaceOk(w, p);
    SessionsRaces.SupplyMoves(w, e, p);
    AbortedStays(w, e);
    if p.AtProbe? {
      ProbeOut(w, e, p);
    } else {
      OuterOut(w, e, p);
    }
  }

  lemma AbortedStays(w: World, e: Event)
    requires Enabled(w, e)
    ensures w.aborted ==> Step(w, e).aborted
    ensures e.AbortOwner? || e.Release? ==> Step(w, e).aborted
    ensures Step(w, e).interactive == w.interactive
  {
    hide OuterStep, ProbeStep, RequestStep;
    AbortLeaves(w);
  }

  lemma ProbeOut(w: World, e: Event, p: Place)
    requires Enabled(w, e) && There(w, p) && p.AtProbe? && There(Step(w, e), p)
    requires SupplyOk(SupplyAt(w, p))
    ensures var s, t := SupplyAt(w, p), SupplyAt(Step(w, e), p);
      t.mode == s.mode && (t.out == s.out || t.out.Taken? || (CauseAt(e, p).Stepped? && CauseAt(e, p).e.Supplying?))
  {
    hide OuterStep, RequestStep, StartProbe, AbortOuter, SupplyStep;
    if e.Probing? && p.i == e.i && e.pe.Fetching? {
      SupplyKeeps(w.probes[p.i].supply, e.pe.e, w.aborted, w.next);
    }
  }

  lemma OuterOut(w: World, e: Event, p: Place)
    requires Enabled(w, e) && There(w, p) && !p.AtProbe? && There(Step(w, e), p)
    requires SupplyOk(SupplyAt(w, p))
    ensures var s, t := SupplyAt(w, p), SupplyAt(Step(w, e), p);
      t.mode == s.mode && (t.out == s.out || t.out.Taken? || (CauseAt(e, p).Stepped? && CauseAt(e, p).e.Supplying?))
  {
    hide Step, SupplyStep, SupplyOk;
    RaceMoves(w, e, p);
    var o := OuterAt(w, p);
    match CauseAt(e, p)
    case Stepped(Supplying(se)) => SupplyKeeps(o.supply, se, w.aborted, w.next);
    case OwnerAborted => AbortSupplyLeaves(o.supply, w.unsupported);
    case _ =>
  }

  /** A place that is new has failed only because the owner had aborted. */
  lemma NewLadder(w: World, e: Event, p: Place, last: C.Race<Handle, bool>)
    requires Enabled(w, e) && !There(w, p) && There(Step(w, e), p)
    ensures LadderRight(SupplyAt(Step(w, e), p), last, Step(w, e).aborted)
  {
    hide OuterStep, ProbeStep, StartOuter, StartSupply, LadderRight;
    var t := Step(w, e);
    if e.Requesting? && e.re.LoopHead? {
      StartsFresh(e.re.mode, w.aborted);
      assert OuterAt(t, p) == StartOuter(e.re.mode, w.aborted);
      StartIsRight(e.re.mode, w.aborted, last);
    } else if e.TakeBase? {
      assert SupplyAt(t, p) == StartSupply(e.mode, w.aborted);
      StartIsRight(e.mode, w.aborted, last);
    }
  }

  lemma StartIsRight(mode: Mode, aborted: bool, last: C.Race<Handle, bool>)
    ensures LadderRight(StartSupply(mode, aborted), last, aborted)
    ensures LadderRight(StartOuter(mode, aborted).supply, last, aborted)
  {
  }

  lemma LadderSteps(w: World, e: Event, p: Place, es: RaceEvents)
    requires WorldOk(w) && Enabled(w, e) && There(w, p)
    requires var n := |SupplyAt(w, p).attempts|; n > 0 ==> RaceRuns(w, Attempting(p, n - 1), es)
    requires LadderRight(SupplyAt(w, p), C.After(es), w.aborted)
    ensures There(Step(w, e), p)
    ensures var s, t := SupplyAt(w, p), SupplyAt(Step(w, e), p); var n := |s.attempts|;
      && |t.attempts| >= n
      && (|t.attempts| > n ==> t.out.Working?)
      && (|t.attempts| == n ==>
          LadderRight(t, C.After(if n == 0 then es else es + Hears(w, e, Attempting(p, n - 1))), Step(w, e).aborted))
  {
    hide Step, WorldOk, SupplyMoved, SupplyOk, SupplyStep, C.After, C.Possible, Hears, LadderRight;
    PlaceOk(w, p);
    OutMoves(w, e, p);
    SessionsRaces.SupplyMoves(w, e, p);
    var s, t := SupplyAt(w, p), SupplyAt(Step(w, e), p);
    var n := |s.attempts|;
    if n > 0 {
      StepRuns(w, e, Attempting(p, n - 1), es);
      if s.attempts[n - 1].inner.Read? {
        OutcomeStays(es, Hears(w, e, Attempting(p, n - 1)));
      }
    }
    LadderStep(w, e, p, s, t, es);
  }

  lemma LadderStep(w: World, e: Event, p: Place, s: Supply, t: Supply, es: RaceEvents)
    requires Enabled(w, e) && There(w, p) && There(Step(w, e), p) && SupplyOk(s) && SupplyMoved(w, e, p)
    requires s == SupplyAt(w, p) && t == SupplyAt(Step(w, e), p)
    requires t.mode == s.mode && (t.out == s.out || t.out.Taken? || (CauseAt(e, p).Stepped? && CauseAt(e, p).e.Supplying?))
    requires w.aborted ==> Step(w, e).aborted
    requires LadderRight(s, C.After(es), w.aborted)
    requires |s.attempts| > 0 ==> AttemptShows(s.attempts[|s.attempts| - 1], C.After(es))
    requires var n := |s.attempts|;
      n > 0 && s.attempts[n - 1].inner.Read? ==>
        C.After(es + Hears(w, e, Attempting(p, n - 1))).outcome == C.After(es).outcome
    ensures var n := |s.attempts|;
      && |t.attempts| >= n
      && (|t.attempts| > n ==> t.out.Working?)
      && (|t.attempts| == n ==>
          LadderRight(t, C.After(if n == 0 then es else es + Hears(w, e, Attempting(p, n - 1))), Step(w, e).aborted))
  {
    hide Step, C.After, C.Possible, SupplyStep;
    var n := |s.attempts|;
    match CauseAt(e, p)
    case Stepped(Supplying(se)) =>
      if s.mode.Factory? {
        StepsAborted(w, e, p);
        LadderGrows(s, se, w.aborted, w.next);
        if se.Continue? {
          assert n > 0 ==> Hears(w, e, Attempting(p, n - 1)) == [] && es + [] == es;
          ContinueIsRight(s, w.aborted, w.next, C.After(es), se);
        } else {
          EndedStays(s, se, w.aborted, w.next);
        }
      } else {
        OtherModes(s, se, w.aborted, w.next);
      }
    case _ =>
  }

  lemma StepsAborted(w: World, e: Event, p: Place)
    requires Enabled(w, e) && CauseAt(e, p).Stepped?
    ensures Step(w, e).aborted == w.aborted
  {
    hide OuterStep, ProbeStep, RequestStep;
  }

  lemma LadderGrows(s: Supply, e: SupplyEvent, aborted: bool, sid: Sid)
    requires SupplyEnabled(s, e)
    ensures var t := SupplyStep(s, e, aborted, sid).to;
      |t.attempts| >= |s.attempts| && (|t.attempts| > |s.attempts| ==> t.out.Working?)
  {
  }

  lemma OtherModes(s: Supply, e: SupplyEvent, aborted: bool, sid: Sid)
    requires SupplyEnabled(s, e) && SupplyOk(s) && !s.mode.Factory?
    ensures |SupplyStep(s, e, aborted, sid).to.attempts| == |s.attempts|
  {
  }

  /** Over every run, wherever a session is obtained from the factory: for the base, a probe or a
      request, the ladder ends as it should. */
  lemma {:induction false} LadderEndsRight(interactive: bool, unsupported: bool, early: bool, events: seq<Event>, p: Place)
    requires Possible(interactive, unsupported, early, events) && There(After(interactive, unsupported, early, events), p)
    ensures var w := After(interactive, unsupported, early, events);
      LadderRight(SupplyAt(w, p), C.After(LastHeard(interactive, unsupported, early, events, p)), w.aborted)
    decreases |events|
  {
    hide Step, WorldOk, Accounted, HeldByWorld, RaceRuns, Hears, LadderRight, C.After, C.Possible, SupplyAt;
    if events == [] {
      BegunLadder(interactive, unsupported, early, p, C.After(LastHeard(interactive, unsupported, early, events, p)));
    } else {
      var before, e := events[..|events| - 1], events[|events| - 1];
      var w := After(interactive, unsupported, early, before);
      ExactlyOnce(interactive, unsupported, early, before, 0);
      if There(w, p) {
        LadderEndsRight(interactive, unsupported, early, before, p);
        var n := |SupplyAt(w, p).attempts|;
        var es := LastHeard(interactive, unsupported, early, before, p);
        if n > 0 {
          RacesAreRuns(interactive, unsupported, early, before, Attempting(p, n - 1));
        }
        LadderSteps(w, e, p, es);
        var last := C.After(LastHeard(interactive, unsupported, early, events, p));
        StillWorking(SupplyAt(Step(w, e), p), last, Step(w, e).aborted);
      } else {
        NewLadder(w, e, p, C.After(LastHeard(interactive, unsupported, early, events, p)));
      }
    }
  }

  lemma StillWorking(s: Supply, last: C.Race<Handle, bool>, aborted: bool)
    ensures s.out.Working? ==> LadderRight(s, last, aborted)
  {
  }

  lemma BegunLadder(interactive: bool, unsupported: bool, early: bool, p: Place, last: C.Race<Handle, bool>)
    requires There(Begun(interactive, unsupported, early), p)
    ensures LadderRight(SupplyAt(Begun(interactive, unsupported, early), p), last, early)
  {
    StartIsRight(Factory, early, last);
  }

  // ---------- clones and the base itself ----------

  /** What the events of a run meant at a place. */
  function Causes(events: seq<Event>, p: Place): seq<Cause> {
    if events == [] then [] else Causes(events[..|events| - 1], p) + [CauseAt(events[|events| - 1], p)]
  }

  /** A clone that has failed was rejected, and one that has returned gave the base or a session of its
      own as the session's `clone` did; where the base is shared nothing fails. */
  ghost predicate CloneRight(s: Supply, causes: seq<Cause>) {
    && (s.mode.Clone? && s.out.Failed? ==> Stepped(Supplying(CloneRejects)) in causes)
    && (s.mode.Clone? && s.out.Returned? ==> Stepped(Supplying(CloneResolves(s.out.handle.Shared?))) in causes)
    && (s.mode.Same? ==> s.out == Returned(Shared) || s.out.Taken?)
  }

  lemma CloneSteps(s: Supply, e: SupplyEvent, aborted: bool, sid: Sid, causes: seq<Cause>)
    requires SupplyOk(s) && SupplyEnabled(s, e) && CloneRight(s, causes)
    ensures CloneRight(SupplyStep(s, e, aborted, sid).to, causes + [Stepped(Supplying(e))])
  {
  }

  lemma CloneStays(s: Supply, t: Supply, causes: seq<Cause>, c: Cause)
    requires CloneRight(s, causes) && t.mode == s.mode && (t.out == s.out || t.out.Taken?)
    ensures CloneRight(t, causes + [c])
  {
  }

  lemma NewClone(w: World, e: Event, p: Place, causes: seq<Cause>)
    requires Enabled(w, e) && !There(w, p) && There(Step(w, e), p)
    ensures CloneRight(SupplyAt(Step(w, e), p), causes)
  {
    hide OuterStep, ProbeStep, StartOuter, StartSupply, CloneRight;
    var t := Step(w, e);
    if e.Requesting? && e.re.LoopHead? {
      StartsFresh(e.re.mode, w.aborted);
      assert OuterAt(t, p) == StartOuter(e.re.mode, w.aborted);
      StartedClone(e.re.mode, w.aborted, causes);
    } else if e.TakeBase? {
      assert SupplyAt(t, p) == StartSupply(e.mode, w.aborted);
      StartedClone(e.mode, w.aborted, causes);
    }
  }

  lemma StartedClone(mode: Mode, aborted: bool, causes: seq<Cause>)
    ensures CloneRight(StartSupply(mode, aborted), causes) && CloneRight(StartOuter(mode, aborted).supply, causes)
  {
  }

  /** Over every run, wherever a session is obtained by cloning or by sharing the base. */
  lemma {:induction false} ClonesEndRight(interactive: bool, unsupported: bool, early: bool, events: seq<Event>, p: Place)
    requires Possible(interactive, unsupported, early, events) && There(After(interactive, unsupported, early, events), p)
    ensures CloneRight(SupplyAt(After(interactive, unsupported, early, events), p), Causes(events, p))
    decreases |events|
  {
    hide Step, WorldOk, Accounted, HeldByWorld, CloneRight, SupplyAt, CauseAt, SupplyMoved, SupplyOk, SupplyStep;
    if events == [] {
      BegunClone(interactive, unsupported, early, p);
    } else {
      var before, e := events[..|events| - 1], events[|events| - 1];
      var w := After(interactive, unsupported, early, before);
      if There(w, p) {
        ClonesEndRight(interactive, unsupported, early, before, p);
        ExactlyOnce(interactive, unsupported, early, before, 0);
        PlaceOk(w, p);
        OutMoves(w, e, p);
        SessionsRaces.SupplyMoves(w, e, p);
        CloneStepsOrStays(w, e, p, Causes(before, p));
      } else {
        NewClone(w, e, p, Causes(events, p));
      }
    }
  }

  lemma CloneStepsOrStays(w: World, e: Event, p: Place, causes: seq<Cause>)
    requires Enabled(w, e) && There(w, p) && There(Step(w, e), p) && SupplyMoved(w, e, p) && SupplyOk(SupplyAt(w, p))
    requires var s, t := SupplyAt(w, p), SupplyAt(Step(w, e), p);
      t.mode == s.mode && (t.out == s.out || t.out.Taken? || (CauseAt(e, p).Stepped? && CauseAt(e, p).e.Supplying?))
    requires CloneRight(SupplyAt(w, p), causes)
    ensures CloneRight(SupplyAt(Step(w, e), p), causes + [CauseAt(e, p)])
  {
    hide Step, CloneRight, SupplyStep, SupplyOk, CauseAt;
    match CauseAt(e, p)
    case Stepped(Supplying(se)) => CloneSteps(SupplyAt(w, p), se, w.aborted, w.next, causes);
    case _ => CloneStays(SupplyAt(w, p), SupplyAt(Step(w, e), p), causes, CauseAt(e, p));
  }

  lemma BegunClone(interactive: bool, unsupported: bool, early: bool, p: Place)
    requires There(Begun(interactive, unsupported, early), p)
    ensures CloneRight(SupplyAt(Begun(interactive, unsupported, early), p), [])
  {
    StartedClone(Factory, early, []);
  }

  // ---------- requests ----------

  /** The attempts each request was made with, in order. */
  function Asked(events: seq<Event>): seq<nat> {
    if events == [] then []
    else
      var e := events[|events| - 1];
      Asked(events[..|events| - 1]) + if e.NewRequest? then [e.attempts] else []
  }

  function AnswerOf(e: Event, i: nat): seq<bool> {
    if e.Requesting? && e.i == i && e.re.PromptSettles? then [e.re.retry] else []
  }

  /** Of each prompt of request `i` that has settled, whether its answer asks for another attempt. */
  function Answers(events: seq<Event>, i: nat): seq<bool> {
    if events == [] then [] else Answers(events[..|events| - 1], i) + AnswerOf(events[|events| - 1], i)
  }

  /** The acquisitions whose session the request has taken. */
  function TakenOf(outers: seq<Outer>): nat {
    if outers == [] then 0
    else TakenOf(outers[..|outers| - 1]) + if outers[|outers| - 1].race.Done? then 1 else 0
  }

  /** A request goes on only while every answer has asked for another attempt. It has finished only
      when it was aborted or refused a session, or its last answer asked for nothing more, or as many
      answers have come as attempts were asked for. As long as it is not aborted it prompts every
      session it takes. */
  ghost predicate RequestRight(r: Request, asked: nat, answers: seq<bool>) {
    && r.attempts == asked && r.attempt == |answers| <= asked
    && (forall k | 0 <= k < |answers| - 1 :: answers[k])
    && (!r.status.Finished? && answers != [] ==> answers[|answers| - 1])
    && (r.status.Finished? ==>
        || r.aborted || (answers != [] && !answers[|answers| - 1]) || |answers| == asked
        || (r.outers != [] && |r.outers| > |answers| && r.outers[|r.outers| - 1].race.Refused?))
    && (!r.aborted ==> |r.prompted| == TakenOf(r.outers))
  }

  lemma {:induction false} TakenAlike(outers: seq<Outer>, others: seq<Outer>)
    requires |outers| == |others| && forall i | 0 <= i < |outers| :: outers[i].race.Done? == others[i].race.Done?
    ensures TakenOf(outers) == TakenOf(others)
    decreases |outers|
  {
    if outers != [] {
      TakenAlike(outers[..|outers| - 1], others[..|others| - 1]);
    }
  }

  lemma TakenSnoc(outers: seq<Outer>, o: Outer)
    ensures TakenOf(outers + [o]) == TakenOf(outers) + if o.race.Done? then 1 else 0
  {
    assert (outers + [o])[..|outers|] == outers;
  }

  lemma TakesLast(outers: seq<Outer>)
    requires outers != [] && !outers[|outers| - 1].race.Done?
    ensures var last := |outers| - 1;
      TakenOf(outers[last := outers[last].(race := Done)]) == TakenOf(outers) + 1
  {
    var last := |outers| - 1;
    assert outers[last := outers[last].(race := Done)][..last] == outers[..last];
  }

  lemma RequestStepsRight(r: Request, e: RequestEvent, aborted: bool, sid: Sid, asked: nat, answers: seq<bool>)
    requires RequestOk(r) && RequestEnabled(r, e) && RequestRight(r, asked, answers)
    ensures RequestRight(RequestStep(r, e, aborted, sid).to, asked,
                         answers + if e.PromptSettles? then [e.retry] else [])
  {
    hide OuterStep, StartOuter, OuterOk, TakenOf;
    assert answers + [] == answers;
    match e
    case LoopHead(mode) =>
      TakenSnoc(r.outers, StartOuter(mode, aborted));
      StartIsOpen(mode, aborted);
    case Outering(i, oe) =>
      OuterKeeps(r.outers[i], oe, aborted, sid);
      TakenAlike(r.outers, r.outers[i := OuterStep(r.outers[i], oe, aborted, sid).to]);
    case TakeSession => TakesLast(r.outers);
    case SeeRefusal =>
    case PromptSettles(_) =>
  }

  lemma AbortStaysRight(r: Request, t: Request, asked: nat, answers: seq<bool>)
    requires RequestRight(r, asked, answers)
    requires t.aborted && t.attempts == r.attempts && t.attempt == r.attempt && t.status == r.status
    ensures RequestRight(t, asked, answers)
  {
    hide TakenOf;
  }

  /** The request of a world after a step. */
  lemma RequestMoved(w: World, e: Event, i: nat)
    requires Enabled(w, e) && i < |w.requests|
    ensures i < |Step(w, e).requests|
    ensures var r, t := w.requests[i], Step(w, e).requests[i];
      if e.Requesting? && e.i == i then RequestEnabled(r, e.re) && t == RequestStep(r, e.re, w.aborted, w.next).to
      else t == r || (t.aborted && t.attempts == r.attempts && t.attempt == r.attempt && t.status == r.status
                      && t.prompted == r.prompted)
    ensures w.requests[i].aborted ==> Step(w, e).requests[i].aborted
  {
    hide OuterStep, ProbeStep, RequestStep, RefuseOuters, AbortOuters, AbortOuter;
    if e.Requesting? && e.i == i {
      RequestAbortStays(w.requests[i], e.re, w.aborted, w.next);
    }
  }

  lemma RequestAbortStays(r: Request, e: RequestEvent, aborted: bool, sid: Sid)
    requires RequestEnabled(r, e)
    ensures RequestStep(r, e, aborted, sid).to.aborted == r.aborted
    ensures r.aborted ==> RequestStep(r, e, aborted, sid).to.prompted == r.prompted
  {
  }

  lemma RequestsGrow(w: World, e: Event)
    requires Enabled(w, e)
    ensures var t := Step(w, e).requests;
      && |t| == |w.requests| + (if e.NewRequest? then 1 else 0)
      && (e.NewRequest? ==>
          t[|w.requests|] == Request(0, e.attempts, Looping, t[|w.requests|].aborted, [], []))
  {
    hide OuterStep, ProbeStep, RequestStep, RefuseOuters, AbortOuters, AbortOuter;
  }

  lemma {:induction false} AskedSize(interactive: bool, unsupported: bool, early: bool, events: seq<Event>)
    requires Possible(interactive, unsupported, early, events)
    ensures |Asked(events)| == |After(interactive, unsupported, early, events).requests|
    decreases |events|
  {
    hide Step, Enabled;
    if events != [] {
      var before, e := events[..|events| - 1], events[|events| - 1];
      AskedSize(interactive, unsupported, early, before);
      RequestsGrow(After(interactive, unsupported, early, before), e);
    }
  }

  lemma {:induction false} NoAnswers(interactive: bool, unsupported: bool, early: bool, events: seq<Event>, i: nat)
    requires Possible(interactive, unsupported, early, events)
    requires i >= |After(interactive, unsupported, early, events).requests|
    ensures Answers(events, i) == []
    decreases |events|
  {
    hide Step;
    if events != [] {
      var before, e := events[..|events| - 1], events[|events| - 1];
      RequestsGrow(After(interactive, unsupported, early, before), e);
      NoAnswers(interactive, unsupported, early, before, i);
    }
  }

  lemma RequestStaysRight(w: World, e: Event, i: nat, asked: nat, answers: seq<bool>)
    requires WorldOk(w) && Enabled(w, e) && i < |w.requests| && RequestRight(w.requests[i], asked, answers)
    ensures i < |Step(w, e).requests| && RequestRight(Step(w, e).requests[i], asked, answers + AnswerOf(e, i))
  {
    hide Step, Enabled, WorldOk, RequestRight, RequestStep, RequestEnabled;
    assert answers + [] == answers;
    RequestMoved(w, e, i);
    if e.Requesting? && e.i == i {
      RequestIsOk(w, i);
      RequestStepsRight(w.requests[i], e.re, w.aborted, w.next, asked, answers);
    } else if Step(w, e).requests[i] != w.requests[i] {
      AbortStaysRight(w.requests[i], Step(w, e).requests[i], asked, answers);
    }
  }

  /** Over every run every request goes on and ends as it should. */
  lemma {:induction false} RequestsEndRight(interactive: bool, unsupported: bool, early: bool, events: seq<Event>, i: nat)
    requires Possible(interactive, unsupported, early, events)
    requires i < |After(interactive, unsupported, early, events).requests|
    ensures i < |Asked(events)|
    ensures RequestRight(After(interactive, unsupported, early, events).requests[i], Asked(events)[i], Answers(events, i))
    decreases |events|
  {
    hide Step, Enabled, WorldOk, Accounted, HeldByWorld, RequestRight, AnswerOf, Total, Prompted;
    AskedSize(interactive, unsupported, early, events);
    var before, e := events[..|events| - 1], events[|events| - 1];
    var w := After(interactive, unsupported, early, before);
    AskedSize(interactive, unsupported, early, before);
    RequestsGrow(w, e);
    ExactlyOnce(interactive, unsupported, early, before, 0);
    if i < |w.requests| {
      RequestsEndRight(interactive, unsupported, early, before, i);
      RequestStaysRight(w, e, i, Asked(before)[i], Answers(before, i));
      assert Asked(events)[i] == Asked(before)[i];
      assert Answers(events, i) == Answers(before, i) + AnswerOf(e, i);
    } else {
      NoAnswers(interactive, unsupported, early, before, i);
      NewIsRight(e.attempts, Step(w, e).requests[i].aborted);
      FreshAnswer(w, e, i);
      assert Asked(events)[i] == e.attempts;
      assert Answers(events, i) == Answers(before, i) + AnswerOf(e, i) == [];
    }
  }

  lemma RequestIsOk(w: World, i: nat)
    requires WorldOk(w) && i < |w.requests|
    ensures RequestOk(w.requests[i])
  {
    hide RequestOk;
  }

  lemma FreshAnswer(w: World, e: Event, i: nat)
    requires e.NewRequest?
    ensures AnswerOf(e, i) == []
  {
  }

  lemma NewIsRight(attempts: nat, aborted: bool)
    ensures RequestRight(Request(0, attempts, Looping, aborted, [], []), attempts, [])
  {
  }

  /** Whether each request was made under a signal of its caller that had already been aborted. */
  function Signalled(events: seq<Event>): seq<bool> {
    if events == [] then []
    else
      var e := events[|events| - 1];
      Signalled(events[..|events| - 1]) + if e.NewRequest? then [e.callerAborted] else []
  }

  lemma {:induction false} SignalledSize(events: seq<Event>)
    ensures |Signalled(events)| == |Asked(events)|
    decreases |events|
  {
    if events != [] {
      SignalledSize(events[..|events| - 1]);
    }
  }

  lemma WhoAborts(w: World, e: Event)
    requires Enabled(w, e)
    ensures Step(w, e).aborted <==> w.aborted || e.AbortOwner? || e.Release?
    ensures |w.requests| <= |Step(w, e).requests|
    ensures forall i | 0 <= i < |w.requests| ::
      Step(w, e).requests[i].aborted <==> w.requests[i].aborted || e.AbortOwner? || e.Release? || e == AbortCaller(i)
    ensures e.NewRequest? ==>
      && |Step(w, e).requests| == |w.requests| + 1
      && Step(w, e).requests[|w.requests|].aborted == (e.callerAborted || w.aborted)
  {
    hide OuterStep, ProbeStep, RequestStep, RefuseOuters, AbortOuters, AbortOuter;
    if e.Requesting? {
      RequestAbortStays(w.requests[e.i], e.re, w.aborted, w.next);
    }
  }

  /** Over every run: who has been aborted. The owner has, if it had before, or it was during the run,
      or it released the model; a request, exactly if the owner or its own caller has. */
  lemma {:induction false} AbortsReach(interactive: bool, unsupported: bool, early: bool, events: seq<Event>)
    requires Possible(interactive, unsupported, early, events)
    ensures var w := After(interactive, unsupported, early, events);
      && |Signalled(events)| == |w.requests|
      && (w.aborted <==> early || AbortOwner in events || Release in events)
      && (forall i: nat | i < |w.requests| ::
            w.requests[i].aborted <==> w.aborted || Signalled(events)[i] || AbortCaller(i) in events)
      && (forall i: nat | AbortCaller(i) in events :: i < |w.requests|)
    decreases |events|
  {
    hide Step, Enabled, WorldOk, Accounted, HeldByWorld;
    AskedSize(interactive, unsupported, early, events);
    SignalledSize(events);
    if events != [] {
      var before, e := events[..|events| - 1], events[|events| - 1];
      var w := After(interactive, unsupported, early, before);
      AbortsReach(interactive, unsupported, early, before);
      RequestsGrow(w, e);
      WhoAborts(w, e);
      CallerIsThere(w, e);
      assert events == before + [e];
    }
  }

  lemma CallerIsThere(w: World, e: Event)
    requires Enabled(w, e)
    ensures e.AbortCaller? ==> e.i < |w.requests|
  {
  }

  /** Once a request has been aborted it prompts no session any more. */
  lemma {:induction false} NoPromptAfterAbort(interactive: bool, unsupported: bool, early: bool,
      events: seq<Event>, more: seq<Event>, i: nat)
    requires Possible(interactive, unsupported, early, events + more) && Possible(interactive, unsupported, early, events)
    requires i < |After(interactive, unsupported, early, events).requests|
    requires After(interactive, unsupported, early, events).requests[i].aborted
    ensures i < |After(interactive, unsupported, early, events + more).requests|
    ensures var r, t := After(interactive, unsupported, early, events).requests[i],
                        After(interactive, unsupported, early, events + more).requests[i];
      t.aborted && t.prompted == r.prompted
    decreases |more|
  {
    hide Step, Enabled;
    if more == [] {
      assert events + more == events;
    } else {
      var before, e := more[..|more| - 1], more[|more| - 1];
      assert (events + more)[..|events + more| - 1] == events + before;
      NoPromptAfterAbort(interactive, unsupported, early, events, before, i);
      var w := After(interactive, unsupported, early, events + before);
      RequestMoved(w, e, i);
      if e.Requesting? && e.i == i {
        RequestAbortStays(w.requests[i], e.re, w.aborted, w.next);
      }
    }
  }

  // ---------- the base ----------

  /** An interactive model is handed out at once and never probes; any other is handed out only when
      its one probe has settled. */
  ghost predicate DetectedFirst(w: World) {
    && |w.probes| <= 1
    && (w.creation.Acquiring? ==> w.probes == [])
    && (w.interactive ==> w.probes == [] && !w.creation.Detecting?)
    && (w.creation.HandedOut? && !w.interactive ==> w.probes != [] && w.probes[0].settled)
  }

  lemma {:induction false} DetectionComesFirst(interactive: bool, unsupported: bool, early: bool, events: seq<Event>)
    requires Possible(interactive, unsupported, early, events)
    ensures var w := After(interactive, unsupported, early, events); w.interactive == interactive && DetectedFirst(w)
    decreases |events|
  {
    hide Step, Enabled, DetectedFirst;
    if events == [] {
      NothingDetected(Begun(interactive, unsupported, early));
    } else {
      var before, e := events[..|events| - 1], events[|events| - 1];
      DetectionComesFirst(interactive, unsupported, early, before);
      var w := After(interactive, unsupported, early, before);
      AbortedStays(w, e);
      DetectionSteps(w, e);
    }
  }

  lemma NothingDetected(w: World)
    requires w.probes == [] && w.creation.Acquiring?
    ensures DetectedFirst(w)
  {
  }

  lemma DetectionSteps(w: World, e: Event)
    requires Enabled(w, e) && DetectedFirst(w)
    ensures DetectedFirst(Step(w, e))
  {
    hide OuterStep, RequestStep, RefuseOuters, AbortOuters, AbortOuter, AbortSupply, StartSupply, ProbeStep;
    if e.Probing? {
      SettledStays(w.probes[e.i], e.pe, w.aborted, w.next);
    }
  }

  lemma SettledStays(p: Probe, e: ProbeEvent, aborted: bool, sid: Sid)
    requires ProbeEnabled(p, e)
    ensures p.settled ==> ProbeStep(p, e, aborted, sid).to.settled
  {
    hide SupplyStep;
  }

  /** The base that is being identified or has been handed out is the session the race around its
      creation was fulfilled with; and there is none any more only if the creation was refused, the
      detection aborted, or the base released. */
  lemma {:induction false} BaseIsTheCreated(interactive: bool, unsupported: bool, early: bool, events: seq<Event>)
    requires Possible(interactive, unsupported, early, events)
    ensures var w := After(interactive, unsupported, early, events);
      var race := C.After(Heard(interactive, unsupported, early, events, Around(AtBase)));
      && (w.creation.Detecting? || w.creation.HandedOut? ==> race.outcome == C.Fulfilled(Owned(w.creation.base)))
      && (w.creation.Closed? ==> BaseRefused in events || DetectionAborted in events || Release in events)
    decreases |events|
  {
    hide Step, Enabled, WorldOk, Accounted, HeldByWorld, RaceRuns, Hears, C.After, C.Possible;
    if events == [] {
    } else {
      var before, e := events[..|events| - 1], events[|events| - 1];
      var w := After(interactive, unsupported, early, before);
      var es := Heard(interactive, unsupported, early, before, Around(AtBase));
      BaseIsTheCreated(interactive, unsupported, early, before);
      RacesAreRuns(interactive, unsupported, early, before, Around(AtBase));
      ExactlyOnce(interactive, unsupported, early, before, 0);
      StepRuns(w, e, Around(AtBase), es);
      BaseRace(w, es);
      if C.After(es).settled {
        OutcomeStays(es, Hears(w, e, Around(AtBase)));
      }
      CreationFollows(w, e);
      assert events == before + [e];
    }
  }

  lemma BaseRace(w: World, es: RaceEvents)
    requires RaceRuns(w, Around(AtBase), es)
    ensures C.Possible(es) && OuterShows(w.base, C.After(es))
  {
    hide C.After, C.Possible;
  }

  lemma CreationFollows(w: World, e: Event)
    requires Enabled(w, e) && WorldOk(w)
    ensures var c, d := w.creation, Step(w, e).creation;
      && (d.Detecting? || d.HandedOut? ==>
           || ((c.Detecting? || c.HandedOut?) && d.base == c.base)
           || (w.base.race == Holding(Owned(d.base))))
      && (d.Closed? && !c.Closed? ==> e.BaseRefused? || e.DetectionAborted? || e.Release?)
      && (c.Detecting? || c.HandedOut? ==> !w.base.race.Open?)
  {
    hide OuterStep, ProbeStep, RequestStep, RefuseOuters, StartProbe, OuterOk, ProbeOk, RequestOk;
    AbortLeaves(w);
  }
}
