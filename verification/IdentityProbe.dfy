/** `detectSessionModelName` of src/model.mts: its variables and callbacks, as the probe of the
    transition system. */
module IdentityProbe {
  import opened Sessions
  import opened Text

  /** `arrived` says that `probe` is no longer undefined; `source` is the promise of
      `cloneSession`, and `asking` says that the one of `detectModelName` is pending. What was resolved and destroyed is recorded. */
  class Detection {
    var settled: bool
    var timer: bool
    var arrived: bool
    var probe: Handle
    var resolved: seq<Option<string>>
    var destroyed: seq<Sid>
    ghost var source: Supply
    ghost var asking: bool

    ghost function State(): Probe
      reads this
    {
      Probe(source, settled, arrived, probe, asking)
    }

    /** The promise resolves once, the timer runs until then, and a probe that is not the base is
        destroyed exactly once, when it has arrived and the promise has settled. */
    ghost predicate Valid()
      reads this
    {
      && (settled <==> |resolved| == 1) && |resolved| <= 1
      && (timer <==> !settled)
      && destroyed == (if arrived && settled && probe.Owned? then [probe.id] else [])
      && (arrived ==> source.out.Taken?) && (asking ==> arrived)
    }

    constructor (ghost mode: Mode, ghost aborted: bool)
      ensures Valid() && State() == StartProbe(mode, aborted)
    {
      settled, timer, arrived, probe, resolved, destroyed := false, true, false, Shared, [], [];
      source, asking := StartSupply(mode, aborted), false;
    }

    /** The promise of `cloneSession` makes progress on its own. */
    ghost method OnProgress(e: SupplyEvent, aborted: bool, sid: Sid)
      requires Valid() && SupplyEnabled(source, e)
      modifies this`source
      ensures Valid() && State() == ProbeStep(old(State()), Fetching(e), aborted, sid).to
    {
      source := SupplyStep(source, e, aborted, sid).to;
    }

    method Finish(identity: Option<string>)
      requires Valid()
      modifies this
      ensures Valid() && State() == Sessions.Finish(old(State())).to
      ensures destroyed == old(destroyed) + Destroys(Sessions.Finish(old(State())))
      ensures resolved == if old(settled) then old(resolved) else [identity]
    {
      if settled {
        return;
      }
      settled := true;
      timer := false;
      if arrived && probe.Owned? {
        destroyed := destroyed + [probe.id];
      }
      resolved := [identity];
    }

    method OnTimer()
      requires Valid() && timer
      modifies this
      ensures Valid() && State() == ProbeStep(old(State()), Timer, false, 0).to
      ensures destroyed == old(destroyed) + Destroys(ProbeStep(old(State()), Timer, false, 0))
      ensures resolved == [None]
    {
      Finish(None);
    }

    method OnSession(session: Handle)
      requires Valid() && source.out == Returned(session)
      modifies this
      ensures Valid() && State() == ProbeStep(old(State()), Arrive, false, 0).to
      ensures destroyed == old(destroyed) + Destroys(ProbeStep(old(State()), Arrive, false, 0))
      ensures resolved == old(resolved)
    {
      source := source.(out := Taken);
      arrived := true;
      probe := session;
      asking := !settled;
      if settled {
        if session.Owned? {
          destroyed := destroyed + [session.id];
        }
      }
    }

    method OnNoSession()
      requires Valid() && source.out.Failed?
      modifies this
      ensures Valid() && State() == ProbeStep(old(State()), FetchFails, false, 0).to
      ensures destroyed == old(destroyed) + Destroys(ProbeStep(old(State()), FetchFails, false, 0))
      ensures resolved == if old(settled) then old(resolved) else [None]
    {
      source := source.(out := Taken);
      Finish(None);
    }

    method OnIdentity(identity: Option<string>)
      requires Valid() && asking
      modifies this
      ensures Valid() && State() == ProbeStep(old(State()), IdentitySettles, false, 0).to
      ensures destroyed == old(destroyed) + Destroys(ProbeStep(old(State()), IdentitySettles, false, 0))
      ensures resolved == if old(settled) then old(resolved) else [identity]
    {
      asking := false;
      Finish(identity);
    }
  }

  /** What a step destroys, as a log. */
  function Destroys<T>(m: Move<T>): seq<Sid> {
    if m.destroyed.Owned? then [m.destroyed.id] else []
  }
}
