/** `awaitCancellable` of src/cancellation.mts: a pending promise raced against an abort
    signal, with disposal of a value that arrives late. */
module Cancellation {

  /** The promise handed to the caller. */
  datatype Outcome<+T, +E> = Unsettled | Fulfilled(value: T) | Rejected(reason: E)

  /** What can happen to a race. The pending promise settles at most once. */
  datatype Event<+T, +E> = Abort(reason: E) | Resolve(value: T) | Reject(error: E)

  datatype Race<+T, +E> = Race(settled: bool, over: bool, outcome: Outcome<T, E>, disposed: seq<T>)

  function Begun<T, E>(): Race<T, E> {
    Race(false, false, Unsettled, [])
  }

  predicate Enabled<T, E>(r: Race<T, E>, e: Event<T, E>) {
    e.Abort? || !r.over
  }

  function Step<T, E>(r: Race<T, E>, e: Event<T, E>): Race<T, E> {
    match e
    case Abort(reason) => if r.settled || r.over then r else r.(settled := true, outcome := Rejected(reason))
    case Resolve(value) =>
      if r.settled then r.(over := true, disposed := r.disposed + [value])
      else r.(settled := true, over := true, outcome := Fulfilled(value))
    case Reject(error) =>
      if r.settled then r.(over := true)
      else r.(settled := true, over := true, outcome := Rejected(error))
  }

  function After<T, E>(events: seq<Event<T, E>>): Race<T, E> {
    if events == [] then Begun() else Step(After(events[..|events| - 1]), events[|events| - 1])
  }

  predicate Possible<T, E>(events: seq<Event<T, E>>) {
    events == []
    || (Possible(events[..|events| - 1]) && Enabled(After(events[..|events| - 1]), events[|events| - 1]))
  }

  /** The value the pending promise has delivered, if any. */
  function Delivered<T, E>(events: seq<Event<T, E>>): seq<T> {
    if events == [] then []
    else
      var e := events[|events| - 1];
      Delivered(events[..|events| - 1]) + if e.Resolve? then [e.value] else []
  }

  /** What became of a delivered value. */
  function Passed<T, E>(o: Outcome<T, E>): seq<T> {
    if o.Fulfilled? then [o.value] else []
  }

  /** A delivered value is passed on or disposed of, once and not both. */
  predicate Sound<T(==), E>(r: Race<T, E>, delivered: seq<T>) {
    && Passed(r.outcome) + r.disposed == delivered && |delivered| <= 1
    && (r.disposed != [] ==> r.outcome.Rejected?)
    && (r.settled <==> !r.outcome.Unsettled?)
    && (r.over ==> r.settled)
    && (!r.over ==> delivered == [] && r.disposed == [])
  }

  lemma StepIsSound<T, E>(r: Race<T, E>, delivered: seq<T>, e: Event<T, E>)
    requires Sound(r, delivered) && Enabled(r, e)
    ensures Sound(Step(r, e), delivered + if e.Resolve? then [e.value] else [])
    ensures Step(r, e).settled
    ensures Step(r, e).over <==> r.over || !e.Abort?
    ensures |Step(r, e).disposed| > |r.disposed| ==> r.settled && !r.over
  {
  }

  /** In every order of aborts and settlement, a delivered value is passed on or disposed of,
      once and not both; it is disposed of only when an abort came first; and the caller's
      promise is settled exactly when an abort or a settlement has happened. */
  lemma {:induction false} DeliveredOnce<T, E>(events: seq<Event<T, E>>)
    requires Possible(events)
    ensures var r := After(events);
      && Sound(r, Delivered(events))
      && (r.settled <==> events != [])
      && (!r.over && events != [] ==> events[0].Abort?)
      && (r.disposed != [] ==> events[0].Abort?)
    decreases |events|
  {
    hide Step, Enabled, Sound;
    if events == [] {
      BegunIsSound<T, E>();
    } else {
      var before := events[..|events| - 1];
      var e := events[|events| - 1];
      DeliveredOnce(before);
      StepIsSound(After(before), Delivered(before), e);
      assert before != [] ==> before[0] == events[0];
    }
  }

  lemma BegunIsSound<T, E>()
    ensures Sound(Begun<T, E>(), [])
  {
  }

  /** The first event decides what the caller gets. */
  lemma {:induction false} FirstEventDecides<T, E>(events: seq<Event<T, E>>)
    requires Possible(events)
    ensures var outcome := After(events).outcome;
      if events == [] then outcome == Unsettled
      else match events[0]
        case Abort(reason) => outcome == Rejected(reason)
        case Resolve(value) => outcome == Fulfilled(value)
        case Reject(error) => outcome == Rejected(error)
    ensures events != [] ==> After(events).settled
    decreases |events|
  {
    if |events| > 1 {
      var before := events[..|events| - 1];
      FirstEventDecides(before);
      assert before[0] == events[0];
    } else if |events| == 1 {
      assert events[..0] == [];
    }
  }

  /** The variables of one call, with one method per callback. `disposeLate` is the caller's;
      what it was given is recorded. */
  class AwaitCancellable<T, E> {
    var settled: bool
    var listening: bool
    var outcome: Outcome<T, E>
    var disposed: seq<T>
    ghost var over: bool

    ghost function State(): Race<T, E>
      reads this
    {
      Race(settled, over, outcome, disposed)
    }

    ghost predicate Valid()
      reads this
    {
      && (over ==> settled)
      && (listening ==> !over)
      && (!listening && !over ==> settled)
    }

    constructor ()
      ensures Valid() && State() == Begun()
    {
      settled, listening, outcome, disposed, over := false, true, Unsettled, [], false;
    }

    /** The abort listener; it fires once, and not after it has been removed. */
    method OnAbort(reason: E)
      requires Valid()
      modifies this
      ensures Valid() && State() == Step(old(State()), Abort(reason))
    {
      if listening {
        listening := false;
        if !settled {
          settled := true;
          outcome := Rejected(reason);
        }
      }
    }

    method OnResolve(value: T)
      requires Valid() && !over
      modifies this
      ensures Valid() && State() == Step(old(State()), Resolve(value))
    {
      listening := false;
      over := true;
      if settled {
        disposed := disposed + [value];
        return;
      }
      settled := true;
      outcome := Fulfilled(value);
    }

    method OnReject(error: E)
      requires Valid() && !over
      modifies this
      ensures Valid() && State() == Step(old(State()), Reject(error))
    {
      listening := false;
      over := true;
      if !settled {
        settled := true;
        outcome := Rejected(error);
      }
    }
  }
}
