/** The retry loop of `promptStructured` in src/model.mts: its variables, with one method for each
    stretch between two awaits, as a request of the transition system. */
module StructuredRequest {
  import opened Sessions
  import opened Text

  datatype TaskResult<+T> =
    | Success(data: T, raw: string, model: Option<string>)
    | Failure(error: string, raw: string, model: Option<string>)

  /** How the promise the caller holds settles. */
  datatype Outcome<+T> = Running | Fulfilled(result: TaskResult<T>) | Rejected

  const NO_RESPONSE := "model returned no parseable response"

  /** A result names the model that produced it, unless it already does. */
  function Stamped<T>(result: TaskResult<T>, stamp: Option<string>): TaskResult<T> {
    if stamp.Some? && result.model.None? then result.(model := stamp) else result
  }

  /** The stamp fills in a missing model name and changes nothing else. */
  lemma StampFillsIn<T>(result: TaskResult<T>, stamp: Option<string>)
    ensures Stamped(result, stamp).model == (if result.model.Some? then result.model else stamp)
    ensures Stamped(result, stamp).(model := result.model) == result
  {
  }

  /** `outers` are the acquisitions the loop awaits, which make progress on their own. What was
      destroyed and what the attempts answered is recorded. */
  class RetryLoop<T> {
    const attempts: nat
    const stamp: Option<string>
    var attempt: nat
    var last: TaskResult<T>
    var status: Status
    var outcome: Outcome<T>
    var destroyed: seq<Sid>
    ghost var aborted: bool
    ghost var outers: seq<Outer>
    ghost var prompted: seq<Handle>
    ghost var answers: seq<TaskResult<T>>

    ghost function State(): Request
      reads this
    {
      Request(attempt, attempts, status, aborted, outers, prompted)
    }

    /** Every answer but the last is a failure; the loop goes on only after failures; and it
        returns the first success, or the last failure once every attempt has answered, under
        the name of the model. */
    ghost predicate Valid()
      reads this
    {
      && attempt <= attempts && |answers| <= attempts
      && last == (if answers == [] then Failure(NO_RESPONSE, "", None) else answers[|answers| - 1])
      && (forall i | 0 <= i < |answers| - 1 :: answers[i].Failure?)
      && (outcome.Running? <==> !status.Finished?)
      && (outcome.Running? ==> last.Failure? && |answers| == attempt)
      && (status.Waiting? || status.Prompting? ==> attempt < attempts)
      && (outcome.Fulfilled? ==> outcome.result == Stamped(last, stamp) && (last.Success? || |answers| == attempts))
    }

    constructor (retries: int, stamp: Option<string>, ghost aborted: bool)
      ensures Valid() && State() == Request(0, if retries < 0 then 0 else retries + 1, Looping, aborted, [], [])
      ensures destroyed == [] && answers == [] && this.stamp == stamp
    {
      this.stamp := stamp;
      attempts := if retries < 0 then 0 else retries + 1;
      attempt, last, status, outcome, destroyed := 0, Failure(NO_RESPONSE, "", None), Looping, Running, [];
      this.aborted, outers, prompted, answers := aborted, [], [], [];
    }

    /** The head of the loop: `throwIfAborted`, which also precedes the loop, and the next
        acquisition. `signalled` is the signal's own flag. */
    method Turn(signalled: bool, ghost mode: Mode, ghost owner: bool)
      requires Valid() && status.Looping? && signalled == aborted
      modifies this`status, this`outcome, this`outers
      ensures Valid() && State() == RequestStep(old(State()), LoopHead(mode), owner, 0).to
      ensures outcome.Rejected? <==> signalled && (attempt == 0 || attempt < attempts)
    {
      if signalled && (attempt == 0 || attempt < attempts) {
        status, outcome := Finished, Rejected;
      } else if attempt >= attempts {
        status, outcome := Finished, Fulfilled(Stamped(last, stamp));
      } else {
        status := Waiting;
        outers := outers + [StartOuter(mode, owner)];
      }
    }

    /** The acquisition gives a session; the prompt starts unless the signal is aborted. */
    method OnSession(session: Handle)
      requires Valid() && RequestEnabled(State(), TakeSession)
      requires session == outers[|outers| - 1].race.handle
      modifies this`status, this`outers, this`prompted
      ensures Valid() && State() == RequestStep(old(State()), TakeSession, false, 0).to
    {
      status := Prompting(session);
      outers := outers[|outers| - 1 := outers[|outers| - 1].(race := Done)];
      prompted := if aborted then prompted else prompted + [session];
    }

    method OnRefusal()
      requires Valid() && RequestEnabled(State(), SeeRefusal)
      modifies this`status, this`outcome
      ensures Valid() && State() == RequestStep(old(State()), SeeRefusal, false, 0).to
      ensures outcome.Rejected?
    {
      status, outcome := Finished, Rejected;
    }

    /** The prompt answers, or throws where `answer` is None; `finally` disposes of the session
        unless it is the base. */
    method OnAnswer(answer: Option<TaskResult<T>>)
      requires Valid() && status.Prompting?
      modifies this`attempt, this`last, this`status, this`outcome, this`destroyed, this`answers
      ensures Valid()
      ensures var retry := answer.Some? && answer.value.Failure?;
        State() == RequestStep(old(State()), PromptSettles(retry), false, 0).to
      ensures destroyed == old(destroyed) + if old(status).handle.Owned? then [old(status).handle.id] else []
      ensures answer.Some? ==> answers == old(answers) + [answer.value]
      ensures answer.Some? && answer.value.Success? ==> outcome == Fulfilled(Stamped(answer.value, stamp))
      ensures answer == None ==> answers == old(answers) && outcome.Rejected?
    {
      hide OuterStep, StartOuter, OuterEnabled, SupplyStep, SupplyEnabled;
      if answer.Some? {
        last := answer.value;
        answers := answers + [answer.value];
      }
      if status.handle.Owned? {
        destroyed := destroyed + [status.handle.id];
      }
      attempt := attempt + 1;
      if answer == None {
        status, outcome := Finished, Rejected;
      } else if last.Success? {
        status, outcome := Finished, Fulfilled(Stamped(last, stamp));
      } else {
        status := Looping;
      }
    }
  }
}
