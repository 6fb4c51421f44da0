/** The request/reply protocol of `spawnShim` in src/backends/apple-fm-shim.mts: a queue of
    pending requests, each with a timer, served by newline-framed replies. */
module Shim {
  import opened Text
  import opened Framing
  import opened JsonText
  import opened JsonPrint

  type RequestId = nat

  datatype Settlement =
    | Reply(value: Json)
    | Unparseable(line: string)
    | TimedOut
    | WriteFailed
    | ShimExited
    | AlreadyExited
    | NoStdin

  /** The handle's variables, with the promises it has handed out. Requests are numbered in
      the order they are made; `answered` lists those a reply line has settled, in that order. */
  datatype Handle = Handle(
    next: RequestId,
    pending: seq<RequestId>,
    armed: set<RequestId>,
    settled: map<RequestId, Settlement>,
    answered: seq<RequestId>,
    buffered: string,
    exited: bool)

  const SPAWNED: Handle := Handle(0, [], {}, map[], [], "", false)

  datatype Event =
    | Request(stdin: bool)
    | Stdout(chunk: string)
    | Timeout(id: RequestId)
    | WriteError(id: RequestId)
    | Exit

  /** A promise keeps its first settlement. */
  function Settle(settled: map<RequestId, Settlement>, id: RequestId, s: Settlement): map<RequestId, Settlement> {
    if id in settled then settled else settled[id := s]
  }

  function SettleAll(settled: map<RequestId, Settlement>, ids: seq<RequestId>, s: Settlement): map<RequestId, Settlement>
    decreases |ids|
  {
    if ids == [] then settled else SettleAll(Settle(settled, ids[0], s), ids[1..], s)
  }

  /** `splice(indexOf(entry), 1)` when the entry is there. */
  function Without(pending: seq<RequestId>, id: RequestId): seq<RequestId> {
    if pending == [] then []
    else if pending[0] == id then pending[1..]
    else [pending[0]] + Without(pending[1..], id)
  }

  function ParseReply(line: string): Settlement {
    match ParseJson(line)
    case Some(value) => Reply(value)
    case None => Unparseable(line)
  }

  /** One reply line: the oldest pending request is settled; a line nobody waits for is
      dropped. */
  function Dispatch(h: Handle, line: string): Handle {
    if h.pending == [] then h
    else
      var id := h.pending[0];
      h.(pending := h.pending[1..], armed := h.armed - {id},
         settled := Settle(h.settled, id, ParseReply(line)), answered := h.answered + [id])
  }

  function DispatchAll(h: Handle, lines: seq<string>): Handle
    decreases |lines|
  {
    if lines == [] then h else DispatchAll(Dispatch(h, lines[0]), lines[1..])
  }

  /** What the environment can do: a timer that is not armed does not fire, and only a
      request that was made can have its write fail. */
  predicate Enabled(h: Handle, e: Event) {
    match e
    case Timeout(id) => id in h.armed
    case WriteError(id) => id < h.next
    case _ => true
  }

  function Step(h: Handle, e: Event): Handle {
    match e
    case Request(stdin) =>
      var id := h.next;
      if h.exited then h.(next := id + 1, settled := Settle(h.settled, id, AlreadyExited))
      else if !stdin then h.(next := id + 1, settled := Settle(h.settled, id, NoStdin))
      else h.(next := id + 1, pending := h.pending + [id], armed := h.armed + {id})
    case Stdout(chunk) =>
      var text := h.buffered + chunk;
      DispatchAll(h.(buffered := ""), Lines(text)).(buffered := Tail(text))
    case Timeout(id) =>
      h.(pending := Without(h.pending, id), armed := h.armed - {id},
         settled := Settle(h.settled, id, TimedOut))
    case WriteError(id) =>
      h.(pending := Without(h.pending, id), armed := h.armed - {id},
         settled := Settle(h.settled, id, WriteFailed))
    case Exit =>
      h.(pending := [], armed := h.armed - (set id | id in h.pending),
         settled := SettleAll(h.settled, h.pending, ShimExited), exited := true)
  }

  function After(events: seq<Event>): Handle {
    if events == [] then SPAWNED else Step(After(events[..|events| - 1]), events[|events| - 1])
  }

  /** Every event of the run could happen when it did. */
  predicate Possible(events: seq<Event>) {
    events == []
    || (Possible(events[..|events| - 1]) && Enabled(After(events[..|events| - 1]), events[|events| - 1]))
  }

  // ---------- what every event keeps ----------

  ghost predicate Increasing(ids: seq<RequestId>) {
    forall i, j | 0 <= i < j < |ids| :: ids[i] < ids[j]
  }

  /** A request is unsettled exactly while it is pending, and exactly then its timer is armed;
      requests wait in the order they were made, and reply lines have settled an increasing
      list of requests, all older than those that wait. */
  ghost predicate Consistent(h: Handle) {
    Ordered(h) && Timed(h) && Accounted(h)
  }

  ghost predicate Ordered(h: Handle) {
    && Increasing(h.pending) && Increasing(h.answered)
    && (forall a, p | a in h.answered && p in h.pending :: a < p)
    && (h.exited ==> h.pending == [])
    && '\n' !in h.buffered
  }

  ghost predicate Timed(h: Handle) {
    forall id: RequestId :: id in h.pending <==> id in h.armed
  }

  ghost predicate Accounted(h: Handle) {
    && (forall id: RequestId :: id < h.next <==> id in h.settled || id in h.armed)
    && (forall id | id in h.armed :: id !in h.settled)
    && (forall a | a in h.answered :: a in h.settled)
  }

  /** Nothing that was settled is settled again or otherwise. */
  ghost predicate Preserves(settled: map<RequestId, Settlement>, later: map<RequestId, Settlement>) {
    forall id | id in settled :: id in later && later[id] == settled[id]
  }

  lemma IncreasingSnoc(ids: seq<RequestId>, id: RequestId)
    requires Increasing(ids) && forall i | i in ids :: i < id
    ensures Increasing(ids + [id])
  {
    forall i | 0 <= i < |ids|
      ensures ids[i] < id
    {
      assert ids[i] in ids;
    }
  }

  lemma DispatchKeepsOrder(h: Handle, line: string)
    requires Ordered(h)
    ensures Ordered(Dispatch(h, line))
  {
    hide ParseReply;
    if h.pending != [] {
      var id, rest := h.pending[0], h.pending[1..];
      assert h.pending == [id] + rest;
      assert id in h.pending;
      assert forall p | p in rest :: p in h.pending && id < p;
      IncreasingSnoc(h.answered, id);
    }
  }

  lemma DispatchKeepsTimers(h: Handle, line: string)
    requires Ordered(h) && Timed(h)
    ensures Timed(Dispatch(h, line))
  {
    hide ParseReply;
    if h.pending != [] {
      assert h.pending == [h.pending[0]] + h.pending[1..];
    }
  }

  lemma DispatchKeeps(h: Handle, line: string)
    requires Consistent(h)
    ensures Consistent(Dispatch(h, line)) && Preserves(h.settled, Dispatch(h, line).settled)
  {
    hide ParseReply;
    DispatchKeepsOrder(h, line);
    DispatchKeepsTimers(h, line);
    hide Ordered;
    if h.pending != [] {
      assert h.pending[0] in h.pending;
    }
  }

  lemma {:induction false} DispatchAllKeeps(h: Handle, lines: seq<string>)
    requires Consistent(h)
    ensures Consistent(DispatchAll(h, lines)) && Preserves(h.settled, DispatchAll(h, lines).settled)
    ensures DispatchAll(h, lines).buffered == h.buffered && DispatchAll(h, lines).next == h.next
    ensures DispatchAll(h, lines).exited == h.exited
    decreases |lines|
  {
    hide Consistent;
    if lines != [] {
      DispatchKeeps(h, lines[0]);
      DispatchAllKeeps(Dispatch(h, lines[0]), lines[1..]);
    }
  }

  lemma {:induction false} WithoutRemoves(pending: seq<RequestId>, id: RequestId)
    requires Increasing(pending)
    ensures Increasing(Without(pending, id))
    ensures forall p :: p in Without(pending, id) <==> p in pending && p != id
  {
    if pending != [] {
      var rest := pending[1..];
      assert pending == [pending[0]] + rest;
      WithoutRemoves(rest, id);
      if pending[0] != id {
        var out := [pending[0]] + Without(rest, id);
        forall i, j | 0 <= i < j < |out|
          ensures out[i] < out[j]
        {
          assert i == 0 ==> out[j] in Without(rest, id) && out[j] in rest;
        }
      }
    }
  }

  lemma RemovalKeeps(h: Handle, id: RequestId, s: Settlement)
    requires Consistent(h) && id < h.next
    ensures Consistent(h.(pending := Without(h.pending, id), armed := h.armed - {id},
                          settled := Settle(h.settled, id, s)))
  {
    WithoutRemoves(h.pending, id);
  }

  lemma {:induction false} SettleAllSettles(settled: map<RequestId, Settlement>, ids: seq<RequestId>, s: Settlement)
    ensures Preserves(settled, SettleAll(settled, ids, s))
    ensures SettleAll(settled, ids, s).Keys == settled.Keys + set id | id in ids
    decreases |ids|
  {
    if ids != [] {
      SettleAllSettles(Settle(settled, ids[0], s), ids[1..], s);
      assert ids == [ids[0]] + ids[1..];
    }
  }

  lemma RequestKeeps(h: Handle, stdin: bool)
    requires Consistent(h)
    ensures Consistent(Step(h, Request(stdin))) && Preserves(h.settled, Step(h, Request(stdin)).settled)
  {
    var id := h.next;
    var later := Step(h, Request(stdin));
    if !h.exited && stdin {
      assert forall p | p in h.pending :: p in h.armed && p < id;
      IncreasingSnoc(h.pending, id);
      assert forall a | a in h.answered :: a in h.settled && a < id;
    }
  }

  lemma OutputKeeps(h: Handle, chunk: string)
    requires Consistent(h)
    ensures Consistent(Step(h, Stdout(chunk))) && Preserves(h.settled, Step(h, Stdout(chunk)).settled)
    ensures Step(h, Stdout(chunk)).exited == h.exited
  {
    hide Lines, Tail, DispatchAll;
    var text := h.buffered + chunk;
    TailHasNoNewline(text);
    DispatchAllKeeps(h.(buffered := ""), Lines(text));
  }

  lemma ExitKeeps(h: Handle)
    requires Consistent(h)
    ensures Consistent(Step(h, Exit)) && Preserves(h.settled, Step(h, Exit).settled)
  {
    SettleAllSettles(h.settled, h.pending, ShimExited);
  }

  /** Every event keeps the handle consistent and every settlement as it is. */
  lemma StepKeeps(h: Handle, e: Event)
    requires Consistent(h) && Enabled(h, e)
    ensures Consistent(Step(h, e)) && Preserves(h.settled, Step(h, e).settled)
    ensures h.exited ==> Step(h, e).exited
  {
    match e
    case Request(stdin) => RequestKeeps(h, stdin);
    case Stdout(chunk) => OutputKeeps(h, chunk);
    case Timeout(id) => RemovalKeeps(h, id, TimedOut);
    case WriteError(id) => RemovalKeeps(h, id, WriteFailed);
    case Exit => ExitKeeps(h);
  }

  /** In every reachable state a request is unsettled if and only if it is pending if and only
      if its timer is armed; after exit nothing is unsettled. */
  lemma {:induction false} ReachableIsConsistent(events: seq<Event>)
    requires Possible(events)
    ensures Consistent(After(events))
    ensures forall id: RequestId | id < After(events).next ::
      (id !in After(events).settled <==> id in After(events).pending)
      && (id in After(events).pending <==> id in After(events).armed)
    ensures After(events).exited ==> forall id: RequestId | id < After(events).next :: id in After(events).settled
    decreases |events|
  {
    hide Step;
    if events != [] {
      var earlier := events[..|events| - 1];
      ReachableIsConsistent(earlier);
      StepKeeps(After(earlier), events[|events| - 1]);
    }
  }

  /** A settlement is final over the rest of the run: every request settles at most once, and
      by the time the shim has exited exactly once. */
  lemma {:induction false} SettledOnce(events: seq<Event>, n: nat)
    requires Possible(events) && n <= |events|
    ensures Possible(events[..n])
    ensures Preserves(After(events[..n]).settled, After(events).settled)
    ensures After(events[..n]).exited ==> After(events).exited
    decreases |events|
  {
    hide Step, Consistent;
    if n == |events| {
      assert events[..n] == events;
    } else {
      var earlier := events[..|events| - 1];
      assert earlier[..n] == events[..n];
      SettledOnce(earlier, n);
      ReachableIsConsistent(earlier);
      StepKeeps(After(earlier), events[|events| - 1]);
    }
  }

  /** A request made after exit is rejected at once. */
  lemma RejectedAfterExit(events: seq<Event>, stdin: bool)
    requires Possible(events) && After(events).exited
    ensures var h := Step(After(events), Request(stdin));
      h.settled == After(events).settled[After(events).next := AlreadyExited] && h.pending == []
  {
    hide After;
    ReachableIsConsistent(events);
  }

  // ---------- chunking ----------

  lemma {:induction false} DispatchConcat(h: Handle, a: seq<string>, b: seq<string>)
    ensures DispatchAll(h, a + b) == DispatchAll(DispatchAll(h, a), b)
    decreases |a|
  {
    hide Dispatch;
    if a == [] {
      assert a + b == b;
    } else {
      assert (a + b)[1..] == a[1..] + b;
      DispatchConcat(Dispatch(h, a[0]), a[1..], b);
    }
  }

  lemma {:induction false} DispatchLeavesBuffer(h: Handle, lines: seq<string>)
    ensures DispatchAll(h, lines).buffered == h.buffered
    decreases |lines|
  {
    if lines != [] {
      DispatchLeavesBuffer(Dispatch(h, lines[0]), lines[1..]);
    }
  }

  /** Two chunks do what their concatenation does. */
  lemma ChunksMerge(h: Handle, a: string, b: string)
    requires '\n' !in h.buffered
    ensures Step(Step(h, Stdout(a)), Stdout(b)) == Step(h, Stdout(a + b))
  {
    hide DispatchAll, Lines, Tail;
    var text := h.buffered + a;
    var clean := h.(buffered := "");
    var middle := DispatchAll(clean, Lines(text));
    Feed(text, b);
    DispatchConcat(clean, Lines(text), Lines(Tail(text) + b));
    DispatchLeavesBuffer(clean, Lines(text));
    assert middle.(buffered := Tail(text)).(buffered := "") == middle;
    assert text + b == h.buffered + (a + b);
  }

  // ---------- pairing ----------

  function OutputOf(e: Event): string {
    match e
    case Stdout(chunk) => chunk
    case _ => ""
  }

  function Output(events: seq<Event>): string {
    if events == [] then "" else Output(events[..|events| - 1]) + OutputOf(events[|events| - 1])
  }

  function Requests(events: seq<Event>): nat {
    if events == [] then 0
    else Requests(events[..|events| - 1]) + if events[|events| - 1].Request? then 1 else 0
  }

  /** A run of requests and replies in which no reply line precedes its request. */
  predicate Orderly(events: seq<Event>) {
    events == []
    || (&& Orderly(events[..|events| - 1])
        && (events[|events| - 1].Stdout? || events[|events| - 1] == Request(true))
        && |Lines(Output(events))| <= Requests(events))
  }

  function UpTo(lo: nat, hi: nat): seq<RequestId>
    requires lo <= hi
  {
    seq(hi - lo, i requires 0 <= i => lo + i)
  }

  /** The first `|lines|` requests are settled, each by the line in its place. */
  ghost predicate Paired(h: Handle, lines: seq<string>) {
    && !h.exited && |lines| <= h.next
    && h.pending == UpTo(|lines|, h.next)
    && h.answered == UpTo(0, |lines|)
    && (forall id: RequestId :: id in h.settled <==> id < |lines|)
    && (forall k | 0 <= k < |lines| :: h.settled[k] == ParseReply(lines[k]))
  }

  lemma DispatchPairs(h: Handle, lines: seq<string>, line: string)
    requires Paired(h, lines) && |lines| < h.next
    ensures Paired(Dispatch(h, line), lines + [line])
  {
    hide ParseReply;
    var n := |lines|;
    assert h.pending[0] == n && h.pending[1..] == UpTo(n + 1, h.next);
    assert UpTo(0, n) + [n] == UpTo(0, n + 1);
  }

  lemma {:induction false} DispatchAllPairs(h: Handle, lines: seq<string>, more: seq<string>)
    requires Paired(h, lines) && |lines| + |more| <= h.next
    ensures Paired(DispatchAll(h, more), lines + more)
    decreases |more|
  {
    hide Paired;
    if more == [] {
      assert lines + more == lines;
    } else {
      DispatchPairs(h, lines, more[0]);
      assert Dispatch(h, more[0]).next == h.next;
      DispatchAllPairs(Dispatch(h, more[0]), lines + [more[0]], more[1..]);
      assert (lines + [more[0]]) + more[1..] == lines + more;
    }
  }

  lemma RequestPairs(h: Handle, lines: seq<string>)
    requires Paired(h, lines)
    ensures Paired(Step(h, Request(true)), lines)
  {
    hide ParseReply;
    assert UpTo(|lines|, h.next) + [h.next] == UpTo(|lines|, h.next + 1);
  }

  /** With no timeout, write failure or exit, and each reply following its request, the k-th
      line of the output settles the k-th request. */
  lemma {:induction false} LinesPairWithRequests(events: seq<Event>)
    requires Orderly(events)
    ensures Possible(events)
    ensures After(events).next == Requests(events) && After(events).buffered == Tail(Output(events))
    ensures Paired(After(events), Lines(Output(events)))
    decreases |events|
  {
    hide Lines, Tail, DispatchAll, Paired;
    if events == [] {
      NothingPaired();
    } else {
      var earlier, e := events[..|events| - 1], events[|events| - 1];
      var text := Output(earlier);
      LinesPairWithRequests(earlier);
      var h := After(earlier);
      match e
      case Stdout(chunk) =>
        var clean := h.(buffered := "");
        var more := Lines(Tail(text) + chunk);
        Feed(text, chunk);
        BufferIsFree(h, "", Lines(text));
        DispatchAllPairs(clean, Lines(text), more);
        DispatchLeavesNext(clean, more);
        BufferIsFree(DispatchAll(clean, more), Tail(Output(events)), Lines(text) + more);
      case Request(_) =>
        assert text + "" == text;
        RequestPairs(h, Lines(text));
    }
  }

  lemma {:induction false} DispatchLeavesNext(h: Handle, lines: seq<string>)
    ensures DispatchAll(h, lines).next == h.next
    decreases |lines|
  {
    if lines != [] {
      DispatchLeavesNext(Dispatch(h, lines[0]), lines[1..]);
    }
  }

  lemma BufferIsFree(h: Handle, buffered: string, lines: seq<string>)
    requires Paired(h, lines)
    ensures Paired(h.(buffered := buffered), lines)
  {
    hide ParseReply;
  }

  lemma NothingPaired()
    ensures Lines("") == [] && Tail("") == "" && Paired(SPAWNED, [])
  {
  }

  // ---------- exact pairing ----------

  /** The request each line settles, or None for a line nobody waits for. */
  function TargetsOf(h: Handle, lines: seq<string>): seq<Option<RequestId>>
    decreases |lines|
  {
    if lines == [] then []
    else [if h.pending == [] then None else Some(h.pending[0])] + TargetsOf(Dispatch(h, lines[0]), lines[1..])
  }

  /** The same for every line of a run. */
  function Targets(events: seq<Event>): seq<Option<RequestId>> {
    if events == [] then []
    else
      var before, e := events[..|events| - 1], events[|events| - 1];
      match e
      case Stdout(chunk) =>
        var h := After(before);
        Targets(before) + TargetsOf(h.(buffered := ""), Lines(h.buffered + chunk))
      case _ => Targets(before)
  }

  /** The requests among the targets, in order. */
  function Hits(targets: seq<Option<RequestId>>): seq<RequestId> {
    if targets == [] then []
    else (if targets[0].Some? then [targets[0].value] else []) + Hits(targets[1..])
  }

  lemma {:induction false} HitsConcat(a: seq<Option<RequestId>>, b: seq<Option<RequestId>>)
    ensures Hits(a + b) == Hits(a) + Hits(b)
    decreases |a|
  {
    if a == [] {
      assert a + b == b;
    } else {
      assert (a + b)[1..] == a[1..] + b;
      HitsConcat(a[1..], b);
    }
  }

  /** The request a line settles is settled by that line. */
  ghost predicate SettledBy(settled: map<RequestId, Settlement>, targets: seq<Option<RequestId>>, lines: seq<string>) {
    && |targets| == |lines|
    && forall k | 0 <= k < |lines| && targets[k].Some? ::
        targets[k].value in settled && settled[targets[k].value] == ParseReply(lines[k])
  }

  lemma FirstTarget(h: Handle, line: string)
    requires Consistent(h) && h.pending != []
    ensures var id := h.pending[0]; var later := Dispatch(h, line);
      id in later.settled && later.settled[id] == ParseReply(line) && later.answered == h.answered + [id]
  {
    hide ParseReply;
    assert h.pending[0] in h.pending;
  }

  lemma {:induction false} DispatchTargets(h: Handle, lines: seq<string>)
    requires Consistent(h)
    ensures var later := DispatchAll(h, lines);
      && later.answered == h.answered + Hits(TargetsOf(h, lines))
      && SettledBy(later.settled, TargetsOf(h, lines), lines)
    decreases |lines|
  {
    hide Consistent, ParseReply;
    if lines == [] {
      assert h.answered + [] == h.answered;
    } else {
      var next := Dispatch(h, lines[0]);
      var targets, rest := TargetsOf(h, lines), TargetsOf(next, lines[1..]);
      DispatchKeeps(h, lines[0]);
      DispatchTargets(next, lines[1..]);
      DispatchAllKeeps(next, lines[1..]);
      assert targets[1..] == rest;
      if h.pending != [] {
        FirstTarget(h, lines[0]);
        PrependConcat(h.answered, [h.pending[0]], Hits(rest));
      } else {
        assert [] + Hits(rest) == Hits(rest);
      }
    }
  }

  lemma SettledByMore(settled: map<RequestId, Settlement>, later: map<RequestId, Settlement>,
                      targets: seq<Option<RequestId>>, lines: seq<string>)
    requires SettledBy(settled, targets, lines) && Preserves(settled, later)
    ensures SettledBy(later, targets, lines)
  {
  }

  lemma SettledByBoth(settled: map<RequestId, Settlement>, a: seq<Option<RequestId>>, x: seq<string>,
                      b: seq<Option<RequestId>>, y: seq<string>)
    requires SettledBy(settled, a, x) && SettledBy(settled, b, y)
    ensures SettledBy(settled, a + b, x + y)
  {
  }

  /** Over every run, with any timeouts, write failures, exits and stray lines: the lines are
      those of the output, the k-th target is settled by the k-th line, and the targets in turn
      are the answered requests. */
  lemma {:induction false} LinesHitTargets(events: seq<Event>)
    requires Possible(events)
    ensures After(events).buffered == Tail(Output(events))
    ensures SettledBy(After(events).settled, Targets(events), Lines(Output(events)))
    ensures Hits(Targets(events)) == After(events).answered
    decreases |events|
  {
    hide Lines, Tail, DispatchAll, TargetsOf, SettledBy, Consistent, Preserves, ParseReply;
    if events == [] {
      NothingHit();
    } else {
      var before, e := events[..|events| - 1], events[|events| - 1];
      LinesHitTargets(before);
      ReachableIsConsistent(before);
      var h := After(before);
      StepKeeps(h, e);
      SettledByMore(h.settled, Step(h, e).settled, Targets(before), Lines(Output(before)));
      match e
      case Stdout(chunk) =>
        var clean := h.(buffered := "");
        var more := Lines(h.buffered + chunk);
        BufferFreeConsistent(h);
        DispatchTargets(clean, more);
        DispatchLeavesBuffer(clean, more);
        Feed(Output(before), chunk);
        SettledByBoth(Step(h, e).settled, Targets(before), Lines(Output(before)), TargetsOf(clean, more), more);
        HitsConcat(Targets(before), TargetsOf(clean, more));
      case _ =>
        assert Output(before) + "" == Output(before);
        OtherEventsAnswerNothing(h, e);
    }
  }

  lemma NothingHit()
    ensures Lines("") == [] && Tail("") == "" && SettledBy(map[], [], [])
  {
  }

  lemma BufferFreeConsistent(h: Handle)
    requires Consistent(h)
    ensures Consistent(h.(buffered := ""))
  {
  }

  lemma OtherEventsAnswerNothing(h: Handle, e: Event)
    requires !e.Stdout?
    ensures Step(h, e).answered == h.answered && Step(h, e).buffered == h.buffered
  {
  }

  /** No request was removed before a younger one was answered. */
  ghost predicate NoneSkipped(answered: seq<RequestId>) {
    forall a, id: RequestId | a in answered && id < a :: id in answered
  }

  lemma {:induction false} GaplessAt(answered: seq<RequestId>, k: nat)
    requires Increasing(answered) && NoneSkipped(answered) && k < |answered|
    ensures answered[k] == k
    decreases k
  {
    AtLeastIndex(answered, k);
    if answered[k] > k {
      assert answered[k] in answered && k in answered;
      var j :| 0 <= j < |answered| && answered[j] == k;
      if j < k {
        GaplessAt(answered, j);
      }
    }
  }

  /** An increasing list without gaps counts from zero. */
  lemma GaplessCounts(answered: seq<RequestId>)
    requires Increasing(answered)
    ensures NoneSkipped(answered) <==> forall k | 0 <= k < |answered| :: answered[k] == k
  {
    if NoneSkipped(answered) {
      forall k | 0 <= k < |answered|
        ensures answered[k] == k
      {
        GaplessAt(answered, k);
      }
    } else if forall k | 0 <= k < |answered| :: answered[k] == k {
      forall a, id: RequestId | a in answered && id < a
        ensures id in answered
      {
        assert answered[id] == id;
      }
    }
  }

  lemma {:induction false} AtLeastIndex(ids: seq<RequestId>, k: nat)
    requires Increasing(ids) && k < |ids|
    ensures k <= ids[k]
  {
    if k > 0 {
      AtLeastIndex(ids, k - 1);
    }
  }

  lemma {:induction false} AllHit(targets: seq<Option<RequestId>>)
    ensures |Hits(targets)| <= |targets|
    ensures |Hits(targets)| == |targets| <==> forall k | 0 <= k < |targets| :: targets[k].Some?
    ensures |Hits(targets)| == |targets| ==> forall k | 0 <= k < |targets| :: targets[k] == Some(Hits(targets)[k])
  {
    if targets != [] {
      AllHit(targets[1..]);
    }
  }

  /** Exactly when the k-th line settles the k-th request, over all runs: when every line met a
      waiting request and no request was removed, by a timeout, a write failure or a missing
      stdin, before a younger one was answered. */
  lemma PairsExactly(events: seq<Event>)
    requires Possible(events)
    ensures |Targets(events)| == |Lines(Output(events))|
    ensures (forall k | 0 <= k < |Targets(events)| :: Targets(events)[k] == Some(k)) <==>
      (forall k | 0 <= k < |Targets(events)| :: Targets(events)[k].Some?) && NoneSkipped(After(events).answered)
  {
    hide Lines, Targets, After, Hits, NoneSkipped;
    var targets, answered := Targets(events), After(events).answered;
    LinesHitTargets(events);
    ReachableIsConsistent(events);
    AllHit(targets);
    GaplessCounts(answered);
  }

  /** In every reachable state with a waiting request, the next line pairs with the request of
      its number exactly when every older request was answered by a line. */
  lemma NextLinePairs(events: seq<Event>)
    requires Possible(events) && After(events).pending != []
    ensures var h := After(events);
      h.pending[0] == |h.answered| <==> forall id: RequestId | id < h.pending[0] :: id in h.answered
  {
    hide After;
    var h := After(events);
    ReachableIsConsistent(events);
    var longer := h.answered + [h.pending[0]];
    assert h.pending[0] in h.pending;
    IncreasingSnoc(h.answered, h.pending[0]);
    if forall id: RequestId | id < h.pending[0] :: id in h.answered {
      forall a, id: RequestId | a in longer && id < a
        ensures id in longer
      {
      }
      GaplessCounts(longer);
      assert longer[|h.answered|] == h.pending[0];
    } else if h.pending[0] == |h.answered| {
      BoundedCounts(h.answered, h.pending[0]);
      forall id: RequestId | id < h.pending[0]
        ensures id in h.answered
      {
        assert h.answered[id] == id;
      }
    }
  }

  /** `n` increasing numbers below `n` are all of them. */
  lemma {:induction false} BoundedCounts(ids: seq<RequestId>, n: nat)
    requires Increasing(ids) && |ids| == n && forall id | id in ids :: id < n
    ensures forall k | 0 <= k < n :: ids[k] == k
    decreases n
  {
    if n > 0 {
      var init := ids[..n - 1];
      assert ids == init + [ids[n - 1]];
      AtLeastIndex(ids, n - 1);
      assert ids[n - 1] in ids;
      forall id | id in init
        ensures id < n - 1
      {
        var j :| 0 <= j < n - 1 && init[j] == id;
        assert ids[j] < ids[n - 1];
      }
      BoundedCounts(init, n - 1);
    }
  }

  /** A timeout removes its request but not the reply on its way: that reply then settles the
      next request. */
  lemma LateReplyGoesToTheNextRequest(reply: string)
    requires '\n' !in reply
    ensures var events := [Request(true), Request(true), Timeout(0), Stdout(reply + "\n")];
      Possible(events) && After(events).settled == map[0 := TimedOut, 1 := ParseReply(reply)]
  {
    hide ParseReply;
    var e0, e1, e2, e3 := Request(true), Request(true), Timeout(0), Stdout(reply + "\n");
    var h1 := Handle(1, [0], {0}, map[], [], "", false);
    var h2 := Handle(2, [0, 1], {0, 1}, map[], [], "", false);
    var h3 := Handle(2, [1], {1}, map[0 := TimedOut], [], "", false);
    assert [] + [0] == [0] && {} + {0} == {0};
    assert Step(SPAWNED, e0) == h1;
    assert Step(h1, e1) == h2;
    assert Without([0, 1], 0) == [1];
    assert Step(h2, e2) == h3;
    OneLine(reply);
    assert "" + (reply + "\n") == reply + "\n";
    assert Step(h3, e3).settled == map[0 := TimedOut, 1 := ParseReply(reply)] by {
      hide Lines, Tail;
      assert DispatchAll(h3, [reply]) == DispatchAll(Dispatch(h3, reply), [reply][1..]);
    }
    RunOfFour(e0, e1, e2, e3);
  }

  lemma OneLine(line: string)
    requires '\n' !in line
    ensures Lines(line + "\n") == [line]
  {
    hide IndexOf, Lines;
    var text := line + "\n";
    IndexOfAfter(line, "\n", '\n');
    NextLine(text);
    assert text[..|line|] == line && text[|line| + 1..] == "";
    NextLine("");
  }

  lemma RunOfFour(e0: Event, e1: Event, e2: Event, e3: Event)
    ensures var events := [e0, e1, e2, e3];
      && After(events) == Step(Step(Step(Step(SPAWNED, e0), e1), e2), e3)
      && (Possible(events) <==>
           && Enabled(SPAWNED, e0) && Enabled(Step(SPAWNED, e0), e1)
           && Enabled(Step(Step(SPAWNED, e0), e1), e2)
           && Enabled(Step(Step(Step(SPAWNED, e0), e1), e2), e3))
  {
    hide Step, Enabled;
    var events := [e0, e1, e2, e3];
    assert events[..3] == [e0, e1, e2] && [e0, e1, e2][..2] == [e0, e1] && [e0, e1][..1] == [e0];
    assert [e0][..0] == [];
    assert After([e0]) == Step(SPAWNED, e0);
    assert After([e0, e1]) == Step(After([e0]), e1);
    assert After([e0, e1, e2]) == Step(After([e0, e1]), e2);
    assert Possible([e0]) <==> Enabled(SPAWNED, e0);
    assert Possible([e0, e1]) <==> Possible([e0]) && Enabled(After([e0]), e1);
    assert Possible([e0, e1, e2]) <==> Possible([e0, e1]) && Enabled(After([e0, e1]), e2);
  }

  // ---------- how requests settle ----------

  /** In every reachable state a printed value on a line of its own settles the oldest waiting request
      with that value, and nothing else. */
  lemma ReplySettles(events: seq<Event>, v: Json)
    requires Possible(events) && After(events).pending != [] && After(events).buffered == "" && Valid(v)
    ensures var h := After(events); var later := Step(h, Stdout(Print(v) + "\n"));
      later.settled == h.settled[h.pending[0] := Reply(v)] && later.pending == h.pending[1..]
  {
    hide After, Print, Valid, ParseJson;
    ReachableIsConsistent(events);
    PrintHasNoBreak(v);
    ParsePrint(v);
    assert After(events).pending[0] in After(events).pending;
    OneLineSettles(After(events), Print(v));
  }

  /** So does a line that is no JSON, as unparseable. */
  lemma UnparseableSettles(events: seq<Event>, line: string)
    requires Possible(events) && After(events).pending != [] && After(events).buffered == ""
    requires '\n' !in line && ParseJson(line) == None
    ensures var h := After(events); var later := Step(h, Stdout(line + "\n"));
      later.settled == h.settled[h.pending[0] := Unparseable(line)] && later.pending == h.pending[1..]
  {
    hide After, ParseJson;
    ReachableIsConsistent(events);
    assert After(events).pending[0] in After(events).pending;
    OneLineSettles(After(events), line);
  }

  lemma OneLineSettles(h: Handle, line: string)
    requires h.pending != [] && h.buffered == "" && '\n' !in line && h.pending[0] !in h.settled
    ensures var later := Step(h, Stdout(line + "\n"));
      later.settled == h.settled[h.pending[0] := ParseReply(line)] && later.pending == h.pending[1..]
  {
    hide ParseReply, Lines, Tail;
    OneLine(line);
    assert "" + (line + "\n") == line + "\n";
    var clean := h.(buffered := "");
    assert DispatchAll(clean, [line]) == DispatchAll(Dispatch(clean, line), [line][1..]);
  }

  /** In every reachable state: what each other event settles, and with what. */
  lemma EventSettles(events: seq<Event>, e: Event)
    requires Possible(events) && Enabled(After(events), e)
    ensures var h := After(events); var settled := Step(h, e).settled;
      match e
      case Request(stdin) =>
        settled == if h.exited then h.settled[h.next := AlreadyExited]
                   else if !stdin then h.settled[h.next := NoStdin]
                   else h.settled
      case Timeout(id) => settled == h.settled[id := TimedOut]
      case WriteError(id) => settled == if id in h.pending then h.settled[id := WriteFailed] else h.settled
      case Exit =>
        && (forall id | id in h.pending :: id in settled && settled[id] == ShimExited)
        && (forall id | id !in h.pending :: id in settled <==> id in h.settled)
        && Preserves(h.settled, settled)
      case Stdout(_) => true
  {
    hide After, DispatchAll;
    var h := After(events);
    ReachableIsConsistent(events);
    if e.Exit? {
      assert forall id | id in h.pending :: id !in h.settled;
      SettleAllGives(h.settled, h.pending, ShimExited);
    }
  }

  lemma {:induction false} SettleAllGives(settled: map<RequestId, Settlement>, ids: seq<RequestId>, s: Settlement)
    ensures Preserves(settled, SettleAll(settled, ids, s))
    ensures SettleAll(settled, ids, s).Keys == settled.Keys + set id | id in ids
    ensures forall id | id in ids && id !in settled :: SettleAll(settled, ids, s)[id] == s
    decreases |ids|
  {
    SettleAllSettles(settled, ids, s);
    if ids != [] {
      SettleAllGives(Settle(settled, ids[0], s), ids[1..], s);
      assert ids == [ids[0]] + ids[1..];
    }
  }

  // ---------- the handle itself ----------

  /** The variables `spawnShim` closes over, and one method per event. */
  class ShimHandle {
    var next: RequestId
    var pending: seq<RequestId>
    var armed: set<RequestId>
    var settled: map<RequestId, Settlement>
    ghost var answered: seq<RequestId>
    var buffered: string
    var exited: bool
    var kills: nat
    ghost var strayKills: nat

    ghost function State(): Handle
      reads this
    {
      Handle(next, pending, armed, settled, answered, buffered, exited)
    }

    /** Besides, a process that has exited is never killed, by a timeout or by disposal. */
    ghost predicate Valid()
      reads this
    {
      Consistent(State()) && strayKills == 0
    }

    constructor ()
      ensures Valid() && State() == SPAWNED && kills == 0
    {
      next, pending, armed, settled := 0, [], {}, map[];
      answered, buffered, exited, kills, strayKills := [], "", false, 0, 0;
    }

    method FailAll(error: Settlement)
      modifies this`pending, this`armed, this`settled
      ensures pending == []
      ensures settled == SettleAll(old(settled), old(pending), error)
      ensures armed == old(armed) - (set id | id in old(pending))
    {
      var entries := pending;
      pending := [];
      for i := 0 to |entries|
        invariant SettleAll(settled, entries[i..], error) == SettleAll(old(settled), entries, error)
        invariant armed == old(armed) - (set id | id in entries[..i])
        invariant pending == []
      {
        assert entries[i..][1..] == entries[i + 1..];
        assert entries[..i + 1] == entries[..i] + [entries[i]];
        armed := armed - {entries[i]};
        settled := Settle(settled, entries[i], error);
      }
      assert entries[..|entries|] == entries;
    }

    method MakeRequest(stdin: bool) returns (id: RequestId)
      requires Valid()
      modifies this
      ensures Valid() && State() == Step(old(State()), Request(stdin))
      ensures id == old(next) && kills == old(kills)
    {
      StepKeeps(State(), Request(stdin));
      id := next;
      next := next + 1;
      if exited {
        settled := Settle(settled, id, AlreadyExited);
        return;
      }
      armed := armed + {id};
      pending := pending + [id];
      if !stdin {
        armed := armed - {id};
        pending := pending[..|pending| - 1];
        settled := Settle(settled, id, NoStdin);
      }
    }

    /** `pending.shift()` and what follows it in the data handler. */
    method Answer(line: string)
      modifies this`pending, this`armed, this`settled, this`answered
      ensures State() == Dispatch(old(State()), line)
    {
      hide ParseReply;
      if pending != [] {
        var entry := pending[0];
        pending := pending[1..];
        armed := armed - {entry};
        settled := Settle(settled, entry, ParseReply(line));
        answered := answered + [entry];
      }
    }

    method OnStdout(chunk: string)
      requires Valid()
      modifies this
      ensures Valid() && State() == Step(old(State()), Stdout(chunk))
      ensures kills == old(kills)
    {
      StepKeeps(State(), Stdout(chunk));
      hide Consistent, DispatchAll, Dispatch, IndexOf, Lines, Tail;
      buffered := buffered + chunk;
      ghost var text := buffered;
      ghost var goal := DispatchAll(old(State()).(buffered := ""), Lines(text));
      var newline := IndexOf(buffered, '\n');
      while newline != -1
        invariant newline == IndexOf(buffered, '\n') && kills == old(kills) && strayKills == 0
        invariant DispatchAll(State().(buffered := ""), Lines(buffered)) == goal
        invariant Tail(buffered) == Tail(text)
        decreases |buffered|
      {
        NextLine(buffered);
        var line := buffered[..newline];
        DispatchNext(State(), line, Lines(buffered[newline + 1..]));
        buffered := buffered[newline + 1..];
        newline := IndexOf(buffered, '\n');
        Answer(line);
      }
      NextLine(buffered);
      DispatchNothing(State().(buffered := ""));
    }

    method OnTimeout(id: RequestId)
      requires Valid() && id in armed
      modifies this
      ensures Valid() && State() == Step(old(State()), Timeout(id))
      ensures kills == old(kills) + 1 && !exited
    {
      StepKeeps(State(), Timeout(id));
      TimersStopAtExit(State(), id);
      armed := armed - {id};
      pending := Without(pending, id);
      Kill();
      settled := Settle(settled, id, TimedOut);
    }

    method OnWriteError(id: RequestId)
      requires Valid() && id < next
      modifies this
      ensures Valid() && State() == Step(old(State()), WriteError(id))
      ensures kills == old(kills)
    {
      StepKeeps(State(), WriteError(id));
      pending := Without(pending, id);
      armed := armed - {id};
      settled := Settle(settled, id, WriteFailed);
    }

    method OnExit()
      requires Valid()
      modifies this
      ensures Valid() && State() == Step(old(State()), Exit)
      ensures kills == old(kills)
    {
      StepKeeps(State(), Exit);
      exited := true;
      FailAll(ShimExited);
    }

    /** `child.kill()` */
    method Kill()
      modifies this`kills, this`strayKills
      ensures kills == old(kills) + 1
      ensures strayKills == old(strayKills) + if exited then 1 else 0
    {
      kills := kills + 1;
      if exited {
        strayKills := strayKills + 1;
      }
    }

    /** Disposal settles nothing by itself: what is pending waits for the exit that follows. */
    method Dispose()
      requires Valid()
      modifies this`kills, this`strayKills
      ensures Valid() && State() == old(State())
      ensures kills == if exited then old(kills) else old(kills) + 1
    {
      if !exited {
        Kill();
      }
    }
  }

  /** No timer is armed once the process has exited. */
  lemma TimersStopAtExit(h: Handle, id: RequestId)
    requires Consistent(h) && id in h.armed
    ensures !h.exited
  {
  }

  /** Dispatching neither reads nor writes the buffer. */
  lemma DispatchNext(h: Handle, line: string, more: seq<string>)
    ensures DispatchAll(h.(buffered := ""), [line] + more)
         == DispatchAll(Dispatch(h, line).(buffered := ""), more)
    ensures forall text :: Dispatch(h.(buffered := text), line) == Dispatch(h, line).(buffered := text)
  {
    assert ([line] + more)[1..] == more;
    assert Dispatch(h.(buffered := ""), line) == Dispatch(h, line).(buffered := "");
  }

  lemma DispatchNothing(h: Handle)
    ensures DispatchAll(h, []) == h
  {
  }
}
