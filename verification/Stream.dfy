/** Streaming of src/stream.mts: the merge of cumulative and delta chunks, and the loop that
    reads a stream under an abort signal. */
module Stream {
  import opened Framing

  // ---------- merging ----------

  function MergeStreamChunk(raw: string, chunk: string): string {
    if |chunk| > |raw| && raw <= chunk then chunk else raw + chunk
  }

  function Merged(chunks: seq<string>): string {
    if chunks == [] then "" else MergeStreamChunk(Merged(chunks[..|chunks| - 1]), chunks[|chunks| - 1])
  }

  method MergeChunks(chunks: seq<string>) returns (raw: string)
    ensures raw == Merged(chunks)
  {
    raw := "";
    for i := 0 to |chunks|
      invariant raw == Merged(chunks[..i])
    {
      assert chunks[..i + 1][..i] == chunks[..i];
      raw := MergeStreamChunk(raw, chunks[i]);
    }
    assert chunks[..|chunks|] == chunks;
  }

  lemma MergedSnoc(chunks: seq<string>, chunk: string)
    ensures Merged(chunks + [chunk]) == MergeStreamChunk(Merged(chunks), chunk)
  {
    assert (chunks + [chunk])[..|chunks|] == chunks;
  }

  /** What has been accumulated is never taken back. */
  lemma {:induction false} MergedGrows(chunks: seq<string>, n: nat)
    requires n <= |chunks|
    ensures Merged(chunks[..n]) <= Merged(chunks)
    decreases |chunks|
  {
    if n == |chunks| {
      assert chunks[..n] == chunks;
    } else {
      var init := chunks[..|chunks| - 1];
      assert init[..n] == chunks[..n];
      MergedGrows(init, n);
    }
  }

  /** Of strictly growing snapshots the last one remains. */
  lemma {:induction false} SnapshotsKeepTheLast(chunks: seq<string>)
    requires chunks != []
    requires forall i | 0 < i < |chunks| :: chunks[i - 1] < chunks[i]
    ensures Merged(chunks) == chunks[|chunks| - 1]
    decreases |chunks|
  {
    var init, last := chunks[..|chunks| - 1], chunks[|chunks| - 1];
    if init == [] {
      assert Merged(init) == "";
    } else {
      SnapshotsKeepTheLast(init);
      assert chunks[|chunks| - 2] < chunks[|chunks| - 1];
    }
  }

  /** The chunk at `i` is taken for a snapshot: it strictly extends accumulated text. */
  predicate Replaces(chunks: seq<string>, i: nat)
    requires i < |chunks|
  {
    Merged(chunks[..i]) != "" && Merged(chunks[..i]) < chunks[i]
  }

  lemma {:induction false} MergedIsNoLonger(chunks: seq<string>)
    ensures |Merged(chunks)| <= |Flatten(chunks)|
    ensures |Merged(chunks)| == |Flatten(chunks)| ==> Merged(chunks) == Flatten(chunks)
    ensures |Merged(chunks)| == |Flatten(chunks)| <==> forall i | 0 <= i < |chunks| :: !Replaces(chunks, i)
    decreases |chunks|
  {
    if chunks != [] {
      var init, n := chunks[..|chunks| - 1], |chunks| - 1;
      MergedIsNoLonger(init);
      forall i | 0 <= i < n
        ensures Replaces(init, i) == Replaces(chunks, i)
      {
        assert init[..i] == chunks[..i];
      }
      if Merged(init) != "" && Merged(init) < chunks[n] {
        assert Replaces(chunks, n);
      } else {
        assert Merged(init) == "" ==> Merged(init) + chunks[n] == chunks[n];
        assert !Replaces(chunks, n);
      }
    }
  }

  /** Deltas are concatenated exactly when none of them strictly extends the non-empty text
      accumulated before it. */
  lemma DeltasConcatenate(chunks: seq<string>)
    ensures Merged(chunks) == Flatten(chunks) <==> forall i | 0 <= i < |chunks| :: !Replaces(chunks, i)
  {
    hide Replaces;
    MergedIsNoLonger(chunks);
  }

  // ---------- reading under an abort signal ----------

  /** How a pending `next()` settles. */
  datatype Next = Value(chunk: string) | End | Fails

  /** One turn of the loop as the environment makes it: whether the signal is aborted when
      the loop tests it, aborts before `next()` settles, or is aborted once the loop resumes;
      and whether the early-field callback throws if it is called. */
  datatype Turn = Turn(before: bool, first: bool, next: Next, after: bool, throws: bool)

  predicate Aborted(t: Turn) {
    t.before || t.first || (!t.next.Fails? && t.after)
  }

  /** How a run ends, or that it still waits for `next()`. */
  datatype Outcome = Waiting | Returned(aborted: bool) | Threw

  /** Whether a text completes an early field. */
  type Matcher = string -> bool

  class PromptStream {
    var raw: string
    var reportedField: bool
    var reports: seq<string>
    var cancels: nat
    var releases: nat
    ghost var delivered: seq<string>
    const matches: Matcher

    constructor (matches: Matcher)
      ensures this.matches == matches && Fresh()
    {
      this.matches := matches;
      raw, reportedField, reports, cancels, releases, delivered := "", false, [], 0, 0, [];
    }

    ghost predicate Fresh()
      reads this
    {
      raw == "" && !reportedField && reports == [] && cancels == 0 && releases == 0 && delivered == []
    }

    /** The text is the merge of the chunks delivered so far, and the callback has seen the
        first text that matches, and nothing else. */
    ghost predicate Valid()
      reads this
    {
      && raw == Merged(delivered)
      && (reportedField <==> reports != [])
      && |reports| <= 1
      && (!reportedField ==> NoMatch(matches, delivered))
      && (reportedField ==> FirstMatch(matches, delivered, reports[0]))
    }

    method OnChunk(chunk: string, throws: bool) returns (threw: bool)
      requires Valid()
      modifies this`raw, this`reportedField, this`reports, this`delivered
      ensures Valid() && delivered == old(delivered) + [chunk]
      ensures threw <==> throws && FirstMatchNow(matches, delivered)
      ensures threw ==> reports == [raw]
    {
      hide Merged, FirstMatch, NoMatch, FirstMatchNow;
      FirstNow(matches, delivered, chunk);
      if reportedField {
        MatchedAlready(matches, delivered, reports[0]);
      }
      MergedSnoc(delivered, chunk);
      MatchSnoc(matches, delivered, chunk, if reports == [] then "" else reports[0]);
      raw := MergeStreamChunk(raw, chunk);
      delivered := delivered + [chunk];
      if !reportedField && matches(raw) {
        reportedField := true;
        reports := reports + [raw];
        return throws;
      }
      threw := false;
    }

    /** `consumeStream` with the callback of `streamPrompt`, over the turns the environment
        takes. The reader is released once and cancelled once unless it was read to its end;
        chunks are delivered in order, none once the signal is aborted. */
    method ConsumeStream(turns: seq<Turn>) returns (outcome: Outcome)
      requires Fresh()
      modifies this
      ensures Valid()
      ensures outcome != Waiting ==> releases == 1
      ensures outcome != Waiting ==> cancels == if outcome == Returned(false) then 0 else 1
      ensures outcome == Waiting ==> releases == 0 && cancels == 0 && |delivered| == |turns|
      ensures |delivered| <= |turns|
      ensures forall k | 0 <= k < |delivered| :: turns[k].next == Value(delivered[k]) && !Aborted(turns[k])
      ensures outcome == Returned(false) ==>
        |delivered| < |turns| && turns[|delivered|].next == End && !Aborted(turns[|delivered|])
      ensures outcome == Returned(true) ==> |delivered| < |turns| && Aborted(turns[|delivered|])
      ensures outcome == Threw ==>
        || (|delivered| < |turns| && turns[|delivered|].next.Fails? && !Aborted(turns[|delivered|]))
        || (delivered != [] && turns[|delivered| - 1].throws && reports == [raw])
      ensures forall k | 0 <= k < |delivered| && turns[k].throws && ReportsAt(matches, delivered, k) ::
        outcome == Threw && k == |delivered| - 1
    {
      var completed: bool;
      outcome, completed := ReadTurns(turns);
      if outcome != Waiting {
        if !completed {
          cancels := cancels + 1;
        }
        releases := releases + 1;
      }
    }

    /** The `try` block. */
    method ReadTurns(turns: seq<Turn>) returns (outcome: Outcome, completed: bool)
      requires Fresh()
      modifies this`raw, this`reportedField, this`reports, this`delivered
      ensures Valid()
      ensures completed <==> outcome == Returned(false)
      ensures |delivered| <= |turns|
      ensures outcome == Waiting ==> |delivered| == |turns|
      ensures forall k | 0 <= k < |delivered| :: turns[k].next == Value(delivered[k]) && !Aborted(turns[k])
      ensures outcome == Returned(false) ==>
        |delivered| < |turns| && turns[|delivered|].next == End && !Aborted(turns[|delivered|])
      ensures outcome == Returned(true) ==> |delivered| < |turns| && Aborted(turns[|delivered|])
      ensures outcome == Threw ==>
        || (|delivered| < |turns| && turns[|delivered|].next.Fails? && !Aborted(turns[|delivered|]))
        || (delivered != [] && turns[|delivered| - 1].throws && reports == [raw])
      ensures forall k | 0 <= k < |delivered| && turns[k].throws && ReportsAt(matches, delivered, k) ::
        outcome == Threw && k == |delivered| - 1
    {
      hide FirstMatchNow, ReportsAt, FirstMatch, NoMatch, Merged, MergeStreamChunk;
      NothingMatches();
      completed := false;
      for i := 0 to |turns|
        invariant Valid() && |delivered| == i
        invariant forall k | 0 <= k < i :: turns[k].next == Value(delivered[k]) && !Aborted(turns[k])
        invariant forall k | 0 <= k < i && turns[k].throws :: !ReportsAt(matches, delivered, k)
      {
        var turn := turns[i];
        if turn.before || turn.first {
          return Returned(true), false;
        }
        if turn.next.Fails? {
          return Threw, false;
        }
        if turn.after {
          return Returned(true), false;
        }
        if turn.next.End? {
          return Returned(false), true;
        }
        ghost var before := delivered;
        var threw := OnChunk(turn.next.chunk, turn.throws);
        ReportsSnoc(matches, before, turn.next.chunk);
        if threw {
          return Threw, false;
        }
      }
      outcome := Waiting;
    }
  }

  /** `text` is the first accumulated text that matches. */
  ghost predicate FirstMatch(matches: Matcher, chunks: seq<string>, text: string) {
    exists n | 0 < n <= |chunks| ::
      && text == Merged(chunks[..n]) && matches(text)
      && forall m | 0 < m < n :: !matches(Merged(chunks[..m]))
  }

  /** The text accumulated now matches, and none did before. */
  ghost predicate FirstMatchNow(matches: Matcher, chunks: seq<string>) {
    chunks != [] && matches(Merged(chunks)) && NoMatch(matches, chunks[..|chunks| - 1])
  }

  lemma FirstNow(matches: Matcher, chunks: seq<string>, chunk: string)
    ensures var longer := chunks + [chunk];
      FirstMatchNow(matches, longer) <==> matches(Merged(longer)) && NoMatch(matches, chunks)
  {
    assert (chunks + [chunk])[..|chunks|] == chunks;
  }

  lemma NothingMatches()
    ensures Merged([]) == "" && forall matches :: NoMatch(matches, [])
  {
  }

  lemma MatchedAlready(matches: Matcher, chunks: seq<string>, text: string)
    requires FirstMatch(matches, chunks, text)
    ensures !NoMatch(matches, chunks)
  {
  }

  /** The chunk at `k` is the one whose text matches first. */
  ghost predicate ReportsAt(matches: Matcher, chunks: seq<string>, k: nat)
    requires k < |chunks|
  {
    FirstMatchNow(matches, chunks[..k + 1])
  }

  lemma ReportsSnoc(matches: Matcher, chunks: seq<string>, chunk: string)
    ensures var longer := chunks + [chunk];
      && (forall k | 0 <= k < |chunks| :: ReportsAt(matches, longer, k) == ReportsAt(matches, chunks, k))
      && ReportsAt(matches, longer, |chunks|) == FirstMatchNow(matches, longer)
  {
    hide FirstMatchNow;
    var longer := chunks + [chunk];
    assert longer[..|chunks| + 1] == longer;
    forall k | 0 <= k < |chunks|
      ensures ReportsAt(matches, longer, k) == ReportsAt(matches, chunks, k)
    {
      assert longer[..k + 1] == chunks[..k + 1];
    }
  }

  ghost predicate NoMatch(matches: Matcher, chunks: seq<string>) {
    forall n | 0 < n <= |chunks| :: !matches(Merged(chunks[..n]))
  }

  lemma MatchSnoc(matches: Matcher, chunks: seq<string>, chunk: string, text: string)
    ensures var longer, now := chunks + [chunk], Merged(chunks + [chunk]);
      && (FirstMatch(matches, chunks, text) ==> FirstMatch(matches, longer, text))
      && (NoMatch(matches, chunks) && matches(now) ==> FirstMatch(matches, longer, now))
      && (NoMatch(matches, chunks) && !matches(now) ==> NoMatch(matches, longer))
  {
    hide Merged;
    var longer := chunks + [chunk];
    assert longer[..|longer|] == longer;
    assert forall n | 0 <= n <= |chunks| :: longer[..n] == chunks[..n];
  }
}
