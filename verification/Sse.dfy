/** Server-sent events as src/backends/llama-server.mts reads them. */
module Sse {
  import opened Text
  import opened Framing
  import opened JsonText

  /** What one line means: nothing, a delta, an event without text, the end of the stream,
      or a `null` payload, whose property access throws. */
  datatype SseEvent = NoEvent | Delta(text: string) | Textless | Done | Throws

  /** `value?.[key]`, where `key` may be an array index. Strings and numbers have none of the
      properties read here. */
  function Field(v: Option<Json>, key: string): Option<Json> {
    match v
    case Some(Obj(members)) => Lookup(members, key)
    case Some(Arr(items)) => if key == "0" && items != [] then Some(items[0]) else None
    case _ => None
  }

  function Lookup(members: seq<Member>, key: string): Option<Json> {
    if members == [] then None
    else if members[0].key == key then Some(members[0].value)
    else Lookup(members[1..], key)
  }

  function ParseSseLine(line: string): SseEvent {
    var trimmed := Trim(line);
    if !("data:" <= trimmed) then NoEvent
    else
      var payload := Trim(trimmed[5..]);
      if payload == "[DONE]" then Done
      else
        match ParseJson(payload)
        case None => NoEvent
        case Some(Null) => Throws
        case Some(v) =>
          match Field(Field(Field(Field(Some(v), "choices"), "0"), "delta"), "content")
          case Some(Str(text)) => Delta(text)
          case _ => Textless
  }

  /** How a run of `streamChat` ends. */
  datatype Ending = Reading | Finished | Threw | Stopped

  datatype Yielded = Yielded(deltas: seq<string>, ending: Ending)

  /** The deltas of the lines before the first `[DONE]` (or the first line that throws). */
  function Deltas(lines: seq<string>): Yielded {
    if lines == [] then Yielded([], Reading)
    else
      match ParseSseLine(lines[0])
      case Done => Yielded([], Finished)
      case Throws => Yielded([], Threw)
      case Delta(text) =>
        var more := Deltas(lines[1..]);
        Yielded([text] + more.deltas, more.ending)
      case _ => Deltas(lines[1..])
  }

  lemma {:induction false} DeltasConcat(a: seq<string>, b: seq<string>)
    ensures Deltas(a).ending != Reading ==> Deltas(a + b) == Deltas(a)
    ensures Deltas(a).ending == Reading ==>
      Deltas(a + b) == Yielded(Deltas(a).deltas + Deltas(b).deltas, Deltas(b).ending)
  {
    hide ParseSseLine;
    if a == [] {
      assert a + b == b;
    } else {
      assert (a + b)[1..] == a[1..] + b;
      DeltasConcat(a[1..], b);
    }
  }

  /** The response body: the chunks it delivers, then its end or a read error. */
  class BodyReader {
    const chunks: seq<string>
    const fails: bool
    var next: nat
    var releases: nat

    constructor (chunks: seq<string>, fails: bool)
      ensures this.chunks == chunks && this.fails == fails && next == 0 && releases == 0
    {
      this.chunks, this.fails, next, releases := chunks, fails, 0, 0;
    }

    method ReleaseLock()
      modifies this`releases
      ensures releases == old(releases) + 1
    {
      releases := releases + 1;
    }
  }

  /** What a whole body yields: the lines its newlines end, then the unterminated rest. */
  function BodyDeltas(text: string, fails: bool): Yielded {
    var lines := Deltas(Lines(text));
    if lines.ending != Reading then lines
    else if fails then Yielded(lines.deltas, Threw)
    else
      var all := Deltas(Lines(text) + [Tail(text)]);
      if all.ending == Reading then Yielded(all.deltas, Finished) else all
  }

  /** What a consumer takes that stops after the delta with the number `limit`, if it gets so
      far; without a limit it takes everything. */
  function Consumed(all: Yielded, limit: Option<nat>): Yielded {
    if limit.Some? && limit.value <= |all.deltas| then Yielded(all.deltas[..limit.value], Stopped) else all
  }

  lemma SplitLine(done: seq<string>, buffer: string)
    requires IndexOf(buffer, '\n') != -1
    ensures var newline := IndexOf(buffer, '\n');
      && done + Lines(buffer) == (done + [buffer[..newline]]) + Lines(buffer[newline + 1..])
      && Tail(buffer) == Tail(buffer[newline + 1..])
  {
    hide Lines, Tail, IndexOf;
    NextLine(buffer);
    var newline := IndexOf(buffer, '\n');
    PrependConcat(done, [buffer[..newline]], Lines(buffer[newline + 1..]));
  }

  /** One more line of a stream that is still being read. */
  lemma DeltasSnoc(done: seq<string>, line: string)
    requires Deltas(done).ending == Reading
    ensures Deltas(done + [line]) == (match ParseSseLine(line)
      case Done => Yielded(Deltas(done).deltas, Finished)
      case Throws => Yielded(Deltas(done).deltas, Threw)
      case Delta(text) => Yielded(Deltas(done).deltas + [text], Reading)
      case _ => Deltas(done))
  {
    hide ParseSseLine;
    DeltasConcat(done, [line]);
    assert [line][1..] == [];
    assert Deltas([line][1..]) == Yielded([], Reading);
    var deltas := Deltas(done).deltas;
    assert deltas + [] == deltas;
  }

  /** Once a prefix of the body ends the stream, the rest of it changes nothing. */
  lemma {:induction false} EndedEarly(chunks: seq<string>, n: nat)
    requires n <= |chunks| && Deltas(Lines(Flatten(chunks[..n]))).ending != Reading
    ensures Deltas(Lines(Flatten(chunks))) == Deltas(Lines(Flatten(chunks[..n])))
    decreases |chunks| - n
  {
    hide Lines, Deltas, Flatten, Tail;
    if n == |chunks| {
      assert chunks[..n] == chunks;
    } else {
      var text := Flatten(chunks[..n]);
      assert chunks[..n + 1] == chunks[..n] + [chunks[n]];
      FlattenSnoc(chunks[..n], chunks[n]);
      Feed(text, chunks[n]);
      DeltasConcat(Lines(text), Lines(Tail(text) + chunks[n]));
      EndedEarly(chunks, n + 1);
    }
  }

  lemma {:induction false} LinesGrow(chunks: seq<string>, n: nat)
    requires n <= |chunks|
    ensures Lines(Flatten(chunks[..n])) <= Lines(Flatten(chunks))
    decreases |chunks| - n
  {
    hide Lines, Flatten, Tail;
    if n == |chunks| {
      assert chunks[..n] == chunks;
    } else {
      assert chunks[..n + 1] == chunks[..n] + [chunks[n]];
      FlattenSnoc(chunks[..n], chunks[n]);
      Feed(Flatten(chunks[..n]), chunks[n]);
      LinesGrow(chunks, n + 1);
    }
  }

  /** What the first lines of a body yield is the beginning of what it yields. */
  lemma YieldedSoFar(text: string, fails: bool, done: seq<string>)
    requires done <= Lines(text) && Deltas(done).ending == Reading
    ensures Deltas(done).deltas <= BodyDeltas(text, fails).deltas
  {
    hide Deltas, Lines, Tail;
    DeltasConcat(done, Lines(text)[|done|..]);
    assert done + Lines(text)[|done|..] == Lines(text);
    DeltasConcat(Lines(text), [Tail(text)]);
  }

  /** A consumer that has taken its last delta stops the generator there. */
  lemma StopsHere(chunks: seq<string>, fails: bool, n: nat, done: seq<string>)
    requires n <= |chunks| && done <= Lines(Flatten(chunks[..n])) && Deltas(done).ending == Reading
    ensures var deltas := Deltas(done).deltas;
      Consumed(BodyDeltas(Flatten(chunks), fails), Some(|deltas|)) == Yielded(deltas, Stopped)
  {
    hide Deltas, Lines, Flatten, BodyDeltas;
    LinesGrow(chunks, n);
    YieldedSoFar(Flatten(chunks), fails, done);
  }

  /** The framing loop. The deltas depend on the chunks only through their concatenation, and
      the lock is released once however the run ends, by the stream, by an error or by a
      consumer that stops. */
  method StreamChat(reader: BodyReader, limit: Option<nat>) returns (deltas: seq<string>, ending: Ending)
    requires reader.next == 0 && limit != Some(0)
    modifies reader
    ensures Yielded(deltas, ending) == Consumed(BodyDeltas(Flatten(reader.chunks), reader.fails), limit)
    ensures reader.releases == old(reader.releases) + 1
  {
    deltas, ending := ReadBody(reader, limit);
    reader.ReleaseLock();
  }

  /** The `try` block of the loop. */
  method ReadBody(reader: BodyReader, limit: Option<nat>) returns (deltas: seq<string>, ending: Ending)
    requires reader.next == 0 && limit != Some(0)
    modifies reader`next
    ensures Yielded(deltas, ending) == Consumed(BodyDeltas(Flatten(reader.chunks), reader.fails), limit)
  {
    hide Lines, Tail, Deltas, Flatten, IndexOf, ParseSseLine;
    deltas := [];
    var buffer := "";
    assert Deltas(Lines("")) == Yielded([], Reading) && Tail("") == "" && Flatten([]) == "" by {
      NothingRead();
    }
    assert reader.chunks[..0] == [];
    while reader.next < |reader.chunks|
      invariant reader.next <= |reader.chunks|
      invariant Deltas(Lines(Flatten(reader.chunks[..reader.next]))) == Yielded(deltas, Reading)
      invariant buffer == Tail(Flatten(reader.chunks[..reader.next]))
      invariant limit.Some? ==> |deltas| < limit.value
      decreases |reader.chunks| - reader.next
    {
      var chunk := reader.chunks[reader.next];
      ghost var before := Flatten(reader.chunks[..reader.next]);
      ghost var after := before + chunk;
      ghost var done := Lines(before);
      ghost var read := reader.next + 1;
      assert reader.chunks[..reader.next + 1] == reader.chunks[..reader.next] + [chunk];
      FlattenSnoc(reader.chunks[..reader.next], chunk);
      Feed(before, chunk);
      reader.next := reader.next + 1;
      buffer := buffer + chunk;
      var newlineIndex := IndexOf(buffer, '\n');
      while newlineIndex != -1
        invariant reader.next == read <= |reader.chunks| && after == Flatten(reader.chunks[..reader.next])
        invariant newlineIndex == IndexOf(buffer, '\n')
        invariant done + Lines(buffer) == Lines(after) && Tail(buffer) == Tail(after)
        invariant Deltas(done) == Yielded(deltas, Reading)
        invariant limit.Some? ==> |deltas| < limit.value
        decreases |buffer|
      {
        SplitLine(done, buffer);
        var line := buffer[..newlineIndex];
        buffer := buffer[newlineIndex + 1..];
        DeltasSnoc(done, line);
        done := done + [line];
        DeltasConcat(done, Lines(buffer));
        match ParseSseLine(line) {
          case Done =>
            EndedEarly(reader.chunks, reader.next);
            return deltas, Finished;
          case Throws =>
            EndedEarly(reader.chunks, reader.next);
            return deltas, Threw;
          case Delta(text) =>
            deltas := deltas + [text];
            if limit == Some(|deltas|) {
              StopsHere(reader.chunks, reader.fails, reader.next, done);
              return deltas, Stopped;
            }
          case _ =>
        }
        newlineIndex := IndexOf(buffer, '\n');
      }
      NextLine(buffer);
      assert done + [] == done;
    }
    assert reader.chunks[..reader.next] == reader.chunks;
    if reader.fails {
      return deltas, Threw;
    }
    DeltasSnoc(Lines(Flatten(reader.chunks)), buffer);
    match ParseSseLine(buffer) {
      case Delta(text) =>
        deltas := deltas + [text];
        if limit == Some(|deltas|) {
          return deltas, Stopped;
        }
      case Throws => return deltas, Threw;
      case _ =>
    }
    ending := Finished;
  }

  lemma NothingRead()
    ensures Deltas(Lines("")) == Yielded([], Reading) && Tail("") == "" && Flatten([]) == ""
  {
  }

  /** Nothing is yielded after the first `[DONE]`, whatever follows it. */
  lemma NothingAfterDone(before: seq<string>, done: string, after: seq<string>)
    requires Deltas(before).ending == Reading && ParseSseLine(done) == Done
    ensures Deltas(before + [done] + after) == Yielded(Deltas(before).deltas, Finished)
  {
    hide Deltas, ParseSseLine;
    DeltasSnoc(before, done);
    DeltasConcat(before + [done], after);
  }

  // ---------- a null payload ----------

  /** A `data:` line whose payload is the JSON value `null`. */
  predicate HasNullPayload(line: string) {
    var trimmed := Trim(line);
    "data:" <= trimmed && ParseJson(Trim(trimmed[5..])) == Some(Null)
  }

  predicate IsDone(line: string) {
    var trimmed := Trim(line);
    "data:" <= trimmed && Trim(trimmed[5..]) == "[DONE]"
  }

  lemma LineKinds(line: string)
    ensures ParseSseLine(line) == Throws <==> HasNullPayload(line)
    ensures ParseSseLine(line) == Done <==> IsDone(line)
  {
    hide Trim, ParseJson;
    DoneIsNoJson();
  }

  lemma DoneIsNoJson()
    ensures ParseJson("[DONE]") == None
  {
    var rest := "DONE]";
    assert "[DONE]"[1..] == rest && SkipWs(rest) == rest && rest[0] == 'D';
    assert ParseValue(rest) == Fail by {
      assert NumberChars(rest) == 0;
      assert rest[..0] == "";
    }
    assert ParseItems(rest) == Fail;
  }

  /** Some line has a `null` payload, and no line before it ends the stream. */
  ghost predicate NullComesFirst(lines: seq<string>) {
    exists i | 0 <= i < |lines| :: HasNullPayload(lines[i]) && forall j | 0 <= j < i :: !IsDone(lines[j])
  }

  /** Reading lines throws if and only if one of them has a `null` payload and no line before it
      ends the stream. */
  lemma {:induction false} ThrowsOnNull(lines: seq<string>)
    ensures Deltas(lines).ending == Threw <==> NullComesFirst(lines)
    decreases |lines|
  {
    hide ParseSseLine, HasNullPayload, IsDone;
    if lines != [] {
      var rest := lines[1..];
      LineKinds(lines[0]);
      ThrowsOnNull(rest);
      if HasNullPayload(lines[0]) {
        assert HasNullPayload(lines[0]);
      } else if !IsDone(lines[0]) {
        if i :| 0 <= i < |rest| && HasNullPayload(rest[i]) && forall j | 0 <= j < i :: !IsDone(rest[j]) {
          assert lines[i + 1] == rest[i];
          assert forall j | 0 < j <= i :: lines[j] == rest[j - 1];
        }
        if i :| 0 <= i < |lines| && HasNullPayload(lines[i]) && forall j | 0 <= j < i :: !IsDone(lines[j]) {
          assert rest[i - 1] == lines[i];
          assert forall j | 0 <= j < i - 1 :: rest[j] == lines[j + 1];
        }
      }
    }
  }

  /** A body that does not fail while it is read makes `streamChat` throw if and only if such a
      line is among its lines, the unterminated last one included. */
  lemma BodyThrowsOnNull(text: string)
    ensures BodyDeltas(text, false).ending == Threw <==> NullComesFirst(Lines(text) + [Tail(text)])
  {
    hide Deltas, Lines, Tail, NullComesFirst;
    DeltasConcat(Lines(text), [Tail(text)]);
    ThrowsOnNull(Lines(text) + [Tail(text)]);
  }

  lemma NullPayload()
    ensures ParseSseLine("data: null") == Throws
  {
    var line := "data: null";
    VisibleEndsTrim(line);
    assert line[5..] == " null";
    TrimIgnoresFirst(" null");
    assert " null"[1..] == "null";
    VisibleEndsTrim("null");
    assert "null"[4..] == "";
  }
}
