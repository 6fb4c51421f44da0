/** What the bodies of streamed chat completions yield: the contents of their chunks. */
module SseLaws {
  import opened Text
  import opened Framing
  import opened JsonText
  import opened JsonPrint
  import opened JsonKeys
  import opened JsonPipelineLaws
  import opened Sse

  // ---------- the content of a chunk ----------

  /** `w` is the value of the member `key`, or the first item of an array where `key` is `0`. */
  predicate Holds(v: Json, key: string, w: Json) {
    || (v.Obj? && Member(key, w) in v.members)
    || (v.Arr? && key == "0" && v.items != [] && v.items[0] == w)
  }

  /** The chunk's first choice has a delta whose content is the string `text`. */
  ghost predicate HasContent(chunk: Json, text: string) {
    exists choices, first, delta ::
      && Holds(chunk, "choices", choices) && Holds(choices, "0", first)
      && Holds(first, "delta", delta) && Holds(delta, "content", Str(text))
  }

  lemma {:induction false} LookupFinds(members: seq<Member>, key: string)
    requires DistinctKeys(members)
    ensures forall w :: Lookup(members, key) == Some(w) <==> Member(key, w) in members
  {
    if members != [] {
      var rest := members[1..];
      assert members == [members[0]] + rest;
      LookupFinds(rest, key);
      forall m | m in rest
        ensures m.key != members[0].key
      {
        var i :| 0 <= i < |rest| && rest[i] == m;
        assert members[i + 1] == m;
      }
    }
  }

  lemma FieldHolds(v: Json, key: string)
    requires KeysDistinct(v)
    ensures forall w :: Field(Some(v), key) == Some(w) <==> Holds(v, key, w)
    ensures Field(Some(v), key).Some? ==> KeysDistinct(Field(Some(v), key).value)
  {
    hide Lookup;
    if v.Obj? {
      LookupFinds(v.members, key);
      if Lookup(v.members, key).Some? {
        assert Member(key, Lookup(v.members, key).value) in v.members;
      }
    }
  }

  /** The chain of optional property accesses reads that content, and nothing else. */
  lemma ContentIsRead(chunk: Json, text: string)
    requires KeysDistinct(chunk)
    ensures Field(Field(Field(Field(Some(chunk), "choices"), "0"), "delta"), "content") == Some(Str(text))
       <==> HasContent(chunk, text)
  {
    hide Field, Holds, KeysDistinct;
    assert Field(None, "0") == None && Field(None, "delta") == None && Field(None, "content") == None by {
      NoField();
    }
    var choices := Field(Some(chunk), "choices");
    FieldHolds(chunk, "choices");
    if choices.Some? {
      var first := Field(choices, "0");
      FieldHolds(choices.value, "0");
      if first.Some? {
        var delta := Field(first, "delta");
        FieldHolds(first.value, "delta");
        if delta.Some? {
          FieldHolds(delta.value, "content");
        }
      }
    }
  }

  lemma NoField()
    ensures forall key :: Field(None, key) == None
  {
  }

  // ---------- single lines ----------

  /** A line is a delta if and only if it is a `data:` line whose payload is a JSON value with that
      content. */
  lemma DeltaExactly(line: string, text: string)
    ensures ParseSseLine(line) == Delta(text) <==>
      && "data:" <= Trim(line)
      && var payload := ParseJson(Trim(Trim(line)[5..]));
         payload.Some? && HasContent(payload.value, text)
  {
    hide Trim, ParseJson, Field, HasContent;
    DoneIsNoJson();
    if "data:" <= Trim(line) {
      var payload := ParseJson(Trim(Trim(line)[5..]));
      if payload.Some? {
        ParsedJsonDistinct(Trim(Trim(line)[5..]));
        ContentIsRead(payload.value, text);
        NullHasNone(text);
      }
    }
  }

  lemma NullHasNone(text: string)
    ensures !HasContent(Null, text)
  {
  }

  /** What a chunk carries: a text, or none. */
  ghost predicate Carries(chunk: Json, text: Option<string>) {
    match text
    case Some(t) => HasContent(chunk, t)
    case None => forall t :: !HasContent(chunk, t)
  }

  /** The line of a printed chunk, whatever white space is around its parts, is the delta of its
      content, and an event without text if it has none. */
  lemma PrintedChunk(before: string, ws: string, chunk: Json, after: string, text: Option<string>)
    requires Valid(chunk) && chunk.Obj? && Blank(before) && Blank(ws) && Blank(after) && Carries(chunk, text)
    ensures var line := before + ("data:" + (ws + Print(chunk))) + after;
      match text
      case Some(t) => ParseSseLine(line) == Delta(t)
      case None => var e := ParseSseLine(line); !e.Delta? && !e.Done? && !e.Throws?
  {
    hide Print, ParseJson, Trim, HasContent, TrimStart, TrimEnd, IsSpace, ParseSseLine, Valid;
    var data := "data:" + (ws + Print(chunk));
    var line := before + data + after;
    ChunkIsVisible(ws, chunk);
    TrimAroundObject(before, data, after);
    BlankTrims(before);
    BlankTrimsEnd(after);
    assert "" + data + "" == data && data[5..] == ws + Print(chunk);
    TrimAroundObject(ws, Print(chunk), "");
    BlankTrims(ws);
    assert TrimEnd("") == "" by {
      BlankTrimsEnd("");
    }
    assert "" + Print(chunk) + "" == Print(chunk) && ws + Print(chunk) + "" == ws + Print(chunk);
    ParsePrint(chunk);
    LineKinds(line);
    DoneIsNoJson();
    if text.Some? {
      DeltaExactly(line, text.value);
    } else if ParseSseLine(line).Delta? {
      DeltaExactly(line, ParseSseLine(line).text);
    }
  }

  lemma ChunkIsVisible(ws: string, chunk: Json)
    requires Valid(chunk) && chunk.Obj?
    ensures var printed := Print(chunk); var data := "data:" + (ws + printed);
      && printed != [] && !IsSpace(printed[0]) && !IsSpace(printed[|printed| - 1])
      && !IsSpace(data[0]) && !IsSpace(data[|data| - 1])
  {
    hide Print, Valid, ParseValue;
    ReadsBack(chunk, "");
    assert Print(chunk) + "" == Print(chunk);
    PrintOpens(chunk);
    VisibleObject(Print(chunk), chunk);
    var data := "data:" + (ws + Print(chunk));
    assert data[|data| - 1] == Print(chunk)[|Print(chunk)| - 1];
  }

  lemma PrintOpens(chunk: Json)
    requires chunk.Obj?
    ensures Print(chunk) != [] && Print(chunk)[0] == '{'
  {
    hide PrintMembers;
  }

  // ---------- whole bodies ----------

  function ChunkLine(chunk: Json): string {
    "data: " + Print(chunk)
  }

  /** Every chunk on a `data:` line of its own, each followed by a blank line. */
  function ChunkBody(chunks: seq<Json>): string {
    if chunks == [] then "" else ChunkLine(chunks[0]) + ("\n" + ("\n" + ChunkBody(chunks[1..])))
  }

  function ChunkLines(chunks: seq<Json>): seq<string> {
    if chunks == [] then [] else [ChunkLine(chunks[0]), ""] + ChunkLines(chunks[1..])
  }

  /** The texts that are there, in order. */
  function Present(texts: seq<Option<string>>): seq<string> {
    if texts == [] then []
    else (if texts[0].Some? then [texts[0].value] else []) + Present(texts[1..])
  }

  ghost predicate AllCarry(chunks: seq<Json>, texts: seq<Option<string>>) {
    && |texts| == |chunks|
    && forall k | 0 <= k < |chunks| :: Valid(chunks[k]) && chunks[k].Obj? && Carries(chunks[k], texts[k])
  }

  lemma OneLine(line: string, more: string)
    requires '\n' !in line
    ensures Lines(line + ("\n" + more)) == [line] + Lines(more) && Tail(line + ("\n" + more)) == Tail(more)
  {
    hide IndexOf, Lines, Tail;
    var text := line + ("\n" + more);
    IndexOfAfter(line, "\n" + more, '\n');
    NextLine(text);
    assert text[..|line|] == line && text[|line| + 1..] == more;
  }

  lemma LineOfChunk(chunk: Json, text: Option<string>)
    requires Valid(chunk) && chunk.Obj? && Carries(chunk, text)
    ensures '\n' !in ChunkLine(chunk)
    ensures match text
      case Some(t) => ParseSseLine(ChunkLine(chunk)) == Delta(t)
      case None => var e := ParseSseLine(ChunkLine(chunk)); !e.Delta? && !e.Done? && !e.Throws?
  {
    hide Print, ParseSseLine, Valid, Carries;
    PrintHasNoBreak(chunk);
    PrintedChunk("", " ", chunk, "", text);
    assert "" + ("data:" + (" " + Print(chunk))) + "" == ChunkLine(chunk);
  }

  lemma {:induction false} BodyLines(chunks: seq<Json>, texts: seq<Option<string>>, rest: string)
    requires AllCarry(chunks, texts)
    ensures Lines(ChunkBody(chunks) + rest) == ChunkLines(chunks) + Lines(rest)
    ensures Tail(ChunkBody(chunks) + rest) == Tail(rest)
    decreases |chunks|
  {
    hide ChunkLine, Lines, Tail, Valid, Carries;
    if chunks == [] {
      assert "" + rest == rest && [] + Lines(rest) == Lines(rest);
    } else {
      var line, more := ChunkLine(chunks[0]), ChunkBody(chunks[1..]) + rest;
      LineOfChunk(chunks[0], texts[0]);
      BodyLines(chunks[1..], texts[1..], rest);
      assert ChunkBody(chunks) + rest == line + ("\n" + ("\n" + more));
      OneLine(line, "\n" + more);
      OneLine("", more);
      assert "" + ("\n" + more) == "\n" + more;
      assert [line] + ([""] + (ChunkLines(chunks[1..]) + Lines(rest))) == ChunkLines(chunks) + Lines(rest);
    }
  }

  lemma {:induction false} LinesYield(chunks: seq<Json>, texts: seq<Option<string>>)
    requires AllCarry(chunks, texts)
    ensures Deltas(ChunkLines(chunks)) == Yielded(Present(texts), Reading)
    decreases |chunks|
  {
    hide ChunkLine, ParseSseLine, Valid, Carries;
    if chunks != [] {
      var rest := ChunkLines(chunks[1..]);
      LineOfChunk(chunks[0], texts[0]);
      LinesYield(chunks[1..], texts[1..]);
      BlankLine();
      assert ChunkLines(chunks)[1..] == [""] + rest && ([""] + rest)[1..] == rest;
    }
  }

  lemma BlankLine()
    ensures ParseSseLine("") == NoEvent
  {
  }

  /** A body of printed chunks yields exactly their contents, in order: up to the end marker,
      whatever follows it, and without one up to the end of the body or a read error. */
  lemma BodyYieldsContents(chunks: seq<Json>, texts: seq<Option<string>>, rest: string, fails: bool)
    requires AllCarry(chunks, texts)
    ensures BodyDeltas(ChunkBody(chunks) + ("data: [DONE]" + ("\n" + rest)), fails) == Yielded(Present(texts), Finished)
    ensures BodyDeltas(ChunkBody(chunks), fails) == Yielded(Present(texts), if fails then Threw else Finished)
  {
    hide ChunkBody, ChunkLines, Deltas, Lines, Tail, Present, AllCarry, ParseSseLine;
    var done := "data: [DONE]";
    var more := done + ("\n" + rest);
    BodyLines(chunks, texts, more);
    BodyLines(chunks, texts, "");
    LinesYield(chunks, texts);
    OneLine(done, rest);
    DoneLine();
    NothingAfterDone(ChunkLines(chunks), done, Lines(rest));
    assert ChunkLines(chunks) + ([done] + Lines(rest)) == ChunkLines(chunks) + [done] + Lines(rest);
    NothingRead();
    assert Lines("") == [] && ChunkBody(chunks) + "" == ChunkBody(chunks)
        && ChunkLines(chunks) + [] == ChunkLines(chunks) by {
      NextLine("");
    }
    BlankLine();
    DeltasSnoc(ChunkLines(chunks), "");
  }

  lemma DoneLine()
    ensures ParseSseLine("data: [DONE]") == Done
  {
    var line := "data: [DONE]";
    VisibleEndsTrim(line);
    assert line[5..] == " [DONE]";
    TrimIgnoresFirst(" [DONE]");
    assert " [DONE]"[1..] == "[DONE]";
    VisibleEndsTrim("[DONE]");
  }

  /** A last chunk whose line is not terminated counts, unless the body fails before its end. */
  lemma LastLineCounts(chunks: seq<Json>, texts: seq<Option<string>>, last: Json, text: string, fails: bool)
    requires AllCarry(chunks, texts) && Valid(last) && last.Obj? && HasContent(last, text)
    ensures BodyDeltas(ChunkBody(chunks) + ChunkLine(last), fails)
      == if fails then Yielded(Present(texts), Threw) else Yielded(Present(texts) + [text], Finished)
  {
    hide ChunkBody, ChunkLines, Deltas, Lines, Tail, Present, AllCarry, ParseSseLine, ChunkLine, HasContent, Valid;
    LineOfChunk(last, Some(text));
    BodyLines(chunks, texts, ChunkLine(last));
    LinesYield(chunks, texts);
    NextLine(ChunkLine(last));
    assert ChunkLines(chunks) + [] == ChunkLines(chunks);
    DeltasSnoc(ChunkLines(chunks), ChunkLine(last));
  }
}
