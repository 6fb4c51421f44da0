/** Which control-token templates survive being parsed, printed and parsed again, told from the
    template's own lines. */
module ControlTokensTemplates {
  import opened Text
  import opened ControlTokens
  import opened ControlTokensLaws

  // ---------- the blocks of a template ----------

  /** The line lists of the blocks in `rest`, with `lines` those of a block already open. */
  function BlocksIn(open: bool, lines: seq<string>, rest: seq<string>): seq<seq<string>>
    decreases |rest|
  {
    var closed := if open then [lines] else [];
    if rest == [] then closed
    else if RoleByToken(Trim(rest[0])).Some? then closed + BlocksIn(true, [], rest[1..])
    else if Trim(rest[0]) == END then closed + BlocksIn(false, [], rest[1..])
    else BlocksIn(open, if open then lines + [rest[0]] else lines, rest[1..])
  }

  function BlocksOf(template: string): seq<seq<string>> {
    BlocksIn(false, [], SplitLines(template))
  }

  predicate HasVisible(lines: seq<string>) {
    exists i | 0 <= i < |lines| :: !Blank(lines[i])
  }

  /** A line of the block other than the last still ends with a carriage return, after its line
      break was taken off, and there is visible text up to it and after it. */
  predicate KeepsCr(block: seq<string>) {
    exists i | 0 < i < |block| :: KeepsCrAt(block, i)
  }

  predicate KeepsCrAt(block: seq<string>, i: nat)
    requires 0 < i < |block|
  {
    StripCr(block[i - 1]) != block[i - 1] && HasVisible(block[..i]) && HasVisible(block[i..])
  }

  // ---------- what a block's content keeps ----------

  lemma BlankConcat(a: string, b: string)
    ensures Blank(a + b) <==> Blank(a) && Blank(b)
  {
    assert forall c | c in a :: c in a + b;
    assert forall c | c in b :: c in a + b;
  }

  lemma {:induction false} BlankJoin(lines: seq<string>)
    ensures Blank(Join(lines)) <==> !HasVisible(lines)
    decreases |lines|
  {
    hide Blank;
    if |lines| > 1 {
      var rest := lines[1..];
      BlankJoin(rest);
      BlankConcat(lines[0] + "\n", Join(rest));
      BlankConcat(lines[0], "\n");
      LineBreakIsBlank();
      assert forall i | 0 < i < |lines| :: lines[i] == rest[i - 1];
      if HasVisible(rest) {
        var i :| 0 <= i < |rest| && !Blank(rest[i]);
        assert !Blank(lines[i + 1]);
      }
    } else if lines == [] {
      NothingIsBlank();
    }
  }

  lemma LineBreakIsBlank()
    ensures Blank("\n")
  {
  }

  lemma NothingIsBlank()
    ensures Blank("")
  {
  }

  lemma {:induction false} JoinSplits(lines: seq<string>, i: nat)
    requires 0 < i < |lines|
    ensures Join(lines) == Join(lines[..i]) + "\n" + Join(lines[i..])
    decreases |lines|
  {
    if i == 1 {
      assert lines[..1] == [lines[0]];
    } else {
      var rest := lines[1..];
      JoinSplits(rest, i - 1);
      assert lines[..i][1..] == rest[..i - 1] && rest[i - 1..] == lines[i..];
      assert lines[..i][0] == lines[0];
    }
  }

  /** Every line break of the joined text stands between two of the lines. */
  lemma {:induction false} LineBreakBetween(lines: seq<string>, x: nat) returns (i: nat)
    requires forall line | line in lines :: '\n' !in line
    requires x < |Join(lines)| && Join(lines)[x] == '\n'
    ensures 0 < i < |lines| && x == |Join(lines[..i])|
    decreases |lines|
  {
    assert lines[0] in lines;
    if |lines| > 1 {
      var rest := lines[1..];
      assert forall line | line in rest :: line in lines;
      if x == |lines[0]| {
        i := 1;
        assert lines[..1] == [lines[0]];
      } else {
        var j := LineBreakBetween(rest, x - |lines[0]| - 1);
        i := j + 1;
        assert lines[..i][1..] == rest[..j] && lines[..i][0] == lines[0];
      }
    }
  }

  /** The end of the joined text is the end of its last line. */
  lemma {:induction false} JoinEnds(lines: seq<string>)
    requires lines != []
    ensures Join(lines) != "" && Join(lines)[|Join(lines)| - 1] == '\r'
      <==> StripCr(lines[|lines| - 1]) != lines[|lines| - 1]
    decreases |lines|
  {
    if |lines| > 1 {
      JoinEnds(lines[1..]);
    }
  }

  lemma TrimAround(a: string, b: string)
    requires !Blank(a) && !Blank(b)
    ensures Trim(a + "\n" + b) == TrimStart(a) + "\n" + TrimEnd(b) && TrimStart(a) != "" && TrimEnd(b) != ""
  {
    hide TrimStart, TrimEnd;
    var ws := TrimStartSplits(a);
    assert TrimStart(a) != "" by {
      assert a == ws + TrimStart(a);
    }
    var tail := TrimEndSplits(b);
    assert a + "\n" + b == a + ("\n" + b);
    TrimStartConcat(a, "\n" + b);
    assert TrimStart(a) + ("\n" + b) == (TrimStart(a) + "\n") + b;
    TrimEndOver(TrimStart(a) + "\n", b);
  }

  lemma KeptCrShows(block: seq<string>, i: nat)
    requires 0 < i < |block| && KeepsCrAt(block, i)
    ensures HasCrLf(Trim(Join(block)))
  {
    hide Blank, TrimStart, TrimEnd, Trim, StripCr, Join;
    var a, b := Join(block[..i]), Join(block[i..]);
    BlankJoin(block[..i]);
    BlankJoin(block[i..]);
    JoinSplits(block, i);
    JoinEnds(block[..i]);
    assert block[..i][i - 1] == block[i - 1];
    TrimAround(a, b);
    var ws := TrimStartSplits(a);
    var visible := TrimStart(a);
    assert visible[|visible| - 1] == a[|a| - 1];
    var text := visible + "\n" + TrimEnd(b);
    assert text[|visible| - 1] == '\r' && text[|visible|] == '\n';
  }

  /** Where the trimmed text lies in the text. */
  lemma TrimLies(s: string) returns (a: nat)
    ensures a + |Trim(s)| <= |s| && Trim(s) == s[a..a + |Trim(s)|]
    ensures Trim(s) != "" ==> !IsSpace(Trim(s)[0]) && !IsSpace(Trim(s)[|Trim(s)| - 1])
  {
    hide IsSpace, TrimEnd, TrimStart;
    var ws := TrimStartSplits(s);
    a := |ws|;
    TrimEndIsPrefix(TrimStart(s));
    assert s[a..] == TrimStart(s);
  }

  lemma ShownCrIsKept(block: seq<string>)
    requires forall line | line in block :: '\n' !in line
    requires HasCrLf(Trim(Join(block)))
    ensures KeepsCr(block)
  {
    hide Blank, Trim, StripCr, Join, HasVisible, IsSpace;
    var text := Join(block);
    var a := TrimLies(text);
    var k :| 0 < k < |Trim(text)| && Trim(text)[k - 1] == '\r' && Trim(text)[k] == '\n';
    var x := a + k;
    assert text[x - 1] == '\r' && text[x] == '\n';
    var i := LineBreakBetween(block, x);
    JoinSplits(block, i);
    assert text[..x] == Join(block[..i]) && text[x + 1..] == Join(block[i..]);
    JoinEnds(block[..i]);
    assert block[..i][i - 1] == block[i - 1];
    SpaceOfLineEnds();
    VisibleInside(text[..x], a);
    VisibleInside(text[x + 1..], a + |Trim(text)| - 1 - (x + 1));
    BlankJoin(block[..i]);
    BlankJoin(block[i..]);
    assert KeepsCrAt(block, i);
  }

  lemma SpaceOfLineEnds()
    ensures IsSpace('\n') && IsSpace('\r')
  {
  }

  lemma VisibleInside(s: string, i: nat)
    requires i < |s| && !IsSpace(s[i])
    ensures !Blank(s)
  {
    assert s[i] in s;
  }

  /** A block's content holds a `\r\n` exactly when one of its lines keeps a carriage return. */
  lemma ContentKeepsCr(block: seq<string>)
    requires forall line | line in block :: '\n' !in line
    ensures HasCrLf(Trim(Join(block))) <==> KeepsCr(block)
  {
    hide HasCrLf, Trim, Join, KeepsCrAt;
    if KeepsCr(block) {
      var i :| 0 < i < |block| && KeepsCrAt(block, i);
      KeptCrShows(block, i);
    }
    if HasCrLf(Trim(Join(block))) {
      ShownCrIsKept(block);
    }
  }

  // ---------- what a template's messages keep ----------

  ghost predicate CleanMessages(messages: seq<Message>) {
    forall m | m in messages :: !HasCrLf(m.content)
  }

  ghost predicate CleanBlocks(blocks: seq<seq<string>>) {
    forall b | b in blocks :: !HasCrLf(Trim(Join(b)))
  }

  lemma FlushIsClean(p: Parser)
    ensures CleanMessages(Flush(p).messages) <==>
      CleanMessages(p.messages) && (p.role.Some? ==> !HasCrLf(Trim(Join(p.lines))))
  {
    hide Trim, Join;
    assert HasCrLf("") == false;
    if p.role.Some? && Trim(Join(p.lines)) != "" {
      var m := Message(p.role.value, Trim(Join(p.lines)));
      assert Flush(p).messages == p.messages + [m];
      assert m in Flush(p).messages;
      assert forall n | n in p.messages :: n in Flush(p).messages;
    }
  }

  lemma CleanSplits(block: seq<string>, more: seq<seq<string>>)
    ensures CleanBlocks([block] + more) <==> !HasCrLf(Trim(Join(block))) && CleanBlocks(more)
  {
    hide Trim, Join, HasCrLf;
    assert block in [block] + more;
    assert forall b | b in more :: b in [block] + more;
  }

  lemma {:induction false} ReadsClean(p: Parser, rest: seq<string>)
    requires p.role.None? ==> p.lines == []
    ensures CleanMessages(Flush(ReadAll(p, rest)).messages) <==>
      CleanMessages(p.messages) && CleanBlocks(BlocksIn(p.role.Some?, p.lines, rest))
    decreases |rest|
  {
    hide Trim, Join, HasCrLf, CleanMessages, CleanBlocks, Flush;
    if rest == [] {
      FlushIsClean(p);
      CleanSplits(p.lines, []);
      assert [p.lines] + [] == [p.lines];
      NoBlocks();
    } else {
      var token := Trim(rest[0]);
      if RoleByToken(token).Some? || token == END {
        var next := Read(p, rest[0]);
        FlushIsClean(p);
        FlushedIsIdle(p);
        ReadsClean(next, rest[1..]);
        CleanSplits(p.lines, BlocksIn(next.role.Some?, [], rest[1..]));
        assert [] + BlocksIn(next.role.Some?, [], rest[1..]) == BlocksIn(next.role.Some?, [], rest[1..]);
      } else {
        ReadsClean(Read(p, rest[0]), rest[1..]);
      }
    }
  }

  lemma NoBlocks()
    ensures CleanBlocks([])
  {
  }

  lemma FlushedIsIdle(p: Parser)
    ensures Flush(p).role == None && Flush(p).lines == []
  {
  }

  lemma {:induction false} BlockLinesHaveNoNewline(open: bool, lines: seq<string>, rest: seq<string>)
    requires forall line | line in lines + rest :: '\n' !in line
    ensures forall b, line | b in BlocksIn(open, lines, rest) && line in b :: '\n' !in line
    decreases |rest|
  {
    hide Trim;
    assert forall line | line in lines :: line in lines + rest;
    assert forall line | line in rest :: line in lines + rest;
    if rest != [] {
      var more := rest[1..];
      assert forall line | line in more :: line in rest;
      assert rest[0] in rest;
      BlockLinesHaveNoNewline(true, [], more);
      BlockLinesHaveNoNewline(false, [], more);
      BlockLinesHaveNoNewline(open, if open then lines + [rest[0]] else lines, more);
    }
  }

  /** Parsing, printing and parsing again is parsing once if and only if no line within a block
      of the template keeps a carriage return between visible text. */
  lemma StableTemplates(template: string)
    ensures Parse(Format(Parse(template))) == Parse(template)
       <==> forall b | b in BlocksOf(template) :: !KeepsCr(b)
  {
    hide SplitLines, ReadAll, Flush, KeepsCr, HasCrLf, Format, Trim, Join, BlocksIn;
    var lines := SplitLines(template);
    ParseIsStable(template);
    SplitLinesHaveNoNewline(template);
    assert [] + lines == lines;
    BlockLinesHaveNoNewline(false, [], lines);
    ReadsClean(IDLE, lines);
    forall b | b in BlocksOf(template)
      ensures HasCrLf(Trim(Join(b))) <==> KeepsCr(b)
    {
      ContentKeepsCr(b);
    }
  }
}
