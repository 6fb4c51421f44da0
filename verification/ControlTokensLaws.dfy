/** Round trips through the control-token template. */
module ControlTokensLaws {
  import opened Text
  import opened Framing
  import opened ControlTokens

  predicate IsToken(token: string) {
    RoleByToken(token).Some? || token == END
  }

  /** No line of the text, trimmed, is a control token. */
  ghost predicate TokenFree(text: string) {
    forall line | line in Lines(text) + [Tail(text)] :: !IsToken(Trim(line))
  }

  ghost predicate HasCrLf(text: string) {
    exists i | 0 < i < |text| :: text[i - 1] == '\r' && text[i] == '\n'
  }

  /** Content a block can carry: non-empty, trimmed, no line of it a token. */
  ghost predicate Carriable(content: string) {
    content != "" && Trim(content) == content && TokenFree(content)
  }

  // ---------- lines ----------

  lemma LineThen(line: string, rest: string)
    requires '\n' !in line
    ensures Lines(line + "\n" + rest) == [line] + Lines(rest)
    ensures Tail(line + "\n" + rest) == Tail(rest)
  {
    hide Lines, Tail, IndexOf;
    var text := line + "\n" + rest;
    assert text == line + ("\n" + rest);
    IndexOfAfter(line, "\n" + rest, '\n');
    Framing.NextLine(text);
    assert text[..|line|] == line && text[|line| + 1..] == rest;
  }

  lemma LinesConcat(a: string, b: string)
    ensures Lines(a + "\n" + b) == Lines(a) + [Tail(a)] + Lines(b)
    ensures Tail(a + "\n" + b) == Tail(b)
  {
    hide Lines, Tail;
    var rest := "\n" + b;
    assert a + "\n" + b == a + rest;
    Feed(a, rest);
    TailHasNoNewline(a);
    LineThen(Tail(a), b);
    assert Tail(a) + rest == Tail(a) + "\n" + b;
    PrependConcat(Lines(a), [Tail(a)], Lines(b));
  }

  lemma StripAllConcat(a: seq<string>, b: seq<string>)
    ensures StripAll(a + b) == StripAll(a) + StripAll(b)
  {
  }

  /** Text that does not end in a carriage return splits by itself. */
  lemma SplitConcat(a: string, b: string)
    requires Tail(a) == StripCr(Tail(a))
    ensures SplitLines(a + "\n" + b) == SplitLines(a) + SplitLines(b)
  {
    hide Lines, Tail, StripCr;
    LinesConcat(a, b);
    StripAllConcat(Lines(a) + [Tail(a)], Lines(b));
    StripAllConcat(Lines(a), [Tail(a)]);
    assert StripAll([Tail(a)]) == [StripCr(Tail(a))];
    assert StripAll(Lines(a)) + [Tail(a)] + StripAll(Lines(b)) + [Tail(b)]
        == (StripAll(Lines(a)) + [Tail(a)]) + (StripAll(Lines(b)) + [Tail(b)]);
  }

  lemma {:induction false} TailEnds(text: string)
    requires Tail(text) != ""
    ensures text != [] && Tail(text)[|Tail(text)| - 1] == text[|text| - 1]
    decreases |text|
  {
    hide IndexOf, Tail;
    Framing.NextLine(text);
    var newline := IndexOf(text, '\n');
    if newline != -1 {
      TailEnds(text[newline + 1..]);
    }
  }

  lemma NoCrAtEnd(text: string)
    requires text != [] ==> text[|text| - 1] != '\r'
    ensures StripCr(Tail(text)) == Tail(text)
  {
    hide Tail;
    if Tail(text) != "" {
      TailEnds(text);
    }
  }

  lemma OneLine(line: string)
    requires '\n' !in line
    ensures Lines(line) == [] && Tail(line) == line && SplitLines(line) == [line]
  {
    hide IndexOf;
    assert StripAll([]) == [];
  }

  // ---------- normalising line ends ----------

  /** Content as it comes back: every `\r\n` a `\n`. */
  function Normalized(content: string): string {
    Join(SplitLines(content))
  }

  lemma JoinCons(line: string, lines: seq<string>)
    requires lines != []
    ensures Join([line] + lines) == line + "\n" + Join(lines)
  {
    assert ([line] + lines)[1..] == lines;
  }

  /** A text with a line break is its first line, the break and the rest. */
  lemma FirstLine(text: string) returns (line: string, rest: string)
    requires '\n' in text
    ensures text == line + "\n" + rest && '\n' !in line && |rest| < |text|
    ensures Normalized(text) == StripCr(line) + "\n" + Normalized(rest)
  {
    hide StripCr, IndexOf, Lines, Tail, SplitLines, Join;
    var newline := IndexOf(text, '\n');
    line, rest := text[..newline], text[newline + 1..];
    assert text == line + "\n" + rest;
    LineThen(line, rest);
    SplitCons(text, line, rest);
    JoinCons(StripCr(line), SplitLines(rest));
  }

  lemma SplitCons(text: string, line: string, rest: string)
    requires Lines(text) == [line] + Lines(rest) && Tail(text) == Tail(rest)
    ensures SplitLines(text) == [StripCr(line)] + SplitLines(rest)
  {
    hide Lines, Tail, StripCr;
    StripAllConcat([line], Lines(rest));
    assert StripAll([line]) == [StripCr(line)];
  }

  lemma Unbroken(text: string)
    requires '\n' !in text
    ensures Normalized(text) == text && !HasCrLf(text)
  {
    OneLine(text);
    forall i | 0 < i < |text|
      ensures text[i] != '\n'
    {
      assert text[i] in text;
    }
  }

  lemma CrLfSplits(line: string, rest: string)
    requires '\n' !in line
    ensures HasCrLf(line + "\n" + rest) <==> StripCr(line) != line || HasCrLf(rest)
  {
    var text, n := line + "\n" + rest, |line|;
    forall i | 0 <= i < n
      ensures text[i] != '\n'
    {
      assert text[i] == line[i];
    }
    forall i | 0 < i < |text| && text[i - 1] == '\r' && text[i] == '\n'
      ensures StripCr(line) != line || HasCrLf(rest)
    {
      if i > n {
        assert rest[i - n - 1] == '\n' && (i - n - 1 > 0 ==> rest[i - n - 2] == '\r');
      }
    }
    if StripCr(line) != line {
      assert text[n - 1] == '\r' && text[n] == '\n';
    }
    forall j | 0 < j < |rest| && rest[j - 1] == '\r' && rest[j] == '\n'
      ensures HasCrLf(text)
    {
      assert text[n + 1 + j - 1] == '\r' && text[n + 1 + j] == '\n';
    }
  }

  /** Nothing is normalised away exactly when there is no `\r\n`. */
  lemma {:induction false} NormalizedUnlessCrLf(text: string)
    ensures |Normalized(text)| <= |text|
    ensures Normalized(text) == text <==> !HasCrLf(text)
    ensures |Normalized(text)| == |text| <==> !HasCrLf(text)
    decreases |text|
  {
    hide Normalized, StripCr, HasCrLf;
    if '\n' in text {
      var line, rest := FirstLine(text);
      CrLfSplits(line, rest);
      NormalizedUnlessCrLf(rest);
      StripCrLength(line);
    } else {
      Unbroken(text);
    }
  }

  lemma StripCrLength(line: string)
    ensures |StripCr(line)| <= |line|
    ensures |StripCr(line)| == |line| <==> StripCr(line) == line
  {
  }

  // ---------- format, then parse ----------

  lemma {:induction false} ReadContent(p: Parser, lines: seq<string>)
    requires p.role.Some? && forall line | line in lines :: !IsToken(Trim(line))
    ensures ReadAll(p, lines) == p.(lines := p.lines + lines)
    decreases |lines|
  {
    hide Trim;
    if lines == [] {
      assert p.lines + lines == p.lines;
    } else {
      assert lines[0] in lines;
      ReadContent(p.(lines := p.lines + [lines[0]]), lines[1..]);
      assert p.lines + [lines[0]] + lines[1..] == p.lines + lines;
    }
  }

  lemma {:induction false} ReadConcat(p: Parser, a: seq<string>, b: seq<string>)
    ensures ReadAll(p, a + b) == ReadAll(ReadAll(p, a), b)
    decreases |a|
  {
    hide Read;
    if a == [] {
      assert a + b == b;
    } else {
      assert (a + b)[1..] == a[1..] + b;
      ReadConcat(Read(p, a[0]), a[1..], b);
    }
  }

  lemma ReadOne(p: Parser, line: string)
    ensures ReadAll(p, [line]) == Read(p, line)
  {
    hide Read;
    assert [line][1..] == [];
  }

  lemma TokensTrim(role: Role)
    ensures Trim(TokenOf(role)) == TokenOf(role) && RoleByToken(TokenOf(role)) == Some(role)
    ensures Trim(END) == END && RoleByToken(END) == None
    ensures '\n' !in TokenOf(role) && '\n' !in END
    ensures StripCr(TokenOf(role)) == TokenOf(role) && StripCr(END) == END
  {
  }

  /** The lines of a token-free text are no tokens either. */
  lemma SplitTokenFree(content: string)
    requires TokenFree(content)
    ensures forall line | line in SplitLines(content) :: !IsToken(Trim(line))
  {
    hide Lines, Tail, Trim, IsToken;
    forall line | line in SplitLines(content)
      ensures !IsToken(Trim(line))
    {
      var lines := SplitLines(content);
      var i :| 0 <= i < |lines| && lines[i] == line;
      if i < |Lines(content)| {
        var raw := Lines(content)[i];
        assert raw in Lines(content) + [Tail(content)];
        TrimIgnoresCr(raw);
        assert line == StripCr(raw);
      } else {
        assert line == Tail(content);
        assert line in Lines(content) + [Tail(content)];
      }
    }
  }

  lemma TrimIgnoresCr(line: string)
    ensures Trim(StripCr(line)) == Trim(line)
  {
    if StripCr(line) != line {
      TrimIgnoresLast(line[..|line| - 1], '\r');
      assert line == line[..|line| - 1] + ['\r'];
    }
  }

  /** One printed message, read by an idle parser. */
  lemma ReadMessage(messages: seq<Message>, m: Message)
    requires Carriable(m.content)
    ensures ReadAll(Parser(None, [], messages), [TokenOf(m.role)] + SplitLines(m.content) + [END])
         == Flush(Parser(Some(m.role), SplitLines(m.content), messages))
  {
    hide Trim, SplitLines, Join, IsSpace;
    var p0 := Parser(None, [], messages);
    var p1 := Parser(Some(m.role), [], messages);
    var lines := SplitLines(m.content);
    TokensTrim(m.role);
    ReadOne(p0, TokenOf(m.role));
    assert Read(p0, TokenOf(m.role)) == p1;
    ReadConcat(p0, [TokenOf(m.role)], lines);
    SplitTokenFree(m.content);
    ReadContent(p1, lines);
    assert [] + lines == lines;
    ReadConcat(p0, [TokenOf(m.role)] + lines, [END]);
    ReadOne(Parser(Some(m.role), lines, messages), END);
  }

  lemma TrimmedEnds(s: string)
    requires s != "" && Trim(s) == s
    ensures !IsSpace(s[0]) && !IsSpace(s[|s| - 1])
  {
    TrimStartLength(s);
    TrimEndLength(TrimStart(s));
  }

  /** Normalising line ends keeps the visible ends. */
  lemma {:induction false} NormalizedEnds(text: string)
    requires text != "" && !IsSpace(text[|text| - 1])
    ensures Normalized(text) != "" && Normalized(text)[|Normalized(text)| - 1] == text[|text| - 1]
    ensures !IsSpace(text[0]) ==> Normalized(text)[0] == text[0]
    decreases |text|
  {
    hide Normalized;
    if '\n' in text {
      var line, rest := FirstLine(text);
      assert rest != "";
      assert text[|text| - 1] == rest[|rest| - 1];
      NormalizedEnds(rest);
      assert !IsSpace(text[0]) ==> line != "" && line[0] == text[0] && StripCr(line) != "";
    } else {
      Unbroken(text);
    }
  }

  lemma NormalizedTrims(content: string)
    requires Carriable(content)
    ensures Trim(Normalized(content)) == Normalized(content) && Normalized(content) != ""
  {
    hide Normalized, Trim, TokenFree;
    TrimmedEnds(content);
    NormalizedEnds(content);
    VisibleEndsTrim(Normalized(content));
  }

  function NormalizedMessages(messages: seq<Message>): seq<Message> {
    if messages == [] then []
    else [Message(messages[0].role, Normalized(messages[0].content))] + NormalizedMessages(messages[1..])
  }

  /** The lines of one printed message. */
  lemma SplitMessage(m: Message)
    requires Carriable(m.content)
    ensures SplitLines(FormatMessage(m)) == [TokenOf(m.role)] + SplitLines(m.content) + [END]
    ensures FormatMessage(m)[|FormatMessage(m)| - 1] == 'D'
  {
    hide SplitLines, Trim, IsSpace, TokenFree, Tail;
    TokensTrim(m.role);
    TrimmedEnds(m.content);
    assert m.content[|m.content| - 1] != '\r' by {
      assert IsSpace('\r') by {
        CrIsSpace();
      }
    }
    NoCrAtEnd(m.content);
    OneLine(TokenOf(m.role));
    OneLine(END);
    SplitConcat(TokenOf(m.role), m.content + "\n" + END);
    SplitConcat(m.content, END);
    assert TokenOf(m.role) + "\n" + (m.content + "\n" + END) == FormatMessage(m);
    PrependConcat([TokenOf(m.role)], SplitLines(m.content), [END]);
  }

  lemma CrIsSpace()
    ensures IsSpace('\r')
  {
  }

  lemma {:induction false} ReadMessages(done: seq<Message>, messages: seq<Message>)
    requires messages != [] && forall m | m in messages :: Carriable(m.content)
    ensures ReadAll(Parser(None, [], done), SplitLines(Format(messages)))
         == Parser(None, [], done + NormalizedMessages(messages))
    decreases |messages|
  {
    hide SplitLines, Trim, Carriable, FormatMessage, Normalized;
    var m := messages[0];
    assert m in messages;
    var p := Parser(None, [], done);
    ReadFirst(done, m);
    var next := done + [Message(m.role, Normalized(m.content))];
    if |messages| == 1 {
      assert Blocks(messages) == [FormatMessage(m)];
      assert NormalizedMessages(messages) == [Message(m.role, Normalized(m.content))] + NormalizedMessages(messages[1..]);
      assert NormalizedMessages(messages[1..]) == [];
    } else {
      var rest := messages[1..];
      forall n | n in rest
        ensures Carriable(n.content)
      {
        assert n in messages;
      }
      ReadMessages(next, rest);
      FormatSplits(messages);
      ReadConcat(p, SplitLines(FormatMessage(m)), SplitLines(Format(rest)));
      PrependConcat(done, [Message(m.role, Normalized(m.content))], NormalizedMessages(rest));
    }
  }

  lemma ReadFirst(done: seq<Message>, m: Message)
    requires Carriable(m.content)
    ensures ReadAll(Parser(None, [], done), SplitLines(FormatMessage(m)))
         == Parser(None, [], done + [Message(m.role, Normalized(m.content))])
  {
    hide SplitLines, Trim, FormatMessage, Join, TokenFree;
    SplitMessage(m);
    ReadMessage(done, m);
    NormalizedTrims(m.content);
  }

  lemma FormatSplits(messages: seq<Message>)
    requires |messages| > 1 && Carriable(messages[0].content)
    ensures SplitLines(Format(messages))
         == SplitLines(FormatMessage(messages[0])) + SplitLines(Format(messages[1..]))
  {
    hide SplitLines, Carriable, FormatMessage, Tail;
    var first, rest := FormatMessage(messages[0]), messages[1..];
    SplitMessage(messages[0]);
    NoCrAtEnd(first);
    assert Blocks(messages) == [first] + Blocks(rest);
    JoinCons(first, Blocks(rest));
    SplitConcat(first, Format(rest));
  }

  /** Messages that blocks can carry come back in order, with their line ends normalised. */
  lemma FormatThenParse(messages: seq<Message>)
    requires forall m | m in messages :: Carriable(m.content)
    ensures Parse(Format(messages)) == NormalizedMessages(messages)
  {
    hide SplitLines, Carriable, Normalized, FormatMessage, Trim;
    if messages == [] {
      assert Blocks([]) == [];
      OneLine("");
      TokensTrim(User);
      ReadOne(IDLE, "");
      EmptyIsNoToken();
    } else {
      ReadMessages([], messages);
      assert [] + NormalizedMessages(messages) == NormalizedMessages(messages);
    }
  }

  lemma EmptyIsNoToken()
    ensures !IsToken(Trim(""))
  {
  }

  // ---------- what parsing produces ----------

  lemma {:induction false} LinesOfJoin(lines: seq<string>)
    requires lines != [] && forall line | line in lines :: '\n' !in line
    ensures Lines(Join(lines)) + [Tail(Join(lines))] == lines
    decreases |lines|
  {
    hide Lines, Tail;
    assert lines[0] in lines;
    if |lines| == 1 {
      OneLine(lines[0]);
      assert lines == [lines[0]];
    } else {
      var rest := lines[1..];
      forall line | line in rest
        ensures '\n' !in line
      {
        assert line in lines;
      }
      LinesOfJoin(rest);
      LineThen(lines[0], Join(rest));
      PrependConcat([lines[0]], Lines(Join(rest)), [Tail(Join(rest))]);
      assert lines == [lines[0]] + rest;
    }
  }

  lemma {:induction false} RawLinesHaveNoNewline(text: string)
    ensures forall line | line in Lines(text) + [Tail(text)] :: '\n' !in line
    decreases |text|
  {
    hide IndexOf, Lines, Tail;
    Framing.NextLine(text);
    TailHasNoNewline(text);
    var newline := IndexOf(text, '\n');
    if newline != -1 {
      RawLinesHaveNoNewline(text[newline + 1..]);
    }
  }

  lemma SplitLinesHaveNoNewline(text: string)
    ensures forall line | line in SplitLines(text) :: '\n' !in line
  {
    hide Lines, Tail;
    RawLinesHaveNoNewline(text);
    forall line | line in SplitLines(text)
      ensures '\n' !in line
    {
      var i :| 0 <= i < |SplitLines(text)| && SplitLines(text)[i] == line;
      if i < |Lines(text)| {
        assert Lines(text)[i] in Lines(text) + [Tail(text)];
      } else {
        assert line in Lines(text) + [Tail(text)];
      }
    }
  }

  /** Taking white space off either end leaves a text token-free. */
  lemma TokenFreeWithoutFirst(text: string)
    requires text != [] && IsSpace(text[0]) && TokenFree(text)
    ensures TokenFree(text[1..])
  {
    hide IsToken, IsSpace, Lines, Tail, IndexOf, Trim;
    var rest := text[1..];
    var newline, later := IndexOf(text, '\n'), IndexOf(rest, '\n');
    Framing.NextLine(text);
    Framing.NextLine(rest);
    RestIndex(text, '\n');
    forall line | line in Lines(rest) + [Tail(rest)]
      ensures !IsToken(Trim(line))
    {
      if text[0] == '\n' || (later == -1 && line == rest) || (later != -1 && line == rest[..later]) {
        if text[0] == '\n' {
          assert line in Lines(text) + [Tail(text)];
        } else if later == -1 {
          assert text in Lines(text) + [Tail(text)];
          TrimIgnoresFirst(text);
        } else {
          assert text[..newline] in Lines(text) + [Tail(text)];
          TrimIgnoresFirst(text[..newline]);
          assert text[..newline][1..] == rest[..later];
        }
      } else {
        assert line in Lines(text) + [Tail(text)] by {
          assert later != -1 && text[newline + 1..] == rest[later + 1..];
        }
      }
    }
  }

  lemma RestIndex(text: string, c: char)
    requires text != []
    ensures text[0] == c ==> IndexOf(text, c) == 0
    ensures text[0] != c && IndexOf(text[1..], c) == -1 ==> IndexOf(text, c) == -1
    ensures text[0] != c && IndexOf(text[1..], c) != -1 ==> IndexOf(text, c) == IndexOf(text[1..], c) + 1
  {
  }

  lemma TokenFreeWithoutLast(init: string, c: char)
    requires IsSpace(c) && TokenFree(init + [c])
    ensures TokenFree(init)
  {
    hide IsToken, IsSpace, Lines, Tail, Trim;
    var text := init + [c];
    forall line | line in Lines(init) + [Tail(init)]
      ensures !IsToken(Trim(line))
    {
      if c == '\n' {
        LinesConcat(init, "");
        assert init + "\n" + "" == text;
        assert line in Lines(text) + [Tail(text)];
      } else {
        TailSnoc(init, c);
        if line in Lines(init) {
          assert line in Lines(text) + [Tail(text)];
        } else {
          TrimIgnoresLast(Tail(init), c);
          assert Tail(text) in Lines(text) + [Tail(text)];
        }
      }
    }
  }

  lemma TailSnoc(text: string, c: char)
    requires c != '\n'
    ensures Lines(text + [c]) == Lines(text) && Tail(text + [c]) == Tail(text) + [c]
  {
    hide Lines, Tail;
    Feed(text, [c]);
    TailHasNoNewline(text);
    OneLine(Tail(text) + [c]);
    assert Lines(text) + [] == Lines(text);
  }

  lemma {:induction false} TokenFreeTrimStart(text: string)
    requires TokenFree(text)
    ensures TokenFree(TrimStart(text))
    decreases |text|
  {
    hide TokenFree, IsSpace;
    if text != [] && IsSpace(text[0]) {
      TokenFreeWithoutFirst(text);
      TokenFreeTrimStart(text[1..]);
    }
  }

  lemma {:induction false} TokenFreeTrimEnd(text: string)
    requires TokenFree(text)
    ensures TokenFree(TrimEnd(text))
    decreases |text|
  {
    hide TokenFree, IsSpace;
    if text != [] && IsSpace(text[|text| - 1]) {
      var init := text[..|text| - 1];
      assert init + [text[|text| - 1]] == text;
      TokenFreeWithoutLast(init, text[|text| - 1]);
      TokenFreeTrimEnd(init);
    }
  }

  /** What the parser holds is made of token-free lines and carriable messages. */
  ghost predicate Holds(p: Parser) {
    && (forall line | line in p.lines :: '\n' !in line && !IsToken(Trim(line)))
    && (forall m | m in p.messages :: Carriable(m.content))
  }

  lemma FlushHolds(p: Parser)
    requires Holds(p)
    ensures Holds(Flush(p))
  {
    hide Trim, Lines, Tail, Join, IsToken;
    var content := Trim(Join(p.lines));
    if p.role.Some? && content != "" {
      if p.lines == [] {
        NothingJoined();
      } else {
        LinesOfJoin(p.lines);
        JoinedTokenFree(p.lines);
      }
      TrimTwice(Join(p.lines));
      assert Carriable(content);
    }
  }

  lemma NothingJoined()
    ensures Trim(Join([])) == ""
  {
  }

  lemma JoinedTokenFree(lines: seq<string>)
    requires TokenFree(Join(lines))
    ensures TokenFree(Trim(Join(lines)))
  {
    hide TokenFree;
    TokenFreeTrimStart(Join(lines));
    TokenFreeTrimEnd(TrimStart(Join(lines)));
  }

  lemma {:induction false} ReadAllHolds(p: Parser, lines: seq<string>)
    requires Holds(p) && forall line | line in lines :: '\n' !in line
    ensures Holds(ReadAll(p, lines))
    decreases |lines|
  {
    hide Trim, Flush, Carriable;
    if lines != [] {
      assert lines[0] in lines;
      FlushHolds(p);
      ReadAllHolds(Read(p, lines[0]), lines[1..]);
    }
  }

  /** Every parsed message has content a block can carry. */
  lemma ParsedIsCarriable(template: string)
    ensures forall m | m in Parse(template) :: Carriable(m.content)
  {
    hide SplitLines, Read, Flush, Carriable, Trim;
    SplitLinesHaveNoNewline(template);
    ReadAllHolds(IDLE, SplitLines(template));
    FlushHolds(ReadAll(IDLE, SplitLines(template)));
  }

  lemma {:induction false} NormalizedMessagesUnlessCrLf(messages: seq<Message>)
    ensures NormalizedMessages(messages) == messages
       <==> forall m | m in messages :: !HasCrLf(m.content)
    decreases |messages|
  {
    hide Normalized, HasCrLf;
    if messages != [] {
      var rest := messages[1..];
      NormalizedMessagesUnlessCrLf(rest);
      NormalizedUnlessCrLf(messages[0].content);
      assert messages == [messages[0]] + rest;
      assert NormalizedMessages(messages)[1..] == NormalizedMessages(rest);
      assert forall m | m in rest :: m in messages;
      assert messages[0] in messages;
    }
  }

  /** Printing and parsing gives the messages back if and only if every content is non-empty,
      trimmed, free of token lines and free of `\r\n`. */
  lemma FormatParseRoundTrip(messages: seq<Message>)
    ensures Parse(Format(messages)) == messages
       <==> forall m | m in messages :: Carriable(m.content) && !HasCrLf(m.content)
  {
    hide Carriable, HasCrLf, Parse, Format, NormalizedMessages;
    ParsedIsCarriable(Format(messages));
    NormalizedMessagesUnlessCrLf(messages);
    if forall m | m in messages :: Carriable(m.content) {
      FormatThenParse(messages);
    }
  }

  /** Parsing, printing and parsing again is parsing once exactly when no parsed content has
      kept a `\r\n`. */
  lemma ParseIsStable(template: string)
    ensures Parse(Format(Parse(template))) == Parse(template)
       <==> forall m | m in Parse(template) :: !HasCrLf(m.content)
  {
    hide Carriable, HasCrLf, Parse, Format;
    ParsedIsCarriable(template);
    FormatParseRoundTrip(Parse(template));
  }

  // ---------- templates whose line ends survive ----------

  ghost predicate HasDoubleCr(text: string) {
    exists i | 1 < i < |text| :: text[i - 2] == '\r' && text[i - 1] == '\r' && text[i] == '\n'
  }

  predicate NoCr(line: string) {
    StripCr(line) == line
  }

  lemma {:induction false} SplitLinesEndPlainly(text: string)
    requires !HasDoubleCr(text)
    ensures forall line | line in Lines(text) :: NoCr(StripCr(line))
    decreases |text|
  {
    hide Lines, IndexOf;
    Framing.NextLine(text);
    var newline := IndexOf(text, '\n');
    if newline != -1 {
      var line, rest := text[..newline], text[newline + 1..];
      if newline >= 2 && text[newline - 1] == '\r' {
        assert text[newline] == '\n';
        assert text[newline - 2] != '\r';
      }
      forall i | 1 < i < |rest|
        ensures !(rest[i - 2] == '\r' && rest[i - 1] == '\r' && rest[i] == '\n')
      {
        assert text[newline + 1 + i] == rest[i];
      }
      SplitLinesEndPlainly(rest);
    }
  }

  lemma {:induction false} JoinHasNoCrLf(lines: seq<string>)
    requires forall line | line in lines :: '\n' !in line
    requires forall i | 0 <= i < |lines| - 1 :: NoCr(lines[i])
    ensures !HasCrLf(Join(lines))
    decreases |lines|
  {
    hide HasCrLf, StripCr;
    if lines == [] {
      Unbroken("");
    } else if |lines| == 1 {
      assert lines[0] in lines;
      Unbroken(lines[0]);
    } else {
      var rest := lines[1..];
      assert lines[0] in lines && NoCr(lines[0]);
      forall line | line in rest
        ensures '\n' !in line
      {
        assert line in lines;
      }
      forall i | 0 <= i < |rest| - 1
        ensures NoCr(rest[i])
      {
        assert rest[i] == lines[i + 1];
      }
      JoinHasNoCrLf(rest);
      CrLfSplits(lines[0], Join(rest));
    }
  }

  lemma SliceHasNoCrLf(text: string, i: nat, j: nat)
    requires !HasCrLf(text) && i <= j <= |text|
    ensures !HasCrLf(text[i..j])
  {
    var slice := text[i..j];
    forall k | 0 < k < |slice|
      ensures !(slice[k - 1] == '\r' && slice[k] == '\n')
    {
      assert text[i + k] == slice[k] && text[i + k - 1] == slice[k - 1];
    }
  }

  lemma {:induction false} TrimStartDrops(s: string) returns (i: nat)
    ensures i <= |s| && TrimStart(s) == s[i..]
  {
    i := 0;
    if s != [] && IsSpace(s[0]) {
      i := TrimStartDrops(s[1..]);
      i := i + 1;
    }
  }

  lemma TrimHasNoCrLf(text: string)
    requires !HasCrLf(text)
    ensures !HasCrLf(Trim(text))
  {
    hide HasCrLf, IsSpace;
    var i := TrimStartDrops(text);
    SliceHasNoCrLf(text, i, |text|);
    assert text[i..|text|] == text[i..];
    var visible := TrimStart(text);
    TrimEndIsPrefix(visible);
    SliceHasNoCrLf(visible, 0, |Trim(text)|);
    assert visible[0..|Trim(text)|] == Trim(text);
  }

  /** Lines that keep no carriage return, the last one apart, and messages without `\r\n`. */
  ghost predicate Plain(p: Parser) {
    && (forall line | line in p.lines :: '\n' !in line)
    && (forall i | 0 <= i < |p.lines| - 1 :: NoCr(p.lines[i]))
    && (forall m | m in p.messages :: !HasCrLf(m.content))
  }

  lemma FlushIsPlain(p: Parser)
    requires Plain(p)
    ensures Plain(Flush(p))
  {
    hide HasCrLf, Join, Trim;
    JoinHasNoCrLf(p.lines);
    TrimHasNoCrLf(Join(p.lines));
  }

  lemma ReadIsPlain(p: Parser, line: string)
    requires Plain(p) && '\n' !in line
    requires p.lines != [] ==> NoCr(p.lines[|p.lines| - 1])
    ensures Plain(Read(p, line))
    ensures Read(p, line).lines == [] || Read(p, line).lines == p.lines || Read(p, line).lines == p.lines + [line]
  {
    hide HasCrLf, Join, Trim, NoCr;
    FlushIsPlain(p);
  }

  lemma {:induction false} ReadAllIsPlain(p: Parser, lines: seq<string>)
    requires Plain(p) && (p.lines != [] ==> NoCr(p.lines[|p.lines| - 1]))
    requires forall line | line in lines :: '\n' !in line && NoCr(line)
    ensures Plain(ReadAll(p, lines))
    ensures ReadAll(p, lines).lines != [] ==>
      NoCr(ReadAll(p, lines).lines[|ReadAll(p, lines).lines| - 1])
    decreases |lines|
  {
    hide Read, Plain, NoCr;
    if lines != [] {
      assert lines[0] in lines;
      ReadIsPlain(p, lines[0]);
      ReadAllIsPlain(Read(p, lines[0]), lines[1..]);
    }
  }

  /** A template without `\r\r\n` is stable: parse, print, parse gives what parse gives. */
  lemma StableWithoutDoubleCr(template: string)
    requires !HasDoubleCr(template)
    ensures Parse(Format(Parse(template))) == Parse(template)
  {
    hide Lines, Tail, Read, Flush, Format, NoCr, HasDoubleCr, HasCrLf;
    var lines := StripAll(Lines(template));
    SplitLinesEndPlainly(template);
    SplitLinesHaveNoNewline(template);
    forall line | line in lines
      ensures '\n' !in line && NoCr(line)
    {
      var i :| 0 <= i < |lines| && lines[i] == line;
      assert line in SplitLines(template);
      assert Lines(template)[i] in Lines(template);
    }
    assert Tail(template) in SplitLines(template);
    ReadAllIsPlain(IDLE, lines);
    var p := ReadAll(IDLE, lines);
    ReadConcat(IDLE, lines, [Tail(template)]);
    ReadOne(p, Tail(template));
    ReadIsPlain(p, Tail(template));
    FlushIsPlain(Read(p, Tail(template)));
    ParseIsStable(template);
  }

  /** With `\r\r\n` a carriage return stays in the content, and is lost the second time. */
  lemma DoubleCrIsUnstable()
    ensures var template := "$USER\na\r\r\nb";
      && Parse(template) == [Message(User, "a\r\nb")]
      && Parse(Format(Parse(template))) != Parse(template)
  {
    hide Lines, Tail, Format;
    var template := "$USER\na\r\r\nb";
    LineThen("$USER", "a\r\r\nb");
    LineThen("a\r\r", "b");
    OneLine("b");
    assert "$USER" + "\n" + "a\r\r\nb" == template && "a\r\r" + "\n" + "b" == "a\r\r\nb";
    assert Lines(template) == ["$USER"] + (["a\r\r"] + []) == ["$USER", "a\r\r"];
    assert StripCr("a\r\r") == "a\r" by {
      assert "a\r\r"[..2] == "a\r";
    }
    assert SplitLines(template) == ["$USER", "a\r", "b"];
    ReadExample();
    var content := "a\r\nb";
    assert content[1] == '\r' && content[2] == '\n';
    assert HasCrLf(content);
    ParseIsStable(template);
  }

  lemma ReadExample()
    ensures Flush(ReadAll(IDLE, ["$USER", "a\r", "b"])).messages == [Message(User, "a\r\nb")]
  {
    hide Trim;
    var lines := ["$USER", "a\r", "b"];
    TokensTrim(User);
    assert Trim("a\r") == "a" && Trim("b") == "b" && Trim("a\r\nb") == "a\r\nb" by {
      TrimExamples();
    }
    assert lines == ["$USER"] + ["a\r", "b"];
    ReadConcat(IDLE, ["$USER"], ["a\r", "b"]);
    ReadOne(IDLE, "$USER");
    ReadContent(Parser(Some(User), [], []), ["a\r", "b"]);
    assert [] + ["a\r", "b"] == ["a\r", "b"];
    assert Join(["a\r", "b"]) == "a\r\nb" by {
      assert ["a\r", "b"][1..] == ["b"];
    }
  }

  lemma TrimExamples()
    ensures Trim("a\r") == "a" && Trim("b") == "b" && Trim("a\r\nb") == "a\r\nb"
  {
    assert "a\r"[..1] == "a";
  }

  // ---------- what a template means ----------

  /** The lines before the next control token. */
  function BlockSize(lines: seq<string>): (n: nat)
    ensures n <= |lines|
  {
    if lines == [] || IsToken(Trim(lines[0])) then 0 else 1 + BlockSize(lines[1..])
  }

  /** The messages of a list of lines: a role token opens a block, which reaches to the next token of
      any kind or to the end; a blank block gives no message, and no other line counts. */
  function Meaning(lines: seq<string>): seq<Message>
    decreases |lines|
  {
    if lines == [] then []
    else
      var role, rest := RoleByToken(Trim(lines[0])), lines[1..];
      if role == None then Meaning(rest)
      else
        var n := BlockSize(rest);
        var content := Trim(Join(rest[..n]));
        (if content == "" then [] else [Message(role.value, content)]) + Meaning(rest[n..])
  }

  /** Within a block lines are collected up to the next token. */
  lemma {:induction false} Collects(p: Parser, lines: seq<string>)
    requires p.role.Some?
    ensures var n := BlockSize(lines);
      ReadAll(p, lines) == ReadAll(p.(lines := p.lines + lines[..n]), lines[n..])
    decreases |lines|
  {
    hide Trim;
    var n := BlockSize(lines);
    if n == 0 {
      assert p.lines + lines[..0] == p.lines && lines[0..] == lines;
    } else {
      var next := p.(lines := p.lines + [lines[0]]);
      Collects(next, lines[1..]);
      var m := BlockSize(lines[1..]);
      assert lines[n..] == lines[1..][m..];
      assert p.lines + lines[..n] == (p.lines + [lines[0]]) + lines[1..][..m];
    }
  }

  /** What the parser gives from here on, with nothing open. */
  lemma {:induction false} ReadsMeaning(p: Parser, lines: seq<string>)
    requires p.role == None && p.lines == []
    ensures Flush(ReadAll(p, lines)).messages == p.messages + Meaning(lines)
    decreases |lines|
  {
    hide Trim, Join, BlockSize, RoleByToken, IsToken;
    if lines == [] {
      assert p.messages + [] == p.messages;
    } else {
      var rest := lines[1..];
      var role := RoleByToken(Trim(lines[0]));
      if role == None {
        ReadsMeaning(p, rest);
      } else {
        var n := BlockSize(rest);
        var open := p.(role := role);
        Collects(open, rest);
        assert [] + rest[..n] == rest[..n];
        BlockCloses(open.(lines := rest[..n]), rest[n..]) by {
          TokenAfterBlock(rest);
        }
        ReadsMeaning(Flush(open.(lines := rest[..n])), rest[n..]);
      }
    }
  }

  lemma {:induction false} TokenAfterBlock(lines: seq<string>)
    ensures var n := BlockSize(lines); n < |lines| ==> IsToken(Trim(lines[n]))
  {
    hide Trim, IsToken;
    if lines != [] && !IsToken(Trim(lines[0])) {
      TokenAfterBlock(lines[1..]);
    }
  }

  /** At a token, or at the end, the block is flushed. */
  lemma BlockCloses(p: Parser, lines: seq<string>)
    requires lines != [] ==> IsToken(Trim(lines[0]))
    ensures Flush(ReadAll(p, lines)) == Flush(ReadAll(Flush(p), lines))
  {
    hide Trim, Join;
    if lines != [] {
      assert Flush(Flush(p)) == Flush(p);
      assert Read(p, lines[0]) == Read(Flush(p), lines[0]);
    }
  }

  /** For every template, what the one-pass parser gives is what its lines mean. */
  lemma ParseIsMeaning(template: string)
    ensures Parse(template) == Meaning(SplitLines(template))
  {
    hide SplitLines, ReadAll, Flush, Meaning;
    ReadsMeaning(IDLE, SplitLines(template));
    assert [] + Meaning(SplitLines(template)) == Meaning(SplitLines(template));
  }

  /** How messages are laid out: the role's token, the content and the end token on lines of their
      own. */
  lemma PrintedLayout(system: string, user: string, model: string)
    ensures Format([Message(System, system), Message(User, user), Message(Assistant, model)])
         == "$SYSTEM\n" + system + "\n$END\n" + ("$USER\n" + user + "\n$END\n" + ("$MODEL\n" + model + "\n$END"))
  {
    hide Join;
    var a, b, c := Message(System, system), Message(User, user), Message(Assistant, model);
    assert Blocks([a, b, c]) == [FormatMessage(a), FormatMessage(b), FormatMessage(c)];
    JoinThree(FormatMessage(a), FormatMessage(b), FormatMessage(c));
    Layout("$SYSTEM", system);
    Layout("$USER", user);
    assert "$MODEL" + "\n" == "$MODEL\n" && "\n" + END == "\n$END";
    assert "$MODEL" + "\n" + model + "\n" + END == "$MODEL\n" + model + "\n$END";
  }

  lemma JoinThree(a: string, b: string, c: string)
    ensures Join([a, b, c]) == a + "\n" + (b + "\n" + c)
  {
    assert [a, b, c][1..] == [b, c] && [b, c][1..] == [c];
    assert Join([c]) == c;
    assert Join([b, c]) == b + "\n" + c;
  }

  lemma Layout(token: string, content: string)
    ensures token + "\n" + content + "\n" + END + "\n" == (token + "\n") + content + "\n$END\n"
  {
    assert "\n" + END + "\n" == "\n$END\n";
    assert token + "\n" + content + "\n" + END + "\n" == (token + "\n") + content + ("\n" + END + "\n");
  }
}
