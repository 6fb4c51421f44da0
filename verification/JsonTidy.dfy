/** Strict JSON seen by the bracket scanner: its brackets match, its strings close, and
    outside strings it uses only the characters of the grammar. */
module JsonTidy {
  import opened Text
  import opened JsonScan
  import opened JsonText

  /** The characters strict JSON uses outside strings. */
  predicate IsJsonChar(c: char) {
    IsWs(c) || IsNumberChar(c) || c in "{}[]:,\"truefalsn"
  }

  predicate PlainAt(text: string, i: nat)
    requires i < |text|
  {
    Run(START, text[..i]).At?
    && if Run(START, text[..i]).mode == Outside then IsJsonChar(text[i]) else text[i] >= ' '
  }

  ghost predicate Tidy(text: string) {
    Balanced(text) && forall i | 0 <= i < |text| :: PlainAt(text, i)
  }

  lemma TidyConcat(a: string, b: string)
    requires Tidy(a) && Tidy(b)
    ensures Tidy(a + b)
  {
    hide Run;
    RunConcat(START, a, b);
    forall i | 0 <= i < |a + b|
      ensures PlainAt(a + b, i)
    {
      if i < |a| {
        assert (a + b)[..i] == a[..i];
        assert PlainAt(a, i);
      } else {
        assert (a + b)[..i] == a + b[..i - |a|];
        RunConcat(START, a, b[..i - |a|]);
        assert PlainAt(b, i - |a|);
      }
    }
  }

  lemma {:induction false} TidyChars(text: string)
    requires forall c | c in text :: IsJsonChar(c) && c != '"' && !IsOpening(c) && !IsClosing(c)
    ensures Tidy(text)
  {
    if text != [] {
      var init, c := text[..|text| - 1], text[|text| - 1];
      assert c in text;
      forall d | d in init
        ensures IsJsonChar(d) && d != '"' && !IsOpening(d) && !IsClosing(d)
      {
        assert d in text;
      }
      TidyChars(init);
      TidyOne(c);
      TidyConcat(init, [c]);
      assert init + [c] == text;
    }
  }

  lemma TidyOne(c: char)
    requires IsJsonChar(c) && c != '"' && !IsOpening(c) && !IsClosing(c)
    ensures Tidy([c])
  {
    RunSnoc(START, [], c);
    assert [] + [c] == [c];
    assert [c][..0] == [];
  }

  lemma TidyBraces(open: char, body: string, close: char)
    requires Tidy(body) && IsOpening(open) && IsClosing(close) && Kind(open) == Kind(close)
    ensures Tidy([open] + body + [close])
  {
    hide Run;
    var text := [open] + body + [close];
    assert text[..0] == [];
    assert PlainAt(text, 0) by {
      OpensOne(open);
    }
    forall i | 0 < i < |text|
      ensures PlainAt(text, i)
    {
      BracedPrefix(open, body, i - 1);
      assert text[..i] == [open] + body[..i - 1];
      assert i - 1 < |body| ==> PlainAt(body, i - 1);
    }
    BracedPrefix(open, body, |body|);
    assert body[..|body|] == body;
    RunSnoc(START, [open] + body, close);
  }

  lemma OpensOne(open: char)
    requires IsOpening(open)
    ensures Run(START, []) == START && Run(START, [open]) == At([Kind(open)], Outside)
  {
    RunSnoc(START, [], open);
    assert [] + [open] == [open];
  }

  lemma BracedPrefix(open: char, body: string, i: nat)
    requires Balanced(body) && IsOpening(open) && i <= |body|
    ensures Run(START, body[..i]).At?
    ensures Run(START, [open] + body[..i])
         == At([Kind(open)] + Run(START, body[..i]).stack, Run(START, body[..i]).mode)
  {
    hide Run;
    OpensOne(open);
    PrefixScans(body, i);
    RunConcat(START, [open], body[..i]);
    Frame([Kind(open)], body[..i]);
  }

  // ---------- the pieces of the grammar ----------

  lemma {:induction false} WsIsTidy(s: string) returns (used: string)
    ensures s == used + SkipWs(s) && Tidy(used)
  {
    if s != [] && IsWs(s[0]) {
      var more := WsIsTidy(s[1..]);
      TidyOne(s[0]);
      TidyConcat([s[0]], more);
      used := [s[0]] + more;
      assert s == [s[0]] + s[1..];
    } else {
      used := "";
    }
  }

  const WITHIN: Scan := At([], Inside)

  /** Read from within a string, every prefix stays within it, and so does the end; no
      control character is read. */
  ghost predicate StaysInside(text: string) {
    && Run(WITHIN, text) == WITHIN
    && (forall i | 0 <= i <= |text| :: InsideAfter(text[..i]))
    && (forall c | c in text :: c >= ' ')
  }

  predicate InsideAfter(text: string) {
    Run(WITHIN, text).At? && Run(WITHIN, text).stack == [] && Run(WITHIN, text).mode != Outside
  }

  lemma StaysInsideConcat(a: string, b: string)
    requires StaysInside(a) && StaysInside(b)
    ensures StaysInside(a + b)
  {
    hide Run;
    RunConcat(WITHIN, a, b);
    forall i | 0 <= i <= |a + b|
      ensures InsideAfter((a + b)[..i])
    {
      if i <= |a| {
        assert (a + b)[..i] == a[..i];
        assert InsideAfter(a[..i]);
      } else {
        assert (a + b)[..i] == a + b[..i - |a|];
        RunConcat(WITHIN, a, b[..i - |a|]);
        assert InsideAfter(b[..i - |a|]);
      }
    }
  }

  lemma OrdinaryStaysInside(c: char)
    requires c != '"' && c != '\\' && c >= ' '
    ensures StaysInside([c])
  {
    assert [c][..0] == [] && [c][..1] == [c];
    RunSnoc(WITHIN, [], c);
    assert [] + [c] == [c];
  }

  lemma EscapeStaysInside(c: char)
    requires c >= ' '
    ensures StaysInside(['\\', c])
  {
    var text := ['\\', c];
    RunSnoc(WITHIN, [], '\\');
    assert [] + ['\\'] == ['\\'];
    RunSnoc(WITHIN, ['\\'], c);
    assert ['\\'] + [c] == text;
    forall i | 0 <= i <= |text|
      ensures InsideAfter(text[..i])
    {
      assert text[..i] == if i == 0 then [] else if i == 1 then ['\\'] else text;
    }
  }

  lemma {:induction false} StringStaysInside(s: string)
    requires LexString(s).Ok?
    ensures s == LexString(s).value + "\"" + LexString(s).rest
    ensures StaysInside(LexString(s).value)
    decreases |s|
  {
    hide StaysInside, EscapeFollows;
    if s[0] == '"' {
      assert StaysInside("") by {
        NothingStaysInside();
      }
    } else {
      var n := if s[0] == '\\' then 2 else 1;
      StringStaysInside(s[n..]);
      assert s == s[..n] + s[n..];
      assert s[..n] == if n == 2 then ['\\', s[1]] else [s[0]];
      if n == 2 {
        EscapeStaysInside(s[1]);
      } else {
        OrdinaryStaysInside(s[0]);
      }
      StaysInsideConcat(s[..n], LexString(s[n..]).value);
    }
  }

  lemma NothingStaysInside()
    ensures StaysInside("")
  {
    assert ""[..0] == "";
  }

  lemma QuoteOpens()
    ensures Run(START, "\"") == WITHIN && Run(START, "") == START
  {
    RunSnoc(START, "", '"');
    assert "" + ['"'] == "\"";
  }

  lemma StringIsTidy(s: string) returns (used: string)
    requires LexString(s).Ok?
    ensures s == used + LexString(s).rest && Tidy("\"" + used)
  {
    var lexeme := LexString(s).value;
    StringStaysInside(s);
    used := lexeme + "\"";
    var token := "\"" + lexeme + "\"";
    QuoteOpens();
    hide LexString, Run;
    forall i | 0 <= i < |token|
      ensures PlainAt(token, i)
    {
      if i > 0 {
        assert token[..i] == "\"" + lexeme[..i - 1];
        RunConcat(START, "\"", lexeme[..i - 1]);
        assert InsideAfter(lexeme[..i - 1]);
        assert i - 1 < |lexeme| ==> lexeme[i - 1] in lexeme;
      }
    }
    RunConcat(START, "\"", lexeme);
    RunSnoc(START, "\"" + lexeme, '"');
    assert "\"" + used == token;
  }

  lemma TokenIsTidy(s: string) returns (used: string)
    requires ParseValue(s).Ok? && s[0] != '{' && s[0] != '['
    ensures s == used + ParseValue(s).rest && Tidy(used)
  {
    hide Tidy, LexString, IsNumber, NumberChars;
    if s[0] == '"' {
      var more := StringIsTidy(s[1..]);
      used := "\"" + more;
      assert s == "\"" + s[1..];
    } else {
      used := if s[0] == 't' then "true" else if s[0] == 'f' then "false"
              else if s[0] == 'n' then "null" else s[..NumberChars(s)];
      TidyChars(used);
    }
  }

  lemma {:induction false} ValueIsTidy(s: string) returns (used: string)
    requires ParseValue(s).Ok?
    ensures s == used + ParseValue(s).rest && Tidy(used)
    decreases |s|, 2
  {
    if s[0] == '{' || s[0] == '[' {
      var body, close := BodyIsTidy(s);
      TidyBraces(s[0], body, close);
      used := [s[0]] + body + [close];
    } else {
      used := TokenIsTidy(s);
    }
  }

  lemma {:induction false} BodyIsTidy(s: string) returns (body: string, close: char)
    requires ParseValue(s).Ok? && (s[0] == '{' || s[0] == '[')
    ensures s == [s[0]] + body + [close] + ParseValue(s).rest && Tidy(body)
    ensures close == if s[0] == '{' then '}' else ']'
    decreases |s|, 1
  {
    hide Tidy, SkipWs, ParseMembers, ParseItems;
    close := if s[0] == '{' then '}' else ']';
    var ws := WsIsTidy(s[1..]);
    var t := SkipWs(s[1..]);
    var rest := ParseValue(s).rest;
    var more := "";
    if t[0] == close {
      assert Tidy("") by {
        TidyChars("");
      }
      assert t == more + [close] + rest;
    } else if s[0] == '{' {
      more := MembersAreTidy(t);
    } else {
      more := ItemsAreTidy(t);
    }
    TidyConcat(ws, more);
    body := ws + more;
    BodySplits(s, ws, t, more, close, rest);
  }

  lemma BodySplits(s: string, ws: string, t: string, more: string, close: char, rest: string)
    requires s != [] && s[1..] == ws + t && t == more + [close] + rest
    ensures s == [s[0]] + (ws + more) + [close] + rest
  {
    assert s == [s[0]] + s[1..];
  }

  lemma {:induction false} ItemsAreTidy(s: string) returns (used: string)
    requires ParseItems(s).Ok?
    ensures s == used + "]" + ParseItems(s).rest && Tidy(used)
    decreases |s|, 3
  {
    hide Tidy, ParseValue, SkipWs;
    var item := ValueIsTidy(s);
    var after := ParseValue(s).rest;
    var ws := WsIsTidy(after);
    var t := SkipWs(after);
    TidyConcat(item, ws);
    used := item + ws;
    assert s == used + t;
    if t[0] == ',' {
      var more := ItemsAreTidy(SkipWs(t[1..]));
      used := CommaJoins(s, used, t, more, "]" + ParseItems(s).rest);
    } else {
      assert t == "]" + t[1..];
    }
  }

  lemma {:induction false} MembersAreTidy(s: string) returns (used: string)
    requires ParseMembers(s).Ok?
    ensures s == used + "}" + ParseMembers(s).rest && Tidy(used)
    decreases |s|, 4
  {
    hide Tidy, ParseMember, SkipWs;
    var member := MemberIsTidy(s);
    var after := ParseMember(s).rest;
    var ws := WsIsTidy(after);
    var t := SkipWs(after);
    TidyConcat(member, ws);
    used := member + ws;
    assert s == used + t;
    if t[0] == ',' {
      var more := MembersAreTidy(SkipWs(t[1..]));
      used := CommaJoins(s, used, t, more, "}" + ParseMembers(s).rest);
    } else {
      assert t == "}" + t[1..];
    }
  }

  /** Text before a comma, the comma, white space and the text after it. */
  lemma CommaJoins(s: string, before: string, t: string, more: string, rest: string) returns (used: string)
    requires Tidy(before) && Tidy(more)
    requires s == before + t && t != [] && t[0] in ",:" && SkipWs(t[1..]) == more + rest
    ensures s == used + rest && Tidy(used)
  {
    hide Tidy, SkipWs;
    var ws := WsIsTidy(t[1..]);
    TidyOne(t[0]);
    TidyConcat(before, [t[0]]);
    TidyConcat(before + [t[0]], ws);
    TidyConcat(before + [t[0]] + ws, more);
    used := before + [t[0]] + ws + more;
    assert t == [t[0]] + (ws + (more + rest));
  }

  lemma {:induction false} MemberIsTidy(s: string) returns (used: string)
    requires ParseMember(s).Ok?
    ensures s == used + ParseMember(s).rest && Tidy(used)
    decreases |s|, 3
  {
    hide Tidy, ParseValue, SkipWs, LexString;
    var key := StringIsTidy(s[1..]);
    var after := LexString(s[1..]).rest;
    assert s == "\"" + s[1..];
    var ws := WsIsTidy(after);
    var t := SkipWs(after);
    TidyConcat("\"" + key, ws);
    var before := "\"" + key + ws;
    assert s == before + t;
    var value := ValueIsTidy(SkipWs(t[1..]));
    used := CommaJoins(s, before, t, value, ParseMember(s).rest);
  }

  /** Strict JSON text has matching brackets and closed strings, and outside its strings
      nothing but the characters of the grammar. */
  lemma StrictIsTidy(text: string)
    requires ParseJson(text).Some?
    ensures Tidy(text)
  {
    hide Tidy, ParseValue, SkipWs;
    var ws := WsIsTidy(text);
    var value := ValueIsTidy(SkipWs(text));
    var rest := ParseValue(SkipWs(text)).rest;
    var tail := WsIsTidy(rest);
    TidyConcat(ws, value);
    TidyConcat(ws + value, tail);
    assert tail + SkipWs(rest) == tail;
    assert text == ws + value + tail;
  }

  /** A strict object, from its `{` to its `}`. */
  ghost predicate StrictObject(text: string, v: Json) {
    text != [] && text[0] == '{' && ParseValue(text) == Ok(v, "")
  }

  lemma StrictObjectIsObjectText(text: string, v: Json)
    requires StrictObject(text, v)
    ensures ObjectText(text)
  {
    hide ParseValue;
    var body, close := BodyIsTidy(text);
    BracedIsObject(body);
    assert text == "{" + body + "}";
  }
}
