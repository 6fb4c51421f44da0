/** What the hardening of a reply gives when the reply is fenced, or may be. */
module JsonFenceLaws {
  import opened Text
  import opened JsonScan
  import opened JsonText
  import opened JsonTidy
  import opened JsonKeys
  import opened JsonPipeline
  import opened JsonPipelineLaws
  import JsonRepair

  // ---------- lines ----------

  /** A line with a brace in it is no fence, neither an opening nor a closing one. */
  lemma BraceLine(line: string)
    requires '{' in line || '}' in line
    ensures Trim(line) != FENCE && !OpensFence(line)
  {
    hide Trim, TrimEnd;
    if '{' in line {
      StaysVisible(line, '{');
    } else {
      StaysVisible(line, '}');
    }
  }

  lemma StaysVisible(line: string, c: char)
    requires c in line && !IsSpace(c)
    ensures c in Trim(line) && c in TrimEnd(line)
  {
    hide IsSpace, TrimStart, TrimEnd;
    var ws := TrimStartSplits(line);
    assert c in TrimStart(line);
    var after := TrimEndSplits(TrimStart(line));
    var tail := TrimEndSplits(line);
  }

  /** The first line of a concatenation whose first part has a line break. */
  lemma FirstLineKept(a: string, b: string)
    requires '\n' in a
    ensures var m := IndexOf(a, '\n');
      IndexOf(a + b, '\n') == m && (a + b)[..m] == a[..m] && (a + b)[m + 1..] == a[m + 1..] + b
  {
    IndexOfConcat(a, b, '\n');
  }

  /** The first line of a concatenation whose first part has none. */
  lemma FirstLineGrows(a: string, b: string)
    requires '\n' !in a
    ensures var n := IndexOf(b, '\n');
      && IndexOf(a + b, '\n') == (if n == -1 then -1 else |a| + n)
      && (n != -1 ==> (a + b)[..|a| + n] == a + b[..n] && (a + b)[|a| + n + 1..] == b[n + 1..])
  {
    hide IndexOf;
    var n := IndexOf(b, '\n');
    if n != -1 {
      var line, more := a + b[..n], b[n..];
      assert a + b == line + more;
      IndexOfAfter(line, more, '\n');
      assert |line| == |a| + n;
    } else {
      assert IndexOf(a + b, '\n') == -1;
    }
  }

  // ---------- where a fence closes ----------

  /** The first fence after the first line of `b`, counted from `n` before it. */
  function AfterLine(b: string, n: nat): Option<nat> {
    var m := IndexOf(b, '\n');
    if m == -1 then None else Later(FirstFence(b[m + 1..]), n + m + 1)
  }

  /** Noise in which no fence line is complete, and then a brace: the first fence comes after
      the brace's line. */
  lemma {:induction false} NoFenceInNoise(a: string, b: string)
    requires b != [] && b[0] == '{' && FirstFence(a + "{") == None
    ensures FirstFence(a + b) == AfterLine(b, |a|)
    decreases |a|
  {
    hide Trim, IndexOf, FirstFence;
    NextFence(a + b);
    NextFence(a + "{");
    if '\n' in a {
      var m := IndexOf(a, '\n');
      FirstLineKept(a, b);
      FirstLineKept(a, "{");
      NoFenceInNoise(a[m + 1..], b);
    } else {
      FirstLineGrows(a, b);
      BraceStartsLine(a, b);
    }
  }

  lemma BraceStartsLine(a: string, b: string)
    requires '\n' !in a && b != [] && b[0] == '{'
    ensures var n := IndexOf(b, '\n'); Trim(if n == -1 then a + b else a + b[..n]) != FENCE
  {
    hide Trim, IndexOf;
    var n := IndexOf(b, '\n');
    var line := if n == -1 then a + b else a + b[..n];
    assert line[|a|] == '{';
    BraceLine(line);
  }

  /** A fence complete in the noise is the first one, whatever follows. */
  lemma {:induction false} FenceInNoise(a: string, b: string)
    requires b != [] && b[0] == '{' && FirstFence(a + "{").Some?
    ensures FirstFence(a + b) == FirstFence(a + "{") && FirstFence(a + b).value < |a|
    decreases |a|
  {
    assert IndexOf("{", '\n') == -1;
    hide Trim, IndexOf, FirstFence;
    if '\n' in a {
      var m := IndexOf(a, '\n');
      FirstLineKept(a, b);
      FirstLineKept(a, "{");
      if Trim(a[..m]) == FENCE {
        FenceHere(a + b);
        FenceHere(a + "{");
      } else {
        FenceLater(a + b);
        FenceLater(a + "{");
        FenceInNoise(a[m + 1..], b);
      }
    } else {
      FirstLineGrows(a, "{");
      BraceStartsLine(a, "{");
      NoFenceLeft(a + "{");
    }
  }

  lemma TrimOfFence(line: string)
    requires Trim(line) == FENCE
    ensures TrimStart(line) != [] && TrimStart(line)[0] == '`'
  {
    hide TrimStart;
    TrimEndIsPrefix(TrimStart(line));
    assert TrimEnd(TrimStart(line)) == FENCE;
  }

  /** The first visible character of a stretch that starts outside strings. */
  lemma VisibleIsJsonChar(text: string, i: nat, k: nat)
    requires Tidy(text) && i <= k <= |text|
    requires Run(START, text[..i]).At? && Run(START, text[..i]).mode == Outside
    ensures TrimStart(text[i..k]) != [] ==> IsJsonChar(TrimStart(text[i..k])[0])
  {
    hide Run, TrimStart, IsSpace;
    var line := text[i..k];
    var ws := TrimStartSplits(line);
    if TrimStart(line) != [] {
      var j := i + |ws|;
      assert text[..j] == text[..i] + ws;
      RunConcat(START, text[..i], ws);
      BlankScans(ws);
      Frame(Run(START, text[..i]).stack, ws);
      assert PlainAt(text, j);
      assert text[j] == line[|ws|];
    }
  }

  lemma JsonLineIsNoFence(text: string, i: nat, k: nat)
    requires Tidy(text) && i <= k <= |text|
    requires Run(START, text[..i]).At? && Run(START, text[..i]).mode == Outside
    ensures Trim(text[i..k]) != FENCE
  {
    hide Run, TrimStart, Trim;
    VisibleIsJsonChar(text, i, k);
    if Trim(text[i..k]) == FENCE {
      TrimOfFence(text[i..k]);
    }
  }

  /** In strict JSON a line break is never inside a string. */
  lemma LineBreakIsOutside(text: string, i: nat)
    requires Tidy(text) && i < |text| && text[i] == '\n'
    ensures Run(START, text[..i + 1]).At? && Run(START, text[..i + 1]).mode == Outside
  {
    hide Run;
    assert PlainAt(text, i);
    assert text[..i + 1] == text[..i] + ['\n'];
    RunSnoc(START, text[..i], '\n');
  }

  /** No line that starts within strict JSON is a fence: the first one after it starts behind
      its end. */
  lemma {:induction false} JsonLinesAreNoFence(t: string, i: nat, q: string)
    requires Tidy(t) && i <= |t| && t != [] && t[|t| - 1] == '}'
    requires Run(START, t[..i]).At? && Run(START, t[..i]).mode == Outside
    ensures FirstFence(t[i..] + q).Some? ==> |t| - i <= FirstFence(t[i..] + q).value
    decreases |t| - i
  {
    hide Run, Tidy, Trim, IndexOf, FirstFence;
    if i < |t| {
      var rest := t[i..];
      NextFence(rest + q);
      if '\n' in rest {
        var n := IndexOf(rest, '\n');
        FirstLineKept(rest, q);
        JsonLineIsNoFence(t, i, i + n);
        assert t[i..i + n] == rest[..n];
        LineBreakIsOutside(t, i + n);
        JsonLinesAreNoFence(t, i + n + 1, q);
        assert rest[n + 1..] == t[i + n + 1..];
      } else {
        FirstLineGrows(rest, q);
        BraceEndsLine(rest, q);
      }
    }
  }

  lemma BraceEndsLine(a: string, q: string)
    requires a != [] && a[|a| - 1] == '}'
    ensures var n := IndexOf(q, '\n'); Trim(if n == -1 then a + q else a + q[..n]) != FENCE
  {
    hide Trim, IndexOf;
    var n := IndexOf(q, '\n');
    var line := if n == -1 then a + q else a + q[..n];
    assert line[|a| - 1] == '}';
    BraceLine(line);
  }

  /** Behind noise that holds no fence line, a fence closes only after the whole object. */
  lemma FenceAfterObject(a: string, t: string, q: string, v: Json)
    requires StrictObject(t, v) && FirstFence(a + "{") == None
    ensures FirstFence(a + (t + q)).Some? ==> |a| + |t| <= FirstFence(a + (t + q)).value
  {
    hide Trim, IndexOf, FirstFence, StrictObject, Tidy, Run, ParseJson;
    var b := t + q;
    VisibleObject(t, v);
    StrictIsTidy(t);
    NoFenceInNoise(a, b);
    var n := IndexOf(b, '\n');
    if '\n' in t {
      FirstLineKept(t, q);
      LineBreakIsOutside(t, n);
      JsonLinesAreNoFence(t, n + 1, q);
    } else {
      FirstLineGrows(t, q);
    }
  }

  // ---------- what a reply's body is ----------

  lemma SameFence(a: string, b: string)
    requires Trim(a) == Trim(b)
    ensures ExtractFence(a) == ExtractFence(b)
  {
  }

  /** What `extractJsonFence` makes of a visible start and a visible end. */
  function Around(p: string, b: string): Option<string> {
    var e := IndexOf(p, '\n');
    if e == -1 || !OpensFence(p[..e]) then None
    else
      var content := p[e + 1..] + b;
      match FirstFence(content)
      case Some(k) => Some(Trim(content[..k]))
      case None => None
  }

  /** Only the text before a brace can open a fence. */
  lemma FenceOpensBefore(p: string, b: string)
    requires b != [] && b[0] == '{'
    ensures TrimEnd(b) != [] && TrimEnd(b)[0] == '{' && Trim(p + b) == TrimStart(p) + TrimEnd(b)
    ensures ExtractFence(p + b) == Around(TrimStart(p), TrimEnd(b))
  {
    hide TrimStart, TrimEnd, IndexOf, FirstFence, OpensFence;
    var visible, end := TrimStart(p), TrimEnd(b);
    assert end != [] && end[0] == '{' by {
      TrimEndIsPrefix(b);
      var ws := TrimEndSplits(b);
      assert b[0] in b;
    }
    TrimStartConcat(p, b);
    TrimEndOver(visible, b);
    if '\n' in visible {
      FirstLineKept(visible, end);
    } else {
      FirstLineGrows(visible, end);
      var n := IndexOf(end, '\n');
      if n != -1 {
        assert (visible + end[..n])[|visible|] == '{';
        BraceLine(visible + end[..n]);
      }
    }
  }

  /** The content of a fence that is complete in the noise is all there is: what stands behind
      it, an object too, makes no difference. */
  lemma FenceInNoiseHidesTheRest(p: string, b: string)
    requires b != [] && b[0] == '{' && ExtractFence(p + "{").Some?
    ensures ExtractFence(p + b) == ExtractFence(p + "{")
    ensures Some(ReplyBody(p + b)) == ExtractFence(p + "{")
  {
    hide TrimStart, TrimEnd, IndexOf, FirstFence, OpensFence, ExtractFence, Trim;
    var visible := TrimStart(p);
    FenceOpensBefore(p, b);
    FenceOpensBefore(p, "{");
    assert TrimEnd("{") == "{" by {
      OneBrace();
    }
    var a := visible[IndexOf(visible, '\n') + 1..];
    FenceInNoise(a, TrimEnd(b));
    var k := FirstFence(a + "{").value;
    assert (a + TrimEnd(b))[..k] == (a + "{")[..k];
    BodyOf(p + b);
  }

  lemma OneBrace()
    ensures TrimEnd("{") == "{"
  {
  }

  lemma BodyOf(raw: string)
    ensures ReplyBody(raw) == match ExtractFence(raw) case Some(content) => content case None => Trim(raw)
  {
    hide ExtractFence, Trim;
    TrimTwice(raw);
    SameFence(Trim(raw), raw);
  }

  /** Otherwise the body still holds the whole object, with noise before it and anything after
      it, whether the reply is fenced or not. */
  lemma BodyHoldsTheObject(p: string, t: string, q: string, v: Json) returns (a: string, z: string)
    requires StrictObject(t, v) && ExtractFence(p + "{") == None
    ensures ReplyBody(p + t + q) == Trim(a + t + z)
    ensures forall c | c in a :: c in p
    ensures z <= q
  {
    hide TrimStart, TrimEnd, IndexOf, FirstFence, OpensFence, ExtractFence, StrictObject, Trim;
    var visible, b := TrimStart(p), t + q;
    assert p + b == p + t + q;
    VisibleObject(t, v);
    BodyOf(p + t + q);
    FenceOpensBefore(p, b);
    FenceOpensBefore(p, "{");
    a, z := p, q;
    if ExtractFence(p + b).Some? {
      assert TrimEnd("{") == "{" by {
        OneBrace();
      }
      a := visible[IndexOf(visible, '\n') + 1..];
      TrimEndConcat(t, q);
      FenceAfterObject(a, t, TrimEnd(q), v);
      var k := FirstFence(a + (t + TrimEnd(q))).value;
      z := TrimEnd(q)[..k - |a| - |t|];
      TrimEndIsPrefix(q);
      assert (a + (t + TrimEnd(q)))[..k] == a + t + z;
      var ws := TrimStartSplits(p);
    }
  }

  // ---------- a strict object is recovered from noise ----------

  /** What the schema is given for a body. */
  function Given(body: string, synonyms: Option<seq<Entry>>, lower: Lower): Option<Json> {
    match ParseStages(body)
    case Some(v) => Some(Canonical(v, synonyms, lower))
    case None => None
  }

  /** For every noise without `{` that holds no complete fence, and everything behind the object,
      fenced or not: the object is what comes out if and only if the body, as it is, with its
      punctuation normalised, and with its quotes unescaped as well, is in none of these forms a
      JSON value other than an object. */
  lemma RecoveredUnlessAnotherValue(p: string, t: string, q: string, v: Json,
                                    synonyms: Option<seq<Entry>>, lower: Lower)
    requires StrictObject(t, v) && SurvivesCleanup(t)
    requires '{' !in p && ExtractFence(p + "{") == None
    ensures var body := ReplyBody(p + t + q); var n := NormalizeJsonPunctuation(body);
      ParseJsonWithFallback(p + t + q, synonyms, lower) == Some(Canonical(v, synonyms, lower))
      <==> !ReadsAsOther(body) && !ReadsAsOther(n) && !ReadsAsOther(UnescapeJsonQuotes(n))
  {
    hide ParseStages, StrictObject, SurvivesCleanup, ExtractFence, TrimEnd, TrimStart, Trim, ReadsAsOther, ReplyBody;
    VisibleObject(t, v);
    StrictObjectIsObj(t, v);
    var a, z := BodyHoldsTheObject(p, t, q, v);
    TrimAroundObject(a, t, z);
    var ws := TrimStartSplits(a);
    assert forall c | c in TrimStart(a) :: c in a;
    StagesRecoverUnlessAnotherValue(TrimStart(a), t, TrimEnd(z), v);
  }

  /** If besides the body's first character starts no value, or is the object's own, only a
      string can take the object's place. */
  lemma RecoveredUnlessAString(p: string, t: string, q: string, v: Json, synonyms: Option<seq<Entry>>, lower: Lower)
    requires StrictObject(t, v) && SurvivesCleanup(t)
    requires '{' !in p && ExtractFence(p + "{") == None
    requires var body := ReplyBody(p + t + q); body != [] ==> body[0] == '{' || !StartsValue(body[0])
    ensures var n := NormalizeJsonPunctuation(ReplyBody(p + t + q));
      ParseJsonWithFallback(p + t + q, synonyms, lower) == Some(Canonical(v, synonyms, lower))
      <==> !ReadsAsString(n) && !ReadsAsString(UnescapeJsonQuotes(n))
  {
    hide ParseStages, StrictObject, SurvivesCleanup, ExtractFence, TrimEnd, TrimStart, Trim, StartsValue, ReadsAsString, ReplyBody;
    VisibleObject(t, v);
    StrictObjectIsObj(t, v);
    var a, z := BodyHoldsTheObject(p, t, q, v);
    TrimAroundObject(a, t, z);
    var ws := TrimStartSplits(a);
    assert forall c | c in TrimStart(a) :: c in a;
    if TrimStart(a) != [] {
      assert ReplyBody(p + t + q)[0] == TrimStart(a)[0] && TrimStart(a)[0] in TrimStart(a);
    }
    StagesRecoverUnlessAString(TrimStart(a), t, TrimEnd(z), v);
  }

  /** So the object is recovered whenever the clean-up does not make the body start with a
      quotation mark. */
  lemma NoiseIsRecovered(p: string, t: string, q: string, v: Json, synonyms: Option<seq<Entry>>, lower: Lower)
    requires StrictObject(t, v) && SurvivesCleanup(t)
    requires '{' !in p && ExtractFence(p + "{") == None
    requires var body := ReplyBody(p + t + q); body != [] ==> body[0] == '{' || !StartsValue(body[0])
    requires var n := NormalizeJsonPunctuation(ReplyBody(p + t + q)); n != [] ==> n[0] != '"' && !StartsEscapedQuote(n)
    ensures ParseJsonWithFallback(p + t + q, synonyms, lower) == Some(Canonical(v, synonyms, lower))
  {
    hide ParseStages, StrictObject, SurvivesCleanup, ExtractFence, Trim, StartsValue, ReadsAsString, ReplyBody,
         NormalizeJsonPunctuation, UnescapeJsonQuotes;
    var body := ReplyBody(p + t + q);
    RecoveredUnlessAString(p, t, q, v, synonyms, lower);
    BodyIsTrimmed(p + t + q);
    CleanupStaysVisible(body);
    var n := NormalizeJsonPunctuation(body);
    StringsStartWithQuote(n);
    StringsStartWithQuote(UnescapeJsonQuotes(n));
    if n != [] {
      UnescapeOther(n);
    }
  }

  lemma BodyIsTrimmed(raw: string)
    ensures var body := ReplyBody(raw); body != [] ==> !IsSpace(body[0])
  {
    hide IsSpace, FirstFence, IndexOf, OpensFence;
    var trimmed := Trim(raw);
    TrimmedStarts(raw);
    match ExtractFence(trimmed)
    case None =>
    case Some(_) => TrimmedStarts(Trim(trimmed)[IndexOf(Trim(trimmed), '\n') + 1..][..FirstFence(Trim(trimmed)[IndexOf(Trim(trimmed), '\n') + 1..]).value]);
  }

  lemma TrimmedStarts(s: string)
    ensures Trim(s) != [] ==> !IsSpace(Trim(s)[0])
  {
    hide IsSpace;
    var ws := TrimStartSplits(s);
    TrimEndIsPrefix(TrimStart(s));
  }

  lemma StringsStartWithQuote(s: string)
    requires s != [] ==> !IsWs(s[0])
    ensures ReadsAsString(s) ==> s != [] && s[0] == '"'
  {
    hide ParseMembers, ParseItems, LexString;
    assert SkipWs(s) == s;
  }

  /** A fence that is complete in the noise decides alone: for every object text and every
      suffix the schema is given what the fence's content gives. */
  lemma FenceInNoiseHidesTheObject(p: string, t: string, q: string, v: Json, synonyms: Option<seq<Entry>>, lower: Lower)
    requires StrictObject(t, v) && ExtractFence(p + "{").Some?
    ensures ParseJsonWithFallback(p + t + q, synonyms, lower)
         == Given(ExtractFence(p + "{").value, synonyms, lower)
  {
    hide ParseStages, StrictObject, ExtractFence, ReplyBody;
    VisibleObject(t, v);
    assert p + (t + q) == p + t + q;
    FenceInNoiseHidesTheRest(p, t + q);
  }

  // ---------- what a fence holds ----------

  /** No line of the text is a bare fence. */
  predicate FenceFree(text: string) {
    FirstFence(text) == None
  }

  /** The text's first line is a bare fence. */
  predicate ClosesFence(text: string) {
    FirstFence(text) == Some(0)
  }

  /** A line that opens a fence, with any white space around it, a carriage return too. */
  predicate OpeningLine(line: string) {
    '\n' !in line && OpensFence(TrimStart(line))
  }

  lemma {:induction false} FenceAfterBody(body: string, close: string)
    requires FenceFree(body) && ClosesFence(close)
    ensures FirstFence(body + ("\n" + close)) == Some(|body| + 1)
    decreases |body|
  {
    hide Trim, IndexOf, FirstFence;
    var tail := "\n" + close;
    if '\n' in body {
      var m := IndexOf(body, '\n');
      FirstLineKept(body, tail);
      NextFence(body);
      NextFence(body + tail);
      FenceAfterBody(body[m + 1..], close);
    } else {
      LastLineThenFence(body, close);
    }
  }

  lemma LastLineThenFence(line: string, close: string)
    requires '\n' !in line && FenceFree(line) && ClosesFence(close)
    ensures FirstFence(line + ("\n" + close)) == Some(|line| + 1)
  {
    hide Trim, IndexOf, FirstFence;
    var text := line + ("\n" + close);
    IndexOfAfter(line, "\n" + close, '\n');
    OnlyLineIsNoFence(line);
    assert text[..|line|] == line && text[|line| + 1..] == close;
    FenceLater(text);
  }

  lemma OnlyLineIsNoFence(line: string)
    requires '\n' !in line && FenceFree(line)
    ensures Trim(line) != FENCE
  {
    hide Trim, IndexOf, FirstFence;
    NextFence(line);
    BlankIsNoFence();
  }

  lemma BlankIsNoFence()
    ensures Trim("") != FENCE
  {
  }

  lemma {:induction false} ClosedAtEnd(close: string)
    requires ClosesFence(close)
    ensures TrimEnd(close) != [] && ClosesFence(TrimEnd(close))
  {
    hide Trim, IndexOf, FirstFence;
    var line := FirstLineOf(close);
    NextFence(close);
    FenceIsVisible(line);
    var end := TrimEnd(close);
    var ws := TrimEndSplits(close);
    assert '`' in end by {
      assert '`' in close && '`' !in ws;
    }
    NextFence(end);
    if '\n' in end {
      FirstLineKept(end, ws);
    } else {
      FirstLineGrows(end, ws);
      var n := IndexOf(ws, '\n');
      var more := if n == -1 then ws else ws[..n];
      assert line == end + more;
      assert forall c | c in more :: c in ws;
      TrimIgnoresBlank(end, more);
    }
  }

  function FirstLineOf(text: string): string {
    var n := IndexOf(text, '\n');
    if n == -1 then text else text[..n]
  }

  lemma FenceIsVisible(line: string)
    requires Trim(line) == FENCE
    ensures '`' in line
  {
    TrimOfFence(line);
    var ws := TrimStartSplits(line);
    assert line[|ws|] == '`';
  }

  lemma {:induction false} TrimIgnoresBlank(s: string, ws: string)
    requires Blank(ws)
    ensures Trim(s + ws) == Trim(s)
    decreases |ws|
  {
    hide Trim;
    if ws == [] {
      assert s + ws == s;
    } else {
      var init, c := ws[..|ws| - 1], ws[|ws| - 1];
      assert c in ws && forall d | d in init :: d in ws;
      TrimIgnoresBlank(s, init);
      TrimIgnoresLast(s + init, c);
      assert s + ws == (s + init) + [c];
    }
  }

  /** The content of a fenced reply is what stands between the fence lines, trimmed, if no line
      of it is itself a fence; a line may end with a carriage return, and anything may follow. */
  lemma FenceIsExtracted(open: string, body: string, close: string)
    requires OpeningLine(open) && FenceFree(body) && ClosesFence(close)
    ensures ExtractFence(open + ("\n" + (body + ("\n" + close)))) == Some(Trim(body))
  {
    hide TrimStart, TrimEnd, IndexOf, FirstFence, OpensFence;
    var first, end := TrimStart(open), TrimEnd(close);
    var raw := open + ("\n" + (body + ("\n" + close)));
    ClosedAtEnd(close);
    FenceAfterBody(body, end);
    OpeningIsVisible(first);
    TrimStartConcat(open, "\n" + (body + ("\n" + close)));
    TrimEndOver(first + "\n" + body + "\n", close);
    var content := body + ("\n" + end);
    assert first + "\n" + body + "\n" + close == first + ("\n" + (body + ("\n" + close)));
    assert Trim(raw) == first + ("\n" + content);
    var ws := TrimStartSplits(open);
    IndexOfAfter(first, "\n" + content, '\n');
    assert Trim(raw)[..|first|] == first && Trim(raw)[|first| + 1..] == content;
    assert content[..|body| + 1] == body + "\n";
    TrimIgnoresLast(body, '\n');
  }

  lemma OpeningIsVisible(first: string)
    requires OpensFence(first)
    ensures first != []
  {
  }

  /** Strict JSON in white space has no fence line. */
  lemma JsonIsFenceFree(ws: string, t: string, ws': string, v: Json)
    requires StrictObject(t, v) && (forall c | c in ws + ws' :: IsWs(c))
    ensures FenceFree(ws + t + ws')
  {
    hide Trim, IndexOf, FirstFence, StrictObject;
    assert forall c | c in ws :: c in ws + ws';
    assert forall c | c in ws' :: c in ws + ws';
    assert forall j | |ws| + |t| <= j < |ws + t + ws'| :: (ws + t + ws')[j] in ws';
    BraceIsNoFence();
    BlankIsFenceFree(ws, "{");
    FenceAfterObject(ws, t, ws', v);
    assert ws + (t + ws') == ws + t + ws';
    if FirstFence(ws + t + ws').Some? {
      FenceIsThere(ws + t + ws');
    }
  }

  lemma BraceIsNoFence()
    ensures FirstFence("{") == None
  {
    assert Trim("{") == "{";
    assert IndexOf("{", '\n') == -1;
  }

  /** Blank lines before a text hold no fence. */
  lemma {:induction false} BlankIsFenceFree(ws: string, more: string)
    requires Blank(ws) && FirstFence(more) == None && more != [] && more[0] == '{'
    ensures FirstFence(ws + more) == None
    decreases |ws|
  {
    hide Trim, IndexOf, FirstFence;
    NextFence(ws + more);
    NextFence(more);
    if '\n' in ws {
      var m := IndexOf(ws, '\n');
      FirstLineKept(ws, more);
      assert forall c | c in ws[..m] :: c in ws;
      assert forall c | c in ws[m + 1..] :: c in ws;
      BlankIsFenceFree(ws[m + 1..], more);
      BlankLineIsNoFence(ws[..m]);
    } else {
      FirstLineGrows(ws, more);
      BraceStartsLine(ws, more);
    }
  }

  lemma BlankLineIsNoFence(line: string)
    requires Blank(line)
    ensures Trim(line) != FENCE
  {
    BlankTrims(line);
  }

  /** Where a fence line starts, a backtick follows. */
  lemma {:induction false} FenceIsThere(text: string)
    requires FirstFence(text).Some?
    ensures exists j | FirstFence(text).value <= j < |text| :: text[j] == '`'
    decreases |text|
  {
    hide Trim, IndexOf, FirstFence;
    NextFence(text);
    var newline := IndexOf(text, '\n');
    var line := if newline == -1 then text else text[..newline];
    if Trim(line) == FENCE {
      FenceIsVisible(line);
      var j :| 0 <= j < |line| && line[j] == '`';
      assert text[j] == '`';
    } else {
      FenceIsThere(text[newline + 1..]);
      var rest := text[newline + 1..];
      var j :| FirstFence(rest).value <= j < |rest| && rest[j] == '`';
      assert text[newline + 1 + j] == '`';
    }
  }

  /** A strict object alone in a fence, with white space around it, is what the schema is
      given: strict JSON never contains a line that would close the fence. */
  lemma FencedObjectIsParsed(open: string, ws: string, t: string, ws': string, close: string, v: Json,
                             synonyms: Option<seq<Entry>>, lower: Lower)
    requires OpeningLine(open) && ClosesFence(close)
    requires StrictObject(t, v) && (forall c | c in ws + ws' :: IsWs(c))
    ensures ParseJsonWithFallback(open + ("\n" + ((ws + t + ws') + ("\n" + close))), synonyms, lower)
         == Some(Canonical(v, synonyms, lower))
  {
    hide StrictObject, FenceFree, Trim, ExtractFence, ParseJson, Canonical, OpeningLine, ClosesFence;
    ObjectAmongWs(ws, t, ws', v);
    JsonIsFenceFree(ws, t, ws', v);
    FenceIsExtracted(open, ws + t + ws', close);
    BodyOf(open + ("\n" + ((ws + t + ws') + ("\n" + close))));
    VisibleObject(t, v);
  }

  /** So is an object within noise, as long as no line of it all is a fence. */
  lemma FencedNoiseIsRecovered(open: string, p: string, t: string, q: string, close: string, v: Json,
                               synonyms: Option<seq<Entry>>, lower: Lower)
    requires OpeningLine(open) && ClosesFence(close) && FenceFree(p + t + q)
    requires StrictObject(t, v) && SurvivesCleanup(t) && '{' !in p && NoiseStarts(p)
    ensures ParseJsonWithFallback(open + ("\n" + ((p + t + q) + ("\n" + close))), synonyms, lower)
         == Some(Canonical(v, synonyms, lower))
  {
    hide StrictObject, FenceFree, Trim, ExtractFence, ParseStages, Canonical, OpeningLine, ClosesFence, NoiseStarts,
         SurvivesCleanup, TrimEnd;
    FenceIsExtracted(open, p + t + q, close);
    BodyOf(open + ("\n" + ((p + t + q) + ("\n" + close))));
    VisibleObject(t, v);
    TrimAroundObject(p, t, q);
    BareNoise(p);
    StagesRecover(TrimStart(p), t, TrimEnd(q), v);
  }

  lemma ObjectAmongWs(ws: string, t: string, ws': string, v: Json)
    requires StrictObject(t, v) && (forall c | c in ws + ws' :: IsWs(c))
    ensures Tidy(ws + t + ws')
    ensures Trim(ws + t + ws') == t
  {
    hide Tidy, Trim, Run, ParseJson, StrictObject;
    VisibleObject(t, v);
    StrictIsTidy(t);
    assert forall c | c in ws :: c in ws + ws';
    assert forall c | c in ws' :: c in ws + ws';
    TidyChars(ws);
    TidyChars(ws');
    TidyConcat(ws, t);
    TidyConcat(ws + t, ws');
    TrimAroundObject(ws, t, ws');
    BlankTrims(ws);
    BlankTrimsEnd(ws');
    assert "" + t + "" == t;
  }

  // ---------- a reply that starts over ----------

  /** A model that ignores the prefill and writes the whole object again, bare or in a fence, is
      taken at its word: the prefill is not put in front, and the schema is given the object. */
  lemma RestartIgnoresPrefill(p: string, ws: string, t: string, ws': string, v: Json,
                              synonyms: Option<seq<Entry>>, lower: Lower)
    requires StrictObject(t, v) && (forall c | c in ws + ws' :: IsWs(c))
    ensures var raw := ws + t + ws';
      && MergePrefill(p, raw) == raw
      && ParseJsonWithFallback(MergePrefill(p, raw), synonyms, lower) == Some(Canonical(v, synonyms, lower))
  {
    hide StrictObject, TrimEnd, ExtractFence, Tidy, ParseJson, Canonical, Run;
    var raw := ws + t + ws';
    ObjectAmongWs(ws, t, ws', v);
    VisibleObject(t, v);
    NoFenceWithout(t);
    TrimIsStart(raw);
    NoFenceWithout(TrimStart(raw));
    assert ParseJson(TrimStart(raw)).Some? by {
      VisibleThenWs(ws, t, ws', v);
    }
  }

  lemma VisibleThenWs(ws: string, t: string, ws': string, v: Json)
    requires StrictObject(t, v) && (forall c | c in ws + ws' :: IsWs(c))
    ensures TrimStart(ws + t + ws') == t + ws' && ParseJson(t + ws') == Some(v)
  {
    hide TrimStart, ParseValue;
    assert forall c | c in ws :: c in ws + ws';
    assert forall c | c in ws' :: c in ws + ws';
    BlankTrims(ws);
    assert ws + t + ws' == ws + (t + ws');
    TrimStartBlank(ws, t + ws');
    ValueConcat(t, ws');
    AllWs(ws');
    assert "" + ws' == ws';
    assert SkipWs(t + ws') == t + ws' by {
      assert (t + ws')[0] == '{';
    }
  }

  lemma {:induction false} AllWs(ws: string)
    requires forall c | c in ws :: IsWs(c)
    ensures SkipWs(ws) == []
  {
    if ws != [] {
      AllWs(ws[1..]);
    }
  }

  /** Trimming at both ends keeps the first visible character. */
  lemma TrimIsStart(raw: string)
    ensures Trim(raw) <= TrimStart(raw)
    ensures TrimStart(TrimStart(raw)) == TrimStart(raw)
  {
    TrimEndIsPrefix(TrimStart(raw));
    TrimStartTwice(raw);
  }

  /** A fenced reply is kept under any prefill, whatever its fence holds. */
  lemma FencedRestartIgnoresPrefill(p: string, open: string, body: string, close: string)
    requires OpeningLine(open) && ClosesFence(close) && FenceFree(body)
    ensures var raw := open + ("\n" + (body + ("\n" + close)));
      MergePrefill(p, raw) == raw && ReplyBody(MergePrefill(p, raw)) == Trim(body)
  {
    hide ExtractFence, TrimEnd, OpeningLine, ClosesFence, FenceFree, TrimStart;
    var raw := open + ("\n" + (body + ("\n" + close)));
    FenceIsExtracted(open, body, close);
    BodyOf(raw);
    TrimStartTwice(raw);
    SameFence(TrimStart(raw), raw);
  }

  // ---------- where recovery fails ----------

  /** Curly quotes around an object become a string before the repair is tried. */
  lemma CurlyQuotesSwallowTheObject(lower: Lower)
    ensures StrictObject("{}", Obj([]))
    ensures ParseJsonWithFallback("\U{201C}{}\U{201D}", None, lower) == Some(Str("{}"))
  {
    hide ParseJson, NormalizeJsonPunctuation, ExtractFence, StrictObject;
    var raw := "\U{201C}{}\U{201D}";
    EmptyObjectText();
    CurlyQuotesNormalize();
    QuotedBraces();
    assert Trim(raw) == raw;
    NoFenceWithout(raw);
    UnparseableStart(raw);
  }

  lemma EmptyObjectText()
    ensures StrictObject("{}", Obj([])) && ParseJson("{}") == Some(Obj([]))
  {
    assert "{}"[1..] == "}" && "}"[1..] == "";
  }

  lemma CurlyQuotesNormalize()
    ensures NormalizeJsonPunctuation("\U{201C}{}\U{201D}") == "\"{}\""
  {
    hide NormalizeJsonPunctuation;
    var raw := "\U{201C}{}\U{201D}";
    NormalizeConcat("\U{201C}", "{}\U{201D}");
    NormalizeConcat("{}", "\U{201D}");
    assert "\U{201C}" + "{}\U{201D}" == raw && "{}" + "\U{201D}" == "{}\U{201D}";
    NormalizeKeeps("{}");
    NormalizeOne('\U{201C}');
    NormalizeOne('\U{201D}');
  }

  lemma QuotedBraces()
    ensures ParseJson("\"{}\"") == Some(Str("{}"))
  {
    var s := "\"{}\"";
    assert s[1..] == "{}\"" && s[1..][1..] == "}\"" && s[1..][1..][1..] == "\"";
    assert "\""[1..] == "";
    assert LexString("\"") == Ok("", "");
    assert LexString("}\"") == Ok("}", "") by {
      assert "}\""[..1] + "" == "}";
    }
    assert LexString("{}\"") == Ok("{}", "") by {
      assert "{}\""[..1] + "}" == "{}";
    }
  }

  /** A fence that holds no object, and an object behind it. */
  lemma HiddenObject(t: string, q: string, v: Json, lower: Lower)
    requires StrictObject(t, v)
    ensures ParseJsonWithFallback("```\nx\n```\n" + t + q, None, lower) == Some(Obj([]))
  {
    hide TrimStart, TrimEnd, IndexOf, FirstFence, ExtractFence, IsSpace, ParseJson, StrictObject, ParseStages;
    var p := "```\nx\n```\n";
    PlainX();
    FenceExample();
    assert p + "{" == "```" + ("\n" + ("x" + ("\n" + "```\n{")));
    FenceIsExtracted("```", "x", "```\n{");
    FenceInNoiseHidesTheObject(p, t, q, v, None, lower);
  }

  lemma FenceExample()
    ensures OpeningLine("```") && ClosesFence("```\n{")
  {
    hide Trim, IndexOf, FirstFence;
    BareFence();
    IndexOfAfter("```", "\n{", '\n');
    assert "```" + "\n{" == "```\n{" && "```\n{"[..3] == "```";
    FenceHere("```\n{");
  }

  lemma BareFence()
    ensures Trim("```") == "```" && TrimStart("```") == "```" && TrimEnd("```") == "```"
  {
  }

  lemma PlainX()
    ensures FenceFree("x") && Trim("x") == "x"
    ensures ParseStages("x") == Some(Obj([]))
  {
    hide ParseJson, ParseValue;
    UnparseableStart("x");
    EmptyObjectText();
    NormalizeOne('x');
    assert UnescapeJsonQuotes("x") == "x" by {
      assert "x"[1..] == "";
    }
    assert JsonRepair.Repair("x") == "{}";
  }
}
