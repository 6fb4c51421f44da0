/** What the JSON hardening promises over whole replies. */
module JsonPipelineLaws {
  import opened Text
  import opened JsonScan
  import opened JsonText
  import opened JsonTidy
  import opened JsonPipeline
  import JsonRepairLaws

  // ---------- replies without a fence ----------

  /** A reply whose first visible character is no backtick has no fence. */
  lemma NoFenceWithout(raw: string)
    requires TrimStart(raw) != [] ==> TrimStart(raw)[0] != '`'
    ensures ExtractFence(raw) == None
  {
    var trimmed := Trim(raw);
    TrimEndIsPrefix(TrimStart(raw));
    var end := IndexOf(trimmed, '\n');
    if end != -1 {
      TrimEndIsPrefix(trimmed[..end]);
      var opening := TrimEnd(trimmed[..end]);
      if opening != [] {
        assert opening[0] == trimmed[0] == TrimStart(raw)[0];
      }
    }
  }

  // ---------- the prefill is restored ----------

  /** White space outside a string leaves the scanner where it is. */
  lemma {:induction false} BlankScans(ws: string)
    requires Blank(ws)
    ensures Balanced(ws)
  {
    if ws != [] {
      var init := ws[..|ws| - 1];
      assert ws[|ws| - 1] in ws;
      assert Blank(init) by {
        assert forall c | c in init :: c in ws;
      }
      BlankScans(init);
    }
  }

  /** The first visible character after text that ends outside strings. */
  lemma FirstVisible(p: string, c: string)
    requires Tidy(p + c) && Run(START, p).At? && Run(START, p).mode == Outside
    ensures TrimStart(c) != [] ==> IsJsonChar(TrimStart(c)[0])
  {
    hide Run, TrimStart;
    var ws := TrimStartSplits(c);
    if TrimStart(c) != [] {
      var i := |p| + |ws|;
      assert (p + c)[..i] == p + ws;
      RunConcat(START, p, ws);
      BlankScans(ws);
      Frame(Run(START, p).stack, ws);
      assert PlainAt(p + c, i);
      assert (p + c)[i] == TrimStart(c)[0];
    }
  }

  /** A continuation that closes what the prefill opened is no strict JSON by itself. */
  lemma ContinuationIsUnbalanced(p: string, c: string)
    requires Balanced(p + c) && Run(START, p).At?
    requires Run(START, p).mode == Outside && Run(START, p).stack != []
    ensures ParseJson(TrimStart(c)) == None
  {
    hide Run, TrimStart, ParseValue;
    if ParseJson(TrimStart(c)).Some? {
      var ws := TrimStartSplits(c);
      StrictIsTidy(TrimStart(c));
      BlankScans(ws);
      RunConcat(START, ws, TrimStart(c));
      Frame(Run(START, p).stack, c);
      RunConcat(START, p, c);
      assert false;
    }
  }

  /** A prefill without leading white space that leaves a bracket open outside any string,
      and a continuation that completes it to strict JSON: an echoed reply comes back as it
      is, and one that only continues is restored exactly when it does not itself start
      with the prefill. */
  lemma PrefillIsRestored(p: string, c: string)
    requires p != [] && !IsSpace(p[0])
    requires Run(START, p).At? && Run(START, p).mode == Outside && Run(START, p).stack != []
    requires IsParseableJson(p + c)
    ensures MergePrefill(p, p + c) == p + c
    ensures MergePrefill(p, c) == p + c <==> !(TrimEnd(p) <= TrimStart(c))
  {
    hide Run, ParseJson, Tidy, ExtractFence;
    StrictIsTidy(p + c);
    assert TrimStart(p + c) == p + c;
    TrimEndIsPrefix(p);
    EchoHasNoFence(p + c);
    FirstVisible(p, c);
    TidyIsBalanced(p + c);
    ContinuationIsUnbalanced(p, c);
    TrimStartTwice(c);
    NoFenceWithout(TrimStart(c));
    assert |p + c| != |c|;
  }

  lemma TidyIsBalanced(text: string)
    requires Tidy(text)
    ensures Balanced(text)
  {
  }

  lemma EchoHasNoFence(text: string)
    requires ParseJson(text).Some?
    ensures ExtractFence(text) == None
  {
    hide ParseJson, TrimStart, ExtractFence;
    StrictIsTidy(text);
    assert "" + text == text;
    assert Run(START, "") == START;
    FirstVisible("", text);
    NoFenceWithout(text);
  }

  // ---------- a strict object is recovered from noise ----------

  /** Text the two clean-up replacements leave alone. */
  predicate SurvivesCleanup(t: string) {
    && (forall c | c in t :: !IsTypographic(c))
    && (forall i | 0 <= i < |t| :: !StartsEscapedQuote(t[i..]))
  }

  /** A prefix whose first visible character cannot start a JSON value, neither as it is nor
      after clean-up. */
  predicate NoiseStarts(p: string) {
    var visible := NormalizeJsonPunctuation(TrimStart(p));
    visible == [] || (!StartsValue(visible[0]) && !StartsEscapedQuote(visible))
  }

  lemma NormalizeConcat(a: string, b: string)
    ensures NormalizeJsonPunctuation(a + b) == NormalizeJsonPunctuation(a) + NormalizeJsonPunctuation(b)
  {
  }

  lemma NormalizeKeeps(t: string)
    requires forall c | c in t :: !IsTypographic(c)
    ensures NormalizeJsonPunctuation(t) == t
  {
    forall i | 0 <= i < |t|
      ensures NormalizeChar(t[i]) == t[i]
    {
      assert t[i] in t;
    }
  }

  lemma NormalizeOne(c: char)
    ensures NormalizeJsonPunctuation([c]) == [NormalizeChar(c)]
  {
    assert [c][1..] == [];
  }

  lemma NormalizeMakesNoBrace(p: string)
    requires '{' !in p
    ensures '{' !in NormalizeJsonPunctuation(p)
  {
    forall i | 0 <= i < |p|
      ensures NormalizeChar(p[i]) != '{'
    {
      assert p[i] in p;
    }
  }

  lemma UnescapeQuote(s: string)
    requires StartsEscapedQuote(s)
    ensures UnescapeJsonQuotes(s) == "\"" + UnescapeJsonQuotes(s[2..])
  {
  }

  lemma UnescapeOther(s: string)
    requires s != [] && !StartsEscapedQuote(s)
    ensures UnescapeJsonQuotes(s) == [s[0]] + UnescapeJsonQuotes(s[1..])
  {
  }

  /** Unescaping does not reach across a boundary that is no escaped quote. */
  lemma {:induction false} UnescapeConcat(a: string, b: string)
    requires b != [] ==> b[0] != '"'
    ensures UnescapeJsonQuotes(a + b) == UnescapeJsonQuotes(a) + UnescapeJsonQuotes(b)
    decreases |a|
  {
    if a == [] {
      assert a + b == b;
      assert UnescapeJsonQuotes(a) == "";
    } else {
      hide UnescapeJsonQuotes;
      var ab := a + b;
      if StartsEscapedQuote(ab) {
        assert StartsEscapedQuote(a);
        assert ab[2..] == a[2..] + b;
        UnescapeQuote(ab);
        UnescapeQuote(a);
        UnescapeConcat(a[2..], b);
        PrependConcat("\"", UnescapeJsonQuotes(a[2..]), UnescapeJsonQuotes(b));
      } else {
        assert !StartsEscapedQuote(a);
        assert ab[1..] == a[1..] + b;
        UnescapeOther(ab);
        UnescapeOther(a);
        UnescapeConcat(a[1..], b);
        PrependConcat([a[0]], UnescapeJsonQuotes(a[1..]), UnescapeJsonQuotes(b));
      }
    }
  }

  /** Unescaping leaves an object's text alone, and what follows is unescaped by itself. */
  lemma {:induction false} UnescapeKeeps(t: string, q: string)
    requires SurvivesCleanup(t) && (t != [] ==> t[|t| - 1] != '\\')
    ensures UnescapeJsonQuotes(t + q) == t + UnescapeJsonQuotes(q)
    decreases |t|
  {
    hide UnescapeJsonQuotes;
    var tq := t + q;
    if t == [] {
      assert tq == q;
    } else {
      forall i | 0 <= i < |t[1..]|
        ensures !StartsEscapedQuote(t[1..][i..])
      {
        assert t[1..][i..] == t[i + 1..];
      }
      UnescapeKeeps(t[1..], q);
      assert tq[1..] == t[1..] + q;
      assert !StartsEscapedQuote(t[0..]);
      assert |t| > 1 ==> tq[1] == t[1];
      UnescapeOther(tq);
      assert [t[0]] + (t[1..] + UnescapeJsonQuotes(q)) == t + UnescapeJsonQuotes(q);
    }
  }

  lemma {:induction false} UnescapeMakesNoBrace(p: string)
    requires '{' !in p
    ensures '{' !in UnescapeJsonQuotes(p)
    decreases |p|
  {
    if p != [] {
      assert p[0] in p;
      if StartsEscapedQuote(p) {
        UnescapeMakesNoBrace(p[2..]);
      } else {
        UnescapeMakesNoBrace(p[1..]);
      }
    }
  }

  /** Noise at every stage: nothing before the object's brace could start a value. */
  predicate Noise(p: string) {
    '{' !in p && (p != [] ==> !StartsValue(p[0]) && !IsWs(p[0]))
  }

  /** Strictly parsed with noise before it and anything after it, the object is the only
      value that can come out. */
  lemma NoiseParsesToNothingElse(p: string, t: string, q: string, v: Json)
    requires Noise(p) && StrictObject(t, v)
    ensures ParseJson(p + t + q) == None || ParseJson(p + t + q) == Some(v)
  {
    hide ParseValue;
    var text := p + t + q;
    if p == [] {
      assert text == t + q;
      assert ParseValue(t).rest + q == q;
      ValueConcat(t, q);
    } else {
      assert SkipWs(text) == text;
      if ParseValue(text).Ok? {
        OnlyValuesStart(text);
      }
    }
  }

  lemma ObjectEndsVisibly(t: string, v: Json)
    requires StrictObject(t, v)
    ensures t[|t| - 1] == '}'
  {
    var body, close := BodyIsTidy(t);
    assert t == ("{" + body + "}") + "";
    assert t[|t| - 1] == "}"[0];
  }

  /** The clean-ups applied to noise, an object and a suffix. */
  lemma CleanupKeepsObject(p: string, t: string, q: string)
    requires SurvivesCleanup(t) && t != [] && t[0] == '{' && t[|t| - 1] == '}'
    ensures NormalizeJsonPunctuation(p + t + q)
         == NormalizeJsonPunctuation(p) + t + NormalizeJsonPunctuation(q)
    ensures UnescapeJsonQuotes(p + t + q) == UnescapeJsonQuotes(p) + t + UnescapeJsonQuotes(q)
  {
    hide NormalizeJsonPunctuation, UnescapeJsonQuotes;
    NormalizeConcat(p + t, q);
    NormalizeConcat(p, t);
    NormalizeKeeps(t);
    assert p + t + q == p + (t + q);
    UnescapeConcat(p, t + q);
    UnescapeKeeps(t, q);
    assert UnescapeJsonQuotes(p) + (t + UnescapeJsonQuotes(q))
        == UnescapeJsonQuotes(p) + t + UnescapeJsonQuotes(q);
  }

  lemma NoiseStaysNoise(p: string)
    requires '{' !in p && (p != [] ==> !IsSpace(p[0]))
    requires var n := NormalizeJsonPunctuation(p);
      n == [] || (!StartsValue(n[0]) && !StartsEscapedQuote(n))
    ensures Noise(p)
    ensures Noise(NormalizeJsonPunctuation(p))
    ensures Noise(UnescapeJsonQuotes(NormalizeJsonPunctuation(p)))
  {
    var n := NormalizeJsonPunctuation(p);
    NormalizeMakesNoBrace(p);
    UnescapeMakesNoBrace(n);
    if p != [] {
      assert n[0] == NormalizeChar(p[0]);
      assert UnescapeJsonQuotes(n)[0] == n[0];
    }
  }

  /** Each of the first three parses fails or gives the object; the repair gives the object. */
  lemma StagesRecover(p: string, t: string, q: string, v: Json)
    requires StrictObject(t, v) && SurvivesCleanup(t)
    requires '{' !in p && (p != [] ==> !IsSpace(p[0])) && NoiseStarts(p)
    ensures ParseStages(p + t + q) == Some(v)
  {
    hide ParseJson, NormalizeJsonPunctuation, UnescapeJsonQuotes, StrictObject, SurvivesCleanup, ObjectText;
    assert TrimStart(p) == p;
    NoiseStaysNoise(p);
    VisibleObject(t, v);
    var p1, q1 := NormalizeJsonPunctuation(p), NormalizeJsonPunctuation(q);
    var p2, q2 := UnescapeJsonQuotes(p1), UnescapeJsonQuotes(q1);
    CleanupKeepsObject(p, t, q);
    CleanupKeepsObject(p1, t, q1);
    NoiseParsesToNothingElse(p, t, q, v);
    NoiseParsesToNothingElse(p1, t, q1, v);
    NoiseParsesToNothingElse(p2, t, q2, v);
    StrictObjectIsObjectText(t, v);
    JsonRepairLaws.PassesThrough(p2, t, q2);
  }

  /** The cleaned-up reply as a whole is a JSON string. */
  predicate ReadsAsString(text: string) {
    ParseJson(text).Some? && ParseJson(text).value.Str?
  }

  lemma QuoteReadsAsString(s: string)
    requires s != [] && s[0] == '"'
    ensures ParseJson(s) == None || ReadsAsString(s)
  {
  }

  /** The clean-up turns noise into the start of a string, or it stays noise. */
  lemma CleanupMakesOnlyQuotes(p: string, more: string)
    requires p != [] && !IsSpace(p[0]) && !StartsValue(p[0])
    ensures var n := NormalizeJsonPunctuation(p);
      (!StartsValue(n[0]) && !StartsEscapedQuote(n))
      || UnescapeJsonQuotes(n + more)[..1] == "\""
    ensures var n := NormalizeJsonPunctuation(p); n[0] == '"' || (!StartsValue(n[0]) && !IsWs(n[0]))
  {
    var n := NormalizeJsonPunctuation(p);
    assert n[0] == NormalizeChar(p[0]);
  }

  /** Exactly the replies whose clean-up is one JSON string are not recovered. */
  lemma StagesRecoverUnlessAString(p: string, t: string, q: string, v: Json)
    requires StrictObject(t, v) && SurvivesCleanup(t) && v.Obj?
    requires '{' !in p && (p != [] ==> !IsSpace(p[0]) && !StartsValue(p[0]))
    ensures var n := NormalizeJsonPunctuation(p + t + q); var u := UnescapeJsonQuotes(n);
      && (ParseStages(p + t + q) == Some(v) <==> !ReadsAsString(n) && !ReadsAsString(u))
      && (ParseStages(p + t + q) == Some(v) || (ParseStages(p + t + q).Some? && ParseStages(p + t + q).value.Str?))
  {
    hide ParseJson, NormalizeJsonPunctuation, UnescapeJsonQuotes, StrictObject, SurvivesCleanup, ObjectText, StartsValue;
    VisibleObject(t, v);
    var p1, q1 := NormalizeJsonPunctuation(p), NormalizeJsonPunctuation(q);
    var p2, q2 := UnescapeJsonQuotes(p1), UnescapeJsonQuotes(q1);
    CleanupKeepsObject(p, t, q);
    CleanupKeepsObject(p1, t, q1);
    if NoiseStarts(p) {
      StagesRecover(p, t, q, v);
      assert TrimStart(p) == p;
      NoiseStaysNoise(p);
      NoiseParsesToNothingElse(p1, t, q1, v);
      NoiseParsesToNothingElse(p2, t, q2, v);
    } else {
      assert TrimStart(p) == p;
      NormalizedLength(p);
      CleanupMakesOnlyQuotes(p, t + q1);
      assert p1 + (t + q1) == p1 + t + q1;
      UnparseableUnlessSpace(p + t + q);
      QuotedOrNot(p1 + t + q1);
      QuotedOrNot(p2 + t + q2);
      NormalizeMakesNoBrace(p);
      UnescapeMakesNoBrace(p1);
      StrictObjectIsObjectText(t, v);
      JsonRepairLaws.PassesThrough(p2, t, q2);
    }
  }

  /** The text as a whole is a JSON value other than an object. */
  predicate ReadsAsOther(text: string) {
    ParseJson(text).Some? && !ParseJson(text).value.Obj?
  }

  lemma ObjectOrOther(p: string, t: string, q: string, v: Json)
    requires StrictObject(t, v) && v.Obj? && '{' !in p && (p != [] ==> !IsWs(p[0]))
    ensures p == [] ==> ParseJson(p + t + q) == None || ParseJson(p + t + q) == Some(v)
    ensures p != [] ==> ParseJson(p + t + q) == None || ReadsAsOther(p + t + q)
  {
    hide ParseValue;
    if p == [] {
      NoiseParsesToNothingElse(p, t, q, v);
    } else {
      var text := p + t + q;
      assert text[0] == p[0] && p[0] in p;
      assert SkipWs(text) == text;
      NoObjectWithoutBrace(text);
    }
  }

  lemma NoObjectWithoutBrace(s: string)
    requires s != [] && s[0] != '{'
    ensures ParseValue(s).Ok? ==> !ParseValue(s).value.Obj?
  {
    hide ParseMembers, ParseItems, LexString;
  }

  /** For any noise without `{`: each parse gives nothing, the object, or a value that takes its
      place. */
  lemma StagesRecoverUnlessAnotherValue(p: string, t: string, q: string, v: Json)
    requires StrictObject(t, v) && SurvivesCleanup(t) && v.Obj?
    requires '{' !in p && (p != [] ==> !IsSpace(p[0]))
    ensures var n := NormalizeJsonPunctuation(p + t + q);
      && (ParseStages(p + t + q) == Some(v) <==>
            !ReadsAsOther(p + t + q) && !ReadsAsOther(n) && !ReadsAsOther(UnescapeJsonQuotes(n)))
      && (ParseStages(p + t + q) == Some(v) || (ParseStages(p + t + q).Some? && !ParseStages(p + t + q).value.Obj?))
  {
    hide ParseJson, NormalizeJsonPunctuation, UnescapeJsonQuotes, StrictObject, SurvivesCleanup, ObjectText;
    VisibleObject(t, v);
    var p1, q1 := NormalizeJsonPunctuation(p), NormalizeJsonPunctuation(q);
    var p2, q2 := UnescapeJsonQuotes(p1), UnescapeJsonQuotes(q1);
    CleanupKeepsObject(p, t, q);
    CleanupKeepsObject(p1, t, q1);
    NormalizeMakesNoBrace(p);
    UnescapeMakesNoBrace(p1);
    NormalizedLength(p);
    CleanupStaysVisible(p);
    ObjectOrOther(p, t, q, v);
    ObjectOrOther(p1, t, q1, v);
    ObjectOrOther(p2, t, q2, v);
    StrictObjectIsObjectText(t, v);
    JsonRepairLaws.PassesThrough(p2, t, q2);
  }

  lemma CleanupStaysVisible(p: string)
    requires p != [] ==> !IsSpace(p[0])
    ensures var n := NormalizeJsonPunctuation(p); var u := UnescapeJsonQuotes(n);
      (p == [] <==> n == []) && (n == [] <==> u == []) && (p != [] ==> !IsWs(p[0]) && !IsWs(n[0]) && !IsWs(u[0]))
  {
    if p != [] {
      assert NormalizeJsonPunctuation(p)[0] == NormalizeChar(p[0]);
    }
  }

  lemma NormalizedLength(p: string)
    ensures |NormalizeJsonPunctuation(p)| == |p|
  {
  }

  lemma UnparseableUnlessSpace(s: string)
    requires s != [] && !StartsValue(s[0]) && !IsSpace(s[0])
    ensures ParseJson(s) == None
  {
    UnparseableStart(s);
  }

  lemma QuotedOrNot(s: string)
    requires s != [] && (s[0] == '"' || (!StartsValue(s[0]) && !IsWs(s[0])))
    ensures ParseJson(s) == None || ReadsAsString(s)
  {
    if s[0] == '"' {
      QuoteReadsAsString(s);
    } else {
      UnparseableStart(s);
    }
  }

  lemma VisibleObject(t: string, v: Json)
    requires StrictObject(t, v)
    ensures t != [] && t[0] == '{' && t[|t| - 1] == '}'
    ensures ParseJson(t) == Some(v)
  {
    ObjectEndsVisibly(t, v);
  }

  lemma {:induction false} TrimAroundObject(p: string, t: string, q: string)
    requires t != [] && !IsSpace(t[0]) && !IsSpace(t[|t| - 1])
    ensures Trim(p + t + q) == TrimStart(p) + t + TrimEnd(q)
  {
    hide TrimStart, TrimEnd;
    var visible := TrimStart(p);
    assert p + t + q == p + (t + q);
    TrimStartConcat(p, t + q);
    assert visible + (t + q) == (visible + t) + q;
    TrimEndConcat(visible + t, q);
  }

  lemma StrictObjectIsObj(t: string, v: Json)
    requires StrictObject(t, v)
    ensures v.Obj?
  {
  }

  lemma BareNoise(p: string)
    requires '{' !in p && NoiseStarts(p)
    ensures '{' !in TrimStart(p) && NoiseStarts(TrimStart(p))
    ensures TrimStart(p) != [] ==> !IsSpace(TrimStart(p)[0])
  {
    var ws := TrimStartSplits(p);
    TrimStartTwice(p);
    assert forall c | c in TrimStart(p) :: c in p;
  }

  lemma UnparseableStart(s: string)
    requires s != [] && !StartsValue(s[0]) && !IsWs(s[0])
    ensures ParseJson(s) == None
  {
    hide ParseValue;
    if ParseValue(s).Ok? {
      OnlyValuesStart(s);
    }
  }
}
