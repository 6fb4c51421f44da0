/** Exactly when an object is recovered from the noise around it, whatever its strings hold. */
module JsonRecovery {
  import opened Text
  import opened JsonScan
  import opened JsonText
  import opened JsonTidy
  import opened JsonPrint
  import opened JsonKeys
  import opened JsonPipeline
  import opened JsonPipelineLaws
  import opened JsonFenceLaws
  import opened JsonWeights
  import opened JsonRepair
  import JsonRepairLaws

  // ---------- objects and their texts ----------

  /** A strict object whose strings and numbers are all in its value. White space and the characters
      of the grammar do not matter. */
  ghost predicate KeepsStrings(t: string, v: Json) {
    && StrictObject(t, v)
    && forall c | InStringsOnly(c) :: Weight(v, c) == Count(t, c)
  }

  /** Every strict object without an overridden member is one, however it is spaced. */
  lemma UnoverriddenKeepsStrings(t: string, v: Json)
    requires StrictObject(t, v) && Unoverridden(t)
    ensures KeepsStrings(t, v)
  {
    hide ParseValue, Weight, Count, Unoverridden, InStringsOnly;
    forall c | InStringsOnly(c)
      ensures Weight(v, c) == Count(t, c)
    {
      ValueWeighs(t, c);
      NothingCounts(c);
    }
  }

  lemma NothingCounts(c: char)
    ensures Count("", c) == 0
  {
  }

  /** So is every printed object. */
  lemma PrintKeepsStrings(v: Json)
    requires Valid(v) && v.Obj?
    ensures KeepsStrings(Print(v), v)
  {
    hide ParseValue, Weight, Count;
    ReadsBack(v, "");
    assert Print(v) + "" == Print(v);
    PrintStarts(v);
    forall c | InStringsOnly(c)
      ensures Weight(v, c) == Count(Print(v), c)
    {
      PrintWeighs(v, c);
    }
  }

  lemma SkipWsSplits(s: string) returns (ws: string)
    ensures s == ws + SkipWs(s) && forall c | c in ws :: IsWs(c)
  {
    if s != [] && IsWs(s[0]) {
      ws := SkipWsSplits(s[1..]);
      ws := [s[0]] + ws;
    } else {
      ws := "";
    }
  }

  /** Repairing the text of an object, in white space, takes the white space away. */
  lemma RepairKeepsObjects(s: string)
    requires ParseJson(s).Some? && ParseJson(s).value.Obj?
    ensures Pass(s).Emitted? && ParseJson(Repair(s)) == ParseJson(s)
  {
    hide ParseValue, SkipWs, Repair, Pass, ObjectText;
    var ws := SkipWsSplits(s);
    var visible := SkipWs(s);
    var w, rest := ParseValue(visible).value, ParseValue(visible).rest;
    assert visible[0] == '{' by {
      if visible[0] != '{' {
        NoObjectWithoutBrace(visible);
      }
    }
    var body, close := BodyIsTidy(visible);
    var t := "{" + body + "}";
    assert visible == t + rest;
    ValueRestricts(t, rest);
    assert ParseValue(t).rest + rest == rest;
    BracedIsObject(body);
    assert s == ws + t + rest;
    assert '{' !in ws;
    JsonRepairLaws.PassesThrough(ws, t, rest);
    VisibleObject(t, w);
  }

  /** What stands before the first brace makes no difference to the repair. */
  lemma RepairSkipsNoise(p: string, s: string)
    requires '{' !in p && s != [] && s[0] == '{'
    ensures Repair(p + s) == Repair(s) && Pass(p + s) == Pass(s)
  {
    IndexOfAfter(p, s, '{');
    IndexOfAfter("", s, '{');
    assert "" + s == s && (p + s)[|p|..] == s && s[0..] == s;
  }

  /** Text behind an object keeps it from being strict JSON. */
  lemma JunkAfter(t: string, z: string, v: Json)
    requires StrictObject(t, v) && z != [] && !IsWs(z[|z| - 1])
    ensures ParseJson(t + z) == None
  {
    hide ParseValue;
    ValueConcat(t, z);
    assert "" + z == z && SkipWs(t + z) == t + z;
    VisibleRemains(z);
  }

  lemma {:induction false} VisibleRemains(z: string)
    requires z != [] && !IsWs(z[|z| - 1])
    ensures SkipWs(z) != []
  {
    if IsWs(z[0]) {
      VisibleRemains(z[1..]);
    }
  }

  // ---------- the four stages ----------

  predicate NoTypographic(t: string) {
    forall c | c in t :: !IsTypographic(c)
  }

  /** None of the three forms the parses see is a value other than an object. */
  predicate NoOtherValue(body: string) {
    var n := NormalizeJsonPunctuation(body);
    !ReadsAsOther(body) && !ReadsAsOther(n) && !ReadsAsOther(UnescapeJsonQuotes(n))
  }

  lemma CleanupEnds(z: string)
    requires z != [] && !IsSpace(z[|z| - 1])
    ensures var n := NormalizeJsonPunctuation(z); n != [] && !IsWs(n[|n| - 1])
  {
    var n := NormalizeJsonPunctuation(z);
    assert n[|n| - 1] == NormalizeChar(z[|z| - 1]);
  }

  /** A parse that sees noise before the object, or text behind it, does not give the object. */
  lemma NotByParsing(a: string, t: string, z: string, v: Json)
    requires StrictObject(t, v) && '{' !in a && (a != [] ==> !IsWs(a[0]))
    requires a != [] || (z != [] && !IsWs(z[|z| - 1]))
    ensures ParseJson(a + t + z) == None || ReadsAsOther(a + t + z)
  {
    hide ParseJson, StrictObject;
    StrictObjectIsObj(t, v);
    ObjectOrOther(a, t, z, v);
    if a == [] {
      JunkAfter(t, z, v);
      assert a + t + z == t + z;
    }
  }

  /** With a typographic character in its strings, an object comes back only where the body is
      its own text. */
  lemma TypographicIsLost(body: string, t: string, v: Json, c: char)
    requires KeepsStrings(t, v) && c in t && IsTypographic(c)
    requires ParseJson(body) != Some(v)
    ensures ParseStages(body) != Some(v)
  {
    hide ParseJson, NormalizeJsonPunctuation, UnescapeJsonQuotes, Weight, Repair, StrictObject;
    var n := NormalizeJsonPunctuation(body);
    var u := UnescapeJsonQuotes(n);
    NormalizeCounts(body, c);
    UnescapeCounts(n, c);
    RepairCounts(u, c);
    CountsBound(n, v, c);
    CountsBound(u, v, c);
    CountsBound(Repair(u), v, c);
    assert Count(t, c) > 0;
  }

  lemma CountsBound(text: string, v: Json, c: char)
    ensures ParseJson(text) == Some(v) ==> Weight(v, c) <= Count(text, c)
  {
    hide ParseJson, Weight, Count;
    if ParseJson(text) == Some(v) {
      JsonWeighs(text, c);
    }
  }

  /** For every object whose members are all kept, and all text around it: the four stages give the
      object if and only if there is no such text, or the object holds no typographic character, no
      form of the body is another value, and the unescaped body, repaired, reads as the object. */
  lemma StagesExactly(a: string, t: string, z: string, v: Json)
    requires KeepsStrings(t, v) && '{' !in a && (a != [] ==> !IsSpace(a[0]))
    requires z != [] ==> !IsSpace(z[|z| - 1])
    ensures var body := a + t + z; var u := UnescapeJsonQuotes(NormalizeJsonPunctuation(body));
      ParseStages(body) == Some(v) <==>
        body == t || (NoTypographic(t) && NoOtherValue(body) && ParseJson(Repair(u)) == Some(v))
  {
    hide ParseJson, NormalizeJsonPunctuation, UnescapeJsonQuotes, Repair, KeepsStrings, StrictObject;
    var body := a + t + z;
    assert StrictObject(t, v) by {
      KeptIsStrict(t, v);
    }
    VisibleObject(t, v);
    StrictObjectIsObj(t, v);
    if body == t {
    } else if NoTypographic(t) {
      StagesAround(a, t, z, v);
    } else {
      var c :| c in t && IsTypographic(c);
      NotByParsing(a, t, z, v);
      TypographicIsLost(body, t, v, c);
    }
  }

  lemma KeptIsStrict(t: string, v: Json)
    requires KeepsStrings(t, v)
    ensures StrictObject(t, v)
  {
  }

  lemma StagesAround(a: string, t: string, z: string, v: Json)
    requires StrictObject(t, v) && '{' !in a && (a != [] ==> !IsSpace(a[0]))
    requires z != [] ==> !IsSpace(z[|z| - 1])
    requires a + t + z != t && NoTypographic(t)
    ensures var body := a + t + z; var u := UnescapeJsonQuotes(NormalizeJsonPunctuation(body));
      ParseStages(body) == Some(v) <==> NoOtherValue(body) && ParseJson(Repair(u)) == Some(v)
  {
    hide ParseJson, NormalizeJsonPunctuation, UnescapeJsonQuotes, Repair, StrictObject, NoTypographic;
    var body := a + t + z;
    assert a != [] || z != [] by {
      assert "" + t + "" == t;
    }
    var a1, z1 := NormalizeJsonPunctuation(a), NormalizeJsonPunctuation(z);
    CleanupStaysVisible(a);
    NormalizeMakesNoBrace(a);
    if z != [] {
      CleanupEnds(z);
    }
    var n := NormalizeJsonPunctuation(body);
    assert n == a1 + t + z1 by {
      NormalizeConcat(a + t, z);
      NormalizeConcat(a, t);
      TypographicFree(t);
    }
    NotByParsing(a, t, z, v);
    NotByParsing(a1, t, z1, v);
    StrictObjectIsObj(t, v);
    var u := UnescapeJsonQuotes(n);
    if ParseJson(u).Some? && ParseJson(u).value.Obj? {
      RepairKeepsObjects(u);
    }
  }

  lemma TypographicFree(t: string)
    requires NoTypographic(t)
    ensures NormalizeJsonPunctuation(t) == t
  {
    NormalizeKeeps(t);
  }

  lemma OtherUnlessBrace(s: string)
    requires s != [] ==> !IsWs(s[0]) && s[0] != '{'
    ensures ParseJson(s) == None || ReadsAsOther(s)
  {
    hide ParseValue;
    if s != [] {
      NoObjectWithoutBrace(s);
    }
  }

  /** A body that starts with anything but a brace gives an object by the repair only, whatever its
      members. */
  lemma RepairDecides(body: string, v: Json)
    requires v.Obj? && (body != [] ==> !IsSpace(body[0]) && body[0] != '{')
    ensures var u := UnescapeJsonQuotes(NormalizeJsonPunctuation(body));
      ParseStages(body) == Some(v) <==> NoOtherValue(body) && ParseJson(Repair(u)) == Some(v)
  {
    hide ParseJson, NormalizeJsonPunctuation, UnescapeJsonQuotes, Repair;
    var n := NormalizeJsonPunctuation(body);
    CleanupStaysVisible(body);
    CleanupMakesNoBrace(body);
    OtherUnlessBrace(body);
    OtherUnlessBrace(n);
    OtherUnlessBrace(UnescapeJsonQuotes(n));
  }

  lemma CleanupMakesNoBrace(body: string)
    requires body != [] ==> body[0] != '{'
    ensures var n := NormalizeJsonPunctuation(body); var u := UnescapeJsonQuotes(n);
      (n != [] ==> n[0] != '{') && (u != [] ==> u[0] != '{')
  {
    if body != [] {
      assert NormalizeJsonPunctuation(body)[0] == NormalizeChar(body[0]);
    }
  }

  /** The unescaped body reads as the object exactly when the object holds no escaped quote, as
      long as fewer backslashes stand behind it than it would lose. */
  lemma UnescapingDecides(a: string, t: string, z: string, v: Json)
    requires KeepsStrings(t, v) && NoTypographic(t) && '{' !in a
    requires EscapedQuotes(t) == 0 || Count(z, '\\') < EscapedQuotes(t)
    ensures ParseJson(Repair(UnescapeJsonQuotes(NormalizeJsonPunctuation(a + t + z)))) == Some(v)
      <==> EscapedQuotes(t) == 0
  {
    hide ParseJson, NormalizeJsonPunctuation, UnescapeJsonQuotes, Repair, KeepsStrings, StrictObject, Weight, Count,
         EscapedQuotes, NoTypographic;
    KeptIsStrict(t, v);
    VisibleObject(t, v);
    var a1, z1 := NormalizeJsonPunctuation(a), NormalizeJsonPunctuation(z);
    NormalizeConcat(a + t, z);
    NormalizeConcat(a, t);
    TypographicFree(t);
    NormalizeMakesNoBrace(a);
    UnescapeMakesNoBrace(a1);
    assert (a1 + t) + z1 == a1 + (t + z1);
    UnescapeConcat(a1, t + z1);
    EscapedQuoteIsInside(t, z1);
    var start := UnescapeJsonQuotes(t + z1);
    RepairSkipsNoise(UnescapeJsonQuotes(a1), start);
    if EscapedQuotes(t) == 0 {
      SurvivesWithout(t);
      UnescapeKeeps(t, z1);
      StrictObjectIsObjectText(t, v);
      JsonRepairLaws.PassesThrough("", t, UnescapeJsonQuotes(z1));
      assert "" + t == t;
    } else {
      BackslashesAreLost(t, z, v);
    }
  }

  lemma SurvivesWithout(t: string)
    ensures NoTypographic(t) && EscapedQuotes(t) == 0 <==> SurvivesCleanup(t)
  {
    hide IsTypographic, StartsEscapedQuote, EscapedQuotes;
    NoEscapedQuotes(t);
  }

  lemma EscapedQuoteIsInside(t: string, z: string)
    requires t != [] && t[0] == '{' && t[|t| - 1] == '}'
    ensures UnescapeJsonQuotes(t + z) != [] && UnescapeJsonQuotes(t + z)[0] == '{'
  {
    UnescapeOther(t + z);
  }

  lemma {:induction false} EscapedQuotesAdd(t: string, z: string)
    requires t != [] ==> t[|t| - 1] != '\\'
    ensures EscapedQuotes(t + z) == EscapedQuotes(t) + EscapedQuotes(z)
    decreases |t|
  {
    var tz := t + z;
    if t == [] {
      assert tz == z;
    } else if StartsEscapedQuote(t) {
      assert tz[2..] == t[2..] + z;
      EscapedQuotesAdd(t[2..], z);
    } else {
      assert tz[1..] == t[1..] + z;
      assert |t| > 1 ==> tz[1] == t[1];
      EscapedQuotesAdd(t[1..], z);
    }
  }

  lemma BackslashesAreLost(t: string, z: string, v: Json)
    requires KeepsStrings(t, v) && t != [] && t[|t| - 1] == '}'
    requires Count(z, '\\') < EscapedQuotes(t)
    ensures ParseJson(Repair(UnescapeJsonQuotes(t + NormalizeJsonPunctuation(z)))) != Some(v)
  {
    hide ParseJson, NormalizeJsonPunctuation, UnescapeJsonQuotes, Repair, StrictObject, Weight, Count, EscapedQuotes;
    var c, z1 := '\\', NormalizeJsonPunctuation(z);
    var start := UnescapeJsonQuotes(t + z1);
    NormalizeCounts(z, c);
    CountConcat(t, z1, c);
    EscapedQuotesAdd(t, z1);
    UnescapeCounts(t + z1, c);
    RepairCounts(start, c);
    CountsBound(Repair(start), v, c);
  }

  // ---------- whole replies ----------

  lemma PrefixCounts(z: string, q: string, c: char)
    requires z <= q
    ensures Count(z, c) <= Count(q, c)
  {
    CountSplit(q, |z|, c);
    assert q[..|z|] == z;
  }

  /** For everything behind the object: it comes out if and only if the body is its own text, or it
      holds no typographic character, no form of the body is another value, and the unescaped
      body, repaired, reads as the object. */
  lemma RecoveredByRepair(p: string, t: string, q: string, v: Json, lower: Lower)
    requires KeepsStrings(t, v)
    requires '{' !in p && ExtractFence(p + "{") == None
    ensures var body := ReplyBody(p + t + q); var u := UnescapeJsonQuotes(NormalizeJsonPunctuation(body));
      ParseJsonWithFallback(p + t + q, None, lower) == Some(v)
      <==> body == t || (NoTypographic(t) && NoOtherValue(body) && ParseJson(Repair(u)) == Some(v))
  {
    hide ParseStages, ParseJson, KeepsStrings, StrictObject, ExtractFence, TrimEnd, TrimStart, Trim, ReplyBody,
         NoOtherValue, NoTypographic, Repair;
    KeptIsStrict(t, v);
    VisibleObject(t, v);
    var a, z := BodyHoldsTheObject(p, t, q, v);
    TrimAroundObject(a, t, z);
    var ws := TrimStartSplits(a);
    TrimEndIsPrefix(z);
    assert forall c | c in TrimStart(a) :: c in a;
    StagesExactly(TrimStart(a), t, TrimEnd(z), v);
  }

  /** For every reply whose body does not start with a brace, and every object, overridden members
      or not: the object comes out if and only if no form of the body is another value and the
      unescaped body, repaired, reads as the object. */
  lemma RecoveredBehindNoise(raw: string, v: Json, lower: Lower)
    requires v.Obj? && (ReplyBody(raw) != [] ==> ReplyBody(raw)[0] != '{')
    ensures var body := ReplyBody(raw); var u := UnescapeJsonQuotes(NormalizeJsonPunctuation(body));
      ParseJsonWithFallback(raw, None, lower) == Some(v)
      <==> NoOtherValue(body) && ParseJson(Repair(u)) == Some(v)
  {
    hide ParseStages, ParseJson, ReplyBody, NoOtherValue, Repair;
    BodyIsTrimmed(raw);
    RepairDecides(ReplyBody(raw), v);
  }

  /** The exact condition, fenced or not, for every object whose members are all kept, every noise
      without `{` that holds no complete fence, and everything behind the object that holds fewer
      backslashes than the object has escaped quotes, if it has any: without a synonym map the
      object is what comes out if and only if the body is its own text, or the clean-up leaves
      the object alone and no form of the body is another value. */
  lemma RecoveredExactly(p: string, t: string, q: string, v: Json, lower: Lower)
    requires KeepsStrings(t, v)
    requires '{' !in p && ExtractFence(p + "{") == None
    requires EscapedQuotes(t) == 0 || Count(q, '\\') < EscapedQuotes(t)
    ensures var body := ReplyBody(p + t + q);
      ParseJsonWithFallback(p + t + q, None, lower) == Some(v)
      <==> body == t || (SurvivesCleanup(t) && NoOtherValue(body))
  {
    hide ParseStages, ParseJson, KeepsStrings, StrictObject, SurvivesCleanup, ExtractFence, TrimEnd, TrimStart, Trim,
         ReplyBody, NoOtherValue, NoTypographic, Repair, EscapedQuotes, Count;
    KeptIsStrict(t, v);
    VisibleObject(t, v);
    var a, z := BodyHoldsTheObject(p, t, q, v);
    var left, right := TrimStart(a), TrimEnd(z);
    TrimAroundObject(a, t, z);
    var ws := TrimStartSplits(a);
    TrimEndIsPrefix(z);
    assert forall c | c in left :: c in a;
    PrefixCounts(right, q, '\\');
    StagesExactly(left, t, right, v);
    SurvivesWithout(t);
    if NoTypographic(t) {
      UnescapingDecides(left, t, right, v);
    }
  }

  /** For everything behind the object, without that bound: a clean-up that changes the object
      loses it, unless the body is its own text or the text behind it brings at least as many
      backslashes as the clean-up takes away. */
  lemma MangledIsLost(p: string, t: string, q: string, v: Json, lower: Lower)
    requires KeepsStrings(t, v) && !SurvivesCleanup(t)
    requires '{' !in p && ExtractFence(p + "{") == None
    requires ParseJsonWithFallback(p + t + q, None, lower) == Some(v)
    ensures ReplyBody(p + t + q) == t
         || (NoTypographic(t) && 0 < EscapedQuotes(t) <= Count(q, '\\'))
  {
    hide ParseStages, ParseJson, KeepsStrings, StrictObject, SurvivesCleanup, ExtractFence, TrimEnd, TrimStart, Trim,
         ReplyBody, NoOtherValue, NoTypographic, Repair, EscapedQuotes, Count;
    SurvivesWithout(t);
    if EscapedQuotes(t) == 0 || Count(q, '\\') < EscapedQuotes(t) {
      RecoveredExactly(p, t, q, v, lower);
    } else {
      RecoveredByRepair(p, t, q, v, lower);
    }
  }
}
