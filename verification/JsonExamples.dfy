/** Inputs for which the hardening of a reply gives something else than one would expect. */
module JsonExamples {
  import opened Text
  import opened JsonScan
  import opened JsonText
  import opened JsonTidy
  import opened JsonPrint
  import opened JsonKeys
  import opened JsonPipeline
  import opened JsonPipelineLaws
  import opened JsonFenceLaws
  import opened JsonMergeLaws
  import opened JsonWeights
  import opened JsonRecovery
  import opened JsonTruncation
  import JsonRepair
  import JsonRepairLaws

  // ---------- a truncated reply is completed ----------

  /** With an escaped quote in a string, the unescaping can complete what was cut off: the
      prefix of an object whose only value is `x"}` comes back as an object whose value is `x`. */
  lemma UnescapingCompletes(lower: Lower)
    ensures var full := "{\"a\":\"x\\\"}\"}"; var cut := "{\"a\":\"x\\\"}";
      && StrictObject(full, Obj([Member("a", Str("x\\\"}"))])) && cut == full[..10] && |full| == 12
      && ParseStages(cut) == Some(Obj([Member("a", Str("x"))]))
  {
    var full, cut := "{\"a\":\"x\\\"}\"}", "{\"a\":\"x\\\"}";
    hide ParseValue, ParseJson, Print, NormalizeJsonPunctuation, UnescapeJsonQuotes, PlainAt, Tidy, StrictObject;
    FullIsStrict();
    PrefixIsNoJson(full, 10, Obj([Member("a", Str("x\\\"}"))]));
    NormalizeKeeps(cut);
    UnescapedCut();
    ShortIsStrict();
  }

  lemma FullIsStrict()
    ensures StrictObject("{\"a\":\"x\\\"}\"}", Obj([Member("a", Str("x\\\"}"))]))
  {
    var v := Obj([Member("a", Str("x\\\"}"))]);
    hide ParseValue;
    Spellings();
    assert Print(v) == "{\"a\":\"x\\\"}\"}";
    ReadsBack(v, "");
    assert Print(v) + "" == Print(v);
  }

  lemma ShortIsStrict()
    ensures ParseJson("{\"a\":\"x\"}") == Some(Obj([Member("a", Str("x"))]))
  {
    var v := Obj([Member("a", Str("x"))]);
    hide ParseJson;
    Spellings();
    assert Print(v) == "{\"a\":\"x\"}";
    ParsePrint(v);
  }

  lemma Spellings()
    ensures IsSpelling("a") && IsSpelling("x") && IsSpelling("x\\\"}")
  {
    hide LexString;
    assert ['a'] + "\"" == "a" + "\"" && ['a'] + "" == "a";
    assert ['x'] + "\"" == "x" + "\"" && ['x'] + "" == "x";
    assert ['}'] + "\"" == "}\"" && ['}'] + "" == "}";
    assert "\\\"" + "}\"" == "\\\"}\"" && "\\\"" + "}" == "\\\"}";
    assert ['x'] + "\\\"}\"" == "x\\\"}" + "\"" && ['x'] + "\\\"}" == "x\\\"}";
    ClosingQuote();
    OrdinaryThen('a', "\"", "");
    OrdinaryThen('x', "\"", "");
    OrdinaryThen('}', "\"", "");
    EscapedQuoteThen("}\"", "}");
    OrdinaryThen('x', "\\\"}\"", "\\\"}");
  }

  lemma ClosingQuote()
    ensures LexString("\"") == Ok("", "")
  {
  }

  lemma OrdinaryThen(c: char, s: string, lexeme: string)
    requires c != '"' && c != '\\' && c >= ' ' && LexString(s) == Ok(lexeme, "")
    ensures LexString([c] + s) == Ok([c] + lexeme, "")
  {
    assert ([c] + s)[1..] == s;
  }

  lemma EscapedQuoteThen(s: string, lexeme: string)
    requires LexString(s) == Ok(lexeme, "")
    ensures LexString("\\\"" + s) == Ok("\\\"" + lexeme, "")
  {
    var text := "\\\"" + s;
    assert text[2..] == s && text[1..] == "\"" + s && text[..2] == "\\\"";
  }

  lemma UnescapedCut()
    ensures UnescapeJsonQuotes("{\"a\":\"x\\\"}") == "{\"a\":\"x\"}"
  {
    hide UnescapeJsonQuotes;
    var before, after := "{\"a\":\"x", "\\\"}";
    assert SurvivesCleanup(before);
    UnescapeKeeps(before, after);
    UnescapeQuote(after);
    assert after[2..] == "}";
    UnescapeChangesNothing("}");
    assert before + after == "{\"a\":\"x\\\"}";
    assert before + ("\"" + "}") == "{\"a\":\"x\"}";
  }

  // ---------- an object is lost to the unescaping ----------

  /** Behind noise, an object whose only string is a quotation mark is strict JSON without any
      fence, and no form of the reply is another value; but unescaping breaks its string, and
      the schema is given the empty object. */
  lemma UnescapingLosesTheObject(lower: Lower)
    ensures var t := "{\"a\":\"\\\"\"}";
      && StrictObject(t, Obj([Member("a", Str("\\\""))])) && ExtractFence("x " + "{") == None
      && NoOtherValue("x " + t) && ReplyBody("x " + t) == "x " + t
      && ParseJsonWithFallback("x " + t, None, lower) == Some(Obj([]))
  {
    var t, u := "{\"a\":\"\\\"\"}", "x {\"a\":\"\"\"}";
    hide ParseValue, ParseJson, NormalizeJsonPunctuation, UnescapeJsonQuotes, StrictObject, ExtractFence, JsonRepair.Repair;
    QuoteIsStrict();
    var body := "x " + t;
    assert body == "x {\"a\":\"\\\"\"}";
    NormalizeKeeps(body);
    UnescapedQuote();
    UnparseableStart(body);
    UnparseableStart(u);
    BrokenStringGivesUp();
    EmptyObjectText();
    PlainBody(body);
    NoFenceWithout("x " + "{");
  }

  lemma PlainBody(body: string)
    requires body != [] && !IsSpace(body[0]) && !IsSpace(body[|body| - 1]) && body[0] != '`'
    ensures ReplyBody(body) == body
  {
    hide ExtractFence;
    VisibleEndsTrim(body);
    NoFenceWithout(body);
  }

  lemma QuoteIsStrict()
    ensures StrictObject("{\"a\":\"\\\"\"}", Obj([Member("a", Str("\\\""))]))
  {
    var v := Obj([Member("a", Str("\\\""))]);
    hide ParseValue;
    Spellings();
    ClosingQuote();
    assert "\\\"" + "" == "\\\"" && "\\\"" + "\"" == "\\\"\"";
    EscapedQuoteThen("\"", "");
    assert Print(v) == "{\"a\":\"\\\"\"}";
    ReadsBack(v, "");
    assert Print(v) + "" == Print(v);
  }

  lemma UnescapedQuote()
    ensures UnescapeJsonQuotes("x {\"a\":\"\\\"\"}") == "x {\"a\":\"\"\"}"
  {
    hide UnescapeJsonQuotes;
    var before, after := "x {\"a\":\"", "\\\"\"}";
    UnescapeNext(before, "\"}");
    UnescapeChangesNothing("\"}");
    assert "\\\"" + "\"}" == after && before + after == "x {\"a\":\"\\\"\"}";
    assert before + ("\"" + "\"}") == "x {\"a\":\"\"\"}";
  }

  /** Up to an escaped quote, and over it. */
  lemma UnescapeNext(a: string, rest: string)
    requires EscapedQuotes(a) == 0
    ensures UnescapeJsonQuotes(a + ("\\\"" + rest)) == a + ("\"" + UnescapeJsonQuotes(rest))
  {
    hide UnescapeJsonQuotes, EscapedQuotes;
    var b := "\\\"" + rest;
    NoEscapedQuotes(a);
    UnescapeChangesNothing(a);
    UnescapeConcat(a, b);
    UnescapeQuote(b);
    assert b[2..] == rest;
  }

  /** The broken text is the beginning of a longer object, as far as brackets go. */
  lemma BrokenStringGivesUp()
    ensures JsonRepair.Repair("x {\"a\":\"\"\"}") == "{}"
  {
    hide JsonRepair.Repair, ObjectText;
    var inner := "\"a\":\"\"\"}\"";
    QuotedPieces();
    BracedIsObject(inner);
    var full := "{" + inner + "}";
    JsonRepairLaws.ProperPrefixGivesUp("x ", full, 9);
    assert full[..9] == "{\"a\":\"\"\"}";
    assert "x " + full[..9] == "x {\"a\":\"\"\"}";
  }

  lemma QuotedPieces()
    ensures Balanced("\"a\":\"\"\"}\"")
  {
    hide Tidy, LexString;
    ClosingQuote();
    OrdinaryThen('a', "\"", "");
    OrdinaryThen('}', "\"", "");
    assert ['a'] + "\"" == "a\"" && ['}'] + "\"" == "}\"";
    var a := StringIsTidy("a\"");
    var e := StringIsTidy("\"");
    var b := StringIsTidy("}\"");
    assert a == "a\"" && e == "\"" && b == "}\"";
    TidyOne(':');
    TidyConcat("\"" + a, ":");
    TidyConcat("\"" + a + ":", "\"" + e);
    TidyConcat("\"" + a + ":" + ("\"" + e), "\"" + b);
    assert "\"" + a + ":" + ("\"" + e) + ("\"" + b) == "\"a\":\"\"\"}\"";
    TidyIsBalanced("\"a\":\"\"\"}\"");
  }

  /** The same object with a blank between its tokens, as models write it: none of its members is
      overridden, and it is lost all the same. */
  lemma UnescapingLosesTheSpacedObject(lower: Lower)
    ensures var v := Obj([Member("a", Str("\\\""))]); var t := "{\"a\": \"\\\"\"}";
      && KeepsStrings(t, v) && Unoverridden(t) && EscapedQuotes(t) == 1 && ExtractFence("x " + "{") == None
      && NoOtherValue("x " + t) && ReplyBody("x " + t) == "x " + t
      && ParseJsonWithFallback("x " + t, None, lower) == Some(Obj([]))
  {
    var v := Obj([Member("a", Str("\\\""))]);
    var t, u := "{\"a\": \"\\\"\"}", "x {\"a\": \"\"\"}";
    hide ParseValue, ParseJson, NormalizeJsonPunctuation, UnescapeJsonQuotes, StrictObject, ExtractFence, KeepsStrings,
         Unoverridden, EscapedQuotes, JsonRepair.Repair;
    SpacedIsStrict();
    UnoverriddenKeepsStrings(t, v);
    SpacedCount();
    var body := "x " + t;
    assert body == "x {\"a\": \"\\\"\"}";
    NormalizeKeeps(body);
    SpacedUnescape();
    UnparseableStart(body);
    UnparseableStart(u);
    SpacedGivesUp();
    EmptyObjectText();
    PlainBody(body);
    NoFenceWithout("x " + "{");
  }

  /** One member with a blank behind its colon. */
  function Spaced(key: string, value: string): string {
    "{" + ("\"" + (key + "\"" + (": " + ("\"" + value + "\"" + "}"))))
  }

  lemma SpacedReadsBack(key: string, value: string)
    requires IsSpelling(key) && IsSpelling(value)
    ensures StrictObject(Spaced(key, value), Obj([Member(key, Str(value))])) && Unoverridden(Spaced(key, value))
  {
    hide LexString, IsSpelling;
    var m := Member(key, Str(value));
    var last := "\"" + value + "\"" + "}";
    var after := ": " + last;
    var first := "\"" + (key + "\"" + after);
    assert Spaced(key, value)[1..] == first && first[1..] == key + "\"" + after && after[1..] == " " + last;
    assert (" " + last)[1..] == last && "}" + "" == "}";
    SpellingThen(key, after);
    StringReadsBack(value, "}");
    assert Print(Str(value)) + "}" == last;
    assert SkipWs(after[1..]) == last;
    assert ParseMember(first) == Ok(m, "}");
    MemberThenEnd(first, m, "");
    AssignDistinct([], [m]);
    assert [] + [m] == [m];
    assert SkipWs(first) == first && MemberValue(first) == last;
    assert MembersUnoverridden(first);
  }

  lemma SpacedIsStrict()
    ensures var t := "{\"a\": \"\\\"\"}"; StrictObject(t, Obj([Member("a", Str("\\\""))])) && Unoverridden(t)
  {
    hide LexString, StrictObject, Unoverridden;
    ClosingQuote();
    OrdinaryThen('a', "\"", "");
    EscapedQuoteThen("\"", "");
    assert ['a'] + "\"" == "a" + "\"" && ['a'] + "" == "a";
    assert "\\\"" + "" == "\\\"" && "\\\"" + "\"" == "\\\"\"";
    SpacedReadsBack("a", "\\\"");
    assert Spaced("a", "\\\"") == "{\"a\": \"\\\"\"}";
  }

  lemma SpacedCount()
    ensures EscapedQuotes("{\"a\": \"\\\"\"}") == 1
  {
    hide EscapedQuotes;
    NoneEscaped("{\"a\": \"");
    NoneEscaped("\"}");
    EscapedQuotesNext("{\"a\": \"", "\"}");
    assert "{\"a\": \"" + ("\\\"" + "\"}") == "{\"a\": \"\\\"\"}";
  }

  lemma SpacedUnescape()
    ensures UnescapeJsonQuotes("x {\"a\": \"\\\"\"}") == "x {\"a\": \"\"\"}"
  {
    hide UnescapeJsonQuotes, EscapedQuotes;
    var before, after := "x {\"a\": \"", "\\\"\"}";
    NoneEscaped(before);
    UnescapeNext(before, "\"}");
    NoneEscaped("\"}");
    NoEscapedQuotes("\"}");
    UnescapeChangesNothing("\"}");
    assert "\\\"" + "\"}" == after && before + after == "x {\"a\": \"\\\"\"}";
    assert before + ("\"" + "\"}") == "x {\"a\": \"\"\"}";
  }

  lemma SpacedGivesUp()
    ensures JsonRepair.Repair("x {\"a\": \"\"\"}") == "{}"
  {
    hide JsonRepair.Repair, ObjectText;
    var inner := "\"a\": \"\"\"}\"";
    SpacedPieces();
    BracedIsObject(inner);
    var full := "{" + inner + "}";
    JsonRepairLaws.ProperPrefixGivesUp("x ", full, 10);
    assert full[..10] == "{\"a\": \"\"\"}";
    assert "x " + full[..10] == "x {\"a\": \"\"\"}";
  }

  lemma SpacedPieces()
    ensures Balanced("\"a\": \"\"\"}\"")
  {
    hide Tidy, LexString;
    ClosingQuote();
    OrdinaryThen('a', "\"", "");
    OrdinaryThen('}', "\"", "");
    assert ['a'] + "\"" == "a\"" && ['}'] + "\"" == "}\"";
    var a := StringIsTidy("a\"");
    var e := StringIsTidy("\"");
    var b := StringIsTidy("}\"");
    assert a == "a\"" && e == "\"" && b == "}\"";
    TidyOne(':');
    TidyOne(' ');
    TidyConcat("\"" + a, ":");
    TidyConcat("\"" + a + ":", " ");
    TidyConcat("\"" + a + ":" + " ", "\"" + e);
    TidyConcat("\"" + a + ":" + " " + ("\"" + e), "\"" + b);
    assert "\"" + a + ":" + " " + ("\"" + e) + ("\"" + b) == "\"a\": \"\"\"}\"";
    TidyIsBalanced("\"a\": \"\"\"}\"");
  }

  // ---------- text behind an object restores what the unescaping broke ----------

  /** The bound on backslashes is needed: a suffix with enough of them can assign the broken
      member again, so that an object the clean-up changes is recovered after all. */
  lemma SuffixRestoresTheObject(lower: Lower)
    ensures var v := Obj([Member("k", Str("A\\\",\\\"k\\\":"))]);
      var t := "{\"k\":\"A\\\",\\\"k\\\":\"}"; var q := "\",\"k\":\"A\\\\\",\\\\\"k\\\\\":\"}";
      && t == Print(v) && KeepsStrings(t, v) && EscapedQuotes(t) == 3 && ExtractFence("" + "{") == None
      && ReplyBody(t + q) == t + q
      && ParseJsonWithFallback(t + q, None, lower) == Some(v)
  {
    var v := Obj([Member("k", Str("A\\\",\\\"k\\\":"))]);
    var t, q := "{\"k\":\"A\\\",\\\"k\\\":\"}", "\",\"k\":\"A\\\\\",\\\\\"k\\\\\":\"}";
    hide ParseValue, ParseJson, NormalizeJsonPunctuation, UnescapeJsonQuotes, StrictObject, ExtractFence, Print, Valid,
         KeepsStrings, EscapedQuotes;
    RestoredSpellings();
    RestoredPrint();
    RestoredIsValid();
    PrintKeepsStrings(v);
    KeptIsStrict(t, v);
    RestoredCount();
    JunkAfter(t, q, v);
    NormalizeKeeps(t + q);
    RestoredUnescape();
    RestoredParse();
    NoFenceBeforeBrace();
    PlainBody(t + q);
  }

  lemma RestoredSpellings()
    ensures IsSpelling("k") && IsSpelling("A") && IsSpelling("}") && IsSpelling("A\\\",\\\"k\\\":")
  {
    hide LexString;
    assert ['k'] + "\"" == "k" + "\"" && ['k'] + "" == "k";
    assert ['A'] + "\"" == "A" + "\"" && ['A'] + "" == "A";
    assert ['}'] + "\"" == "}" + "\"" && ['}'] + "" == "}";
    assert [':'] + "\"" == ":\"" && [':'] + "" == ":";
    ClosingQuote();
    OrdinaryThen('k', "\"", "");
    OrdinaryThen('A', "\"", "");
    OrdinaryThen('}', "\"", "");
    OrdinaryThen(':', "\"", "");
    EscapedQuoteThen(":\"", ":");
    OrdinaryThen('k', "\\\"" + ":\"", "\\\"" + ":");
    EscapedQuoteThen(['k'] + ("\\\"" + ":\""), ['k'] + ("\\\"" + ":"));
    var s, l := "\\\"" + (['k'] + ("\\\"" + ":\"")), "\\\"" + (['k'] + ("\\\"" + ":"));
    OrdinaryThen(',', s, l);
    EscapedQuoteThen([','] + s, [','] + l);
    OrdinaryThen('A', "\\\"" + ([','] + s), "\\\"" + ([','] + l));
    assert ['A'] + ("\\\"" + ([','] + l)) == "A\\\",\\\"k\\\":";
    assert ['A'] + ("\\\"" + ([','] + s)) == "A\\\",\\\"k\\\":" + "\"";
  }

  lemma RestoredIsValid()
    ensures Valid(Obj([Member("k", Str("A\\\",\\\"k\\\":"))]))
  {
    hide LexString, IsSpelling;
    RestoredSpellings();
  }

  lemma RestoredPrint()
    ensures Print(Obj([Member("k", Str("A\\\",\\\"k\\\":"))])) == "{\"k\":\"A\\\",\\\"k\\\":\"}"
  {
  }

  lemma EscapedQuotesNext(a: string, rest: string)
    requires EscapedQuotes(a) == 0
    ensures EscapedQuotes(a + ("\\\"" + rest)) == 1 + EscapedQuotes(rest)
    decreases |a|
  {
    var b := "\\\"" + rest;
    assert b[2..] == rest;
    if a == [] {
      assert a + b == b;
    } else {
      assert (a + b)[1..] == a[1..] + b;
      EscapedQuotesNext(a[1..], rest);
    }
  }

  lemma RestoredCount()
    ensures EscapedQuotes("{\"k\":\"A\\\",\\\"k\\\":\"}") == 3
  {
    hide EscapedQuotes;
    NoneEscaped(":\"}");
    NoneEscaped("k");
    NoneEscaped(",");
    NoneEscaped("{\"k\":\"A");
    EscapedQuotesNext("k", ":\"}");
    EscapedQuotesNext(",", "k" + ("\\\"" + ":\"}"));
    EscapedQuotesNext("{\"k\":\"A", "," + ("\\\"" + ("k" + ("\\\"" + ":\"}"))));
    assert "{\"k\":\"A" + ("\\\"" + ("," + ("\\\"" + ("k" + ("\\\"" + ":\"}"))))) == "{\"k\":\"A\\\",\\\"k\\\":\"}";
  }

  lemma NoneEscaped(s: string)
    requires forall i | 0 < i < |s| :: !(s[i - 1] == '\\' && s[i] == '"')
    ensures EscapedQuotes(s) == 0
  {
    hide EscapedQuotes;
    NoEscapedQuotes(s);
    forall i | 0 <= i < |s|
      ensures !StartsEscapedQuote(s[i..])
    {
      assert i + 1 < |s| ==> s[i..][1] == s[i + 1];
    }
  }

  lemma RestoredUnescape()
    ensures UnescapeJsonQuotes("{\"k\":\"A\\\",\\\"k\\\":\"}" + "\",\"k\":\"A\\\\\",\\\\\"k\\\\\":\"}")
         == "{\"k\":\"A\",\"k\":\"}\",\"k\":\"A\\\",\\\"k\\\":\"}"
  {
    hide UnescapeJsonQuotes, EscapedQuotes;
    var e := "\\\"";
    var end := ":\"}";
    NoneEscaped(end);
    NoEscapedQuotes(end);
    UnescapeChangesNothing(end);
    var x5 := "k\\";
    NoneEscaped(x5);
    UnescapeNext(x5, end);
    var x4 := ",\\";
    NoneEscaped(x4);
    UnescapeNext(x4, x5 + (e + end));
    var x3 := ":\"}\",\"k\":\"A\\";
    NoneEscaped(x3);
    UnescapeNext(x3, x4 + (e + (x5 + (e + end))));
    var s3 := x3 + (e + (x4 + (e + (x5 + (e + end)))));
    NoneEscaped("k");
    UnescapeNext("k", s3);
    NoneEscaped(",");
    UnescapeNext(",", "k" + (e + s3));
    var x0 := "{\"k\":\"A";
    NoneEscaped(x0);
    UnescapeNext(x0, "," + (e + ("k" + (e + s3))));
    RestoredPieces();
  }

  lemma RestoredPieces()
    ensures "{\"k\":\"A" + ("\\\"" + ("," + ("\\\"" + ("k" + ("\\\"" + (":\"}\",\"k\":\"A\\" + ("\\\"" + (",\\"
      + ("\\\"" + ("k\\" + ("\\\"" + ":\"}"))))))))))) ==
      "{\"k\":\"A\\\",\\\"k\\\":\"}" + "\",\"k\":\"A\\\\\",\\\\\"k\\\\\":\"}"
    ensures "{\"k\":\"A" + ("\"" + ("," + ("\"" + ("k" + ("\"" + (":\"}\",\"k\":\"A\\" + ("\"" + (",\\"
      + ("\"" + ("k\\" + ("\"" + ":\"}"))))))))))) == "{\"k\":\"A\",\"k\":\"}\",\"k\":\"A\\\",\\\"k\\\":\"}"
  {
  }

  function Pair(s: string): string {
    "\"k\":\"" + s + "\""
  }

  function Three(a: string, b: string, c: string): string {
    Pair(a) + ("," + (Pair(b) + ("," + (Pair(c) + "}"))))
  }

  lemma RestoredParse()
    ensures ParseJson("{\"k\":\"A\",\"k\":\"}\",\"k\":\"A\\\",\\\"k\\\":\"}")
         == Some(Obj([Member("k", Str("A\\\",\\\"k\\\":"))]))
  {
    hide ParseJson, IsSpelling;
    RestoredSpellings();
    LastOfThree("A", "}", "A\\\",\\\"k\\\":");
    assert "{" + Three("A", "}", "A\\\",\\\"k\\\":") == "{\"k\":\"A\",\"k\":\"}\",\"k\":\"A\\\",\\\"k\\\":\"}";
  }

  /** Of three members with the same key the last wins. */
  lemma LastOfThree(a: string, b: string, c: string)
    requires IsSpelling("k") && IsSpelling(a) && IsSpelling(b) && IsSpelling(c)
    ensures ParseJson("{" + Three(a, b, c)) == Some(Obj([Member("k", Str(c))]))
  {
    hide ParseMembers, PrintMembers, IsSpelling, Three;
    var m1, m2, m3 := Member("k", Str(a)), Member("k", Str(b)), Member("k", Str(c));
    var more := Three(a, b, c);
    PrintThree(a, b, c);
    MembersReadBack([m1, m2, m3], "");
    assert more + "" == more && ("{" + more)[1..] == more;
    ThreeStarts(a, b, c);
    assert SkipWs(more) == more;
    LastAssigned(m1, m2, m3);
  }

  lemma ThreeStarts(a: string, b: string, c: string)
    ensures Three(a, b, c) != [] && Three(a, b, c)[0] == '"'
  {
  }

  lemma PrintThree(a: string, b: string, c: string)
    ensures PrintMembers([Member("k", Str(a)), Member("k", Str(b)), Member("k", Str(c))]) == Three(a, b, c)
  {
    hide PrintMembers, PrintMember, Pair;
    var m1, m2, m3 := Member("k", Str(a)), Member("k", Str(b)), Member("k", Str(c));
    PrintPair(a);
    PrintPair(b);
    PrintPair(c);
    PrintStep([m3]);
    PrintStep([m2, m3]);
    PrintStep([m1, m2, m3]);
    assert [m1, m2, m3][1..] == [m2, m3] && [m2, m3][1..] == [m3];
  }

  lemma PrintStep(members: seq<Member>)
    requires members != []
    ensures PrintMembers(members) == PrintMember(members[0])
      + if |members| == 1 then "}" else "," + PrintMembers(members[1..])
  {
    hide PrintMember;
  }

  lemma PrintPair(s: string)
    ensures PrintMember(Member("k", Str(s))) == Pair(s)
  {
    assert Print(Str(s)) == "\"" + s + "\"";
    assert "\"" + "k" + "\"" + ":" + ("\"" + s + "\"") == Pair(s);
  }

  lemma LastAssigned(m1: Member, m2: Member, m3: Member)
    requires m1.key == m2.key == m3.key
    ensures AssignAll([], [m1, m2, m3]) == [m3]
  {
    assert [m1, m2, m3][1..] == [m2, m3] && [m2, m3][1..] == [m3] && [m3][1..] == [];
    assert Assign([], m1.key, m1.value) == [m1];
    assert Assign([m1], m2.key, m2.value) == [m2];
    assert Assign([m2], m3.key, m3.value) == [m3];
    assert AssignAll([m3], []) == [m3];
    assert AssignAll([m2], [m3]) == [m3];
    assert AssignAll([m1], [m2, m3]) == [m3];
  }

  // ---------- an overridden member may be changed ----------

  /** An object whose first member is overridden comes back although the clean-up changes it: what
      it changes is not part of the value. */
  lemma OverriddenComesBack(lower: Lower)
    ensures var v := Obj([Member("k", Str("A"))]); var t := "{\"k\":\"\U{2018}\",\"k\":\"A\"}";
      && StrictObject(t, v) && !NoTypographic(t) && ExtractFence("x " + "{") == None
      && ReplyBody("x " + t) == "x " + t && ParseJsonWithFallback("x " + t, None, lower) == Some(v)
  {
    var v := Obj([Member("k", Str("A"))]);
    var t, t1 := "{\"k\":\"\U{2018}\",\"k\":\"A\"}", "{\"k\":\"'\",\"k\":\"A\"}";
    hide NormalizeJsonPunctuation, StrictObject, ExtractFence, NoTypographic, EscapedQuotes, ReplyBody,
         ParseJsonWithFallback;
    OverriddenTexts();
    HasTypographic(t, 6);
    OverriddenNormalize();
    NoneEscaped("x " + t1);
    ComesBack(t, t1, v, lower);
    NoFenceWithout("x " + "{");
  }

  /** Behind a word, an object that the normalisation changes without changing its value, and that
      holds no escaped quote. */
  lemma ComesBack(t: string, t1: string, v: Json, lower: Lower)
    requires StrictObject(t, v) && StrictObject(t1, v) && v.Obj?
    requires NormalizeJsonPunctuation("x " + t) == "x " + t1 && EscapedQuotes("x " + t1) == 0
    ensures ReplyBody("x " + t) == "x " + t && ParseJsonWithFallback("x " + t, None, lower) == Some(v)
  {
    hide ParseJson, NormalizeJsonPunctuation, UnescapeJsonQuotes, StrictObject, EscapedQuotes, ReplyBody, ParseStages,
         JsonRepair.Repair;
    var body, n := "x " + t, "x " + t1;
    assert n + "" == n;
    NoEscapedQuotes(n);
    UnescapeChangesNothing(n);
    UnparseableStart(body);
    UnparseableStart(n);
    StrictObjectIsObjectText(t1, v);
    JsonRepairLaws.PassesThrough("x ", t1, "");
    VisibleObject(t1, v);
    VisibleObject(t, v);
    PlainBody(body);
    RecoveredBehindNoise(body, v, lower);
  }

  lemma HasTypographic(t: string, i: nat)
    requires i < |t| && IsTypographic(t[i])
    ensures !NoTypographic(t)
  {
    assert t[i] in t;
  }

  lemma OverriddenNormalize()
    ensures NormalizeJsonPunctuation("x " + "{\"k\":\"\U{2018}\",\"k\":\"A\"}") == "x " + "{\"k\":\"'\",\"k\":\"A\"}"
  {
  }

  lemma OverriddenTexts()
    ensures var v := Obj([Member("k", Str("A"))]);
      StrictObject("{\"k\":\"\U{2018}\",\"k\":\"A\"}", v) && StrictObject("{\"k\":\"'\",\"k\":\"A\"}", v)
  {
    hide IsSpelling, StrictObject, LexString;
    RestoredSpellings();
    ClosingQuote();
    OneCharSpells('\U{2018}');
    OneCharSpells('\'');
    LastOfTwo("\U{2018}", "A");
    LastOfTwo("'", "A");
    assert "{" + Two("\U{2018}", "A") == "{\"k\":\"\U{2018}\",\"k\":\"A\"}";
    assert "{" + Two("'", "A") == "{\"k\":\"'\",\"k\":\"A\"}";
  }

  lemma OneCharSpells(c: char)
    requires c != '"' && c != '\\' && c >= ' '
    ensures IsSpelling([c])
  {
    ClosingQuote();
    OrdinaryThen(c, "\"", "");
    assert [c] + "" == [c];
  }

  function Two(a: string, b: string): string {
    Pair(a) + ("," + (Pair(b) + "}"))
  }

  /** Of two members with the same key the last wins. */
  lemma LastOfTwo(a: string, b: string)
    requires IsSpelling("k") && IsSpelling(a) && IsSpelling(b)
    ensures StrictObject("{" + Two(a, b), Obj([Member("k", Str(b))]))
  {
    hide ParseMembers, PrintMembers, PrintMember, IsSpelling, Two;
    var m1, m2 := Member("k", Str(a)), Member("k", Str(b));
    var more := Two(a, b);
    PrintPair(a);
    PrintPair(b);
    PrintStep([m2]);
    PrintStep([m1, m2]);
    assert [m1, m2][1..] == [m2] && [m2][1..] == [];
    TwoStarts(a, b);
    MembersReadBack([m1, m2], "");
    assert more + "" == more && ("{" + more)[1..] == more;
    assert SkipWs(more) == more;
    assert Assign([], m1.key, m1.value) == [m1] && Assign([m1], m2.key, m2.value) == [m2];
    assert AssignAll([m2], []) == [m2] && AssignAll([m1], [m2]) == [m2];
    assert AssignAll([], [m1, m2]) == [m2];
  }

  lemma TwoStarts(a: string, b: string)
    ensures Two(a, b) == Pair(a) + ("," + (Pair(b) + "}")) && Two(a, b) != [] && Two(a, b)[0] == '"'
  {
  }

  // ---------- a continuation is cut off from its prefill ----------

  /** A continuation that opens with a bracket is kept without its prefill as soon as a word stands
      behind it, and the schema is given the empty object. */
  lemma BracketedContinuationIsLost(lower: Lower)
    ensures var p, c, q := "{\"a\":", "[]}", " x"; var v := Obj([Member("a", Arr([]))]);
      && StrictObject(p + c, v) && ParseJsonWithFallback(MergePrefill(p, c), None, lower) == Some(v)
      && MergePrefill(p, c + q) == c + q
      && ParseJsonWithFallback(MergePrefill(p, c + q), None, lower) == Some(Obj([]))
  {
    hide ExtractFence, TrimStart, TrimEnd, MergePrefill, StrictObject, ParseJson, ParseJsonWithFallback, SurvivesCleanup,
         OpensBracket, SkipWs;
    var p, c, q := "{\"a\":", "[]}", " x";
    var v := Obj([Member("a", Arr([]))]);
    ArrayMember();
    assert p + c == "{\"a\":[]}" && c + q == "[]} x" && c + "" == c && p + c + "" == p + c;
    BracketFirst();
    ContinuationIsMerged(p, c, "", v);
    MergesExactly(p, c + q);
    ContinuationIsMerged(p, c, q, v);
    ObjectFirst(p + c, "", v, None, lower);
    CutOffIsNothing(lower);
  }

  lemma BracketFirst()
    ensures TrimEnd("{\"a\":") == "{\"a\":" && TrimStart("[]}") == "[]}" && TrimStart("[]} x") == "[]} x"
    ensures OpensBracket("[]}") && OpensBracket("[]} x") && SkipWs(" x") != "" && SkipWs("") == ""
    ensures ExtractFence("[]}") == None && ExtractFence("[]} x") == None
  {
    hide ExtractFence;
    assert " x"[1..] == "x";
    NoFenceWithout("[]}");
    NoFenceWithout("[]} x");
  }

  lemma ArrayMember()
    ensures StrictObject("{\"a\":[]}", Obj([Member("a", Arr([]))])) && SurvivesCleanup("{\"a\":[]}")
    ensures ParseJson("[]}") == None
  {
    var v := Obj([Member("a", Arr([]))]);
    hide ParseValue, LexString;
    Spellings();
    assert Print(v) == "{\"a\":[]}";
    ReadsBack(v, "");
    assert Print(v) + "" == Print(v);
    JunkBehindArray();
  }

  lemma JunkBehindArray()
    ensures ParseJson("[]} x") == None && ParseJson("[]}") == None
  {
    assert "[]} x"[1..] == "]} x" && "]} x"[1..] == "} x";
    assert "[]}"[1..] == "]}" && "]}"[1..] == "}";
  }

  lemma CutOffIsNothing(lower: Lower)
    ensures ParseJsonWithFallback("[]} x", None, lower) == Some(Obj([]))
  {
    hide ExtractFence, ParseJson, NormalizeJsonPunctuation, UnescapeJsonQuotes, JsonRepair.Repair, EscapedQuotes;
    var raw := "[]} x";
    PlainBody(raw);
    NormalizeKeeps(raw);
    NoneEscaped(raw);
    NoEscapedQuotes(raw);
    UnescapeChangesNothing(raw);
    JunkBehindArray();
    NoBraceGivesUp(raw);
    EmptyObjectText();
  }

  lemma NoBraceGivesUp(raw: string)
    requires '{' !in raw
    ensures JsonRepair.Repair(raw) == "{}"
  {
  }
}
