/** What the hardening gives for a reply that breaks off within its object. */
module JsonTruncation {
  import opened Text
  import opened JsonScan
  import opened JsonText
  import opened JsonTidy
  import opened JsonKeys
  import opened JsonPipeline
  import opened JsonPipelineLaws
  import opened JsonFenceLaws
  import opened JsonWeights
  import opened JsonRecovery
  import opened JsonRepair
  import JsonRepairLaws

  /** A proper prefix of a strict object is no strict JSON. */
  lemma PrefixIsNoJson(t: string, n: nat, v: Json)
    requires StrictObject(t, v) && n < |t|
    ensures ParseJson(t[..n]) == None
  {
    hide ParseJson, Run;
    StrictObjectIsObjectText(t, v);
    if ParseJson(t[..n]).Some? {
      StrictIsTidy(t[..n]);
      if n == 0 {
        NoValueInNothing();
      }
    }
  }

  lemma NoValueInNothing()
    ensures ParseJson("") == None
  {
  }

  // ---------- texts that read as the empty object ----------

  /** Such a text holds a pair of braces and white space, and nothing else. */
  predicate BareBraces(text: string) {
    && (forall c | c in text :: IsWs(c) || c == '{' || c == '}')
    && Count(text, '{') == 1
  }

  lemma {:induction false} AssignAllStays(members: seq<Member>, more: seq<Member>)
    requires members != [] || more != []
    ensures AssignAll(members, more) != []
    decreases |more|
  {
    if more != [] {
      AssignAllStays(Assign(members, more[0].key, more[0].value), more[1..]);
    }
  }

  lemma {:induction false} AllWsText(s: string)
    requires SkipWs(s) == []
    ensures forall c | c in s :: IsWs(c)
  {
    if s != [] {
      AllWsText(s[1..]);
      assert s == [s[0]] + s[1..];
    }
  }

  lemma EmptyObjectIsBare(text: string)
    requires ParseJson(text) == Some(Obj([]))
    ensures BareBraces(text)
  {
    hide SkipWs, ParseMembers, ParseItems, LexString, ParseNumber;
    var ws := SkipWsSplits(text);
    var s := SkipWs(text);
    if s[0] != '{' {
      NoObjectWithoutBrace(s);
    }
    var inner := SkipWsSplits(s[1..]);
    var t := SkipWs(s[1..]);
    if t == [] || t[0] != '}' {
      NoMembersIsEmpty(s);
    }
    var after := t[1..];
    AllWsText(after);
    assert text == ws + "{" + inner + "}" + after;
    BracesCount(ws, inner, after);
  }

  lemma NoMembersIsEmpty(s: string)
    requires ParseValue(s).Ok? && s[0] == '{'
    requires SkipWs(s[1..]) == [] || SkipWs(s[1..])[0] != '}'
    ensures ParseValue(s).value != Obj([])
  {
    hide SkipWs, ParseMember, AssignAll;
    AssignAllStays([], ParseMembers(SkipWs(s[1..])).value);
  }

  lemma BracesCount(ws: string, inner: string, after: string)
    requires forall c | c in ws + inner + after :: IsWs(c)
    ensures BareBraces(ws + "{" + inner + "}" + after)
  {
    assert forall c | c in ws :: c in ws + inner + after;
    assert forall c | c in inner :: c in ws + inner + after;
    assert forall c | c in after :: c in ws + inner + after;
    assert '{' !in ws && '{' !in inner && '{' !in after;
    CountConcat(ws + "{" + inner + "}", after, '{');
    CountConcat(ws + "{" + inner, "}", '{');
    CountConcat(ws + "{", inner, '{');
    CountConcat(ws, "{", '{');
  }

  lemma {:induction false} PlainUnescape(m: string, k: nat)
    requires k <= |UnescapeJsonQuotes(m)| && '"' !in UnescapeJsonQuotes(m)[..k]
    ensures k <= |m| && UnescapeJsonQuotes(m)[..k] == m[..k]
    decreases |m|
  {
    hide UnescapeJsonQuotes;
    var u := UnescapeJsonQuotes(m);
    if k > 0 {
      assert u[..k][0] == u[0] && u[..k][0] in u[..k];
      if m == [] {
        NothingUnescaped();
      } else if StartsEscapedQuote(m) {
        UnescapeQuote(m);
      } else {
        UnescapeOther(m);
        assert u[1..] == UnescapeJsonQuotes(m[1..]);
        assert forall c | c in u[1..][..k - 1] :: c in u[..k];
        PlainUnescape(m[1..], k - 1);
        assert u[..k] == [m[0]] + u[1..][..k - 1];
      }
    }
  }

  lemma {:induction false} PlainNormalize(s: string, k: nat)
    requires k <= |s| && forall c | c in NormalizeJsonPunctuation(s)[..k] :: IsWs(c) || IsOpening(c) || IsClosing(c)
    ensures NormalizeJsonPunctuation(s)[..k] == s[..k]
  {
    var m := NormalizeJsonPunctuation(s);
    forall i | 0 <= i < k
      ensures m[i] == s[i]
    {
      assert m[..k][i] == NormalizeChar(s[i]);
      assert m[..k][i] in m[..k];
    }
  }

  // ---------- a prefix never reads as the empty object by itself ----------

  /** Bare braces that a clean-up left over were there before it. */
  lemma CleanupMakesNoBraces(s: string, v: Json, t: string, n: nat)
    requires StrictObject(t, v) && n < |t| && s == t[..n]
    ensures ParseJson(NormalizeJsonPunctuation(s)) != Some(Obj([]))
    ensures ParseJson(UnescapeJsonQuotes(NormalizeJsonPunctuation(s))) != Some(Obj([]))
  {
    hide ParseJson, NormalizeJsonPunctuation, UnescapeJsonQuotes, StrictObject, Count;
    var m := NormalizeJsonPunctuation(s);
    var u := UnescapeJsonQuotes(m);
    PrefixIsNoJson(t, n, v);
    NormalizedLength(s);
    assert m[..|s|] == m && s[..|s|] == s;
    if ParseJson(m) == Some(Obj([])) {
      EmptyObjectIsBare(m);
      PlainNormalize(s, |s|);
    }
    if ParseJson(u) == Some(Obj([])) {
      EmptyObjectIsBare(u);
      assert u[..|u|] == u;
      PlainUnescape(m, |u|);
      UnescapedIsShorter(m, u);
    }
  }

  /** A text without quotation marks that unescaping gives was not changed by it. */
  lemma UnescapedIsShorter(m: string, u: string)
    requires u == UnescapeJsonQuotes(m) && '"' !in u
    ensures u == m
  {
    hide UnescapeJsonQuotes;
    NoQuoteNoChange(m);
  }

  lemma {:induction false} NoQuoteNoChange(m: string)
    requires '"' !in UnescapeJsonQuotes(m)
    ensures UnescapeJsonQuotes(m) == m
    decreases |m|
  {
    hide UnescapeJsonQuotes;
    if m == [] {
      NothingUnescaped();
    } else if StartsEscapedQuote(m) {
      UnescapeQuote(m);
    } else {
      UnescapeOther(m);
      NoQuoteNoChange(m[1..]);
    }
  }

  // ---------- nor does its repair ----------

  /** A pass returns at a closer. */
  lemma {:induction false} ReturnsAtCloser(rep: Repairing, text: string)
    requires Rescan(rep, text).Emitted?
    ensures var read := ReadBy(rep, text); read != "" && IsClosing(read[|read| - 1]) && read <= text
    decreases |text|
  {
    hide Close;
    var (next, done) := Consume(rep, text[0]);
    RestIsShorter(rep, text);
    if !done {
      ReturnsAtCloser(next, text[1..]);
      assert ReadBy(rep, text) == [text[0]] + ReadBy(next, text[1..]);
    }
  }

  /** If a repair reads as the empty object, what it read was one opening brace, white space and
      closers. */
  lemma RepairOfBraces(u: string) returns (read: string)
    requires u != [] && u[0] == '{' && Pass(u).Emitted? && ParseJson(Repair(u)) == Some(Obj([]))
    ensures read <= u && |read| > 1 && read[0] == '{' && IsClosing(read[|read| - 1])
    ensures forall i | 0 < i < |read| :: IsWs(read[i]) || IsClosing(read[i])
  {
    hide ParseJson, Repair, Skeleton, Count, Rescan, ReadBy, IndexOf;
    read := ScannedBy(u);
    FirstBrace(u);
    ReturnsAtCloser(FRESH, u);
    assert u[0..] == u;
    EmptyObjectIsBare(Repair(u));
    RepairBalancesAndConserves(u);
    SkeletonCounts(Repair(u), '{');
    SkeletonCounts(read, '{');
    forall i | 0 < i < |read|
      ensures IsWs(read[i]) || IsClosing(read[i])
    {
      if !IsClosing(read[i]) {
        SkeletonCounts(Repair(u), read[i]);
        SkeletonCounts(read, read[i]);
        CountedIsThere(read, Repair(u), i);
        if read[i] == '{' {
          TwoBraces(read, i);
        }
      }
    }
  }

  lemma FirstBrace(u: string)
    requires u != [] && u[0] == '{'
    ensures IndexOf(u, '{') == 0
  {
  }

  lemma CountedIsThere(read: string, out: string, i: nat)
    requires i < |read| && Count(read, read[i]) == Count(out, read[i])
    ensures read[i] in out
  {
    assert read[i] in read;
    assert read[i] in multiset(out);
  }

  lemma TwoBraces(read: string, i: nat)
    requires 0 < i < |read| && read[0] == '{' && read[i] == '{'
    ensures Count(read, '{') > 1
  {
    assert read == [read[0]] + read[1..];
    assert read[1..][i - 1] == '{';
    assert '{' in multiset(read[1..]);
  }

  /** An opening brace and white space leave one bracket open. */
  lemma {:induction false} OneOpen(text: string)
    requires text != [] && text[0] == '{' && forall i | 0 < i < |text| :: IsWs(text[i])
    ensures Run(START, text) == At([Curly], Outside)
    decreases |text|
  {
    var init := text[..|text| - 1];
    assert text == init + [text[|text| - 1]];
    if |text| > 1 {
      OneOpen(init);
      RunSnoc(START, init, text[|text| - 1]);
    } else {
      assert text == ['{'] && init == [];
      assert [] + [Curly] == [Curly];
    }
  }

  /** No proper prefix of an object is one opening brace, white space and closers. */
  lemma ClosesTooSoon(t: string, v: Json, read: string)
    requires StrictObject(t, v) && |read| < |t|
    requires |read| > 1 && read[0] == '{' && IsClosing(read[|read| - 1])
    requires forall i | 0 < i < |read| :: IsWs(read[i]) || IsClosing(read[i])
    ensures !(read <= t)
  {
    hide StrictObject, Run, ObjectText;
    StrictObjectIsObjectText(t, v);
    var j := FirstCloser(read);
    OneOpen(read[..j]);
    StaysInProgress(t, j + 1);
    if read <= t {
      assert t[..j + 1] == read[..j] + [read[j]];
      RunSnoc(START, read[..j], read[j]);
      CloserEnds(read[j]);
    }
  }

  lemma StaysInProgress(t: string, i: nat)
    requires ObjectText(t) && 0 < i < |t|
    ensures InProgress(t[..i])
  {
  }

  lemma CloserEnds(c: char)
    requires IsClosing(c)
    ensures var st := Step(At([Curly], Outside), c); st == Bad || st == At([], Outside)
  {
  }

  lemma FirstCloser(read: string) returns (j: nat)
    requires |read| > 1 && read[0] == '{' && IsClosing(read[|read| - 1])
    requires forall i | 0 < i < |read| :: IsWs(read[i]) || IsClosing(read[i])
    ensures 0 < j < |read| && IsClosing(read[j]) && forall i | 0 < i < j :: IsWs(read[i])
  {
    j := 1;
    while !IsClosing(read[j])
      invariant 0 < j < |read| && forall i | 0 < i < j :: IsWs(read[i])
      decreases |read| - j
    {
      j := j + 1;
    }
  }

  lemma RepairMakesNoEmpty(t: string, n: nat, v: Json)
    requires StrictObject(t, v) && 0 < n < |t|
    ensures var u := UnescapeJsonQuotes(NormalizeJsonPunctuation(t[..n]));
      Pass(u).Emitted? ==> ParseJson(Repair(u)) != Some(Obj([]))
  {
    hide ParseJson, NormalizeJsonPunctuation, UnescapeJsonQuotes, StrictObject, Repair, Pass;
    var s := t[..n];
    var m := NormalizeJsonPunctuation(s);
    var u := UnescapeJsonQuotes(m);
    PrefixCleaned(t, n, v);
    if Pass(u).Emitted? && ParseJson(Repair(u)) == Some(Obj([])) {
      var read := RepairOfBraces(u);
      var k := |read|;
      assert u[..k] == read;
      PlainUnescape(m, k);
      NormalizedLength(s);
      PlainNormalize(s, k);
      assert read == t[..k];
      ClosesTooSoon(t, v, read);
    }
  }

  lemma PrefixCleaned(t: string, n: nat, v: Json)
    requires StrictObject(t, v) && 0 < n <= |t|
    ensures var m := NormalizeJsonPunctuation(t[..n]); var u := UnescapeJsonQuotes(m);
      m != [] && m[0] == '{' && u != [] && u[0] == '{'
  {
    UnescapeOther(NormalizeJsonPunctuation(t[..n]));
  }

  // ---------- the four stages ----------

  /** For every object and every proper prefix of its text, with any noise without `{` before it:
      the four stages give the empty object if and only if no form of the text is strict JSON and
      the repair gives up. */
  lemma StagesOfPrefix(p: string, t: string, n: nat, v: Json)
    requires StrictObject(t, v) && 0 < n < |t|
    requires '{' !in p && (p != [] ==> !IsSpace(p[0]))
    ensures var body := p + t[..n]; var m := NormalizeJsonPunctuation(body); var u := UnescapeJsonQuotes(m);
      ParseStages(body) == Some(Obj([]))
      <==> ParseJson(body) == None && ParseJson(m) == None && ParseJson(u) == None && Pass(u).GaveUp?
  {
    hide ParseJson, NormalizeJsonPunctuation, UnescapeJsonQuotes, StrictObject, Repair, Pass;
    var s := t[..n];
    var body := p + s;
    var m, u := NormalizeJsonPunctuation(body), UnescapeJsonQuotes(NormalizeJsonPunctuation(body));
    PrefixCleaned(t, n, v);
    CleanedConcat(p, s);
    CleanupStaysVisible(p);
    NormalizeMakesNoBrace(p);
    UnescapeMakesNoBrace(NormalizeJsonPunctuation(p));
    RepairSkipsNoise(UnescapeJsonQuotes(NormalizeJsonPunctuation(p)), UnescapeJsonQuotes(NormalizeJsonPunctuation(s)));
    RepairMakesNoEmpty(t, n, v);
    GivingUpIsEmpty(u);
    if p == [] {
      assert p + s == s;
      PrefixIsNoJson(t, n, v);
      CleanupMakesNoBraces(s, v, t, n);
    } else {
      NotEmptyBehindNoise(body);
      NotEmptyBehindNoise(m);
      NotEmptyBehindNoise(u);
    }
  }

  lemma CleanedConcat(p: string, s: string)
    requires var m := NormalizeJsonPunctuation(s); m != [] && m[0] == '{'
    ensures NormalizeJsonPunctuation(p + s) == NormalizeJsonPunctuation(p) + NormalizeJsonPunctuation(s)
    ensures UnescapeJsonQuotes(NormalizeJsonPunctuation(p + s))
         == UnescapeJsonQuotes(NormalizeJsonPunctuation(p)) + UnescapeJsonQuotes(NormalizeJsonPunctuation(s))
  {
    NormalizeConcat(p, s);
    UnescapeConcat(NormalizeJsonPunctuation(p), NormalizeJsonPunctuation(s));
  }

  lemma NotEmptyBehindNoise(s: string)
    requires s != [] && s[0] != '{' && !IsWs(s[0])
    ensures ParseJson(s) != Some(Obj([]))
  {
    hide ParseValue;
    assert SkipWs(s) == s;
    NoObjectWithoutBrace(s);
  }

  lemma GivingUpIsEmpty(u: string)
    ensures Pass(u).GaveUp? ==> ParseJson(Repair(u)) == Some(Obj([]))
  {
    hide Pass, Repair, ParseJson;
    RepairBalancesAndConserves(u);
    EmptyObjectText();
  }

  /** Without noise the condition is on the clean-ups alone: the normalised prefix is no strict
      JSON, and the repair of the unescaped one gives up. */
  lemma StagesOfBarePrefix(t: string, n: nat, v: Json)
    requires StrictObject(t, v) && n < |t|
    ensures var m := NormalizeJsonPunctuation(t[..n]);
      ParseStages(t[..n]) == Some(Obj([])) <==> ParseJson(m) == None && Pass(UnescapeJsonQuotes(m)).GaveUp?
  {
    hide ParseJson, NormalizeJsonPunctuation, UnescapeJsonQuotes, StrictObject, Repair, Pass, ParseStages;
    var s := t[..n];
    var m := NormalizeJsonPunctuation(s);
    var u := UnescapeJsonQuotes(m);
    if n == 0 {
      NothingGivesNothing();
    } else {
      assert "" + s == s;
      StagesOfPrefix("", t, n, v);
      PrefixIsNoJson(t, n, v);
      PrefixCleaned(t, n, v);
      if ParseJson(u).Some? {
        OnlyObjects(u);
        RepairKeepsObjects(u);
      }
    }
  }

  lemma NothingGivesNothing()
    ensures NormalizeJsonPunctuation("") == "" && UnescapeJsonQuotes("") == ""
    ensures ParseJson("") == None && Pass("").GaveUp? && ParseStages("") == Some(Obj([]))
  {
    hide ParseJson;
    NoValueInNothing();
    GivingUpIsEmpty("");
  }

  lemma OnlyObjects(s: string)
    requires s != [] && s[0] == '{' && ParseJson(s).Some?
    ensures ParseJson(s).value.Obj?
  {
    hide ParseMembers, AssignAll;
  }

  // ---------- whole replies ----------

  /** No line of a prefix of strict JSON is a fence, cut where it may be. */
  lemma {:induction false} PrefixLinesAreNoFence(t: string, i: nat, k: nat)
    requires Tidy(t) && i <= k <= |t|
    requires Run(START, t[..i]).At? && Run(START, t[..i]).mode == Outside
    ensures FirstFence(t[i..k]) == None
    decreases k - i
  {
    hide Run, Tidy, Trim, IndexOf, FirstFence;
    var rest := t[i..k];
    NextFence(rest);
    var n := IndexOf(rest, '\n');
    if n == -1 {
      JsonLineIsNoFence(t, i, k);
    } else {
      JsonLineIsNoFence(t, i, i + n);
      assert t[i..i + n] == rest[..n];
      LineBreakIsOutside(t, i + n);
      PrefixLinesAreNoFence(t, i + n + 1, k);
      assert rest[n + 1..] == t[i + n + 1..k];
    }
  }

  lemma TruncatedHasNoFence(a: string, t: string, k: nat, v: Json)
    requires StrictObject(t, v) && 0 < k <= |t| && FirstFence(a + "{") == None
    ensures FirstFence(a + t[..k]) == None
  {
    hide Trim, IndexOf, FirstFence, StrictObject, Tidy, Run, ParseJson;
    VisibleObject(t, v);
    StrictIsTidy(t);
    NoFenceInNoise(a, t[..k]);
    var n := IndexOf(t[..k], '\n');
    if n != -1 {
      LineBreakIsOutside(t, n);
      PrefixLinesAreNoFence(t, n + 1, k);
      assert t[..k][n + 1..] == t[n + 1..k];
    }
  }

  /** A reply that breaks off within its object is all body, in an opened fence too, unless a
      fence is complete before the object. */
  lemma TruncatedBody(p: string, t: string, n: nat, v: Json) returns (k: nat)
    requires StrictObject(t, v) && 0 < n <= |t| && ExtractFence(p + "{") == None
    ensures 0 < k <= n && TrimEnd(t[..n]) == t[..k]
    ensures ReplyBody(p + t[..n]) == TrimStart(p) + t[..k]
  {
    hide TrimStart, TrimEnd, IndexOf, FirstFence, OpensFence, ExtractFence, StrictObject, Trim;
    var visible, b := TrimStart(p), t[..n];
    VisibleObject(t, v);
    BodyOf(p + b);
    FenceOpensBefore(p, b);
    FenceOpensBefore(p, "{");
    TrimEndIsPrefix(b);
    k := |TrimEnd(b)|;
    assert TrimEnd(b) == t[..k];
    assert TrimEnd("{") == "{" by {
      OneBrace();
    }
    if '\n' in visible {
      var a := visible[IndexOf(visible, '\n') + 1..];
      if FirstFence(a + "{") == None {
        TruncatedHasNoFence(a, t, k, v);
      }
    }
  }

  /** The exact condition, for every reply that breaks off within its object, with any noise
      without `{` before it that holds no complete fence, an opened fence among it: the schema is
      given the empty object if and only if no form of the trimmed reply is strict JSON and the
      repair gives up. */
  lemma TruncatedExactly(p: string, t: string, n: nat, v: Json, synonyms: Option<seq<Entry>>, lower: Lower)
    requires StrictObject(t, v) && 0 < n < |t|
    requires '{' !in p && ExtractFence(p + "{") == None
    ensures var body := TrimStart(p) + TrimEnd(t[..n]);
      var m := NormalizeJsonPunctuation(body); var u := UnescapeJsonQuotes(m);
      ParseJsonWithFallback(p + t[..n], synonyms, lower) == Some(Obj([]))
      <==> ParseJson(body) == None && ParseJson(m) == None && ParseJson(u) == None && Pass(u).GaveUp?
  {
    hide ParseStages, ParseJson, StrictObject, ExtractFence, TrimEnd, TrimStart, ReplyBody, Canonical, Pass;
    var k := TruncatedBody(p, t, n, v);
    var ws := TrimStartSplits(p);
    assert forall c | c in TrimStart(p) :: c in p;
    StagesOfPrefix(TrimStart(p), t, k, v);
    var body := TrimStart(p) + t[..k];
    if ParseStages(body).Some? {
      CanonicalEmpty(ParseStages(body).value, synonyms, lower);
    }
  }

  lemma CanonicalEmpty(v: Json, synonyms: Option<seq<Entry>>, lower: Lower)
    ensures Canonical(v, synonyms, lower) == Obj([]) <==> v == Obj([])
  {
    if v.Obj? && synonyms.Some? {
      RenamedAt(v.members, synonyms.value, lower);
      if v.members != [] {
        AssignAllStays([], Renamed(v.members, synonyms.value, lower));
      }
    }
  }

  /** Without noise: if and only if the normalised prefix is no strict JSON and the repair of the
      unescaped one gives up. */
  lemma BareTruncatedExactly(t: string, n: nat, v: Json, synonyms: Option<seq<Entry>>, lower: Lower)
    requires StrictObject(t, v) && n < |t|
    ensures var m := NormalizeJsonPunctuation(TrimEnd(t[..n]));
      ParseJsonWithFallback(t[..n], synonyms, lower) == Some(Obj([]))
      <==> ParseJson(m) == None && Pass(UnescapeJsonQuotes(m)).GaveUp?
  {
    hide ParseStages, ParseJson, StrictObject, ExtractFence, Canonical, Pass, UnescapeJsonQuotes,
         NormalizeJsonPunctuation, TrimEnd, ReplyBody, FirstFence;
    var k := 0;
    if n > 0 {
      NoFenceBeforeBrace();
      k := TruncatedBody("", t, n, v);
      assert "" + t[..n] == t[..n] && TrimStart("") + t[..k] == t[..k];
    } else {
      NothingIsTheBody();
    }
    assert t[..k] == TrimEnd(t[..n]) && ReplyBody(t[..n]) == t[..k];
    StagesOfBarePrefix(t, k, v);
    if ParseStages(t[..k]).Some? {
      CanonicalEmpty(ParseStages(t[..k]).value, synonyms, lower);
    }
  }

  lemma NoFenceBeforeBrace()
    ensures ExtractFence("" + "{") == None
  {
    assert "" + "{" == "{";
    NoFenceWithout("{");
  }

  lemma NothingIsTheBody()
    ensures ReplyBody("") == "" && TrimEnd("") == ""
  {
  }

  /** A reply in a fence that is opened and never closed: if and only if the repair gives up. */
  lemma UnclosedFenceExactly(open: string, noise: string, t: string, n: nat, v: Json,
                             synonyms: Option<seq<Entry>>, lower: Lower)
    requires StrictObject(t, v) && 0 < n < |t|
    requires OpeningLine(open) && '{' !in noise && FenceFree(noise + "{")
    ensures var u := UnescapeJsonQuotes(NormalizeJsonPunctuation(TrimEnd(t[..n])));
      ParseJsonWithFallback(open + "\n" + noise + t[..n], synonyms, lower) == Some(Obj([])) <==> Pass(u).GaveUp?
  {
    hide ParseStages, ParseJson, StrictObject, ExtractFence, TrimEnd, TrimStart, ReplyBody, Canonical, Pass, Repair,
         NormalizeJsonPunctuation, UnescapeJsonQuotes, OpensFence, FenceFree;
    var p := open + "\n" + noise;
    OpeningStarts(open, noise);
    UnclosedIsNoFence(open, noise);
    TruncatedExactly(p, t, n, v, synonyms, lower);
    var visible := TrimStart(p);
    var k := TruncatedBody(p, t, n, v);
    var s := t[..k];
    PrefixCleaned(t, k, v);
    CleanedConcat(visible, s);
    var ws := TrimStartSplits(p);
    assert forall c | c in visible :: c in p;
    NormalizeMakesNoBrace(visible);
    UnescapeMakesNoBrace(NormalizeJsonPunctuation(visible));
    RepairSkipsNoise(UnescapeJsonQuotes(NormalizeJsonPunctuation(visible)), UnescapeJsonQuotes(NormalizeJsonPunctuation(s)));
    BacktickStays(visible + s);
    UnparseableStart(visible + s);
    UnparseableStart(NormalizeJsonPunctuation(visible + s));
    UnparseableStart(UnescapeJsonQuotes(NormalizeJsonPunctuation(visible + s)));
  }

  lemma BacktickStays(s: string)
    requires s != [] && s[0] == '`'
    ensures var m := NormalizeJsonPunctuation(s); var u := UnescapeJsonQuotes(m);
      m != [] && m[0] == '`' && u != [] && u[0] == '`'
  {
    UnescapeOther(NormalizeJsonPunctuation(s));
  }

  lemma OpeningStarts(open: string, noise: string)
    requires OpeningLine(open) && '{' !in noise
    ensures var p := open + "\n" + noise; '{' !in p && TrimStart(p) != [] && TrimStart(p)[0] == '`'
  {
    hide TrimStart, TrimEnd;
    var first := TrimStart(open);
    TrimEndIsPrefix(first);
    TrimStartConcat(open, "\n" + noise);
    assert open + "\n" + noise == open + ("\n" + noise);
    var ws := TrimStartSplits(open);
    var after := TrimEndSplits(first);
    assert '{' !in first && '{' !in ws;
  }

  lemma UnclosedIsNoFence(open: string, noise: string)
    requires OpeningLine(open) && FenceFree(noise + "{")
    ensures ExtractFence(open + "\n" + noise + "{") == None
  {
    hide TrimStart, TrimEnd, IndexOf, FirstFence, OpensFence;
    var raw := open + "\n" + noise + "{";
    var first, rest := TrimStart(open), noise + "{";
    OpeningIsVisible(first);
    assert raw == open + ("\n" + rest);
    TrimStartConcat(open, "\n" + rest);
    OneBrace();
    TrimEndOver(first + "\n" + noise, "{");
    assert first + ("\n" + rest) == (first + "\n" + noise) + "{";
    assert Trim(raw) == first + ("\n" + rest);
    var ws := TrimStartSplits(open);
    IndexOfAfter(first, "\n" + rest, '\n');
    assert Trim(raw)[..|first|] == first && Trim(raw)[|first| + 1..] == rest;
  }

  /** So what was cut off is never made up, as long as the clean-up leaves the object alone: with
      noise that starts no value, an opened fence too, every reply that breaks off within the
      object gives the empty object. */
  lemma TruncationGivesNothing(p: string, t: string, n: nat, v: Json, synonyms: Option<seq<Entry>>, lower: Lower)
    requires StrictObject(t, v) && SurvivesCleanup(t) && n < |t| && (n > 0 || p == "")
    requires '{' !in p && ExtractFence(p + "{") == None && NoiseStarts(p)
    ensures ParseJsonWithFallback(p + t[..n], synonyms, lower) == Some(Obj([]))
  {
    hide ParseStages, ParseJson, StrictObject, ExtractFence, TrimEnd, TrimStart, ReplyBody, Canonical, Pass, Repair,
         NormalizeJsonPunctuation, UnescapeJsonQuotes, NoiseStarts, SurvivesCleanup, ObjectText;
    if n == 0 {
      assert p + t[..n] == "";
      NothingIsTheBody();
      NothingGivesNothing();
      CanonicalEmpty(Obj([]), synonyms, lower);
    } else {
      var visible := TrimStart(p);
      var k := TruncatedBody(p, t, n, v);
      BareNoise(p);
      TruncatedExactly(p, t, n, v, synonyms, lower);
      PrefixStages(visible, t, k, v);
    }
  }

  lemma PrefixStages(p: string, t: string, k: nat, v: Json)
    requires StrictObject(t, v) && SurvivesCleanup(t) && 0 < k < |t|
    requires '{' !in p && (p != [] ==> !IsSpace(p[0])) && NoiseStarts(p)
    ensures var body := p + t[..k]; var m := NormalizeJsonPunctuation(body); var u := UnescapeJsonQuotes(m);
      ParseJson(body) == None && ParseJson(m) == None && ParseJson(u) == None && Pass(u).GaveUp?
  {
    hide ParseJson, StrictObject, Pass, Repair, NormalizeJsonPunctuation, UnescapeJsonQuotes, SurvivesCleanup, ObjectText;
    var s := t[..k];
    PrefixSurvives(t, k);
    PrefixCleaned(t, k, v);
    CleanedConcat(p, s);
    SurvivorStays(s);
    NormalizeMakesNoBrace(p);
    UnescapeMakesNoBrace(NormalizeJsonPunctuation(p));
    assert TrimStart(p) == p;
    NoiseStaysNoise(p);
    CleanupStaysVisible(p);
    NoValueInPrefix(p, t, k, v);
    NoValueInPrefix(NormalizeJsonPunctuation(p), t, k, v);
    NoValueInPrefix(UnescapeJsonQuotes(NormalizeJsonPunctuation(p)), t, k, v);
    PrefixGivesUp(t, k, v);
    RepairSkipsNoise(UnescapeJsonQuotes(NormalizeJsonPunctuation(p)), s);
  }

  lemma NoValueInPrefix(p: string, t: string, k: nat, v: Json)
    requires StrictObject(t, v) && k < |t| && Noise(p)
    ensures ParseJson(p + t[..k]) == None
  {
    hide ParseJson, StrictObject;
    PrefixIsNoJson(t, k, v);
    if p == [] {
      assert p + t[..k] == t[..k];
    } else {
      UnparseableStart(p + t[..k]);
    }
  }

  /** The repair gives up on every proper prefix of an object. */
  lemma PrefixGivesUp(t: string, k: nat, v: Json)
    requires StrictObject(t, v) && SurvivesCleanup(t) && 0 < k < |t|
    ensures Pass(t[..k]).GaveUp?
  {
    hide ParseJson, StrictObject, Pass, Repair, SurvivesCleanup, ObjectText, NormalizeJsonPunctuation, UnescapeJsonQuotes;
    PrefixSurvives(t, k);
    SurvivorStays(t[..k]);
    StrictObjectIsObjectText(t, v);
    JsonRepairLaws.ProperPrefixGivesUp("", t, k);
    assert "" + t[..k] == t[..k];
    EmptyObjectText();
    RepairMakesNoEmpty(t, k, v);
  }

  lemma SurvivorStays(s: string)
    requires SurvivesCleanup(s)
    ensures NormalizeJsonPunctuation(s) == s && UnescapeJsonQuotes(s) == s
  {
    NormalizeKeeps(s);
    UnescapeChangesNothing(s);
  }

  lemma PrefixSurvives(t: string, n: nat)
    requires SurvivesCleanup(t) && n <= |t|
    ensures SurvivesCleanup(t[..n])
  {
    var s := t[..n];
    assert forall c | c in s :: c in t;
    forall i | 0 <= i < |s|
      ensures !StartsEscapedQuote(s[i..])
    {
      assert StartsEscapedQuote(s[i..]) ==> StartsEscapedQuote(t[i..]);
    }
  }

  lemma {:induction false} UnescapeChangesNothing(s: string)
    requires forall i | 0 <= i < |s| :: !StartsEscapedQuote(s[i..])
    ensures UnescapeJsonQuotes(s) == s
    decreases |s|
  {
    hide UnescapeJsonQuotes;
    if s == [] {
      NothingUnescaped();
    } else {
      assert s[0..] == s;
      UnescapeOther(s);
      forall i | 0 <= i < |s[1..]|
        ensures !StartsEscapedQuote(s[1..][i..])
      {
        assert s[1..][i..] == s[i + 1..];
      }
      UnescapeChangesNothing(s[1..]);
    }
  }
}
