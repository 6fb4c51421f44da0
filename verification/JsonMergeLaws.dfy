/** What becomes of a prefill, of fence lines, of typographic punctuation, of string-encoded replies
    and of synonymous keys. */
module JsonMergeLaws {
  import opened Text
  import opened Framing
  import opened JsonText
  import opened JsonTidy
  import opened JsonKeys
  import opened JsonPipeline
  import opened JsonPipelineLaws
  import opened JsonFenceLaws
  import JsonRepair

  // ---------- the prefill ----------

  /** The first visible character is an opening bracket. */
  predicate OpensBracket(raw: string) {
    var visible := TrimStart(raw);
    visible != [] && (visible[0] == '{' || visible[0] == '[')
  }

  /** A fenced reply and an echo of the prefill are kept. Any other reply is put behind the prefill
      if it does not open with a bracket; if it does, exactly when only the two together parse. */
  lemma MergesExactly(p: string, raw: string)
    ensures ExtractFence(raw).Some? || TrimEnd(p) <= TrimStart(raw) ==> MergePrefill(p, raw) == raw
    ensures ExtractFence(raw) == None && !(TrimEnd(p) <= TrimStart(raw)) ==>
      MergePrefill(p, raw) ==
        if !OpensBracket(raw) || (ParseJson(TrimStart(raw)) == None && ParseJson(p + raw).Some?) then p + raw
        else raw
  {
    hide ExtractFence, ParseJson, TrimStart, TrimEnd;
    TrimStartTwice(raw);
    SameFence(TrimStart(raw), raw);
    var visible := TrimStart(raw);
    assert OpensBracket(raw) <==> "{" <= visible || "[" <= visible;
  }

  /** A reply that completes the prefill to an object and goes on: the two are put together if and
      only if the reply holds no fence, does not repeat the prefill, and either does not open with a
      bracket, or is no JSON and nothing visible follows the object. */
  lemma ContinuationIsMerged(p: string, c: string, q: string, v: Json)
    requires StrictObject(p + c, v) && p != ""
    ensures MergePrefill(p, c + q) == p + c + q <==>
      && ExtractFence(c + q) == None && !(TrimEnd(p) <= TrimStart(c + q))
      && (!OpensBracket(c + q) || (SkipWs(q) == "" && ParseJson(TrimStart(c + q)) == None))
  {
    hide ExtractFence, ParseValue, TrimStart, TrimEnd, MergePrefill, OpensBracket;
    var t := p + c;
    MergesExactly(p, c + q);
    assert p + (c + q) == t + q && |p + c + q| != |c + q|;
    ValueConcat(t, q);
    assert "" + q == q && SkipWs(t + q) == t + q by {
      assert (t + q)[0] == '{';
    }
  }

  /** Then the schema is given the object, whatever follows it, if the clean-up leaves the object
      alone. */
  lemma ContinuationIsRecovered(p: string, c: string, q: string, v: Json,
                                synonyms: Option<seq<Entry>>, lower: Lower)
    requires StrictObject(p + c, v) && SurvivesCleanup(p + c) && p != ""
    requires ExtractFence(c + q) == None && !(TrimEnd(p) <= TrimStart(c + q)) && !OpensBracket(c + q)
    ensures ParseJsonWithFallback(MergePrefill(p, c + q), synonyms, lower) == Some(Canonical(v, synonyms, lower))
  {
    hide ExtractFence, TrimStart, TrimEnd, MergePrefill, OpensBracket, StrictObject, SurvivesCleanup, ParseJson,
         ParseJsonWithFallback;
    ContinuationIsMerged(p, c, q, v);
    ObjectFirst(p + c, q, v, synonyms, lower);
  }

  /** So it is when the reply repeats the prefill, up to white space at its end. */
  lemma EchoIsRecovered(p: string, ws: string, t: string, q: string, v: Json,
                        synonyms: Option<seq<Entry>>, lower: Lower)
    requires StrictObject(t, v) && SurvivesCleanup(t) && Blank(ws) && TrimEnd(p) <= t + q
    ensures MergePrefill(p, ws + (t + q)) == ws + (t + q)
    ensures ParseJsonWithFallback(MergePrefill(p, ws + (t + q)), synonyms, lower) == Some(Canonical(v, synonyms, lower))
  {
    hide ExtractFence, TrimStart, TrimEnd, MergePrefill, StrictObject, SurvivesCleanup, ParseJson, ParseStages;
    VisibleObject(t, v);
    TrimStartBlank(ws, t + q);
    MergesExactly(p, ws + (t + q));
    ObjectFirst(t, q, v, synonyms, lower);
    SameBody(ws, t + q);
  }

  lemma SameBody(ws: string, raw: string)
    requires Blank(ws) && raw != [] && !IsSpace(raw[0])
    ensures ReplyBody(ws + raw) == ReplyBody(raw)
  {
    hide ExtractFence, IsSpace;
    TrimStartBlank(ws, raw);
    assert TrimStart(raw) == raw;
  }

  /** An object at the start of a reply is what the schema is given. */
  lemma ObjectFirst(t: string, q: string, v: Json, synonyms: Option<seq<Entry>>, lower: Lower)
    requires StrictObject(t, v) && SurvivesCleanup(t)
    ensures ParseJsonWithFallback(t + q, synonyms, lower) == Some(Canonical(v, synonyms, lower))
  {
    hide ExtractFence, TrimStart, TrimEnd, Trim, StrictObject, SurvivesCleanup, ParseStages, Canonical, ParseJson;
    VisibleObject(t, v);
    BodyOf(t + q);
    assert TrimStart(t + q) == t + q by {
      StartsVisible(t + q);
    }
    NoFenceWithout(t + q);
    TrimAroundObject("", t, q);
    NothingTrims();
    assert "" + t + q == t + q && "" + t + TrimEnd(q) == t + TrimEnd(q);
    StagesRecover("", t, TrimEnd(q), v);
  }

  lemma StartsVisible(s: string)
    requires s != [] && !IsSpace(s[0])
    ensures TrimStart(s) == s
  {
  }

  lemma NothingTrims()
    ensures TrimStart("") == "" && NoiseStarts("")
  {
  }

  // ---------- fence lines ----------

  /** Three backticks open a fence alone and with the tag `json`, in any white space, and with no
      other tag. */
  lemma OpeningTags(ws: string, tag: string, ws': string)
    requires Blank(ws) && Blank(ws') && '\n' !in ws + tag + ws'
    requires tag != "" ==> !IsSpace(tag[|tag| - 1])
    ensures OpeningLine(ws + (("```" + tag) + ws')) <==> tag == "" || tag == "json"
  {
    hide TrimStart, TrimEnd, IsSpace;
    var open := "```" + tag;
    var line := ws + (open + ws');
    assert !IsSpace(open[0]) && !IsSpace(open[|open| - 1]) by {
      BacktickIsVisible();
    }
    TrimStartBlank(ws, open + ws');
    TrimEndConcat(open, ws');
    BlankTrimsEnd(ws');
    assert open + "" == open && open[3..] == tag;
    assert "```json"[3..] == "json" && FENCE + "json" == "```json";
    assert '\n' !in line by {
      assert forall c | c in ws :: c in ws + tag + ws';
      assert forall c | c in tag :: c in ws + tag + ws';
      assert forall c | c in ws' :: c in ws + tag + ws';
    }
  }

  lemma BacktickIsVisible()
    ensures !IsSpace('`')
  {
  }

  /** A text holds no fence if and only if none of its lines, trimmed, is three backticks. */
  lemma {:induction false} FenceFreeLines(text: string)
    ensures FenceFree(text) <==> forall line | line in Lines(text) + [Tail(text)] :: Trim(line) != "```"
    decreases |text|
  {
    hide Trim, IndexOf, FirstFence, Lines, Tail;
    NextLine(text);
    if text == [] {
      BlankIsNoFence();
      NothingFenced();
    } else {
      NextFence(text);
      var newline := IndexOf(text, '\n');
      if newline != -1 {
        var line, rest := text[..newline], text[newline + 1..];
        FenceFreeLines(rest);
        assert Lines(text) + [Tail(text)] == [line] + (Lines(rest) + [Tail(rest)]);
      }
    }
  }

  lemma NothingFenced()
    ensures FirstFence("") == None
  {
  }

  /** A fence closes at a line of three backticks, in any white space and whatever follows it. */
  lemma ClosingLines(ws: string, ws': string, rest: string)
    requires Blank(ws) && Blank(ws') && '\n' !in ws + ws'
    ensures ClosesFence(ws + "```" + ws') && ClosesFence((ws + "```" + ws') + ("\n" + rest))
  {
    hide Trim, IndexOf, FirstFence, TrimStart, TrimEnd, IsSpace;
    var line := ws + "```" + ws';
    assert Trim(line) == FENCE by {
      BacktickIsVisible();
      TrimAroundObject(ws, "```", ws');
      BlankTrims(ws);
      BlankTrimsEnd(ws');
      assert "" + "```" + "" == "```";
    }
    assert '\n' !in line by {
      assert forall c | c in ws :: c in ws + ws';
      assert forall c | c in ws' :: c in ws + ws';
    }
    FenceHere(line);
    IndexOfAfter(line, "\n" + rest, '\n');
    assert (line + ("\n" + rest))[..|line|] == line;
    FenceHere(line + ("\n" + rest));
  }

  // ---------- typographic punctuation ----------

  /** `typeset` is a full-width or curly form of the ASCII character `plain`. */
  predicate IsForm(plain: char, typeset: char) {
    || (plain == ',' && typeset == '\U{FF0C}') || (plain == ':' && typeset == '\U{FF1A}')
    || (plain == ';' && typeset == '\U{FF1B}')
    || (plain == '"' && (typeset == '\U{201C}' || typeset == '\U{201D}'))
    || (plain == '\'' && (typeset == '\U{2018}' || typeset == '\U{2019}'))
  }

  /** Some characters of a text replaced by such forms. */
  predicate Typeset(plain: string, typeset: string) {
    |typeset| == |plain| && forall i | 0 <= i < |plain| :: typeset[i] == plain[i] || IsForm(plain[i], typeset[i])
  }

  /** An object written with full-width and curly punctuation in any places, in white space, is read
      as the object, unless it is another value as it stands. */
  lemma TypesetIsRead(ws: string, t: string, typeset: string, ws': string, v: Json, lower: Lower)
    requires StrictObject(t, v) && (forall c | c in t :: !IsTypographic(c)) && Typeset(t, typeset)
    requires Blank(ws) && Blank(ws')
    ensures ParseJsonWithFallback(ws + typeset + ws', None, lower) == Some(v)
      <==> ParseJson(typeset) == None || ParseJson(typeset) == Some(v)
  {
    hide ParseJson, StrictObject, ParseStages, ExtractFence, Trim, TrimStart, TrimEnd, IsTypographic, IsSpace;
    TypesetStages(t, typeset, v);
    TypesetEnds(t, typeset, v);
    AmongBlanks(ws, typeset, ws');
  }

  lemma TypesetStages(t: string, typeset: string, v: Json)
    requires StrictObject(t, v) && (forall c | c in t :: !IsTypographic(c)) && Typeset(t, typeset)
    ensures ParseStages(typeset) == Some(v) <==> ParseJson(typeset) == None || ParseJson(typeset) == Some(v)
  {
    hide ParseJson, StrictObject, UnescapeJsonQuotes, NormalizeJsonPunctuation, Typeset, JsonRepair.Repair;
    VisibleObject(t, v);
    TypesetNormalizes(t, typeset);
  }

  /** No form stands for a bracket. */
  lemma TypesetEnds(t: string, typeset: string, v: Json)
    requires StrictObject(t, v) && Typeset(t, typeset)
    ensures typeset != [] && typeset[0] == '{' && typeset[|typeset| - 1] == '}'
    ensures !IsSpace(typeset[0]) && !IsSpace(typeset[|typeset| - 1])
  {
    hide ParseJson, StrictObject;
    VisibleObject(t, v);
  }

  /** The body of a reply that is a visible text in white space. */
  lemma AmongBlanks(ws: string, text: string, ws': string)
    requires Blank(ws) && Blank(ws') && text != [] && text[0] == '{'
    requires !IsSpace(text[0]) && !IsSpace(text[|text| - 1])
    ensures ReplyBody(ws + text + ws') == text
  {
    hide ExtractFence, TrimStart, TrimEnd, IsSpace;
    var raw := ws + text + ws';
    TrimAroundObject(ws, text, ws');
    BlankTrims(ws);
    BlankTrimsEnd(ws');
    assert "" + text + "" == text;
    BodyOf(raw);
    assert raw == ws + (text + ws');
    TrimStartBlank(ws, text + ws');
    NoFenceWithout(raw);
  }

  lemma TypesetNormalizes(plain: string, typeset: string)
    requires Typeset(plain, typeset) && forall c | c in plain :: !IsTypographic(c)
    ensures NormalizeJsonPunctuation(typeset) == plain
  {
    forall i | 0 <= i < |plain|
      ensures NormalizeChar(typeset[i]) == plain[i]
    {
      assert plain[i] in plain;
    }
  }

  // ---------- string-encoded replies ----------

  /** A text with a backslash in front of every quotation mark. */
  function Escaped(t: string): string {
    if t == [] then "" else (if t[0] == '"' then "\\\"" else [t[0]]) + Escaped(t[1..])
  }

  lemma NothingToUnescape()
    ensures UnescapeJsonQuotes("") == ""
  {
  }

  lemma {:induction false} UnescapeUndoesEscape(t: string)
    requires '\\' !in t
    ensures UnescapeJsonQuotes(Escaped(t)) == t
    ensures (forall c | c in t :: !IsTypographic(c)) ==> forall c | c in Escaped(t) :: !IsTypographic(c)
    ensures t != [] ==> Escaped(t) != [] && Escaped(t)[0] == if t[0] == '"' then '\\' else t[0]
  {
    hide UnescapeJsonQuotes;
    if t == [] {
      NothingToUnescape();
    } else {
      var rest := Escaped(t[1..]);
      assert t[0] in t && forall c | c in t[1..] :: c in t;
      UnescapeUndoesEscape(t[1..]);
      var e := Escaped(t);
      if t[0] == '"' {
        assert e[2..] == rest;
        UnescapeQuote(e);
      } else {
        assert e[1..] == rest;
        UnescapeOther(e);
      }
      assert t == [t[0]] + t[1..];
    }
  }

  /** An object that a model has escaped as if for a string, `{\\"k\\": \\"v\\"}`, is read as the
      object. */
  lemma EscapedObjectIsRead(t: string, v: Json)
    requires StrictObject(t, v) && '\\' !in t && forall c | c in t :: !IsTypographic(c)
    ensures ParseStages(Escaped(t)) == Some(v)
  {
    hide ParseJson, StrictObject, NormalizeJsonPunctuation, UnescapeJsonQuotes, IsTypographic;
    VisibleObject(t, v);
    UnescapeUndoesEscape(t);
    NormalizeKeeps(Escaped(t));
    EscapedIsItOrNoJson(t, v);
  }

  lemma EscapedIsItOrNoJson(t: string, v: Json)
    requires StrictObject(t, v) && '\\' !in t
    ensures ParseJson(Escaped(t)) == None || Escaped(t) == t
  {
    hide ParseMembers, SkipWs;
    var inner := SkipWs(t[1..]);
    EscapedSkips(t[1..]);
    var e := Escaped(t);
    assert e == ['{'] + Escaped(t[1..]) && e[1..] == Escaped(t[1..]);
    assert SkipWs(e) == e by {
      VisibleStays(e);
    }
    if inner[0] == '}' {
      EmptyHasNoQuote(t[1..]);
      NothingEscaped(t[1..]);
    } else {
      assert inner[0] == '"' by {
        MembersOpen(inner);
      }
      NoMembers(SkipWs(e[1..]));
    }
  }

  lemma VisibleStays(s: string)
    requires s != [] && !IsWs(s[0])
    ensures SkipWs(s) == s
  {
  }

  lemma MembersOpen(s: string)
    requires ParseMembers(s).Ok?
    ensures s != [] && s[0] == '"'
  {
  }

  lemma NoMembers(s: string)
    requires s != [] && s[0] == '\\'
    ensures ParseMembers(s) == Fail
  {
  }

  lemma {:induction false} EscapedSkips(s: string)
    requires '\\' !in s
    ensures SkipWs(Escaped(s)) == Escaped(SkipWs(s))
    ensures SkipWs(s) != [] ==>
      && Escaped(SkipWs(s)) != []
      && Escaped(SkipWs(s))[0] == if SkipWs(s)[0] == '"' then '\\' else SkipWs(s)[0]
  {
    if s != [] && IsWs(s[0]) {
      EscapedSkips(s[1..]);
      assert Escaped(s)[1..] == Escaped(s[1..]);
    }
  }

  lemma {:induction false} EmptyHasNoQuote(s: string)
    requires SkipWs(s) == "}"
    ensures '"' !in s
  {
    if IsWs(s[0]) {
      EmptyHasNoQuote(s[1..]);
      assert s == [s[0]] + s[1..];
    }
  }

  lemma {:induction false} NothingEscaped(s: string)
    requires '"' !in s
    ensures Escaped(s) == s
  {
    if s != [] {
      assert s[0] in s && forall c | c in s[1..] :: c in s;
      NothingEscaped(s[1..]);
    }
  }

  // ---------- synonymous keys ----------

  /** With a synonym map the schema is given what it would be given without, with every key, at any
      depth, under the canonical name of a key of it; and if no two keys of an object meet there,
      it is the same tree under the canonical names. */
  lemma SchemaGetsCanonicalKeys(raw: string, entries: seq<Entry>, lower: Lower)
    ensures match ParseJsonWithFallback(raw, None, lower)
      case None => ParseJsonWithFallback(raw, Some(entries), lower) == None
      case Some(v) =>
        && ParseJsonWithFallback(raw, Some(entries), lower).Some?
        && var w := ParseJsonWithFallback(raw, Some(entries), lower).value;
           && (forall key | KeyWithin(w, key) :: NamesKeyOf(v, key, entries, lower))
           && (NoneMeet(v, entries, lower) ==> Canonised(v, w, entries, lower))
  {
    hide ParseStages, ReplyBody, NormalizeKeys, FindCanonicalKey, NoneMeet, Canonised, KeyWithin, NamesKeyOf;
    if ParseJsonWithFallback(raw, None, lower).Some? {
      var v := ParseJsonWithFallback(raw, None, lower).value;
      var w := NormalizeKeys(v, entries, lower);
      forall key | KeyWithin(w, key)
        ensures NamesKeyOf(v, key, entries, lower)
      {
        KeysAreCanonical(v, entries, lower, key);
      }
      if NoneMeet(v, entries, lower) {
        NormalizeCanonises(v, entries, lower);
      }
    }
  }
}
