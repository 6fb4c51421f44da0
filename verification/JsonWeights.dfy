/** How often a character occurs in the strings and numbers of a value. Neither reading nor
    repairing makes such a character up, which is why a clean-up that takes one away cannot be
    undone. */
module JsonWeights {
  import opened Text
  import opened JsonScan
  import opened JsonText
  import opened JsonPrint
  import opened JsonPipeline
  import opened JsonPipelineLaws
  import opened JsonRepair

  function Count(s: string, c: char): nat {
    multiset(s)[c]
  }

  lemma CountConcat(a: string, b: string, c: char)
    ensures Count(a + b, c) == Count(a, c) + Count(b, c)
  {
  }

  lemma CountSplit(s: string, i: nat, c: char)
    requires i <= |s|
    ensures Count(s, c) == Count(s[..i], c) + Count(s[i..], c)
  {
    assert s == s[..i] + s[i..];
  }

  lemma CountHead(s: string, c: char)
    requires s != []
    ensures Count(s, c) == Count(s[1..], c) + if s[0] == c then 1 else 0
  {
    CountSplit(s, 1, c);
    assert s[..1] == [s[0]];
  }

  function Weight(v: Json, c: char): nat
    decreases v, 1
  {
    match v
    case Num(lexeme) => Count(lexeme, c)
    case Str(lexeme) => Count(lexeme, c)
    case Arr(items) => ItemsWeight(items, c)
    case Obj(members) => MembersWeight(members, c)
    case _ => 0
  }

  function ItemsWeight(items: seq<Json>, c: char): nat
    decreases items, 0
  {
    if items == [] then 0 else Weight(items[0], c) + ItemsWeight(items[1..], c)
  }

  function MembersWeight(members: seq<Member>, c: char): nat
    decreases members, 0
  {
    if members == [] then 0 else MemberWeight(members[0], c) + MembersWeight(members[1..], c)
  }

  function MemberWeight(m: Member, c: char): nat
    decreases m, 0
  {
    Count(m.key, c) + Weight(m.value, c)
  }

  /** A character that strict JSON has in its strings and numbers only. */
  predicate InStringsOnly(c: char) {
    !(c in "{}[]:,\"truefalsn \t\n\r")
  }

  // ---------- nothing is overridden ----------

  /** No object within the value at the head of `s` has two members of the same key. */
  ghost predicate Unoverridden(s: string)
    requires ParseValue(s).Ok?
    decreases |s|, 2
  {
    if s[0] == '{' then
      var t := SkipWs(s[1..]);
      t[0] == '}' || (DistinctKeys(ParseMembers(t).value) && MembersUnoverridden(t))
    else if s[0] == '[' then
      var t := SkipWs(s[1..]);
      t[0] == ']' || ItemsUnoverridden(t)
    else true
  }

  ghost predicate ItemsUnoverridden(s: string)
    requires ParseItems(s).Ok?
    decreases |s|, 3
  {
    var t := SkipWs(ParseValue(s).rest);
    Unoverridden(s) && (t[0] == ']' || ItemsUnoverridden(SkipWs(t[1..])))
  }

  /** The part of a member behind its colon. */
  function MemberValue(s: string): (v: string)
    requires ParseMember(s).Ok?
    ensures |v| < |s| && ParseValue(v).Ok?
  {
    SkipWs(SkipWs(LexString(s[1..]).rest)[1..])
  }

  ghost predicate MembersUnoverridden(s: string)
    requires ParseMembers(s).Ok?
    decreases |s|, 3
  {
    var t := SkipWs(ParseMember(s).rest);
    Unoverridden(MemberValue(s)) && (t[0] == '}' || MembersUnoverridden(SkipWs(t[1..])))
  }

  // ---------- reading ----------

  lemma {:induction false} SkipWsCounts(s: string, c: char)
    ensures Count(SkipWs(s), c) <= Count(s, c)
    ensures !IsWs(c) ==> Count(SkipWs(s), c) == Count(s, c)
  {
    if s != [] && IsWs(s[0]) {
      CountHead(s, c);
      SkipWsCounts(s[1..], c);
    }
  }

  lemma {:induction false} LexStringCounts(s: string, c: char)
    requires LexString(s).Ok?
    ensures Count(LexString(s).value, c) + Count(LexString(s).rest, c) <= Count(s, c)
    ensures c != '"' ==> Count(LexString(s).value, c) + Count(LexString(s).rest, c) == Count(s, c)
    decreases |s|
  {
    hide EscapeFollows;
    if s[0] == '"' {
      CountHead(s, c);
    } else if s[0] == '\\' {
      CountSplit(s, 2, c);
      LexStringCounts(s[2..], c);
    } else {
      CountSplit(s, 1, c);
      LexStringCounts(s[1..], c);
    }
  }

  lemma {:induction false} AssignWeighs(members: seq<Member>, key: string, value: Json, c: char)
    ensures MembersWeight(Assign(members, key, value), c)
         <= MembersWeight(members, c) + Count(key, c) + Weight(value, c)
  {
    hide Count, Weight;
    var out := Assign(members, key, value);
    if members == [] {
      assert out[1..] == [];
    } else if members[0].key == key {
      assert out[1..] == members[1..];
    } else {
      assert out[1..] == Assign(members[1..], key, value);
      AssignWeighs(members[1..], key, value, c);
    }
  }

  lemma {:induction false} AssignAllWeighs(members: seq<Member>, more: seq<Member>, c: char)
    ensures MembersWeight(AssignAll(members, more), c) <= MembersWeight(members, c) + MembersWeight(more, c)
    decreases |more|
  {
    hide Count, Weight, Assign;
    if more != [] {
      AssignWeighs(members, more[0].key, more[0].value, c);
      AssignAllWeighs(Assign(members, more[0].key, more[0].value), more[1..], c);
    }
  }

  /** What a value holds was in the text it was read from; and if nothing is overridden, all of the
      text's strings and numbers are in the value. */
  lemma {:induction false} ValueWeighs(s: string, c: char)
    requires ParseValue(s).Ok?
    ensures Weight(ParseValue(s).value, c) + Count(ParseValue(s).rest, c) <= Count(s, c)
    ensures InStringsOnly(c) && Unoverridden(s) ==>
      Weight(ParseValue(s).value, c) + Count(ParseValue(s).rest, c) == Count(s, c)
    decreases |s|, 2
  {
    hide Count, SkipWs, ParseNumber, Word, LexString, ParseMembers, ParseItems, AssignAll;
    if s[0] == '{' || s[0] == '[' {
      BracketWeighs(s, c);
    } else if s[0] == '"' {
      CountHead(s, c);
      LexStringCounts(s[1..], c);
    } else {
      TokenWeighs(s, c);
    }
  }

  lemma TokenWeighs(s: string, c: char)
    requires ParseValue(s).Ok? && s[0] != '{' && s[0] != '[' && s[0] != '"'
    ensures Weight(ParseValue(s).value, c) + Count(ParseValue(s).rest, c) <= Count(s, c)
    ensures InStringsOnly(c) && Unoverridden(s) ==>
      Weight(ParseValue(s).value, c) + Count(ParseValue(s).rest, c) == Count(s, c)
  {
    hide Count, IsNumber, NumberChars, InStringsOnly;
    WordsCount(c);
    if s[0] == 't' || s[0] == 'n' {
      CountSplit(s, 4, c);
      assert s[..4] == "true" || s[..4] == "null";
    } else if s[0] == 'f' {
      CountSplit(s, 5, c);
      assert s[..5] == "false";
    } else {
      CountSplit(s, NumberChars(s), c);
    }
  }

  lemma WordsCount(c: char)
    ensures InStringsOnly(c) ==> Count("true", c) == 0 && Count("false", c) == 0 && Count("null", c) == 0
  {
  }

  lemma {:induction false} BracketWeighs(s: string, c: char)
    requires ParseValue(s).Ok? && (s[0] == '{' || s[0] == '[')
    ensures Weight(ParseValue(s).value, c) + Count(ParseValue(s).rest, c) <= Count(s, c)
    ensures InStringsOnly(c) && Unoverridden(s) ==>
      Weight(ParseValue(s).value, c) + Count(ParseValue(s).rest, c) == Count(s, c)
    decreases |s|, 1
  {
    hide Count, SkipWs, ParseNumber, Word, LexString, ParseMembers, ParseItems, AssignAll,
         MembersUnoverridden, ItemsUnoverridden, DistinctKeys;
    var t := SkipWs(s[1..]);
    CountHead(s, c);
    SkipWsCounts(s[1..], c);
    CountHead(t, c);
    if s[0] == '{' && t[0] != '}' {
      MembersWeigh(t, c);
      var members := ParseMembers(t).value;
      AssignAllWeighs([], members, c);
      if DistinctKeys(members) {
        assert [] + members == members;
        AssignDistinct([], members);
      }
    } else if s[0] == '[' && t[0] != ']' {
      ItemsWeigh(t, c);
    }
  }

  lemma {:induction false} ItemsWeigh(s: string, c: char)
    requires ParseItems(s).Ok?
    ensures ItemsWeight(ParseItems(s).value, c) + Count(ParseItems(s).rest, c) <= Count(s, c)
    ensures InStringsOnly(c) && ItemsUnoverridden(s) ==>
      ItemsWeight(ParseItems(s).value, c) + Count(ParseItems(s).rest, c) == Count(s, c)
    decreases |s|, 3
  {
    hide Count, Weight, SkipWs, ParseValue;
    ValueWeighs(s, c);
    var item, after := ParseValue(s).value, ParseValue(s).rest;
    var t := SkipWs(after);
    SkipWsCounts(after, c);
    CountHead(t, c);
    if t[0] == ',' {
      SkipWsCounts(t[1..], c);
      ItemsWeigh(SkipWs(t[1..]), c);
      var items := ParseItems(SkipWs(t[1..])).value;
      assert ([item] + items)[1..] == items;
    } else {
      assert [item][1..] == [];
    }
  }

  lemma {:induction false} MemberWeighs(s: string, c: char)
    requires ParseMember(s).Ok?
    ensures MemberWeight(ParseMember(s).value, c) + Count(ParseMember(s).rest, c) <= Count(s, c)
    ensures InStringsOnly(c) && Unoverridden(MemberValue(s)) ==>
      MemberWeight(ParseMember(s).value, c) + Count(ParseMember(s).rest, c) == Count(s, c)
    decreases |s|, 3
  {
    hide Count, Weight, SkipWs, ParseValue, LexString;
    CountHead(s, c);
    LexStringCounts(s[1..], c);
    var after := LexString(s[1..]).rest;
    var t := SkipWs(after);
    SkipWsCounts(after, c);
    CountHead(t, c);
    SkipWsCounts(t[1..], c);
    ValueWeighs(SkipWs(t[1..]), c);
  }

  lemma {:induction false} MembersWeigh(s: string, c: char)
    requires ParseMembers(s).Ok?
    ensures MembersWeight(ParseMembers(s).value, c) + Count(ParseMembers(s).rest, c) <= Count(s, c)
    ensures InStringsOnly(c) && MembersUnoverridden(s) ==>
      MembersWeight(ParseMembers(s).value, c) + Count(ParseMembers(s).rest, c) == Count(s, c)
    decreases |s|, 4
  {
    hide Count, MemberWeight, SkipWs, ParseMember;
    MemberWeighs(s, c);
    var member, after := ParseMember(s).value, ParseMember(s).rest;
    var t := SkipWs(after);
    SkipWsCounts(after, c);
    CountHead(t, c);
    if t[0] == ',' {
      SkipWsCounts(t[1..], c);
      MembersWeigh(SkipWs(t[1..]), c);
      var members := ParseMembers(SkipWs(t[1..])).value;
      assert ([member] + members)[1..] == members;
    } else {
      assert [member][1..] == [];
    }
  }

  lemma JsonWeighs(text: string, c: char)
    requires ParseJson(text).Some?
    ensures Weight(ParseJson(text).value, c) <= Count(text, c)
  {
    hide Count, Weight, SkipWs, ParseValue;
    SkipWsCounts(text, c);
    ValueWeighs(SkipWs(text), c);
  }

  // ---------- printing ----------

  lemma {:induction false} PrintWeighs(v: Json, c: char)
    requires InStringsOnly(c)
    ensures Count(Print(v), c) == Weight(v, c)
    decreases v, 1
  {
    match v
    case Str(lexeme) => CountConcat("\"" + lexeme, "\"", c);
    case Arr(items) =>
      if items != [] {
        PrintItemsWeigh(items, c);
        CountConcat("[", PrintItems(items), c);
      }
    case Obj(members) =>
      if members != [] {
        PrintMembersWeigh(members, c);
        CountConcat("{", PrintMembers(members), c);
      }
    case _ =>
  }

  lemma {:induction false} PrintItemsWeigh(items: seq<Json>, c: char)
    requires items != [] && InStringsOnly(c)
    ensures Count(PrintItems(items), c) == ItemsWeight(items, c)
    decreases items, 0
  {
    hide Weight, Print;
    PrintWeighs(items[0], c);
    if |items| == 1 {
      assert items[1..] == [];
    } else {
      PrintItemsWeigh(items[1..], c);
    }
  }

  lemma {:induction false} PrintMembersWeigh(members: seq<Member>, c: char)
    requires members != [] && InStringsOnly(c)
    ensures Count(PrintMembers(members), c) == MembersWeight(members, c)
    decreases members, 0
  {
    hide Weight, Print;
    PrintWeighs(members[0].value, c);
    if |members| == 1 {
      assert members[1..] == [];
    } else {
      PrintMembersWeigh(members[1..], c);
    }
  }

  // ---------- the clean-ups and the repair ----------

  lemma {:induction false} NormalizeCounts(s: string, c: char)
    ensures c == '\\' ==> Count(NormalizeJsonPunctuation(s), c) == Count(s, c)
    ensures IsTypographic(c) ==> Count(NormalizeJsonPunctuation(s), c) == 0
    decreases |s|
  {
    hide NormalizeJsonPunctuation;
    if s == [] {
      assert NormalizeJsonPunctuation(s) == [] by {
        NormalizedLength(s);
      }
    } else {
      NormalizeConcat(s[..1], s[1..]);
      CountSplit(s, 1, c);
      NormalizeCounts(s[1..], c);
      NormalizeOne(s[0]);
      assert s[..1] == [s[0]] && s == s[..1] + s[1..];
      CountConcat(NormalizeJsonPunctuation(s[..1]), NormalizeJsonPunctuation(s[1..]), c);
    }
  }

  /** The escaped quotes of a text. */
  function EscapedQuotes(s: string): nat {
    if s == [] then 0
    else if StartsEscapedQuote(s) then 1 + EscapedQuotes(s[2..])
    else EscapedQuotes(s[1..])
  }

  lemma {:induction false} NoEscapedQuotes(s: string)
    ensures EscapedQuotes(s) == 0 <==> forall i | 0 <= i < |s| :: !StartsEscapedQuote(s[i..])
    decreases |s|
  {
    hide StartsEscapedQuote;
    if s != [] {
      assert s[0..] == s;
      if !StartsEscapedQuote(s) {
        NoEscapedQuotes(s[1..]);
        assert forall i | 0 < i < |s| :: s[i..] == s[1..][i - 1..];
        assert forall i | 0 <= i < |s[1..]| :: s[1..][i..] == s[i + 1..];
      }
    }
  }

  /** Unescaping takes one backslash away for every escaped quote, and keeps every other
      character but the quotes. */
  lemma {:induction false} UnescapeCounts(s: string, c: char)
    requires c != '"'
    ensures Count(UnescapeJsonQuotes(s), c) == Count(s, c) - if c == '\\' then EscapedQuotes(s) else 0
    decreases |s|
  {
    hide UnescapeJsonQuotes, Count;
    if s == [] {
      assert UnescapeJsonQuotes(s) == s by {
        NothingUnescaped();
      }
    } else if StartsEscapedQuote(s) {
      UnescapeQuote(s);
      UnescapeCounts(s[2..], c);
      CountSplit(s, 2, c);
      CountConcat("\"", UnescapeJsonQuotes(s[2..]), c);
      EscapedQuoteCounts(s, c);
    } else {
      UnescapeOther(s);
      UnescapeCounts(s[1..], c);
      CountSplit(s, 1, c);
      CountConcat([s[0]], UnescapeJsonQuotes(s[1..]), c);
      assert s[..1] == [s[0]];
    }
  }

  lemma NothingUnescaped()
    ensures UnescapeJsonQuotes("") == ""
  {
  }

  lemma EscapedQuoteCounts(s: string, c: char)
    requires StartsEscapedQuote(s) && c != '"'
    ensures Count("\"", c) == 0 && Count(s[..2], c) == if c == '\\' then 1 else 0
  {
    assert s[..2] == ['\\', '"'];
  }

  lemma {:induction false} SkeletonCounts(text: string, c: char)
    requires !IsClosing(c)
    ensures Count(Skeleton(text), c) == Count(text, c)
  {
    if text != [] {
      var init, last := text[..|text| - 1], text[|text| - 1];
      CountSplit(text, |text| - 1, c);
      assert text[|text| - 1..] == [last];
      SkeletonCounts(init, c);
    }
  }

  lemma EmittedHasBrace(raw: string)
    requires Pass(raw).Emitted?
    ensures 0 <= IndexOf(raw, '{') < |raw|
  {
  }

  /** The repair makes up closers only. */
  lemma RepairCounts(raw: string, c: char)
    requires InStringsOnly(c)
    ensures Count(Repair(raw), c) <= Count(raw, c)
  {
    hide Skeleton, Repair, Pass, ScannedBy;
    RepairBalancesAndConserves(raw);
    if Pass(raw).Emitted? {
      EmittedHasBrace(raw);
      SkeletonCounts(Repair(raw), c);
      SkeletonCounts(ScannedBy(raw), c);
      assert Count(raw, c) >= Count(ScannedBy(raw), c) by {
        CountConcat(raw[..IndexOf(raw, '{')] + ScannedBy(raw), Pass(raw).rest, c);
        CountConcat(raw[..IndexOf(raw, '{')], ScannedBy(raw), c);
      }
    }
  }
}
