/** The compact printer (`JSON.stringify`), inverse to the strict parser. */
module JsonPrint {
  import opened Text
  import opened JsonText

  predicate IsSpelling(lexeme: string) {
    LexString(lexeme + "\"") == Ok(lexeme, "")
  }

  ghost predicate DistinctKeys(members: seq<Member>) {
    forall i, j | 0 <= i < j < |members| :: members[i].key != members[j].key
  }

  /** A value whose tokens are spelled as RFC 8259 allows and whose objects repeat no key. */
  ghost predicate Valid(v: Json) {
    match v
    case Num(lexeme) => IsNumber(lexeme) && NumberChars(lexeme) == |lexeme|
    case Str(lexeme) => IsSpelling(lexeme)
    case Arr(items) => forall item | item in items :: Valid(item)
    case Obj(members) =>
      DistinctKeys(members) && forall m | m in members :: IsSpelling(m.key) && Valid(m.value)
    case _ => true
  }

  function Print(v: Json): string
    decreases v, 1
  {
    match v
    case Null => "null"
    case Bool(b) => if b then "true" else "false"
    case Num(lexeme) => lexeme
    case Str(lexeme) => "\"" + lexeme + "\""
    case Arr(items) => if items == [] then "[]" else "[" + PrintItems(items)
    case Obj(members) => if members == [] then "{}" else "{" + PrintMembers(members)
  }

  function PrintItems(items: seq<Json>): string
    requires items != []
    decreases items, 0
  {
    Print(items[0]) + if |items| == 1 then "]" else "," + PrintItems(items[1..])
  }

  function PrintMembers(members: seq<Member>): string
    requires members != []
    decreases members, 0
  {
    PrintMember(members[0])
    + if |members| == 1 then "}" else "," + PrintMembers(members[1..])
  }

  /** One member as printed. */
  function PrintMember(m: Member): string
    decreases m, 0
  {
    "\"" + m.key + "\"" + ":" + Print(m.value)
  }

  lemma PrintStarts(v: Json)
    requires Valid(v)
    ensures Print(v) != [] && StartsValue(Print(v)[0]) && !IsWs(Print(v)[0])
    ensures v.Num? ==> !(Print(v)[0] in "{[\"tfn")
  {
    hide IsNumber, NumberChars, PrintItems, PrintMembers;
    match v
    case Num(lexeme) => NumberStarts(lexeme);
    case _ =>
  }

  lemma NumberStarts(t: string)
    requires IsNumber(t)
    ensures t != [] && (t[0] == '-' || IsDigit(t[0]))
  {
  }

  lemma SpellingThen(lexeme: string, rest: string)
    requires IsSpelling(lexeme)
    ensures LexString(lexeme + "\"" + rest) == Ok(lexeme, rest)
  {
    hide LexString;
    LexStringConcat(lexeme + "\"", rest);
    assert "" + rest == rest;
  }

  lemma {:induction false} NumberThen(t: string, rest: string)
    requires NumberChars(t) == |t| && (rest == [] || !IsNumberChar(rest[0]))
    ensures NumberChars(t + rest) == |t|
  {
    if t == [] {
      assert t + rest == rest;
    } else {
      NumberThen(t[1..], rest);
      assert (t + rest)[1..] == t[1..] + rest;
    }
  }

  lemma NumberReadsBack(lexeme: string, rest: string)
    requires Valid(Num(lexeme)) && (rest == [] || !IsNumberChar(rest[0]))
    ensures ParseValue(lexeme + rest) == Ok(Num(lexeme), rest)
  {
    hide IsNumber, NumberChars;
    NumberStarts(lexeme);
    NumberThen(lexeme, rest);
    assert (lexeme + rest)[..|lexeme|] == lexeme && (lexeme + rest)[|lexeme|..] == rest;
    assert (lexeme + rest)[0] == lexeme[0];
  }

  /** Printing and then reading gives the value back, and stops where the print stops. */
  lemma {:induction false} ReadsBack(v: Json, rest: string)
    requires Valid(v)
    requires v.Num? ==> rest == [] || !IsNumberChar(rest[0])
    ensures ParseValue(Print(v) + rest) == Ok(v, rest)
    decreases v, 1
  {
    match v
    case Num(lexeme) => NumberReadsBack(lexeme, rest);
    case Str(lexeme) => StringReadsBack(lexeme, rest);
    case Arr(items) =>
      if items != [] {
        ItemsReadBack(items, rest);
        ItemsStart(items);
      }
      ArrayReadsBack(items, rest);
    case Obj(members) =>
      if members != [] {
        MembersReadBack(members, rest);
        assert DistinctKeys([] + members) by {
          assert [] + members == members;
        }
        AssignDistinct([], members);
        assert [] + members == members;
      }
      ObjectReadsBack(members, rest);
    case _ => WordReadsBack(v, rest);
  }

  lemma WordReadsBack(v: Json, rest: string)
    requires v.Null? || v.Bool?
    ensures ParseValue(Print(v) + rest) == Ok(v, rest)
  {
    var word := Print(v);
    assert (word + rest)[..|word|] == word && (word + rest)[|word|..] == rest;
  }

  lemma StringReadsBack(lexeme: string, rest: string)
    requires IsSpelling(lexeme)
    ensures ParseValue(Print(Str(lexeme)) + rest) == Ok(Str(lexeme), rest)
  {
    hide LexString, IsSpelling;
    SpellingThen(lexeme, rest);
    assert (Print(Str(lexeme)) + rest)[1..] == lexeme + "\"" + rest;
  }

  lemma ArrayReadsBack(items: seq<Json>, rest: string)
    requires items != [] ==>
      && PrintItems(items) != [] && PrintItems(items)[0] != ']' && !IsWs(PrintItems(items)[0])
      && ParseItems(PrintItems(items) + rest) == Ok(items, rest)
    ensures ParseValue(Print(Arr(items)) + rest) == Ok(Arr(items), rest)
  {
    hide ParseItems, PrintItems;
    var body := if items == [] then "]" else PrintItems(items);
    assert Print(Arr(items)) == "[" + body;
    assert ("[" + body + rest)[1..] == body + rest;
    assert "]" + rest == [']'] + rest && ("]" + rest)[1..] == rest;
  }

  lemma ObjectReadsBack(members: seq<Member>, rest: string)
    requires members != [] ==>
      && ParseMembers(PrintMembers(members) + rest) == Ok(members, rest)
      && AssignAll([], members) == members
    ensures ParseValue(Print(Obj(members)) + rest) == Ok(Obj(members), rest)
  {
    hide ParseMembers, AssignAll;
    var body := if members == [] then "}" else PrintMembers(members);
    assert Print(Obj(members)) == "{" + body;
    assert ("{" + body + rest)[1..] == body + rest;
    assert ("}" + rest)[1..] == rest;
    assert members != [] ==> body[0] == '"';
  }

  lemma ItemsStart(items: seq<Json>)
    requires items != [] && Valid(items[0])
    ensures PrintItems(items) != [] && PrintItems(items)[0] != ']' && !IsWs(PrintItems(items)[0])
  {
    PrintStarts(items[0]);
  }

  lemma ItemThenMore(s: string, item: Json, more: string, items: seq<Json>, rest: string)
    requires ParseValue(s) == Ok(item, "," + more)
    requires more != [] && !IsWs(more[0]) && ParseItems(more) == Ok(items, rest)
    ensures ParseItems(s) == Ok([item] + items, rest)
  {
    hide ParseValue;
    assert ("," + more)[1..] == more;
  }

  lemma ItemThenEnd(s: string, item: Json, rest: string)
    requires ParseValue(s) == Ok(item, "]" + rest)
    ensures ParseItems(s) == Ok([item], rest)
  {
    hide ParseValue;
    assert ("]" + rest)[1..] == rest;
  }

  lemma {:induction false} ItemsReadBack(items: seq<Json>, rest: string)
    requires items != [] && forall item | item in items :: Valid(item)
    ensures ParseItems(PrintItems(items) + rest) == Ok(items, rest)
    decreases items, 0
  {
    hide ParseValue, ParseItems, Valid, Print;
    var item := items[0];
    var text := PrintItems(items) + rest;
    assert item in items;
    if |items| == 1 {
      ReadsBack(item, "]" + rest);
      assert text == Print(item) + ("]" + rest);
      ItemThenEnd(text, item, rest);
      assert [item] == items;
    } else {
      var more := PrintItems(items[1..]) + rest;
      forall other | other in items[1..]
        ensures Valid(other)
      {
        assert other in items;
      }
      ItemsReadBack(items[1..], rest);
      ItemsStart(items[1..]);
      ReadsBack(item, "," + more);
      assert text == Print(item) + ("," + more);
      ItemThenMore(text, item, more, items[1..], rest);
      assert [item] + items[1..] == items;
    }
  }

  lemma MemberThenMore(s: string, m: Member, more: string, members: seq<Member>, rest: string)
    requires ParseMember(s) == Ok(m, "," + more)
    requires more != [] && !IsWs(more[0]) && ParseMembers(more) == Ok(members, rest)
    ensures ParseMembers(s) == Ok([m] + members, rest)
  {
    hide ParseMember;
    assert ("," + more)[1..] == more;
  }

  lemma MemberThenEnd(s: string, m: Member, rest: string)
    requires ParseMember(s) == Ok(m, "}" + rest)
    ensures ParseMembers(s) == Ok([m], rest)
  {
    hide ParseMember;
    assert ("}" + rest)[1..] == rest;
  }

  lemma {:induction false} MembersReadBack(members: seq<Member>, rest: string)
    requires members != [] && forall m | m in members :: IsSpelling(m.key) && Valid(m.value)
    ensures ParseMembers(PrintMembers(members) + rest) == Ok(members, rest)
    decreases members, 0
  {
    hide ParseMember, ParseMembers, Valid, IsSpelling, PrintMember;
    var m := members[0];
    var text := PrintMembers(members) + rest;
    assert m in members;
    if |members| == 1 {
      MemberReadsBack(m, "}" + rest);
      PrintsMember(members, rest);
      MemberThenEnd(text, m, rest);
      assert [m] == members;
    } else {
      var more := PrintMembers(members[1..]) + rest;
      forall n | n in members[1..]
        ensures IsSpelling(n.key) && Valid(n.value)
      {
        assert n in members;
      }
      MembersReadBack(members[1..], rest);
      MemberReadsBack(m, "," + more);
      PrintsMember(members, rest);
      MemberThenMore(text, m, more, members[1..], rest);
      assert [m] + members[1..] == members;
    }
  }

  lemma PrintsMember(members: seq<Member>, rest: string)
    requires members != []
    ensures PrintMembers(members) != [] && PrintMembers(members)[0] == '"'
    ensures |members| > 1 ==> PrintMembers(members[1..]) != [] && PrintMembers(members[1..])[0] == '"'
    ensures PrintMembers(members) + rest == PrintMember(members[0])
      + if |members| == 1 then "}" + rest else "," + (PrintMembers(members[1..]) + rest)
  {
    hide PrintMember;
    var m := PrintMember(members[0]);
    MemberStarts(members[0]);
    if |members| == 1 {
      assert (m + "}") + rest == m + ("}" + rest);
    } else {
      var more := PrintMembers(members[1..]);
      MemberStarts(members[1]);
      assert (m + ("," + more)) + rest == m + ("," + (more + rest));
    }
  }

  lemma MemberStarts(m: Member)
    ensures PrintMember(m) != [] && PrintMember(m)[0] == '"'
  {
    hide Print;
  }

  lemma {:induction false} MemberReadsBack(m: Member, rest: string)
    requires IsSpelling(m.key) && Valid(m.value)
    requires rest != [] && !IsNumberChar(rest[0])
    ensures ParseMember(PrintMember(m) + rest) == Ok(m, rest)
    decreases m, 0
  {
    hide LexString, ParseValue, Valid, IsSpelling, Print;
    var text := PrintMember(m) + rest;
    var after := ":" + (Print(m.value) + rest);
    assert text[1..] == m.key + "\"" + after;
    SpellingThen(m.key, after);
    ReadsBack(m.value, rest);
    PrintStarts(m.value);
    assert after[1..] == Print(m.value) + rest;
  }

  lemma {:induction false} AssignNew(members: seq<Member>, m: Member)
    requires forall i | 0 <= i < |members| :: members[i].key != m.key
    ensures Assign(members, m.key, m.value) == members + [m]
  {
    if members != [] {
      AssignNew(members[1..], m);
    }
  }

  lemma {:induction false} AssignDistinct(members: seq<Member>, more: seq<Member>)
    requires DistinctKeys(members + more)
    ensures AssignAll(members, more) == members + more
    decreases |more|
  {
    if more == [] {
      assert members + more == members;
    } else {
      var all := members + more;
      forall i | 0 <= i < |members|
        ensures members[i].key != more[0].key
      {
        assert all[i] == members[i] && all[|members|] == more[0];
      }
      AssignNew(members, more[0]);
      assert members + [more[0]] + more[1..] == all;
      AssignDistinct(members + [more[0]], more[1..]);
    }
  }

  /** `JSON.parse(JSON.stringify(v))` is `v`. */
  lemma ParsePrint(v: Json)
    requires Valid(v)
    ensures ParseJson(Print(v)) == Some(v)
  {
    hide ParseValue, Print;
    PrintStarts(v);
    ReadsBack(v, "");
    assert Print(v) + "" == Print(v);
  }

  // ---------- printed values have no line break ----------

  lemma {:induction false} SpellingHasNoBreak(s: string)
    requires LexString(s).Ok?
    ensures '\n' !in LexString(s).value
    decreases |s|
  {
    hide EscapeFollows;
    if s[0] == '\\' {
      SpellingHasNoBreak(s[2..]);
      assert EscapeFollows(s[1..]);
    } else if s[0] != '"' {
      SpellingHasNoBreak(s[1..]);
    }
  }

  lemma SpelledHasNoBreak(lexeme: string)
    requires IsSpelling(lexeme)
    ensures '\n' !in lexeme
  {
    SpellingHasNoBreak(lexeme + "\"");
  }

  lemma {:induction false} PrintHasNoBreak(v: Json)
    requires Valid(v)
    ensures '\n' !in Print(v)
    decreases v, 1
  {
    hide IsSpelling, IsNumber, PrintItems, PrintMembers;
    match v
    case Num(lexeme) => assert forall i | 0 <= i < |lexeme| :: IsNumberChar(lexeme[i]);
    case Str(lexeme) => SpelledHasNoBreak(lexeme);
    case Arr(items) =>
      if items != [] {
        ItemsHaveNoBreak(items);
      }
    case Obj(members) =>
      if members != [] {
        MembersHaveNoBreak(members);
      }
    case _ =>
  }

  lemma {:induction false} ItemsHaveNoBreak(items: seq<Json>)
    requires items != [] && forall item | item in items :: Valid(item)
    ensures '\n' !in PrintItems(items)
    decreases items, 0
  {
    hide Valid, Print;
    PrintHasNoBreak(items[0]);
    if |items| > 1 {
      assert forall item | item in items[1..] :: item in items;
      ItemsHaveNoBreak(items[1..]);
    }
  }

  lemma {:induction false} MembersHaveNoBreak(members: seq<Member>)
    requires members != [] && forall m | m in members :: IsSpelling(m.key) && Valid(m.value)
    ensures '\n' !in PrintMembers(members)
    decreases members, 0
  {
    hide Valid, Print, IsSpelling;
    assert members[0] in members;
    SpelledHasNoBreak(members[0].key);
    PrintHasNoBreak(members[0].value);
    if |members| > 1 {
      assert forall m | m in members[1..] :: m in members;
      MembersHaveNoBreak(members[1..]);
    }
  }
}
