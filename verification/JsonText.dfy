/** Strict JSON text, as `JSON.parse` accepts it: the grammar of sections 2 to 7 of RFC 8259.
    Strings and numbers keep their spelling; a later member of an object overwrites an
    earlier one of the same key. */
module JsonText {
  import opened Text

  datatype Member = Member(key: string, value: Json)

  datatype Json =
    | Null
    | Bool(b: bool)
    | Num(lexeme: string)
    | Str(lexeme: string)
    | Arr(items: seq<Json>)
    | Obj(members: seq<Member>)

  datatype Parsed<+T> = Fail | Ok(value: T, rest: string)

  // ---------- tokens ----------

  predicate IsWs(c: char) { c == ' ' || c == '\t' || c == '\n' || c == '\r' }

  predicate IsHex(c: char) { IsDigit(c) || 'a' <= c <= 'f' || 'A' <= c <= 'F' }

  predicate IsNumberChar(c: char) {
    IsDigit(c) || c == '+' || c == '-' || c == '.' || c == 'e' || c == 'E'
  }

  function SkipWs(s: string): (r: string)
    ensures |r| <= |s|
    ensures r != [] ==> !IsWs(r[0])
  {
    if s != [] && IsWs(s[0]) then SkipWs(s[1..]) else s
  }

  /** After a backslash: one of the short escapes, or `u` and four hexadecimal digits. */
  predicate EscapeFollows(s: string): (b: bool)
    ensures b ==> s != [] && s[0] >= ' '
  {
    && s != []
    && (s[0] in "\"\\/bfnrt"
        || (s[0] == 'u' && |s| >= 5 && IsHex(s[1]) && IsHex(s[2]) && IsHex(s[3]) && IsHex(s[4])))
  }

  /** The spelling of a string up to its closing quote. */
  function LexString(s: string): (p: Parsed<string>)
    ensures p.Ok? ==> |p.rest| < |s|
    decreases |s|
  {
    if s == [] then Fail
    else if s[0] == '"' then Ok("", s[1..])
    else if s[0] == '\\' then
      if EscapeFollows(s[1..]) then
        match LexString(s[2..])
        case Fail => Fail
        case Ok(lexeme, rest) => Ok(s[..2] + lexeme, rest)
      else Fail
    else if s[0] < ' ' then Fail
    else
      match LexString(s[1..])
      case Fail => Fail
      case Ok(lexeme, rest) => Ok(s[..1] + lexeme, rest)
  }

  function NumberChars(s: string): (n: nat)
    ensures n <= |s|
    ensures forall i | 0 <= i < n :: IsNumberChar(s[i])
    ensures n < |s| ==> !IsNumberChar(s[n])
  {
    if s != [] && IsNumberChar(s[0]) then 1 + NumberChars(s[1..]) else 0
  }

  function DropDigits(s: string): (r: string)
    ensures |r| <= |s|
  {
    if s != [] && IsDigit(s[0]) then DropDigits(s[1..]) else s
  }

  predicate IsNumber(t: string) {
    var u := if t != [] && t[0] == '-' then t[1..] else t;
    && u != []
    && if u[0] == '0' then IsFraction(u[1..]) else IsDigit(u[0]) && IsFraction(DropDigits(u))
  }

  predicate IsFraction(t: string) {
    if t != [] && t[0] == '.' then |t| > 1 && IsDigit(t[1]) && IsExponent(DropDigits(t[1..]))
    else IsExponent(t)
  }

  predicate IsExponent(t: string) {
    t == [] || ((t[0] == 'e' || t[0] == 'E')
      && var u := if |t| > 1 && (t[1] == '+' || t[1] == '-') then t[2..] else t[1..];
         u != [] && DropDigits(u) == [])
  }

  // ---------- values ----------

  /** `object[key] = value`: an existing key keeps its place. */
  function Assign(members: seq<Member>, key: string, value: Json): seq<Member> {
    if members == [] then [Member(key, value)]
    else if members[0].key == key then [Member(key, value)] + members[1..]
    else [members[0]] + Assign(members[1..], key, value)
  }

  function AssignAll(members: seq<Member>, more: seq<Member>): seq<Member>
    decreases |more|
  {
    if more == [] then members
    else AssignAll(Assign(members, more[0].key, more[0].value), more[1..])
  }

  /** What may start a JSON value. */
  predicate StartsValue(c: char) {
    c in "{[\"tfn-" || IsDigit(c)
  }

  function Word(s: string, word: string, value: Json): Parsed<Json> {
    if word <= s then Ok(value, s[|word|..]) else Fail
  }

  function ParseNumber(s: string): Parsed<Json> {
    var n := NumberChars(s);
    if IsNumber(s[..n]) then Ok(Num(s[..n]), s[n..]) else Fail
  }

  function ParseValue(s: string): (p: Parsed<Json>)
    ensures p.Ok? ==> |p.rest| < |s|
    decreases |s|, 2
  {
    if s == [] then Fail
    else if s[0] == '{' then
      var t := SkipWs(s[1..]);
      if t != [] && t[0] == '}' then Ok(Obj([]), t[1..])
      else
        match ParseMembers(t)
        case Fail => Fail
        case Ok(members, rest) => Ok(Obj(AssignAll([], members)), rest)
    else if s[0] == '[' then
      var t := SkipWs(s[1..]);
      if t != [] && t[0] == ']' then Ok(Arr([]), t[1..])
      else
        match ParseItems(t)
        case Fail => Fail
        case Ok(items, rest) => Ok(Arr(items), rest)
    else if s[0] == '"' then
      match LexString(s[1..])
      case Fail => Fail
      case Ok(lexeme, rest) => Ok(Str(lexeme), rest)
    else if s[0] == 't' then Word(s, "true", Bool(true))
    else if s[0] == 'f' then Word(s, "false", Bool(false))
    else if s[0] == 'n' then Word(s, "null", Null)
    else ParseNumber(s)
  }

  /** Items up to and including the `]`. */
  function ParseItems(s: string): (p: Parsed<seq<Json>>)
    ensures p.Ok? ==> |p.rest| < |s|
    decreases |s|, 3
  {
    match ParseValue(s)
    case Fail => Fail
    case Ok(item, after) =>
      var t := SkipWs(after);
      if t == [] then Fail
      else if t[0] == ']' then Ok([item], t[1..])
      else if t[0] == ',' then
        match ParseItems(SkipWs(t[1..]))
        case Fail => Fail
        case Ok(items, rest) => Ok([item] + items, rest)
      else Fail
  }

  function ParseMember(s: string): (p: Parsed<Member>)
    ensures p.Ok? ==> |p.rest| < |s|
    decreases |s|, 3
  {
    if s == [] || s[0] != '"' then Fail
    else
      match LexString(s[1..])
      case Fail => Fail
      case Ok(key, after) =>
        var t := SkipWs(after);
        if t == [] || t[0] != ':' then Fail
        else
          match ParseValue(SkipWs(t[1..]))
          case Fail => Fail
          case Ok(value, rest) => Ok(Member(key, value), rest)
  }

  /** Members up to and including the `}`. */
  function ParseMembers(s: string): (p: Parsed<seq<Member>>)
    ensures p.Ok? ==> |p.rest| < |s|
    decreases |s|, 4
  {
    match ParseMember(s)
    case Fail => Fail
    case Ok(member, after) =>
      var t := SkipWs(after);
      if t == [] then Fail
      else if t[0] == '}' then Ok([member], t[1..])
      else if t[0] == ',' then
        match ParseMembers(SkipWs(t[1..]))
        case Fail => Fail
        case Ok(members, rest) => Ok([member] + members, rest)
      else Fail
  }

  /** `JSON.parse`: one value, with white space around it and nothing else. */
  function ParseJson(text: string): Option<Json> {
    match ParseValue(SkipWs(text))
    case Fail => None
    case Ok(value, rest) => if SkipWs(rest) == [] then Some(value) else None
  }

  lemma OnlyValuesStart(s: string)
    requires ParseValue(s).Ok?
    ensures s != [] && StartsValue(s[0])
  {
    if !(s[0] in "{[\"tfn") {
      assert ParseNumber(s).Ok?;
      var t := s[..NumberChars(s)];
      assert IsNumber(t);
      assert t[0] == s[0];
    }
  }

  // ---------- text after a value is left alone ----------

  lemma {:induction false} SkipWsConcat(s: string, more: string)
    requires SkipWs(s) != []
    ensures SkipWs(s + more) == SkipWs(s) + more
  {
    if IsWs(s[0]) {
      SkipWsConcat(s[1..], more);
      assert (s + more)[1..] == s[1..] + more;
    }
  }

  lemma EscapeConcat(s: string, more: string)
    requires EscapeFollows(s)
    ensures EscapeFollows(s + more)
  {
  }

  lemma {:induction false} LexStringConcat(s: string, more: string)
    requires LexString(s).Ok?
    ensures LexString(s + more) == Ok(LexString(s).value, LexString(s).rest + more)
    decreases |s|
  {
    hide EscapeFollows;
    var sm := s + more;
    assert sm[1..] == s[1..] + more;
    if s[0] == '"' {
    } else if s[0] == '\\' {
      LexStringConcat(s[2..], more);
      EscapeConcat(s[1..], more);
      assert sm[2..] == s[2..] + more && sm[..2] == s[..2];
    } else {
      LexStringConcat(s[1..], more);
      assert sm[..1] == s[..1];
    }
  }

  lemma {:induction false} NumberCharsConcat(s: string, more: string)
    requires NumberChars(s) < |s|
    ensures NumberChars(s + more) == NumberChars(s)
  {
    if IsNumberChar(s[0]) {
      NumberCharsConcat(s[1..], more);
      assert (s + more)[1..] == s[1..] + more;
    }
  }

  /** Whether a value ends where it ends, whatever follows: only a number at the very end of
      the text could still grow. */
  predicate Ends(s: string) {
    ParseValue(s).Ok? && (ParseValue(s).rest != [] || s[0] in "{[\"tfn")
  }

  lemma {:induction false} ValueConcat(s: string, more: string)
    requires Ends(s)
    ensures ParseValue(s + more) == Ok(ParseValue(s).value, ParseValue(s).rest + more)
    decreases |s|, 2
  {
    hide SkipWs, ParseNumber, Word, LexString, ParseMembers, ParseItems, AssignAll;
    var sm := s + more;
    assert sm[1..] == s[1..] + more;
    var c := s[0];
    if c == '{' || c == '[' {
      var t := SkipWs(s[1..]);
      SkipWsConcat(s[1..], more);
      assert (t + more)[1..] == t[1..] + more;
      if c == '{' && t[0] != '}' {
        MembersConcat(t, more);
      } else if c == '[' && t[0] != ']' {
        ItemsConcat(t, more);
      }
    } else if c == '"' {
      LexStringConcat(s[1..], more);
    } else if c == 't' {
      WordConcat(s, more, "true", Bool(true));
    } else if c == 'f' {
      WordConcat(s, more, "false", Bool(false));
    } else if c == 'n' {
      WordConcat(s, more, "null", Null);
    } else {
      NumberConcat(s, more);
    }
  }

  lemma WordConcat(s: string, more: string, word: string, value: Json)
    requires Word(s, word, value).Ok?
    ensures Word(s + more, word, value) == Ok(Word(s, word, value).value, Word(s, word, value).rest + more)
  {
    assert (s + more)[..|word|] == s[..|word|];
    assert (s + more)[|word|..] == s[|word|..] + more;
  }

  lemma NumberConcat(s: string, more: string)
    requires ParseNumber(s).Ok? && ParseNumber(s).rest != []
    ensures ParseNumber(s + more) == Ok(ParseNumber(s).value, ParseNumber(s).rest + more)
  {
    hide IsNumber, NumberChars;
    var n := NumberChars(s);
    NumberCharsConcat(s, more);
    assert (s + more)[..n] == s[..n];
    assert (s + more)[n..] == s[n..] + more;
  }

  lemma {:induction false} ItemsConcat(s: string, more: string)
    requires ParseItems(s).Ok?
    ensures ParseItems(s + more) == Ok(ParseItems(s).value, ParseItems(s).rest + more)
    decreases |s|, 3
  {
    hide SkipWs, ParseValue;
    var after := ParseValue(s).rest;
    var t := SkipWs(after);
    ValueConcat(s, more);
    SkipWsConcat(after, more);
    assert (t + more)[1..] == t[1..] + more;
    if t[0] == ',' {
      var u := SkipWs(t[1..]);
      SkipWsConcat(t[1..], more);
      ItemsConcat(u, more);
    }
  }

  lemma {:induction false} MemberConcat(s: string, more: string)
    requires ParseMember(s).Ok? && ParseMember(s).rest != []
    ensures ParseMember(s + more) == Ok(ParseMember(s).value, ParseMember(s).rest + more)
    decreases |s|, 3
  {
    hide SkipWs, ParseValue, LexString;
    assert (s + more)[1..] == s[1..] + more;
    LexStringConcat(s[1..], more);
    var after := LexString(s[1..]).rest;
    var t := SkipWs(after);
    SkipWsConcat(after, more);
    assert (t + more)[1..] == t[1..] + more;
    SkipWsConcat(t[1..], more);
    ValueConcat(SkipWs(t[1..]), more);
  }

  lemma {:induction false} MembersConcat(s: string, more: string)
    requires ParseMembers(s).Ok?
    ensures ParseMembers(s + more) == Ok(ParseMembers(s).value, ParseMembers(s).rest + more)
    decreases |s|, 4
  {
    hide SkipWs, ParseMember;
    var after := ParseMember(s).rest;
    var t := SkipWs(after);
    MemberConcat(s, more);
    SkipWsConcat(after, more);
    assert (t + more)[1..] == t[1..] + more;
    if t[0] == ',' {
      SkipWsConcat(t[1..], more);
      MembersConcat(SkipWs(t[1..]), more);
    }
  }

  // ---------- text after a value can be taken away ----------

  lemma {:induction false} SkipWsRestricts(s: string, more: string)
    requires |SkipWs(s + more)| > |more|
    ensures SkipWs(s) != [] && SkipWs(s + more) == SkipWs(s) + more
  {
    assert s == [] ==> s + more == more;
    if s != [] && IsWs(s[0]) {
      assert (s + more)[1..] == s[1..] + more;
      SkipWsRestricts(s[1..], more);
    }
  }

  /** Hexadecimal digits do not end a string. */
  lemma {:induction false} HexStaysInside(s: string, k: nat)
    requires LexString(s).Ok? && k <= |s| && forall i | 0 <= i < k :: IsHex(s[i])
    ensures |LexString(s).rest| < |s| - k
  {
    if k > 0 {
      HexStaysInside(s[1..], k - 1);
    }
  }

  lemma EscapeRestricts(s: string, more: string)
    requires s != [] && EscapeFollows(s + more)
    requires LexString((s + more)[1..]).Ok? && |LexString((s + more)[1..]).rest| >= |more|
    ensures EscapeFollows(s)
  {
    hide LexString;
    if s[0] == 'u' && |s| < 5 {
      var after := (s + more)[1..];
      assert IsHex(after[0]) && IsHex(after[1]) && IsHex(after[2]) && IsHex(after[3]);
      HexStaysInside(after, |s| - 1);
    }
  }

  lemma {:induction false} LexStringRestricts(s: string, more: string)
    requires LexString(s + more).Ok? && |LexString(s + more).rest| >= |more|
    ensures LexString(s).Ok?
    decreases |s|
  {
    hide EscapeFollows;
    var sm := s + more;
    if s != [] && s[0] == '\\' {
      if |s| > 1 {
        assert sm[1..] == s[1..] + more && sm[2..] == s[2..] + more && sm[1..][1..] == sm[2..];
        EscapeRestricts(s[1..], more);
        LexStringRestricts(s[2..], more);
      }
    } else if s != [] && s[0] != '"' {
      assert sm[1..] == s[1..] + more;
      LexStringRestricts(s[1..], more);
    }
  }

  lemma {:induction false} NumberCharsRestricts(s: string, more: string)
    requires NumberChars(s + more) <= |s|
    ensures NumberChars(s) == NumberChars(s + more)
  {
    if s != [] && IsNumberChar(s[0]) {
      assert (s + more)[1..] == s[1..] + more;
      NumberCharsRestricts(s[1..], more);
    }
  }

  lemma NumberRestricts(s: string, more: string)
    requires ParseNumber(s + more).Ok? && |ParseNumber(s + more).rest| >= |more|
    ensures ParseNumber(s).Ok?
    ensures ParseNumber(s + more) == Ok(ParseNumber(s).value, ParseNumber(s).rest + more)
  {
    hide IsNumber, NumberChars;
    var n := NumberChars(s + more);
    NumberCharsRestricts(s, more);
    assert (s + more)[..n] == s[..n];
    assert (s + more)[n..] == s[n..] + more;
  }

  lemma WordRestricts(s: string, more: string, word: string, value: Json)
    requires Word(s + more, word, value).Ok? && |Word(s + more, word, value).rest| >= |more|
    ensures Word(s, word, value).Ok?
    ensures Word(s + more, word, value) == Ok(Word(s, word, value).value, Word(s, word, value).rest + more)
  {
    assert (s + more)[..|word|] == s[..|word|];
    assert (s + more)[|word|..] == s[|word|..] + more;
  }

  /** A value that ends where other text starts is read without that text too. */
  lemma {:induction false} ValueRestricts(s: string, more: string)
    requires ParseValue(s + more).Ok? && |ParseValue(s + more).rest| >= |more|
    ensures ParseValue(s).Ok?
    ensures ParseValue(s + more) == Ok(ParseValue(s).value, ParseValue(s).rest + more)
    decreases |s|, 2
  {
    hide SkipWs, ParseNumber, Word, LexString, ParseMembers, ParseItems, AssignAll;
    var sm := s + more;
    if s != [] {
      assert sm[1..] == s[1..] + more;
      var c := s[0];
      if c == '{' || c == '[' {
        BracketRestricts(s, more);
      } else if c == '"' {
        LexStringRestricts(s[1..], more);
        LexStringConcat(s[1..], more);
      } else if c == 't' {
        WordRestricts(s, more, "true", Bool(true));
      } else if c == 'f' {
        WordRestricts(s, more, "false", Bool(false));
      } else if c == 'n' {
        WordRestricts(s, more, "null", Null);
      } else {
        NumberRestricts(s, more);
      }
    }
  }

  lemma {:induction false} BracketRestricts(s: string, more: string)
    requires s != [] && (s[0] == '{' || s[0] == '[')
    requires ParseValue(s + more).Ok? && |ParseValue(s + more).rest| >= |more|
    ensures ParseValue(s).Ok?
    ensures ParseValue(s + more) == Ok(ParseValue(s).value, ParseValue(s).rest + more)
    decreases |s|, 1
  {
    hide SkipWs, ParseNumber, Word, LexString, ParseMembers, ParseItems, AssignAll;
    var sm := s + more;
    assert sm[1..] == s[1..] + more;
    SkipWsRestricts(s[1..], more);
    var t := SkipWs(s[1..]);
    assert (t + more)[1..] == t[1..] + more;
    if s[0] == '{' && t[0] != '}' {
      MembersRestrict(t, more);
    } else if s[0] == '[' && t[0] != ']' {
      ItemsRestrict(t, more);
    }
  }

  lemma {:induction false} ItemsRestrict(s: string, more: string)
    requires ParseItems(s + more).Ok? && |ParseItems(s + more).rest| >= |more|
    ensures ParseItems(s).Ok?
    ensures ParseItems(s + more) == Ok(ParseItems(s).value, ParseItems(s).rest + more)
    decreases |s|, 3
  {
    hide SkipWs, ParseValue;
    ValueRestricts(s, more);
    var after := ParseValue(s).rest;
    SkipWsRestricts(after, more);
    var t := SkipWs(after);
    assert (t + more)[1..] == t[1..] + more;
    if t[0] == ',' {
      SkipWsRestricts(t[1..], more);
      ItemsRestrict(SkipWs(t[1..]), more);
    }
  }

  lemma {:induction false} MemberRestricts(s: string, more: string)
    requires ParseMember(s + more).Ok? && |ParseMember(s + more).rest| >= |more|
    ensures ParseMember(s).Ok?
    ensures ParseMember(s + more) == Ok(ParseMember(s).value, ParseMember(s).rest + more)
    decreases |s|, 3
  {
    hide SkipWs, ParseValue, LexString;
    if s != [] {
      assert (s + more)[1..] == s[1..] + more;
      LexStringRestricts(s[1..], more);
      LexStringConcat(s[1..], more);
      var after := LexString(s[1..]).rest;
      SkipWsRestricts(after, more);
      var t := SkipWs(after);
      assert (t + more)[1..] == t[1..] + more;
      SkipWsRestricts(t[1..], more);
      ValueRestricts(SkipWs(t[1..]), more);
    }
  }

  lemma {:induction false} MembersRestrict(s: string, more: string)
    requires ParseMembers(s + more).Ok? && |ParseMembers(s + more).rest| >= |more|
    ensures ParseMembers(s).Ok?
    ensures ParseMembers(s + more) == Ok(ParseMembers(s).value, ParseMembers(s).rest + more)
    decreases |s|, 4
  {
    hide SkipWs, ParseMember;
    MemberRestricts(s, more);
    var after := ParseMember(s).rest;
    SkipWsRestricts(after, more);
    var t := SkipWs(after);
    assert (t + more)[1..] == t[1..] + more;
    if t[0] == ',' {
      SkipWsRestricts(t[1..], more);
      MembersRestrict(SkipWs(t[1..]), more);
    }
  }
}
