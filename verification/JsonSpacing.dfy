/** What the strict parser accepts: the texts that are the compact print of a value with white space
    between tokens. */
module JsonSpacing {
  import opened Text
  import opened JsonText
  import opened JsonPrint
  import opened JsonKeys
  import opened JsonWeights

  /** A text without its white space, except in strings. */
  function Squeezed(s: string): string
    decreases |s|
  {
    if s == [] then ""
    else if IsWs(s[0]) then Squeezed(s[1..])
    else if s[0] == '"' && LexString(s[1..]).Ok? then
      "\"" + LexString(s[1..]).value + "\"" + Squeezed(LexString(s[1..]).rest)
    else [s[0]] + Squeezed(s[1..])
  }

  lemma {:induction false} SkippingSqueezes(s: string)
    ensures Squeezed(SkipWs(s)) == Squeezed(s)
  {
    if s != [] && IsWs(s[0]) {
      SkippingSqueezes(s[1..]);
    }
  }

  lemma MarkSqueezes(s: string)
    requires s != [] && !IsWs(s[0]) && s[0] != '"'
    ensures Squeezed(s) == [s[0]] + Squeezed(s[1..])
  {
  }

  lemma QuotedSqueezes(s: string)
    requires s != [] && s[0] == '"' && LexString(s[1..]).Ok?
    ensures Squeezed(s) == "\"" + LexString(s[1..]).value + "\"" + Squeezed(LexString(s[1..]).rest)
  {
  }

  /** A token without white space and quotation marks. */
  lemma {:induction false} TokenSqueezes(s: string, n: nat)
    requires n <= |s| && forall i | 0 <= i < n :: !IsWs(s[i]) && s[i] != '"'
    ensures Squeezed(s) == s[..n] + Squeezed(s[n..])
    decreases n
  {
    hide LexString;
    if n == 0 {
      assert s[0..] == s && s[..0] + Squeezed(s) == Squeezed(s);
    } else {
      TokenSqueezes(s[1..], n - 1);
      assert s[1..][n - 1..] == s[n..] && s[..n] == [s[0]] + s[1..][..n - 1];
    }
  }

  lemma {:induction false} LexedIsSpelling(s: string)
    requires LexString(s).Ok?
    ensures IsSpelling(LexString(s).value)
    decreases |s|
  {
    hide EscapeFollows;
    var lexeme := LexString(s).value;
    if s[0] == '"' {
      assert "" + "\"" == "\"";
    } else if s[0] == '\\' {
      var rest := LexString(s[2..]);
      LexedIsSpelling(s[2..]);
      EscapeFits(s, rest.value);
      var text := lexeme + "\"";
      assert text[2..] == rest.value + "\"" && text[..2] == s[..2] && text[1..] == s[1..2] + (rest.value + "\"");
    } else {
      LexedIsSpelling(s[1..]);
      var rest := LexString(s[1..]);
      var text := lexeme + "\"";
      assert text[1..] == rest.value + "\"" && text[..1] == s[..1];
    }
  }

  /** The hexadecimal digits of an escape are part of what follows it. */
  lemma EscapeFits(s: string, lexeme: string)
    requires |s| >= 2 && s[0] == '\\' && EscapeFollows(s[1..])
    requires LexString(s[2..]).Ok? && lexeme == LexString(s[2..]).value
    ensures EscapeFollows(s[1..2] + (lexeme + "\""))
  {
    var after := s[1..2] + (lexeme + "\"");
    if !(s[1] in "\"\\/bfnrt") {
      OrdinaryPrefix(s[2..], 4);
    }
  }

  lemma {:induction false} OrdinaryPrefix(s: string, n: nat)
    requires LexString(s).Ok? && n <= |s| && forall i | 0 <= i < n :: IsHex(s[i])
    ensures n <= |LexString(s).value| && LexString(s).value[..n] == s[..n]
    decreases n
  {
    hide EscapeFollows;
    if n > 0 {
      assert IsHex(s[0]);
      OrdinaryPrefix(s[1..], n - 1);
      var lexeme := LexString(s[1..]).value;
      assert s[..n] == [s[0]] + s[1..][..n - 1];
    }
  }

  lemma NumberIsValid(s: string)
    requires ParseNumber(s).Ok?
    ensures Valid(ParseNumber(s).value)
  {
    hide IsNumber;
    var n := NumberChars(s);
    WholeNumber(s[..n]);
  }

  lemma {:induction false} WholeNumber(t: string)
    requires forall i | 0 <= i < |t| :: IsNumberChar(t[i])
    ensures NumberChars(t) == |t|
  {
    if t != [] {
      WholeNumber(t[1..]);
    }
  }

  /** A value that is read spells its tokens as RFC 8259 allows and repeats no key, and where no member
      is overridden its text, squeezed, is its print and what is left behind it. */
  lemma {:induction false} ReadIsPrinted(s: string)
    requires ParseValue(s).Ok?
    ensures Valid(ParseValue(s).value)
    ensures Unoverridden(s) ==> Squeezed(s) == Print(ParseValue(s).value) + Squeezed(ParseValue(s).rest)
    decreases |s|, 2
  {
    hide SkipWs, ParseNumber, Word, LexString, ParseMembers, ParseItems, AssignAll, Squeezed, IsNumber;
    if s[0] == '{' || s[0] == '[' {
      BracketIsPrinted(s);
    } else if s[0] == '"' {
      LexedIsSpelling(s[1..]);
      QuotedSqueezes(s);
    } else {
      TokenIsPrinted(s);
    }
  }

  lemma TokenIsPrinted(s: string)
    requires ParseValue(s).Ok? && s[0] != '{' && s[0] != '[' && s[0] != '"'
    ensures Valid(ParseValue(s).value)
    ensures Squeezed(s) == Print(ParseValue(s).value) + Squeezed(ParseValue(s).rest)
  {
    hide IsNumber, NumberChars, Squeezed;
    if s[0] == 't' {
      assert s[..4] == "true";
      WordSqueezes(s, "true");
    } else if s[0] == 'f' {
      assert s[..5] == "false";
      WordSqueezes(s, "false");
    } else if s[0] == 'n' {
      assert s[..4] == "null";
      WordSqueezes(s, "null");
    } else {
      NumberIsValid(s);
      TokenSqueezes(s, NumberChars(s));
    }
  }

  lemma WordSqueezes(s: string, word: string)
    requires word <= s && forall c | c in word :: !IsWs(c) && c != '"'
    ensures Squeezed(s) == word + Squeezed(s[|word|..])
  {
    hide Squeezed;
    forall i | 0 <= i < |word|
      ensures !IsWs(s[i]) && s[i] != '"'
    {
      assert s[i] == word[i] && word[i] in word;
    }
    TokenSqueezes(s, |word|);
  }

  lemma {:induction false} BracketIsPrinted(s: string)
    requires ParseValue(s).Ok? && (s[0] == '{' || s[0] == '[')
    ensures Valid(ParseValue(s).value)
    ensures Unoverridden(s) ==> Squeezed(s) == Print(ParseValue(s).value) + Squeezed(ParseValue(s).rest)
    decreases |s|, 1
  {
    hide SkipWs, ParseNumber, Word, LexString, ParseMembers, ParseItems, AssignAll, Squeezed,
         MembersUnoverridden, ItemsUnoverridden, DistinctKeys, PrintItems, PrintMembers, IsSpelling;
    var t := SkipWs(s[1..]);
    SkippingSqueezes(s[1..]);
    MarkSqueezes(s);
    MarkOf(t);
    if s[0] == '{' && t[0] != '}' {
      MembersArePrinted(t);
      var members := ParseMembers(t).value;
      AssignAllKeeps([], members) by {
        NoneIsDistinct();
      }
      SomeMember(t);
      if DistinctKeys(members) {
        assert [] + members == members;
        AssignDistinct([], members);
        PrependConcat("{", PrintMembers(members), Squeezed(ParseMembers(t).rest));
      }
    } else if s[0] == '[' && t[0] != ']' {
      ItemsArePrinted(t);
      SomeItem(t);
      PrependConcat("[", PrintItems(ParseItems(t).value), Squeezed(ParseItems(t).rest));
    } else {
      NoneIsDistinct();
    }
  }

  lemma NoneIsDistinct()
    ensures DistinctKeys([])
  {
  }

  lemma MarkOf(t: string)
    requires t != []
    ensures t[0] in "{}[],:" ==> Squeezed(t) == [t[0]] + Squeezed(t[1..])
  {
    if t[0] in "{}[],:" {
      MarkSqueezes(t);
    }
  }

  lemma SomeMember(t: string)
    requires ParseMembers(t).Ok?
    ensures ParseMembers(t).value != []
  {
    hide ParseMember, SkipWs;
  }

  lemma SomeItem(t: string)
    requires ParseItems(t).Ok?
    ensures ParseItems(t).value != []
  {
    hide ParseValue, SkipWs;
  }

  lemma Regroup(a: string, mark: string, b: string, c: string)
    ensures a + (mark + (b + c)) == (a + (mark + b)) + c
  {
  }

  lemma {:induction false} ItemsArePrinted(s: string)
    requires ParseItems(s).Ok?
    ensures ParseItems(s).value != [] && forall item | item in ParseItems(s).value :: Valid(item)
    ensures ItemsUnoverridden(s) ==> Squeezed(s) == PrintItems(ParseItems(s).value) + Squeezed(ParseItems(s).rest)
    decreases |s|, 3
  {
    hide SkipWs, ParseValue, Squeezed, Valid, Print, Unoverridden;
    ReadIsPrinted(s);
    var item, after := ParseValue(s).value, ParseValue(s).rest;
    var t := SkipWs(after);
    SkippingSqueezes(after);
    MarkOf(t);
    if t[0] == ',' {
      var more := SkipWs(t[1..]);
      ItemsArePrinted(more);
      SkippingSqueezes(t[1..]);
      var items := ParseItems(more).value;
      assert ([item] + items)[1..] == items;
      Regroup(Print(item), ",", PrintItems(items), Squeezed(ParseItems(more).rest));
    } else {
      assert Print(item) + ("]" + Squeezed(t[1..])) == (Print(item) + "]") + Squeezed(t[1..]);
    }
  }

  lemma {:induction false} MemberIsPrinted(s: string)
    requires ParseMember(s).Ok?
    ensures IsSpelling(ParseMember(s).value.key) && Valid(ParseMember(s).value.value)
    ensures Unoverridden(MemberValue(s)) ==>
      Squeezed(s) == PrintMember(ParseMember(s).value) + Squeezed(ParseMember(s).rest)
    decreases |s|, 3
  {
    hide SkipWs, ParseValue, LexString, Squeezed, Valid, Print, Unoverridden, IsSpelling;
    var key, after := LexString(s[1..]).value, LexString(s[1..]).rest;
    LexedIsSpelling(s[1..]);
    QuotedSqueezes(s);
    var t := SkipWs(after);
    SkippingSqueezes(after);
    MarkOf(t);
    var v := SkipWs(t[1..]);
    SkippingSqueezes(t[1..]);
    ReadIsPrinted(v);
    var value, rest := ParseValue(v).value, ParseValue(v).rest;
    assert "\"" + key + "\"" + (":" + (Print(value) + Squeezed(rest)))
      == ("\"" + key + "\"" + ":" + Print(value)) + Squeezed(rest);
  }

  lemma {:induction false} MembersArePrinted(s: string)
    requires ParseMembers(s).Ok?
    ensures ParseMembers(s).value != []
    ensures forall m | m in ParseMembers(s).value :: IsSpelling(m.key) && Valid(m.value)
    ensures MembersUnoverridden(s) ==> Squeezed(s) == PrintMembers(ParseMembers(s).value) + Squeezed(ParseMembers(s).rest)
    decreases |s|, 4
  {
    hide SkipWs, ParseMember, Squeezed, Valid, PrintMember, Unoverridden, IsSpelling, MemberValue;
    MemberIsPrinted(s);
    var member, after := ParseMember(s).value, ParseMember(s).rest;
    var t := SkipWs(after);
    SkippingSqueezes(after);
    MarkOf(t);
    var printed := PrintMember(member);
    if t[0] == ',' {
      var more := SkipWs(t[1..]);
      MembersArePrinted(more);
      SkippingSqueezes(t[1..]);
      var members := ParseMembers(more).value;
      assert ([member] + members)[1..] == members;
      Regroup(printed, ",", PrintMembers(members), Squeezed(ParseMembers(more).rest));
    } else {
      assert printed + ("}" + Squeezed(t[1..])) == (printed + "}") + Squeezed(t[1..]);
    }
  }

  /** Strict JSON without an overridden member is the compact print of its value once its white space
      is taken out, and printing and parsing again gives the same value. */
  lemma ParsedIsPrinted(text: string)
    requires ParseJson(text).Some?
    ensures var v := ParseJson(text).value;
      && Valid(v) && ParseJson(Print(v)) == Some(v)
      && (Unoverridden(SkipWs(text)) ==> Squeezed(text) == Print(v))
  {
    hide ParseValue, SkipWs, Squeezed, Print, Valid, Unoverridden;
    var visible := SkipWs(text);
    SkippingSqueezes(text);
    ReadIsPrinted(visible);
    var v, rest := ParseValue(visible).value, ParseValue(visible).rest;
    SkippingSqueezes(rest);
    assert Squeezed([]) == "" && Print(v) + "" == Print(v) by {
      NothingToSqueeze();
    }
    ParsePrint(v);
  }

  lemma NothingToSqueeze()
    ensures Squeezed([]) == ""
  {
  }
}
