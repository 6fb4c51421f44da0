/** A strict, string-aware bracket scanner: the bracket and string structure of
    sections 4, 5 and 7 of RFC 8259, independent of any repair. */
module JsonScan {

  datatype Bracket = Square | Curly

  /** Where the scanner is with respect to string literals. */
  datatype Mode = Outside | Inside | Escaping

  /** A bracket mismatch is final. */
  datatype Scan = Bad | At(stack: seq<Bracket>, mode: Mode)

  const START: Scan := At([], Outside)

  function Closing(b: Bracket): char {
    if b == Square then ']' else '}'
  }

  predicate IsOpening(c: char) { c == '[' || c == '{' }

  predicate IsClosing(c: char) { c == ']' || c == '}' }

  /** The kind of bracket that `c` opens or closes. */
  function Kind(c: char): Bracket {
    if c == '[' || c == ']' then Square else Curly
  }

  function NextMode(mode: Mode, c: char): Mode {
    match mode
    case Outside => if c == '"' then Inside else Outside
    case Inside => if c == '\\' then Escaping else if c == '"' then Outside else Inside
    case Escaping => Inside
  }

  function Step(st: Scan, c: char): Scan {
    match st
    case Bad => Bad
    case At(stack, mode) =>
      if mode != Outside || !(IsOpening(c) || IsClosing(c)) then At(stack, NextMode(mode, c))
      else if IsOpening(c) then At(stack + [Kind(c)], Outside)
      else if stack != [] && stack[|stack| - 1] == Kind(c) then At(stack[..|stack| - 1], Outside)
      else Bad
  }

  function Run(st: Scan, text: string): Scan {
    if text == [] then st else Step(Run(st, text[..|text| - 1]), text[|text| - 1])
  }

  /** String structure alone, for text whose brackets need not match. */
  function ModeAfter(text: string): Mode {
    if text == [] then Outside else NextMode(ModeAfter(text[..|text| - 1]), text[|text| - 1])
  }

  /** All brackets outside strings match in kind and order, and no string is left open. */
  predicate Balanced(text: string) {
    Run(START, text) == START
  }

  /** The text of exactly one balanced object: it opens with `{` and no shorter
      non-empty prefix is balanced. */
  ghost predicate ObjectText(text: string) {
    && text != [] && text[0] == '{'
    && Balanced(text)
    && forall i | 0 < i < |text| :: InProgress(text[..i])
  }

  /** A prefix that still has a bracket open. */
  predicate InProgress(text: string) {
    Run(START, text).At? && Run(START, text).stack != []
  }

  lemma {:induction false} RunConcat(st: Scan, a: string, b: string)
    ensures Run(st, a + b) == Run(Run(st, a), b)
  {
    if b == [] {
      assert a + b == a;
    } else {
      var ab := a + b;
      assert ab[..|ab| - 1] == a + b[..|b| - 1];
      RunConcat(st, a, b[..|b| - 1]);
    }
  }

  lemma RunSnoc(st: Scan, a: string, c: char)
    ensures Run(st, a + [c]) == Step(Run(st, a), c)
  {
    assert (a + [c])[..|a|] == a;
  }

  lemma ModeSnoc(a: string, c: char)
    ensures ModeAfter(a + [c]) == NextMode(ModeAfter(a), c)
  {
    assert (a + [c])[..|a|] == a;
  }

  /** A scan that has not gone bad has read the same string structure. */
  lemma {:induction false} ScanMode(text: string)
    ensures Run(START, text).At? ==> Run(START, text).mode == ModeAfter(text)
  {
    if text != [] {
      ScanMode(text[..|text| - 1]);
    }
  }

  lemma {:induction false} BadIsFinal(text: string)
    ensures Run(Bad, text) == Bad
  {
    if text != [] {
      BadIsFinal(text[..|text| - 1]);
    }
  }

  /** Brackets already open below a text do not change how it is scanned. */
  lemma {:induction false} Frame(below: seq<Bracket>, text: string)
    requires Run(START, text).At?
    ensures Run(At(below, Outside), text)
         == At(below + Run(START, text).stack, Run(START, text).mode)
  {
    if text == [] {
      assert below + [] == below;
    } else {
      var init, c := text[..|text| - 1], text[|text| - 1];
      Frame(below, init);
      var st := Run(START, init);
      var whole := below + st.stack;
      if st.mode == Outside && IsOpening(c) {
        assert whole + [Kind(c)] == below + (st.stack + [Kind(c)]);
      } else if st.mode == Outside && IsClosing(c) {
        assert whole[..|whole| - 1] == below + st.stack[..|st.stack| - 1];
      }
    }
  }

  /** Every prefix of a text that scans well scans well. */
  lemma PrefixScans(text: string, i: nat)
    requires i <= |text| && Run(START, text).At?
    ensures Run(START, text[..i]).At?
  {
    assert text == text[..i] + text[i..];
    RunConcat(START, text[..i], text[i..]);
    BadIsFinal(text[i..]);
  }

  /** An object's text is a balanced body between braces. */
  lemma BracedIsObject(body: string)
    requires Balanced(body)
    ensures ObjectText("{" + body + "}")
  {
    var text := "{" + body + "}";
    var open := "{" + body;
    assert Run(START, "{") == At([Curly], Outside) by {
      assert Run(START, ""+"{") == Step(Run(START, ""), '{') by { RunSnoc(START, "", '{'); }
      assert "" + "{" == "{";
    }
    forall i | 0 < i < |text|
      ensures InProgress(text[..i])
    {
      assert text[..i] == "{" + body[..i - 1];
      RunConcat(START, "{", body[..i - 1]);
      PrefixScans(body, i - 1);
      Frame([Curly], body[..i - 1]);
    }
    assert text[..|open|] == open == "{" + body;
    RunConcat(START, "{", body);
    Frame([Curly], body);
    RunSnoc(START, open, '}');
  }

  /** A balanced text that opens with `{` starts with the text of one object. */
  lemma FirstObject(text: string) returns (n: nat)
    requires Balanced(text) && text != [] && text[0] == '{'
    ensures 0 < n <= |text| && ObjectText(text[..n])
  {
    n := 1;
    while !Balanced(text[..n])
      invariant 0 < n <= |text|
      invariant forall i | 0 < i < n :: InProgress(text[..i])
      decreases |text| - n
    {
      assert text[..|text|] == text;
      NotBalancedIsOpen(text, n);
      n := n + 1;
    }
    forall i | 0 < i < n
      ensures InProgress(text[..n][..i])
    {
      assert text[..n][..i] == text[..i];
    }
  }

  /** Outside every bracket a scan that started with `{` cannot be inside a string
      before it has been balanced. */
  lemma NotBalancedIsOpen(text: string, n: nat)
    requires Balanced(text) && 0 < n <= |text| && text[0] == '{'
    requires forall i | 0 < i < n :: InProgress(text[..i])
    requires !Balanced(text[..n])
    ensures InProgress(text[..n])
  {
    PrefixScans(text, n);
    var before := text[..n - 1];
    assert text[..n][..n - 1] == before;
    if n == 1 {
      assert Run(START, before) == START;
    }
  }
}
