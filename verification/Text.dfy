/** Strings as the modelled code handles them: sequences of characters, with the
    white space that ECMAScript's `trim` family strips. */
module Text {

  datatype Option<+T> = None | Some(value: T)

  /** WhiteSpace and LineTerminator of ECMAScript, as `String.prototype.trim` uses them. */
  predicate IsSpace(c: char) {
    || c == '\t' || c == '\n' || c == '\U{000B}' || c == '\U{000C}' || c == '\r' || c == ' '
    || c == '\U{00A0}' || c == '\U{1680}' || '\U{2000}' <= c <= '\U{200A}'
    || c == '\U{2028}' || c == '\U{2029}' || c == '\U{202F}' || c == '\U{205F}'
    || c == '\U{3000}' || c == '\U{FEFF}'
  }

  predicate IsDigit(c: char) { '0' <= c <= '9' }

  predicate Blank(s: string) {
    forall c | c in s :: IsSpace(c)
  }

  function TrimStart(s: string): string {
    if s != [] && IsSpace(s[0]) then TrimStart(s[1..]) else s
  }

  function TrimEnd(s: string): string {
    if s != [] && IsSpace(s[|s| - 1]) then TrimEnd(s[..|s| - 1]) else s
  }

  function Trim(s: string): string {
    TrimEnd(TrimStart(s))
  }

  /** The first position of `c`, or -1. */
  function IndexOf(s: string, c: char): (i: int)
    ensures -1 <= i < |s|
    ensures i == -1 <==> c !in s
    ensures 0 <= i ==> s[i] == c && c !in s[..i]
  {
    if s == [] then -1
    else if s[0] == c then 0
    else
      var k := IndexOf(s[1..], c);
      if k == -1 then -1 else
        assert s[..k + 1] == [s[0]] + s[1..][..k];
        k + 1
  }

  lemma IndexOfConcat(a: string, b: string, c: char)
    requires c in a
    ensures IndexOf(a + b, c) == IndexOf(a, c)
  {
    hide IndexOf;
    assert (a + b)[IndexOf(a, c)] == c;
  }

  lemma IndexOfAfter(a: string, b: string, c: char)
    requires c !in a && b != [] && b[0] == c
    ensures IndexOf(a + b, c) == |a|
  {
    hide IndexOf;
    assert (a + b)[|a|] == c;
  }

  lemma PrependConcat<T>(x: seq<T>, y: seq<T>, z: seq<T>)
    ensures x + (y + z) == (x + y) + z
  {
  }

  // ---------- trimming ----------

  lemma {:induction false} TrimStartSplits(s: string) returns (ws: string)
    ensures s == ws + TrimStart(s) && Blank(ws)
    ensures TrimStart(s) != [] ==> !IsSpace(TrimStart(s)[0])
  {
    if s != [] && IsSpace(s[0]) {
      ws := TrimStartSplits(s[1..]);
      ws := [s[0]] + ws;
    } else {
      ws := "";
    }
  }

  lemma {:induction false} TrimStartConcat(s: string, more: string)
    requires TrimStart(s) != [] || (more != [] && !IsSpace(more[0]))
    ensures TrimStart(s + more) == TrimStart(s) + more
  {
    if s == [] {
      assert s + more == more;
    } else if IsSpace(s[0]) {
      assert (s + more)[1..] == s[1..] + more;
      TrimStartConcat(s[1..], more);
    }
  }

  lemma {:induction false} TrimStartBlank(ws: string, more: string)
    requires Blank(ws) && more != [] && !IsSpace(more[0])
    ensures TrimStart(ws + more) == more
  {
    if ws == [] {
      assert ws + more == more;
    } else {
      assert (ws + more)[1..] == ws[1..] + more;
      TrimStartBlank(ws[1..], more);
    }
  }

  lemma {:induction false} TrimEndConcat(s: string, more: string)
    requires s != [] && !IsSpace(s[|s| - 1])
    ensures TrimEnd(s + more) == s + TrimEnd(more)
  {
    var sm := s + more;
    if more == [] {
      assert sm == s;
    } else if IsSpace(more[|more| - 1]) {
      assert sm[..|sm| - 1] == s + more[..|more| - 1];
      TrimEndConcat(s, more[..|more| - 1]);
    }
  }

  lemma {:induction false} TrimEndIsPrefix(s: string)
    ensures TrimEnd(s) <= s
    ensures TrimEnd(s) != "" ==> !IsSpace(TrimEnd(s)[|TrimEnd(s)| - 1])
  {
    if s != [] && IsSpace(s[|s| - 1]) {
      TrimEndIsPrefix(s[..|s| - 1]);
    }
  }

  lemma {:induction false} TrimEndSplits(s: string) returns (ws: string)
    ensures s == TrimEnd(s) + ws && Blank(ws)
  {
    if s != [] && IsSpace(s[|s| - 1]) {
      ws := TrimEndSplits(s[..|s| - 1]);
      ws := ws + [s[|s| - 1]];
    } else {
      ws := "";
    }
  }

  lemma TrimEndOver(a: string, b: string)
    requires TrimEnd(b) != []
    ensures TrimEnd(a + b) == a + TrimEnd(b)
  {
    hide TrimEnd;
    var ws := TrimEndSplits(b);
    TrimEndIsPrefix(b);
    TrimEndConcat(a + TrimEnd(b), ws);
    BlankTrimsEnd(ws);
    assert a + b == (a + TrimEnd(b)) + ws;
  }

  lemma TrimStartTwice(s: string)
    ensures TrimStart(TrimStart(s)) == TrimStart(s)
  {
    var ws := TrimStartSplits(s);
  }

  lemma {:induction false} BlankTrims(s: string)
    requires Blank(s)
    ensures TrimStart(s) == []
  {
    if s != [] {
      assert s[0] in s;
      BlankTrims(s[1..]);
    }
  }

  lemma {:induction false} BlankTrimsEnd(s: string)
    requires Blank(s)
    ensures TrimEnd(s) == []
  {
    if s != [] {
      assert s[|s| - 1] in s;
      BlankTrimsEnd(s[..|s| - 1]);
    }
  }

  lemma {:induction false} TrimIgnoresLast(s: string, c: char)
    requires IsSpace(c)
    ensures Trim(s + [c]) == Trim(s)
  {
    var sc := s + [c];
    if s == [] {
      assert sc == [c] && sc[1..] == [];
    } else if IsSpace(s[0]) {
      assert sc[1..] == s[1..] + [c];
      TrimIgnoresLast(s[1..], c);
    } else {
      assert TrimStart(sc) == sc && sc[..|sc| - 1] == s;
    }
  }

  lemma TrimIgnoresFirst(s: string)
    requires s != [] && IsSpace(s[0])
    ensures Trim(s) == Trim(s[1..])
  {
  }

  lemma {:induction false} TrimStartLength(s: string)
    ensures |TrimStart(s)| <= |s|
    ensures |TrimStart(s)| == |s| ==> TrimStart(s) == s && (s != "" ==> !IsSpace(s[0]))
  {
    if s != [] && IsSpace(s[0]) {
      TrimStartLength(s[1..]);
    }
  }

  lemma {:induction false} TrimEndLength(s: string)
    ensures |TrimEnd(s)| <= |s|
    ensures |TrimEnd(s)| == |s| ==> TrimEnd(s) == s && (s != "" ==> !IsSpace(s[|s| - 1]))
  {
    if s != [] && IsSpace(s[|s| - 1]) {
      TrimEndLength(s[..|s| - 1]);
    }
  }

  lemma VisibleEndsTrim(s: string)
    requires s != "" && !IsSpace(s[0]) && !IsSpace(s[|s| - 1])
    ensures Trim(s) == s
  {
  }

  lemma TrimTwice(s: string)
    ensures Trim(Trim(s)) == Trim(s)
  {
    var visible := TrimStart(s);
    if Trim(s) != "" {
      var ws := TrimStartSplits(s);
      TrimEndIsPrefix(visible);
      VisibleEndsTrim(Trim(s));
    }
  }
}
