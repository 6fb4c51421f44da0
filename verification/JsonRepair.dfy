/** `repairJson`: the one-pass bracket repair of src/json.mts. */
module JsonRepair {
  import opened Text
  import opened JsonScan

  /** What the loop holds between two characters. */
  datatype Repairing = Repairing(out: string, stack: seq<Bracket>, mode: Mode)

  const FRESH: Repairing := Repairing("", [], Outside)

  /** How a pass ends: the root closed with `rest` unread, or the input ran out. */
  datatype Outcome = GaveUp | Emitted(out: string, rest: string)

  /** Pop everything above the nearest `wanted`: the brackets left and the closers written. */
  function Unwind(stack: seq<Bracket>, wanted: Bracket): (seq<Bracket>, string) {
    if stack == [] || stack[|stack| - 1] == wanted then (stack, "")
    else
      var (left, written) := Unwind(stack[..|stack| - 1], wanted);
      (left, [Closing(stack[|stack| - 1])] + written)
  }

  /** A closer outside any string: the new state, and whether the root closed. */
  function Close(rep: Repairing, c: char): (Repairing, bool) {
    var (left, written) := Unwind(rep.stack, Kind(c));
    if left == [] then (Repairing(rep.out + written, [], Outside), false)
    else (Repairing(rep.out + written + [c], left[..|left| - 1], Outside), |left| == 1)
  }

  /** One turn of the loop. */
  function Consume(rep: Repairing, c: char): (Repairing, bool) {
    if rep.mode == Outside && IsClosing(c) then Close(rep, c)
    else if rep.mode == Outside && IsOpening(c) then
      (Repairing(rep.out + [c], rep.stack + [Kind(c)], Outside), false)
    else (Repairing(rep.out + [c], rep.stack, NextMode(rep.mode, c)), false)
  }

  function Rescan(rep: Repairing, text: string): Outcome
    decreases |text|
  {
    if text == [] then GaveUp
    else
      var (next, done) := Consume(rep, text[0]);
      if done then Emitted(next.out, text[1..]) else Rescan(next, text[1..])
  }

  function Repair(raw: string): string {
    var start := IndexOf(raw, '{');
    if start == -1 then "{}"
    else match Rescan(FRESH, raw[start..])
      case GaveUp => "{}"
      case Emitted(out, _) => out
  }

  /** The two arrays `repairJson` shares with `repairJsonCloser`. */
  class Buffers {
    var stack: seq<Bracket>
    var out: string

    constructor ()
      ensures stack == [] && out == ""
    {
      stack, out := [], "";
    }

    method RepairJsonCloser(c: char) returns (done: bool)
      requires IsClosing(c)
      modifies this
      ensures (Repairing(out, stack, Outside), done)
           == Close(Repairing(old(out), old(stack), Outside), c)
    {
      var wanted := Kind(c);
      while |stack| > 0 && stack[|stack| - 1] != wanted
        invariant Unwind(stack, wanted).0 == Unwind(old(stack), wanted).0
        invariant out + Unwind(stack, wanted).1 == old(out) + Unwind(old(stack), wanted).1
        decreases |stack|
      {
        out := out + [Closing(stack[|stack| - 1])];
        stack := stack[..|stack| - 1];
      }
      assert Unwind(stack, wanted) == (stack, "");
      assert out + "" == out;
      if |stack| == 0 {
        return false;
      }
      stack := stack[..|stack| - 1];
      out := out + [c];
      return |stack| == 0;
    }
  }

  method RepairJson(raw: string) returns (result: string)
    ensures result == Repair(raw)
  {
    var start := IndexOf(raw, '{');
    if start == -1 {
      return "{}";
    }
    var buffers := new Buffers();
    var inString, escaped := false, false;
    for i := start to |raw|
      invariant fresh(buffers)
      invariant escaped ==> inString
      invariant Rescan(FRESH, raw[start..])
             == Rescan(Repairing(buffers.out, buffers.stack, ModeOf(inString, escaped)), raw[i..])
    {
      var c := raw[i];
      assert raw[i..][0] == c && raw[i..][1..] == raw[i + 1..];
      if inString {
        buffers.out := buffers.out + [c];
        if escaped {
          escaped := false;
        } else if c == '\\' {
          escaped := true;
        } else if c == '"' {
          inString := false;
        }
      } else if c == '"' {
        inString := true;
        buffers.out := buffers.out + [c];
      } else if c == '[' || c == '{' {
        buffers.stack := buffers.stack + [Kind(c)];
        buffers.out := buffers.out + [c];
      } else if c == ']' || c == '}' {
        var done := buffers.RepairJsonCloser(c);
        if done {
          return buffers.out;
        }
      } else {
        buffers.out := buffers.out + [c];
      }
    }
    return "{}";
  }

  function ModeOf(inString: bool, escaped: bool): Mode {
    if !inString then Outside else if escaped then Escaping else Inside
  }

  // ---------- balance and conservation ----------

  /** The text without its unquoted closers: openers, strings and everything else, in order. */
  function Skeleton(text: string): string {
    if text == [] then ""
    else
      var init, c := text[..|text| - 1], text[|text| - 1];
      if ModeAfter(init) == Outside && IsClosing(c) then Skeleton(init) else Skeleton(init) + [c]
  }

  lemma SkeletonSnoc(text: string, c: char)
    ensures Skeleton(text + [c])
         == if ModeAfter(text) == Outside && IsClosing(c) then Skeleton(text) else Skeleton(text) + [c]
  {
    hide ModeAfter;
    assert (text + [c])[..|text|] == text;
  }

  /** What has been written is scanned to exactly the brackets held open. */
  ghost predicate Synced(rep: Repairing) {
    Run(START, rep.out) == At(rep.stack, rep.mode)
  }

  lemma {:induction false} UnwindWrites(out: string, stack: seq<Bracket>, wanted: Bracket)
    requires Run(START, out) == At(stack, Outside)
    ensures var (left, written) := Unwind(stack, wanted);
      && left <= stack
      && Run(START, out + written) == At(left, Outside)
      && Skeleton(out + written) == Skeleton(out)
    decreases |stack|
  {
    hide Run, ModeAfter, Skeleton;
    if stack == [] || stack[|stack| - 1] == wanted {
      assert out + "" == out;
    } else {
      var c := Closing(stack[|stack| - 1]);
      var (left, written) := Unwind(stack[..|stack| - 1], wanted);
      RunSnoc(START, out, c);
      ScanMode(out);
      SkeletonSnoc(out, c);
      UnwindWrites(out + [c], stack[..|stack| - 1], wanted);
      assert out + ([c] + written) == (out + [c]) + written;
    }
  }

  /** What one turn keeps: the writer is in step with the strict scanner, and has written
      everything read but the unquoted closers. */
  ghost predicate Keeps(rep: Repairing, scanned: string) {
    && Synced(rep)
    && ModeAfter(scanned) == rep.mode
    && Skeleton(rep.out) == Skeleton(scanned)
  }

  lemma CloseKeeps(rep: Repairing, scanned: string, c: char)
    requires Keeps(rep, scanned) && rep.mode == Outside && IsClosing(c)
    ensures Keeps(Close(rep, c).0, scanned + [c])
    ensures rep.out <= Close(rep, c).0.out
    ensures Close(rep, c).1 ==> Close(rep, c).0.stack == [] && |rep.out| < |Close(rep, c).0.out|
  {
    var (left, written) := Unwind(rep.stack, Kind(c));
    var text := rep.out + written;
    hide Run, ModeAfter, Skeleton, Unwind;
    UnwindWrites(rep.out, rep.stack, Kind(c));
    UnwindStops(rep.stack, Kind(c));
    ScanMode(text);
    ModeSnoc(scanned, c);
    SkeletonSnoc(scanned, c);
    RunSnoc(START, text, c);
    ModeSnoc(text, c);
    SkeletonSnoc(text, c);
  }

  lemma CopyKeeps(rep: Repairing, scanned: string, c: char)
    requires Keeps(rep, scanned) && !(rep.mode == Outside && IsClosing(c))
    ensures Keeps(Consume(rep, c).0, scanned + [c])
    ensures Consume(rep, c).0.out == rep.out + [c]
  {
    hide Run, ModeAfter, Skeleton;
    ScanMode(rep.out);
    ModeSnoc(scanned, c);
    SkeletonSnoc(scanned, c);
    RunSnoc(START, rep.out, c);
    SkeletonSnoc(rep.out, c);
  }

  lemma ConsumeKeeps(rep: Repairing, scanned: string, c: char)
    requires Keeps(rep, scanned)
    ensures Keeps(Consume(rep, c).0, scanned + [c])
    ensures rep.out <= Consume(rep, c).0.out
    ensures Consume(rep, c).1 ==> Consume(rep, c).0.stack == [] && Consume(rep, c).0.mode == Outside
    ensures Consume(rep, c).1 ==> |rep.out| < |Consume(rep, c).0.out|
  {
    hide Run, ModeAfter, Skeleton, Unwind;
    if rep.mode == Outside && IsClosing(c) {
      CloseKeeps(rep, scanned, c);
    } else {
      CopyKeeps(rep, scanned, c);
    }
  }

  lemma {:induction false} UnwindStops(stack: seq<Bracket>, wanted: Bracket)
    ensures var left := Unwind(stack, wanted).0; left == [] || left[|left| - 1] == wanted
  {
    if stack != [] && stack[|stack| - 1] != wanted {
      UnwindStops(stack[..|stack| - 1], wanted);
    }
  }

  /** The part of `text` a pass that returns has read. */
  ghost function ReadBy(rep: Repairing, text: string): string
    requires Rescan(rep, text).Emitted?
  {
    RestIsShorter(rep, text);
    text[..|text| - |Rescan(rep, text).rest|]
  }

  lemma {:induction false} RestIsShorter(rep: Repairing, text: string)
    requires Rescan(rep, text).Emitted?
    ensures var rest := Rescan(rep, text).rest;
      |rest| < |text| && text[|text| - |rest|..] == rest
    decreases |text|
  {
    var (next, done) := Consume(rep, text[0]);
    if !done {
      RestIsShorter(next, text[1..]);
    }
  }

  /** The state in which the pass returns. */
  lemma {:induction false} RescanKeeps(rep: Repairing, scanned: string, text: string)
    returns (last: Repairing)
    requires Keeps(rep, scanned) && Rescan(rep, text).Emitted?
    ensures Keeps(last, scanned + ReadBy(rep, text)) && last.stack == [] && last.mode == Outside
    ensures last.out == Rescan(rep, text).out
    ensures rep.out <= last.out && |rep.out| < |last.out|
    decreases |text|
  {
    hide Skeleton, Run, ModeAfter, Close, Consume;
    var c := text[0];
    var next := Consume(rep, c).0;
    ConsumeKeeps(rep, scanned, c);
    if Consume(rep, c).1 {
      assert ReadBy(rep, text) == [c];
      last := next;
    } else {
      last := RescanKeeps(next, scanned + [c], text[1..]);
      RestIsShorter(rep, text);
      assert ReadBy(rep, text) == [c] + ReadBy(next, text[1..]);
      assert (scanned + [c]) + ReadBy(next, text[1..]) == scanned + ReadBy(rep, text);
    }
  }

  /** The scan of `raw` from its first `{`. */
  function Pass(raw: string): Outcome {
    var start := IndexOf(raw, '{');
    if start == -1 then GaveUp else Rescan(FRESH, raw[start..])
  }

  /** The characters that scan reads. */
  ghost function ScannedBy(raw: string): string
    requires Pass(raw).Emitted?
  {
    ReadBy(FRESH, raw[IndexOf(raw, '{')..])
  }

  lemma FirstTurn(text: string)
    requires text != [] && text[0] == '{'
    ensures Rescan(FRESH, text) == Rescan(Repairing("{", [Curly], Outside), text[1..])
    ensures Keeps(Repairing("{", [Curly], Outside), "{")
  {
    assert "" + ['{'] == "{";
    assert [] + [Curly] == [Curly];
    ConsumeKeeps(FRESH, "", '{');
    assert Consume(FRESH, '{') == (Repairing("{", [Curly], Outside), false);
  }

  lemma ScannedSplits(raw: string)
    requires Pass(raw).Emitted?
    ensures raw == raw[..IndexOf(raw, '{')] + ScannedBy(raw) + Pass(raw).rest
  {
    hide IndexOf, Rescan;
    var start := IndexOf(raw, '{');
    var text := raw[start..];
    RestIsShorter(FRESH, text);
    assert text == ScannedBy(raw) + Pass(raw).rest;
    assert raw == raw[..start] + text;
  }

  /** The state in which `repairJson` returns. */
  lemma PassKeeps(raw: string) returns (last: Repairing)
    requires Pass(raw).Emitted?
    ensures Keeps(last, ScannedBy(raw)) && last.stack == [] && last.mode == Outside
    ensures last.out == Repair(raw) && last.out != [] && last.out[0] == '{'
  {
    hide Keeps, Close, Consume;
    var text := raw[IndexOf(raw, '{')..];
    var first := Repairing("{", [Curly], Outside);
    FirstTurn(text);
    RestIsShorter(FRESH, text);
    last := RescanKeeps(first, "{", text[1..]);
    assert ReadBy(FRESH, text) == "{" + ReadBy(first, text[1..]);
  }

  /** For every input the result has matching brackets and no open string, and opens with
      `{`. Unless the pass gives up it differs from the input it read in unquoted closers
      only, so openers, strings and all other characters are kept in order. */
  lemma RepairBalancesAndConserves(raw: string)
    ensures Balanced(Repair(raw)) && Repair(raw) != [] && Repair(raw)[0] == '{'
    ensures Pass(raw).GaveUp? ==> Repair(raw) == "{}"
    ensures Pass(raw).Emitted? ==>
      && raw == raw[..IndexOf(raw, '{')] + ScannedBy(raw) + Pass(raw).rest
      && Skeleton(Repair(raw)) == Skeleton(ScannedBy(raw))
  {
    if Pass(raw).Emitted? {
      ScannedSplits(raw);
      var last := PassKeeps(raw);
    } else {
      BracedIsObject("");
      assert "{" + "" + "}" == "{}";
    }
  }
}
