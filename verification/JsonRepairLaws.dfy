/** What `repairJson` promises over whole inputs: pass-through, undoing dropped closers,
    never completing a truncation, and when a second pass changes nothing. */
module JsonRepairLaws {
  import opened Text
  import opened JsonScan
  import opened JsonRepair

  // ---------- what a closer does ----------

  /** The closer that is due closes the bracket opened last. */
  lemma DueCloses(rep: Repairing, d: char, more: string)
    requires Synced(rep) && rep.mode == Outside && IsClosing(d) && Run(START, rep.out + ([d] + more)).At?
    ensures rep.stack != [] && rep.stack[|rep.stack| - 1] == Kind(d)
    ensures Synced(Repairing(rep.out + [d], rep.stack[..|rep.stack| - 1], Outside))
    ensures rep.out + ([d] + more) == (rep.out + [d]) + more
  {
    hide Run;
    assert rep.out + ([d] + more) == (rep.out + [d]) + more;
    RunConcat(START, rep.out + [d], more);
    RunSnoc(START, rep.out, d);
    BadIsFinal(more);
  }

  /** A closer of the other kind writes the one that is due and goes on. */
  lemma SkipsTop(rep: Repairing, c: char)
    requires rep.mode == Outside && IsClosing(c) && rep.stack != []
    requires rep.stack[|rep.stack| - 1] != Kind(c)
    ensures var top := rep.stack[|rep.stack| - 1];
      Consume(rep, c) == Consume(Repairing(rep.out + [Closing(top)], rep.stack[..|rep.stack| - 1], Outside), c)
  {
    var d := Closing(rep.stack[|rep.stack| - 1]);
    var (left, written) := Unwind(rep.stack[..|rep.stack| - 1], Kind(c));
    assert rep.out + ([d] + written) == (rep.out + [d]) + written;
    assert rep.out + ([d] + written) + [c] == (rep.out + [d]) + written + [c];
  }

  lemma ClosesTop(rep: Repairing, c: char)
    requires rep.mode == Outside && IsClosing(c) && rep.stack != []
    requires rep.stack[|rep.stack| - 1] == Kind(c)
    ensures Consume(rep, c)
         == (Repairing(rep.out + [c], rep.stack[..|rep.stack| - 1], Outside), |rep.stack| == 1)
  {
    assert rep.out + "" == rep.out;
  }

  /** `due` are the closers that complete what has been written. A closer among them writes them up
      to its first occurrence, so it closes exactly the brackets above the nearest one of its kind
      and then that one, and the pass returns when it was the last; any other closer writes them
      all and itself is dropped. */
  lemma {:induction false} CloserCloses(rep: Repairing, due: string, c: char)
    requires Synced(rep) && rep.mode == Outside && IsClosing(c)
    requires Balanced(rep.out + due) && forall d | d in due :: IsClosing(d)
    ensures var (next, done) := Consume(rep, c); var n := IndexOf(due, c) + 1;
      && Synced(next) && next.mode == Outside
      && (c in due ==> next.out == rep.out + due[..n] && (done <==> n == |due|))
      && (c !in due ==> next.out == rep.out + due && next.stack == [] && !done)
    decreases |due|
  {
    hide Run, Unwind, Close, Consume, IndexOf, Synced, Balanced;
    if due == [] {
      assert rep.out + due == rep.out;
      NothingIsOpen(rep, c);
    } else {
      var d, more := due[0], due[1..];
      assert due == [d] + more && d in due && forall e | e in more :: e in due;
      BalancedScans(rep.out + due);
      DueCloses(rep, d, more);
      if c == d {
        ClosesDue(rep, more, c);
        FirstIs(c, more);
        assert due[..1] == [d];
      } else {
        var next := Repairing(rep.out + [d], rep.stack[..|rep.stack| - 1], Outside);
        SkipsTop(rep, c);
        CloserCloses(next, more, c);
        assert (rep.out + [d]) + more == rep.out + due;
        if c in more {
          var n := IndexOf(more, c) + 1;
          IndexAfter(d, more, c);
          assert (rep.out + [d]) + more[..n] == rep.out + due[..n + 1];
        }
      }
    }
  }

  lemma FirstIs(c: char, more: string)
    ensures IndexOf([c] + more, c) == 0
  {
  }

  lemma IndexAfter(d: char, more: string, c: char)
    requires c != d && c in more
    ensures IndexOf([d] + more, c) == IndexOf(more, c) + 1
  {
    assert ([d] + more)[1..] == more;
  }

  lemma ClosesDue(rep: Repairing, more: string, c: char)
    requires Synced(rep) && rep.mode == Outside && IsClosing(c)
    requires Balanced(rep.out + ([c] + more)) && forall d | d in more :: IsClosing(d)
    ensures var (next, done) := Consume(rep, c);
      Synced(next) && next.mode == Outside && next.out == rep.out + [c] && (done <==> more == [])
  {
    hide Run, Unwind, Consume;
    DueCloses(rep, c, more);
    ClosesTop(rep, c);
    var next := Repairing(rep.out + [c], rep.stack[..|rep.stack| - 1], Outside);
    assert more == [] ==> next.out + more == next.out;
    if next.stack == [] {
      LastIsLast(next, more);
    }
  }

  lemma BalancedScans(text: string)
    requires Balanced(text)
    ensures Run(START, text).At?
  {
  }

  lemma NothingIsOpen(rep: Repairing, c: char)
    requires Synced(rep) && Balanced(rep.out) && IsClosing(c)
    ensures Consume(rep, c) == (Repairing(rep.out, [], Outside), false) && Synced(Repairing(rep.out, [], Outside))
  {
    assert rep.out + "" == rep.out;
  }

  // ---------- dropped closers are put back ----------

  /** `a` is `b` with some characters left out. */
  predicate Subsequence(a: string, b: string)
    decreases |b|
  {
    a == [] || (b != [] && if a[0] == b[0] then Subsequence(a[1..], b[1..]) else Subsequence(a, b[1..]))
  }

  /** What is left of a run of closers determines where the run ends: it is left of no shorter
      beginning of the run. */
  predicate Restorable(kept: string, run: string) {
    Subsequence(kept, run) && (run != [] ==> !Subsequence(kept, run[..|run| - 1]))
  }

  function ClosersAhead(s: string): (n: nat)
    ensures n <= |s| && forall i | 0 <= i < n :: IsClosing(s[i])
    ensures n < |s| ==> !IsClosing(s[n])
  {
    if s != [] && IsClosing(s[0]) then 1 + ClosersAhead(s[1..]) else 0
  }

  predicate ClosersFirst(before: string, full: string) {
    full != [] && ModeAfter(before) == Outside && IsClosing(full[0])
  }

  /** `cut` is `full` with closers left out, anywhere outside strings; `before` is what stands in
      front. */
  predicate Thins(before: string, full: string, cut: string)
    decreases |full|
  {
    if full == [] then cut == []
    else if ClosersFirst(before, full) then
      var n, m := ClosersAhead(full), ClosersAhead(cut);
      Subsequence(cut[..m], full[..n]) && Thins(before + full[..n], full[n..], cut[m..])
    else cut != [] && cut[0] == full[0] && Thins(before + [full[0]], full[1..], cut[1..])
  }

  /** The same, and what is left of every run of closers is restorable. */
  predicate Restores(before: string, full: string, cut: string)
    decreases |full|
  {
    if full == [] then cut == []
    else if ClosersFirst(before, full) then
      var n, m := ClosersAhead(full), ClosersAhead(cut);
      Restorable(cut[..m], full[..n]) && Restores(before + full[..n], full[n..], cut[m..])
    else cut != [] && cut[0] == full[0] && Restores(before + [full[0]], full[1..], cut[1..])
  }

  lemma {:induction false} SubsequenceGrows(a: string, b: string, more: string)
    requires Subsequence(a, b)
    ensures Subsequence(a, b + more)
    decreases |b|
  {
    if a != [] {
      assert (b + more)[1..] == b[1..] + more;
      SubsequenceGrows(if a[0] == b[0] then a[1..] else a, b[1..], more);
    }
  }

  lemma {:induction false} SubsequenceSize(a: string, b: string)
    requires Subsequence(a, b)
    ensures |a| <= |b| && forall c | c in a :: c in b
    decreases |b|
  {
    if a != [] {
      assert a == [a[0]] + a[1..] && b == [b[0]] + b[1..];
      SubsequenceSize(if a[0] == b[0] then a[1..] else a, b[1..]);
    }
  }

  lemma {:induction false} SubsequenceItself(a: string)
    ensures Subsequence(a, a)
  {
    if a != [] {
      SubsequenceItself(a[1..]);
    }
  }

  lemma {:induction false} SubsequenceSnoc(a: string, b: string, c: char)
    requires Subsequence(a, b)
    ensures Subsequence(a + [c], b + [c])
    decreases |b|
  {
    var bc := b + [c];
    if a == [] {
      assert a + [c] == [c] && [c][1..] == [];
      OneFollows(b, c);
    } else {
      assert (a + [c])[1..] == a[1..] + [c] && bc[1..] == b[1..] + [c];
      SubsequenceSnoc(if a[0] == b[0] then a[1..] else a, b[1..], c);
    }
  }

  lemma {:induction false} OneFollows(b: string, c: char)
    ensures Subsequence([c], b + [c])
  {
    assert [c][1..] == [];
    if b == [] {
      assert b + [c] == [c];
    } else {
      assert (b + [c])[1..] == b[1..] + [c];
      OneFollows(b[1..], c);
    }
  }

  /** A run whose last closer is kept, and occurs nowhere else in it, is restorable: any `]` may be
      missing before a `}`, and any `}` before a `]`. */
  lemma LastOfItsKind(kept: string, run: string, last: char)
    requires Subsequence(kept, run) && last !in run
    ensures Restorable(kept + [last], run + [last])
  {
    SubsequenceSnoc(kept, run, last);
    assert (run + [last])[..|run|] == run;
    assert (kept + [last])[|kept|] == last;
    if Subsequence(kept + [last], run) {
      SubsequenceSize(kept + [last], run);
    }
  }

  lemma WholeIsRestorable(run: string)
    ensures Restorable(run, run)
  {
    SubsequenceItself(run);
    if run != [] && Subsequence(run, run[..|run| - 1]) {
      SubsequenceSize(run, run[..|run| - 1]);
    }
  }

  lemma {:induction false} RestoresNothing(before: string, full: string)
    ensures Restores(before, full, full)
    decreases |full|
  {
    if ClosersFirst(before, full) {
      var n := ClosersAhead(full);
      WholeIsRestorable(full[..n]);
      RestoresNothing(before + full[..n], full[n..]);
    } else if full != [] {
      RestoresNothing(before + [full[0]], full[1..]);
    }
  }

  lemma {:induction false} RestoresThins(before: string, full: string, cut: string)
    requires Restores(before, full, cut)
    ensures Thins(before, full, cut)
    decreases |full|
  {
    if ClosersFirst(before, full) {
      var n, m := ClosersAhead(full), ClosersAhead(cut);
      RestoresThins(before + full[..n], full[n..], cut[m..]);
    } else if full != [] {
      RestoresThins(before + [full[0]], full[1..], cut[1..]);
    }
  }

  /** Reading what is left of a run writes the shortest beginning of the run it is left of. */
  lemma {:induction false} RunIsWritten(rep: Repairing, run: string, kept: string, more: string)
    returns (p: nat, next: Repairing)
    requires Synced(rep) && rep.mode == Outside && Subsequence(kept, run)
    requires Run(START, rep.out + run).At? && forall d | d in run :: IsClosing(d)
    ensures p <= |run| && Subsequence(kept, run[..p]) && (p > 0 ==> !Subsequence(kept, run[..p - 1]))
    ensures kept != [] ==> p > 0
    ensures Synced(next) && next.mode == Outside && next.out == rep.out + run[..p]
    ensures Rescan(rep, kept + more) == if p > 0 && next.stack == [] then Emitted(next.out, more) else Rescan(next, more)
    decreases |run|
  {
    hide Run, Consume, Synced, Rescan, Subsequence;
    if kept == [] {
      p, next := 0, rep;
      NothingLeft(run);
      assert kept + more == more && rep.out + run[..0] == rep.out;
    } else {
      var d, later := LeftOf(kept, run);
      DueCloses(rep, d, later);
      var closed := Repairing(rep.out + [d], rep.stack[..|rep.stack| - 1], Outside);
      Turn(rep, kept, more);
      Turn(closed, kept, more);
      if kept[0] == d {
        ClosesTop(rep, d);
        if closed.stack == [] {
          LastIsLast(closed, later);
          SubsequenceSize(kept[1..], later);
          p, next := 1, closed;
          assert kept[1..] + more == more && run[..1] == run && run[..0] == [];
          NothingOf(kept);
        } else {
          p, next := RunIsWritten(closed, later, kept[1..], more);
          PrependRun(d, later, kept, p);
          if p == 0 {
            assert closed.out + later[..0] == closed.out;
            SameText(closed, next);
          }
          p := p + 1;
        }
      } else {
        SkipsTop(rep, kept[0]);
        p, next := RunIsWritten(closed, later, kept, more);
        PrependRun(d, later, kept, p);
        p := p + 1;
      }
      assert rep.out + run[..p] == (rep.out + [d]) + later[..p - 1];
    }
  }

  lemma NothingLeft(run: string)
    ensures Subsequence([], run[..0])
  {
  }

  lemma NothingOf(kept: string)
    requires kept != []
    ensures !Subsequence(kept, [])
  {
  }

  /** What is left of a run starts with its first closer or is left of the rest. */
  lemma LeftOf(kept: string, run: string) returns (d: char, later: string)
    requires Subsequence(kept, run) && kept != [] && forall e | e in run :: IsClosing(e)
    ensures run == [d] + later && IsClosing(d) && IsClosing(kept[0]) && forall e | e in later :: IsClosing(e)
    ensures Subsequence(if kept[0] == d then kept[1..] else kept, later)
  {
    d, later := run[0], run[1..];
    assert run == [d] + later && d in run;
    SubsequenceSize(kept, run);
    assert kept[0] in kept;
  }

  /** One turn on the first of the characters kept. */
  lemma Turn(rep: Repairing, kept: string, more: string)
    requires kept != []
    ensures var (next, done) := Consume(rep, kept[0]);
      Rescan(rep, kept + more) == if done then Emitted(next.out, kept[1..] + more) else Rescan(next, kept[1..] + more)
  {
    hide Consume;
    assert (kept + more)[0] == kept[0] && (kept + more)[1..] == kept[1..] + more;
  }

  lemma SameText(a: Repairing, b: Repairing)
    requires Synced(a) && Synced(b) && a.out == b.out
    ensures a.stack == b.stack
  {
  }

  lemma PrependRun(d: char, later: string, kept: string, p: nat)
    requires p <= |later| && kept != []
    ensures var run := [d] + later; var rest := if kept[0] == d then kept[1..] else kept;
      && (Subsequence(kept, run[..p + 1]) <==> Subsequence(rest, later[..p]))
      && (Subsequence(kept, run[..p]) <==> p > 0 && Subsequence(rest, later[..p - 1]))
  {
    var run := [d] + later;
    assert run[..p + 1][1..] == later[..p];
    if p > 0 {
      assert run[..p][1..] == later[..p - 1];
    }
  }

  /** Nothing is due any more once the stack is empty. */
  lemma LastIsLast(rep: Repairing, due: string)
    requires Synced(rep) && rep.mode == Outside && rep.stack == []
    requires Run(START, rep.out + due).At? && forall d | d in due :: IsClosing(d)
    ensures due == []
  {
    if due != [] {
      assert due == [due[0]] + due[1..] && due[0] in due;
      DueCloses(rep, due[0], due[1..]);
    }
  }

  /** Anything but a closer outside strings is copied. */
  lemma Copies(rep: Repairing, before: string, c: char)
    requires Synced(rep) && rep.out == before && !(ModeAfter(before) == Outside && IsClosing(c))
    ensures !Consume(rep, c).1 && Synced(Consume(rep, c).0) && Consume(rep, c).0.out == before + [c]
  {
    hide Run, ModeAfter;
    ScanMode(before);
    RunSnoc(START, before, c);
  }

  lemma StillObject(before: string, full: string, n: nat)
    requires ObjectText(before + full) && 0 < n <= |full|
    ensures ObjectText((before + full[..n]) + full[n..])
    ensures Run(START, before + full[..n]).At?
    ensures if n < |full| then InProgress(before + full[..n]) else Run(START, before + full[..n]) == START
  {
    hide Run;
    var text := before + full;
    assert text == (before + full[..n]) + full[n..];
    assert text[..|before| + n] == before + full[..n];
    if n < |full| {
      assert InProgress(text[..|before| + n]);
    } else {
      assert before + full[..n] == text;
    }
  }

  /** An object's text does not end within a string, nor with anything but a closer. */
  lemma LastCloses(before: string, full: string)
    requires ObjectText(before + full) && |full| == 1
    ensures ClosersFirst(before, full)
  {
    hide Run, ModeAfter;
    var text := before + full;
    assert text == before + [full[0]] && text[..|before|] == before;
    RunSnoc(START, before, full[0]);
    ScanMode(before);
    if before != [] {
      assert InProgress(text[..|before|]);
    }
    OneStepToStart(Run(START, before), full[0]);
  }

  lemma OneStepToStart(st: Scan, c: char)
    requires Step(st, c) == START && (st == START ==> c == '{' || IsClosing(c))
    ensures st.At? && (st.stack != [] ==> st.mode == Outside && IsClosing(c))
  {
  }

  lemma AheadIsClosers(full: string)
    ensures forall d | d in full[..ClosersAhead(full)] :: IsClosing(d)
  {
  }

  lemma {:induction false} PutsBack(rep: Repairing, before: string, full: string, cut: string, suffix: string)
    requires Synced(rep) && rep.out == before && full != [] && ObjectText(before + full)
    requires Restores(before, full, cut) && (before == [] ==> full[0] == '{')
    ensures Rescan(rep, cut + suffix) == Emitted(before + full, suffix)
    decreases |full|
  {
    hide Run, ModeAfter, ObjectText, Consume, Restorable, Subsequence, InProgress, Rescan, ClosersAhead;
    if ClosersFirst(before, full) {
      var n, m := ClosersAhead(full), ClosersAhead(cut);
      CloserAhead(full);
      var run, kept := full[..n], cut[..m];
      StillObject(before, full, n);
      ScanMode(before);
      AheadIsClosers(full);
      RestorableIsWhole(kept, run);
      var p, next := RunIsWritten(rep, run, kept, cut[m..] + suffix);
      ShortestIsWhole(kept, run, p);
      assert run[..n] == run && cut + suffix == kept + (cut[m..] + suffix);
      if full[n..] == [] {
        assert before + run == before + full && cut[m..] + suffix == suffix;
      } else {
        OpenStack(next);
        PutsBack(next, before + run, full[n..], cut[m..], suffix);
      }
    } else {
      if |full| == 1 {
        LastCloses(before, full);
      }
      Copies(rep, before, full[0]);
      StillObject(before, full, 1);
      assert full[..1] == [full[0]];
      Turn(rep, cut, suffix);
      PutsBack(Consume(rep, full[0]).0, before + [full[0]], full[1..], cut[1..], suffix);
    }
  }

  lemma CloserAhead(s: string)
    requires s != [] && IsClosing(s[0])
    ensures ClosersAhead(s) > 0
  {
  }

  lemma RestorableIsWhole(kept: string, run: string)
    requires Restorable(kept, run)
    ensures Subsequence(kept, run)
  {
  }

  lemma ShortestIsWhole(kept: string, run: string, p: nat)
    requires Subsequence(kept, run) && p <= |run|
    requires Subsequence(kept, run[..p]) && (p > 0 ==> !Subsequence(kept, run[..p - 1]))
    ensures Restorable(kept, run) <==> p == |run|
  {
    hide Subsequence;
    if p < |run| {
      var shorter := run[..|run| - 1];
      assert shorter == run[..p] + shorter[p..];
      SubsequenceGrows(kept, run[..p], shorter[p..]);
    }
  }

  lemma OpenStack(rep: Repairing)
    requires Synced(rep) && InProgress(rep.out)
    ensures rep.stack != []
  {
    hide Run;
  }

  /** Deleting closers from an object's text, of both kinds, at any nesting and in any number of
      places, is undone byte for byte, whatever surrounds the object, as long as what is left of
      every run of closers is restorable. */
  lemma DroppedClosersArePutBack(noise: string, full: string, cut: string, suffix: string)
    requires ObjectText(full) && Restores("", full, cut) && '{' !in noise
    ensures Repair(noise + cut + suffix) == full
    ensures Pass(noise + cut + suffix) == Emitted(full, suffix)
  {
    hide Rescan, Run, Restores, ObjectText, Balanced;
    var raw := noise + cut + suffix;
    var text := cut + suffix;
    RestoresThins("", full, cut);
    ThinsKeepsFirst(full, cut);
    assert "" + full == full;
    PutsBack(FRESH, "", full, cut, suffix);
    assert raw == noise + text;
    IndexOfAfter(noise, text, '{');
    assert raw[|noise|..] == text;
  }

  lemma ThinsKeepsFirst(full: string, cut: string)
    requires ObjectText(full) && Thins("", full, cut)
    ensures cut != [] && cut[0] == '{' && full != [] && full[0] == '{'
    ensures Synced(FRESH)
  {
  }

  /** Otherwise the first run that is not restorable leaves brackets open where the text goes on. */
  lemma {:induction false} NotPutBack(rep: Repairing, before: string, full: string, cut: string)
    requires Synced(rep) && rep.out == before && full != [] && ObjectText(before + full)
    requires Thins(before, full, cut) && !Restores(before, full, cut) && (before == [] ==> full[0] == '{')
    ensures Rescan(rep, cut) != Emitted(before + full, "")
    decreases |full|
  {
    hide Run, ModeAfter, ObjectText, Consume, Restorable, Subsequence, InProgress, Rescan, ClosersAhead, Synced;
    if ClosersFirst(before, full) {
      var n, m := ClosersAhead(full), ClosersAhead(cut);
      CloserAhead(full);
      var run, kept := full[..n], cut[..m];
      StillObject(before, full, n);
      SyncedMode(rep);
      AheadIsClosers(full);
      var p, next := RunIsWritten(rep, run, kept, cut[m..]);
      ShortestIsWhole(kept, run, p);
      assert cut == kept + cut[m..];
      if p == n {
        assert run[..n] == run;
        assert full[n..] != [];
        OpenStack(next);
        NotPutBack(next, before + run, full[n..], cut[m..]);
      } else {
        assert full[..p] == run[..p];
        OpenAt(before, full, p);
        OpenStack(next);
        NothingToRead(next);
        if cut[m..] != [] {
          ClosersStayOutside(before, run);
          GoesAnotherWay(next, before + run, full[n..], cut[m..]);
          if Rescan(next, cut[m..]).Emitted? {
            assert Rescan(next, cut[m..]).out[|before| + p] == full[n];
            assert (before + full)[|before| + p] == full[p];
          }
        }
      }
    } else {
      if |full| == 1 {
        LastCloses(before, full);
      }
      Copies(rep, before, full[0]);
      StillObject(before, full, 1);
      assert full[..1] == [full[0]];
      Turn(rep, cut, "");
      assert cut + "" == cut && cut[1..] + "" == cut[1..];
      NotPutBack(Consume(rep, full[0]).0, before + [full[0]], full[1..], cut[1..]);
    }
  }

  lemma SyncedMode(rep: Repairing)
    requires Synced(rep)
    ensures ModeAfter(rep.out) == rep.mode
  {
    ScanMode(rep.out);
  }

  lemma NothingToRead(rep: Repairing)
    ensures Rescan(rep, []) == GaveUp
  {
  }

  lemma {:induction false} ClosersStayOutside(before: string, run: string)
    requires ModeAfter(before) == Outside && forall d | d in run :: IsClosing(d)
    ensures ModeAfter(before + run) == Outside
    decreases |run|
  {
    if run == [] {
      assert before + run == before;
    } else {
      var init, d := run[..|run| - 1], run[|run| - 1];
      assert d in run && forall e | e in init :: e in run;
      ClosersStayOutside(before, init);
      assert before + run == (before + init) + [d];
      ModeSnoc(before + init, d);
    }
  }

  lemma OpenAt(before: string, full: string, p: nat)
    requires ObjectText(before + full) && p < |full| && (p > 0 || before != [])
    ensures InProgress(before + full[..p])
  {
    hide Run;
    assert (before + full)[..|before| + p] == before + full[..p];
  }

  /** The character behind the run is written where a closer would have to stand. */
  lemma GoesAnotherWay(rep: Repairing, before: string, full: string, cut: string)
    requires Synced(rep) && rep.mode == Outside && Thins(before, full, cut) && cut != []
    requires ModeAfter(before) == Outside && (full != [] ==> !IsClosing(full[0]))
    ensures full != [] && Rescan(rep, cut).Emitted? ==>
      rep.out + [full[0]] <= Rescan(rep, cut).out
    ensures full != []
  {
    hide Run, ModeAfter, Skeleton;
    var next := Consume(rep, cut[0]).0;
    ScanMode(rep.out);
    Copies(rep, rep.out, cut[0]);
    ScanMode(next.out);
    if Rescan(rep, cut).Emitted? {
      var last := RescanKeeps(next, next.out, cut[1..]);
    }
  }

  /** The exact condition: closers left out of an object's text come back byte for byte if and only
      if what is left of every run of them is left of no shorter beginning of it. */
  lemma PutBackExactly(noise: string, full: string, cut: string)
    requires ObjectText(full) && Thins("", full, cut) && '{' !in noise
    ensures Pass(noise + cut) == Emitted(full, "") <==> Restores("", full, cut)
  {
    hide Rescan, Run, Restores, Thins, ObjectText, Balanced;
    ThinsKeepsFirst(full, cut);
    assert "" + full == full && noise + cut + "" == noise + cut;
    IndexOfAfter(noise, cut, '{');
    assert (noise + cut)[|noise|..] == cut;
    if Restores("", full, cut) {
      DroppedClosersArePutBack(noise, full, cut, "");
    } else {
      NotPutBack(FRESH, "", full, cut);
    }
  }

  /** A well-formed object passes through byte-identical, whatever surrounds it. */
  lemma PassesThrough(noise: string, text: string, suffix: string)
    requires ObjectText(text) && '{' !in noise
    ensures Repair(noise + text + suffix) == text
    ensures Pass(noise + text + suffix) == Emitted(text, suffix)
  {
    RestoresNothing("", text);
    DroppedClosersArePutBack(noise, text, text, suffix);
  }

  // ---------- truncation ----------

  lemma {:induction false} ReturnsAlike(rep: Repairing, text: string, more: string)
    requires Rescan(rep, text).Emitted?
    ensures Rescan(rep, text + more) == Emitted(Rescan(rep, text).out, Rescan(rep, text).rest + more)
    decreases |text|
  {
    hide Consume;
    assert (text + more)[0] == text[0] && (text + more)[1..] == text[1..] + more;
    var (next, done) := Consume(rep, text[0]);
    if !done {
      ReturnsAlike(next, text[1..], more);
    }
  }

  /** Truncation is never completed: no proper prefix of an object's text, intact or with
      restorable closers dropped, gives anything but `{}`. */
  lemma TruncationGivesUp(noise: string, full: string, cut: string, n: nat)
    requires ObjectText(full) && Restores("", full, cut) && '{' !in noise && n < |cut|
    ensures Repair(noise + cut[..n]) == "{}"
  {
    hide Rescan, Run, Restores, Thins, ObjectText, Balanced, IndexOf;
    var raw := noise + cut[..n];
    DroppedClosersArePutBack(noise, full, cut, "");
    RestoresThins("", full, cut);
    ThinsKeepsFirst(full, cut);
    assert noise + cut + "" == noise + cut;
    if n == 0 {
      assert raw == noise;
    } else {
      IndexOfAfter(noise, cut[..n], '{');
      IndexOfAfter(noise, cut, '{');
      assert raw[|noise|..] == cut[..n];
      assert (noise + cut)[|noise|..] == cut;
      assert cut == cut[..n] + cut[n..];
      if Rescan(FRESH, cut[..n]).Emitted? {
        ReturnsAlike(FRESH, cut[..n], cut[n..]);
      }
    }
  }

  lemma ProperPrefixGivesUp(noise: string, text: string, n: nat)
    requires ObjectText(text) && '{' !in noise && n < |text|
    ensures Repair(noise + text[..n]) == "{}"
  {
    RestoresNothing("", text);
    TruncationGivesUp(noise, text, text, n);
  }

  // ---------- unwinding past the root ----------

  /** Some closer finds no opener of its kind and empties the stack without returning. */
  predicate Unwinds(rep: Repairing, text: string)
    decreases |text|
  {
    && text != []
    && var (next, done) := Consume(rep, text[0]);
    && !done
    && (next.stack == [] || Unwinds(next, text[1..]))
  }

  predicate RootUnwinds(raw: string) {
    var start := IndexOf(raw, '{');
    start != -1 && Unwinds(FRESH, raw[start..])
  }

  /** Every non-empty prefix still has a bracket open. */
  ghost predicate OpenThroughout(text: string) {
    text != [] && text[0] == '{' && forall i | 0 < i <= |text| :: InProgress(text[..i])
  }

  lemma StillOpen(text: string, c: char)
    requires OpenThroughout(text) && InProgress(text + [c])
    ensures OpenThroughout(text + [c])
  {
    var longer := text + [c];
    forall i | 0 < i <= |longer|
      ensures InProgress(longer[..i])
    {
      if i <= |text| {
        assert longer[..i] == text[..i];
      } else {
        assert longer[..i] == longer;
      }
    }
  }

  lemma {:induction false} UnwindStaysOpen(out: string, stack: seq<Bracket>, wanted: Bracket)
    requires Run(START, out) == At(stack, Outside) && OpenThroughout(out)
    requires Unwind(stack, wanted).0 != []
    ensures OpenThroughout(out + Unwind(stack, wanted).1)
    decreases |stack|
  {
    hide Run, OpenThroughout;
    if stack[|stack| - 1] == wanted {
      assert out + "" == out;
    } else {
      var c := Closing(stack[|stack| - 1]);
      var (left, written) := Unwind(stack[..|stack| - 1], wanted);
      RunSnoc(START, out, c);
      StillOpen(out, c);
      UnwindStaysOpen(out + [c], stack[..|stack| - 1], wanted);
      assert out + ([c] + written) == (out + [c]) + written;
    }
  }

  /** A turn that neither returns nor empties the stack keeps every prefix open, and one that
      returns completes exactly one object. */
  lemma TurnStaysOpen(rep: Repairing, c: char)
    requires Synced(rep) && OpenThroughout(rep.out)
    ensures var (next, done) := Consume(rep, c);
      && (!done && next.stack != [] ==> Synced(next) && OpenThroughout(next.out))
      && (done ==> ObjectText(next.out))
  {
    hide Run, OpenThroughout, ObjectText, Unwind, Skeleton, ModeAfter;
    ConsumeKeeps(rep, rep.out, c) by {
      ScanMode(rep.out);
    }
    var (next, done) := Consume(rep, c);
    if rep.mode == Outside && IsClosing(c) {
      var (left, written) := Unwind(rep.stack, Kind(c));
      if left != [] {
        UnwindStaysOpen(rep.out, rep.stack, Kind(c));
        if done {
          Completes(rep.out + written, c);
        } else {
          StillOpen(rep.out + written, c);
        }
      }
    } else {
      assert next.out == rep.out + [c];
      if next.stack != [] {
        StillOpen(rep.out, c);
      }
    }
  }

  lemma Completes(text: string, c: char)
    requires OpenThroughout(text) && Balanced(text + [c])
    ensures ObjectText(text + [c])
  {
    forall i | 0 < i < |text + [c]|
      ensures InProgress((text + [c])[..i])
    {
      assert (text + [c])[..i] == text[..i];
    }
  }

  lemma {:induction false} NoUnwindingGivesOneObject(rep: Repairing, text: string)
    requires Synced(rep) && OpenThroughout(rep.out)
    requires Rescan(rep, text).Emitted? && !Unwinds(rep, text)
    ensures ObjectText(Rescan(rep, text).out)
    decreases |text|
  {
    hide Consume, OpenThroughout, ObjectText, Synced;
    TurnStaysOpen(rep, text[0]);
    var (next, done) := Consume(rep, text[0]);
    if !done {
      NoUnwindingGivesOneObject(next, text[1..]);
    }
  }

  /** Unwinding leaves something balanced behind, and more is written after it. */
  lemma {:induction false} UnwindingGivesMore(rep: Repairing, scanned: string, text: string) returns (n: nat)
    requires Keeps(rep, scanned)
    requires Rescan(rep, text).Emitted? && Unwinds(rep, text)
    ensures |rep.out| <= n < |Rescan(rep, text).out| && rep.out <= Rescan(rep, text).out
    ensures Run(START, Rescan(rep, text).out[..n]).At? && Run(START, Rescan(rep, text).out[..n]).stack == []
    decreases |text|
  {
    hide Consume, Run, ModeAfter, Skeleton;
    var (next, done) := Consume(rep, text[0]);
    ConsumeKeeps(rep, scanned, text[0]);
    if next.stack == [] {
      n := |next.out|;
      var last := RescanKeeps(next, scanned + [text[0]], text[1..]);
      assert last.out[..n] == next.out;
    } else {
      n := UnwindingGivesMore(next, scanned + [text[0]], text[1..]);
    }
  }

  /** The result is the text of exactly one object if and only if no closer unwinds past
      the root. */
  lemma OneObjectUnlessUnwound(raw: string)
    requires Pass(raw).Emitted?
    ensures ObjectText(Repair(raw)) <==> !RootUnwinds(raw)
  {
    hide Consume, Run, ModeAfter, Skeleton;
    var text := raw[IndexOf(raw, '{')..];
    var first := Repairing("{", [Curly], Outside);
    FirstTurn(text);
    FirstTurnUnwinds(text);
    if Unwinds(first, text[1..]) {
      var n := UnwindingGivesMore(first, "{", text[1..]);
      var out := Repair(raw);
      assert 0 < n < |out|;
      assert !InProgress(out[..n]);
    } else {
      assert OpenThroughout("{") by {
        assert "{"[..1] == "{";
      }
      NoUnwindingGivesOneObject(first, text[1..]);
    }
  }

  lemma FirstTurnUnwinds(text: string)
    requires text != [] && text[0] == '{'
    ensures Unwinds(FRESH, text) == Unwinds(Repairing("{", [Curly], Outside), text[1..])
  {
    assert "" + ['{'] == "{";
    assert [] + [Curly] == [Curly];
    assert Consume(FRESH, '{') == (Repairing("{", [Curly], Outside), false);
  }

  lemma RepairedObject(text: string)
    requires ObjectText(text)
    ensures Repair(text) == text
  {
    PassesThrough("", text, "");
    assert "" + text + "" == text;
  }

  lemma GiveUpIsObject()
    ensures ObjectText("{}") && Repair("{}") == "{}"
  {
    BracedIsObject("");
    assert "{" + "" + "}" == "{}";
    RepairedObject("{}");
  }

  lemma RepairOpens(raw: string)
    ensures Balanced(Repair(raw)) && Repair(raw) != [] && Repair(raw)[0] == '{'
  {
    RepairBalancesAndConserves(raw);
  }

  lemma RepairExtracts(text: string, n: nat)
    requires n <= |text| && ObjectText(text[..n])
    ensures Repair(text) == text[..n]
  {
    hide ObjectText, Repair, Pass;
    var first, more := text[..n], text[n..];
    PassesThrough("", first, more);
    assert text == first + more;
    assert "" + first == first;
  }

  /** Repairing a repaired text extracts its first object. */
  lemma SecondPass(raw: string) returns (n: nat)
    ensures 0 < n <= |Repair(raw)| && ObjectText(Repair(raw)[..n])
    ensures Repair(Repair(raw)) == Repair(raw)[..n]
  {
    hide ObjectText, Balanced, Repair, Pass, Skeleton, ScannedBy;
    var out := Repair(raw);
    RepairOpens(raw);
    n := FirstObject(out);
    RepairExtracts(out, n);
  }

  /** For every input a second pass reaches a fixed point. */
  lemma SecondPassIsFixed(raw: string)
    ensures Repair(Repair(Repair(raw))) == Repair(Repair(raw))
    ensures ObjectText(Repair(Repair(raw)))
  {
    hide ObjectText, Repair;
    var n := SecondPass(raw);
    RepairedObject(Repair(raw)[..n]);
  }

  /** One pass is already a fixed point exactly when the pass gives up or no closer unwinds
      past the root. */
  lemma FixedUnlessUnwound(raw: string)
    ensures Repair(Repair(raw)) == Repair(raw) <==> Pass(raw).GaveUp? || !RootUnwinds(raw)
  {
    hide ObjectText, RootUnwinds, IndexOf, Rescan;
    if Pass(raw).GaveUp? {
      GiveUpIsObject();
    } else {
      OneObjectUnlessUnwound(raw);
      var out := Repair(raw);
      if ObjectText(out) {
        RepairedObject(out);
      } else {
        var n := SecondPass(raw);
        assert out[..|out|] == out;
      }
    }
  }

  /** The result does not always end with `}`, nor hold a single object: a `]` that finds no
      `[` open empties the stack and the scan goes on. */
  lemma UnwoundExample()
    ensures Repair("{][]") == "{}[]"
    ensures RootUnwinds("{][]")
  {
    var raw := "{][]";
    assert raw[0..] == raw && raw[1..] == "][]" && "][]"[1..] == "[]" && "[]"[1..] == "]";
    FirstTurn(raw);
    FirstTurnUnwinds(raw);
    var r0 := Repairing("{", [Curly], Outside);
    var r1 := Repairing("{}", [], Outside);
    var r2 := Repairing("{}[", [Square], Outside);
    UnwoundTurns();
    hide Consume;
    assert Rescan(r0, "][]") == Rescan(r1, "[]");
    assert Rescan(r1, "[]") == Rescan(r2, "]");
  }

  lemma UnwoundTurns()
    ensures Consume(Repairing("{", [Curly], Outside), ']') == (Repairing("{}", [], Outside), false)
    ensures Consume(Repairing("{}", [], Outside), '[') == (Repairing("{}[", [Square], Outside), false)
    ensures Consume(Repairing("{}[", [Square], Outside), ']') == (Repairing("{}[]", [], Outside), true)
  {
    assert Unwind([Curly], Square) == ([], "}") by {
      assert [Curly][..0] == [];
      assert ['}'] + "" == "}";
    }
    assert "{" + "}" == "{}";
    assert "{}" + ['['] == "{}[" && [] + [Square] == [Square];
    assert "{}[" + "" + [']'] == "{}[]";
  }
}
