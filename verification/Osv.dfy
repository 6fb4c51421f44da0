/** OSV affected ranges as src/osv.mts evaluates them. */
module Osv {
  import opened Text
  import opened Semver

  datatype RangeEvent = RangeEvent(introduced: Option<string>, fixed: Option<string>)

  datatype Affected = Affected(ranges: seq<seq<RangeEvent>>, versions: seq<string>)

  // ---------- the walk ----------

  /** The walk from a given open `introduced`. */
  predicate Walk(events: seq<RangeEvent>, active: Option<string>, version: string)
    decreases |events|
  {
    if events == [] then active.Some? && AtOrBelow(active.value, version)
    else
      var e := events[0];
      var current := if e.introduced.Some? then e.introduced else active;
      if e.fixed.None? then Walk(events[1..], current, version)
      else
        || (current.Some? && AtOrBelow(current.value, version) && !AtOrBelow(e.fixed.value, version))
        || Walk(events[1..], None, version)
  }

  predicate AffectedByRange(events: seq<RangeEvent>, version: string) {
    Walk(events, None, version)
  }

  method IsVersionAffectedByRange(events: seq<RangeEvent>, version: string) returns (affected: bool)
    ensures affected == AffectedByRange(events, version)
  {
    hide AtOrBelow;
    var activeIntroduced: Option<string> := None;
    for i := 0 to |events|
      invariant Walk(events[i..], activeIntroduced, version) == Walk(events, None, version)
    {
      var event := events[i];
      assert events[i..][0] == event && events[i..][1..] == events[i + 1..];
      CompareIsTotalPreorder(version, version, version);
      if event.introduced.Some? {
        activeIntroduced := event.introduced;
      }
      if event.fixed.Some? {
        if activeIntroduced.Some?
          && CompareSemverVersions(version, activeIntroduced.value) >= 0
          && CompareSemverVersions(version, event.fixed.value) < 0
        {
          BelowMeansNotAtOrAbove(version, activeIntroduced.value);
          BelowMeansNotAtOrAbove(version, event.fixed.value);
          return true;
        }
        BelowMeansNotAtOrAbove(version, event.fixed.value);
        if activeIntroduced.Some? {
          BelowMeansNotAtOrAbove(version, activeIntroduced.value);
        }
        activeIntroduced := None;
      }
    }
    if activeIntroduced.Some? {
      BelowMeansNotAtOrAbove(version, activeIntroduced.value);
    }
    return activeIntroduced.Some? && CompareSemverVersions(version, activeIntroduced.value) >= 0;
  }

  lemma BelowMeansNotAtOrAbove(version: string, bound: string)
    ensures CompareSemverVersions(version, bound) >= 0 <==> AtOrBelow(bound, version)
    ensures CompareSemverVersions(version, bound) < 0 <==> !AtOrBelow(bound, version)
  {
    CompareIsTotalPreorder(version, bound, version);
  }

  // ---------- the windows ----------

  /** A half-open window of versions, unbounded when nothing closes it. */
  datatype Window = Window(introduced: string, fixed: Option<string>)

  predicate Contains(w: Window, version: string) {
    AtOrBelow(w.introduced, version) && (w.fixed.Some? ==> !AtOrBelow(w.fixed.value, version))
  }

  /** The windows an event list opens and closes. */
  function Windows(events: seq<RangeEvent>, active: Option<string>): seq<Window>
    decreases |events|
  {
    if events == [] then if active.Some? then [Window(active.value, None)] else []
    else
      var e := events[0];
      var current := if e.introduced.Some? then e.introduced else active;
      if e.fixed.None? then Windows(events[1..], current)
      else (if current.Some? then [Window(current.value, e.fixed)] else []) + Windows(events[1..], None)
  }

  /** For every event list a version is affected exactly when one of the windows holds it. */
  lemma {:induction false} WalkIsUnionOfWindows(events: seq<RangeEvent>, active: Option<string>, version: string)
    ensures Walk(events, active, version) <==> exists w | w in Windows(events, active) :: Contains(w, version)
    decreases |events|
  {
    hide AtOrBelow;
    if events == [] {
      if active.Some? {
        assert Window(active.value, None) in Windows(events, active);
      }
    } else {
      var e := events[0];
      var current := if e.introduced.Some? then e.introduced else active;
      if e.fixed.None? {
        WalkIsUnionOfWindows(events[1..], current, version);
      } else {
        WalkIsUnionOfWindows(events[1..], None, version);
        if current.Some? {
          assert Window(current.value, e.fixed) in Windows(events, active);
        }
      }
    }
  }

  // ---------- the OSV evaluation algorithm ----------

  /** The Evaluation algorithm of the OSV Schema over a sorted event list: every boundary at
      or below the version sets or clears the verdict. */
  predicate Evaluate(events: seq<RangeEvent>, version: string, vulnerable: bool)
    decreases |events|
  {
    if events == [] then vulnerable
    else
      var e := events[0];
      if e.introduced.Some? && AtOrBelow(e.introduced.value, version) then Evaluate(events[1..], version, true)
      else if e.fixed.Some? && AtOrBelow(e.fixed.value, version) then Evaluate(events[1..], version, false)
      else Evaluate(events[1..], version, vulnerable)
  }

  /** The version an event of a single kind names. */
  function Boundary(e: RangeEvent): string {
    if e.introduced.Some? then e.introduced.value else if e.fixed.Some? then e.fixed.value else ""
  }

  /** Every event is an `introduced` or a `fixed`, and not both. */
  predicate SingleKind(events: seq<RangeEvent>) {
    forall i | 0 <= i < |events| :: events[i].introduced.Some? != events[i].fixed.Some?
  }

  /** Boundaries that do not go down. */
  predicate Ascending(events: seq<RangeEvent>)
    decreases |events|
  {
    |events| < 2
    || (AtOrBelow(Boundary(events[0]), Boundary(events[1])) && Ascending(events[1..]))
  }

  lemma {:induction false} LowestFirst(events: seq<RangeEvent>, i: nat)
    requires Ascending(events) && i < |events|
    ensures AtOrBelow(Boundary(events[0]), Boundary(events[i]))
    decreases |events|
  {
    hide AtOrBelow;
    CompareIsTotalPreorder(Boundary(events[0]), Boundary(events[0]), Boundary(events[0]));
    if i > 0 {
      LowestFirst(events[1..], i - 1);
      CompareIsTotalPreorder(Boundary(events[0]), Boundary(events[1]), Boundary(events[i]));
    }
  }

  /** Boundaries above the version leave the verdict as it is. */
  lemma {:induction false} AboveTheVersion(events: seq<RangeEvent>, version: string, vulnerable: bool)
    requires SingleKind(events) && Ascending(events)
    requires events != [] ==> !AtOrBelow(Boundary(events[0]), version)
    ensures Evaluate(events, version, vulnerable) == vulnerable
    decreases |events|
  {
    hide AtOrBelow;
    if events != [] {
      if |events| > 1 {
        StaysAbove(Boundary(events[0]), Boundary(events[1]), version);
      }
      AboveTheVersion(events[1..], version, vulnerable);
    }
  }

  lemma StaysAbove(lower: string, upper: string, version: string)
    requires AtOrBelow(lower, upper) && !AtOrBelow(lower, version)
    ensures !AtOrBelow(upper, version)
  {
    CompareIsTotalPreorder(lower, upper, version);
  }

  /** An `introduced` directly after an `introduced` of strictly lower version. */
  predicate ReopensAt(events: seq<RangeEvent>, i: nat) {
    && i + 1 < |events| && events[i].introduced.Some? && events[i + 1].introduced.Some?
    && !AtOrBelow(events[i + 1].introduced.value, events[i].introduced.value)
  }

  predicate Reopens(events: seq<RangeEvent>) {
    exists i | 0 <= i < |events| :: ReopensAt(events, i)
  }

  lemma RestReopens(events: seq<RangeEvent>)
    requires events != [] && Reopens(events[1..])
    ensures Reopens(events)
  {
    var i :| 0 <= i < |events[1..]| && ReopensAt(events[1..], i);
    assert ReopensAt(events, i + 1);
  }

  /** The walk that has `active` open follows the evaluation of the rest. */
  lemma {:induction false} WalkFollowsEvaluation(events: seq<RangeEvent>, active: Option<string>, version: string)
    requires SingleKind(events) && Ascending(events) && !Reopens(events)
    requires active.Some? && events != [] ==>
      && AtOrBelow(active.value, Boundary(events[0]))
      && (events[0].introduced.Some? ==> AtOrBelow(events[0].introduced.value, active.value))
    ensures Walk(events, active, version)
         == Evaluate(events, version, active.Some? && AtOrBelow(active.value, version))
    decreases |events|
  {
    hide AtOrBelow;
    if events != [] {
      var e, rest := events[0], events[1..];
      assert !Reopens(rest) by {
        if Reopens(rest) {
          RestReopens(events);
        }
      }
      assert !ReopensAt(events, 0);
      if e.introduced.Some? {
        WalkFollowsEvaluation(rest, e.introduced, version);
        if active.Some? {
          CompareIsTotalPreorder(active.value, e.introduced.value, version);
          CompareIsTotalPreorder(e.introduced.value, active.value, version);
        }
      } else {
        WalkFollowsEvaluation(rest, None, version);
        if !AtOrBelow(Boundary(e), version) {
          if rest != [] {
            StaysAbove(Boundary(e), Boundary(rest[0]), version);
          }
          AboveTheVersion(rest, version, true);
          AboveTheVersion(rest, version, false);
        }
      }
    }
  }

  /** Nothing is affected below every window. */
  lemma {:induction false} WalkAbove(events: seq<RangeEvent>, active: Option<string>, version: string)
    requires SingleKind(events) && Ascending(events)
    requires active.Some? ==> !AtOrBelow(active.value, version)
    requires events != [] ==> !AtOrBelow(Boundary(events[0]), version)
    ensures !Walk(events, active, version)
    decreases |events|
  {
    hide AtOrBelow;
    if events != [] {
      var e, rest := events[0], events[1..];
      if rest != [] {
        StaysAbove(Boundary(e), Boundary(rest[0]), version);
      }
      WalkAbove(rest, if e.introduced.Some? then e.introduced else None, version);
    }
  }

  /** Where a window is reopened, the walk forgets the lower `introduced`. */
  lemma {:induction false} ReopeningForgets(events: seq<RangeEvent>, active: Option<string>, vulnerable: bool, i: nat)
    requires SingleKind(events) && Ascending(events) && ReopensAt(events, i)
    ensures var version := events[i].introduced.value;
      !Walk(events, active, version) && Evaluate(events, version, vulnerable)
    decreases |events|
  {
    hide AtOrBelow;
    var e, rest, version := events[0], events[1..], events[i].introduced.value;
    LowestFirst(events, i);
    if i == 0 {
      WalkAbove(rest[1..], rest[0].introduced, version) by {
        if rest[1..] != [] {
          StaysAbove(Boundary(rest[0]), Boundary(rest[1]), version);
        }
      }
      AboveTheVersion(rest, version, true);
    } else {
      assert ReopensAt(rest, i - 1);
      ReopeningForgets(rest, if e.introduced.Some? then e.introduced else None, e.introduced.Some?, i - 1);
    }
  }

  /** On sorted events of a single kind each, the one-pass walk is the OSV evaluation for every
      version if and only if no `introduced` directly follows an `introduced` of strictly lower
      version. */
  lemma WalkIsEvaluation(events: seq<RangeEvent>)
    requires SingleKind(events) && Ascending(events)
    ensures (forall version: string :: AffectedByRange(events, version) == Evaluate(events, version, false))
      <==> !Reopens(events)
  {
    hide Walk, Evaluate;
    if Reopens(events) {
      var i :| 0 <= i < |events| && ReopensAt(events, i);
      ReopeningForgets(events, None, false, i);
      var version := events[i].introduced.value;
      assert AffectedByRange(events, version) != Evaluate(events, version, false);
    } else {
      forall version: string
        ensures AffectedByRange(events, version) == Evaluate(events, version, false)
      {
        WalkFollowsEvaluation(events, None, version);
      }
    }
  }

  /** `introduced` and `fixed` in turn, from `opening` on. */
  predicate Alternating(events: seq<RangeEvent>, opening: bool)
    decreases |events|
  {
    events == []
    || (&& events[0].introduced.Some? == opening && events[0].fixed.Some? == !opening
        && Alternating(events[1..], !opening))
  }

  /** Events in turn never reopen a window. */
  lemma {:induction false} AlternatingNeverReopens(events: seq<RangeEvent>, opening: bool)
    requires Alternating(events, opening)
    ensures SingleKind(events) && !Reopens(events)
    decreases |events|
  {
    hide AtOrBelow;
    if events != [] {
      var rest := events[1..];
      AlternatingNeverReopens(rest, !opening);
      assert forall i | 0 < i < |events| :: events[i] == rest[i - 1];
      forall i | 0 <= i < |events|
        ensures !ReopensAt(events, i)
      {
        if i > 0 {
          assert !ReopensAt(rest, i - 1);
        }
      }
    }
  }

  // ---------- events in any order ----------

  /** An event put before the first one with a strictly higher boundary. */
  function Insert(e: RangeEvent, events: seq<RangeEvent>): seq<RangeEvent>
    decreases |events|
  {
    if events == [] || !AtOrBelow(Boundary(events[0]), Boundary(e)) then [e] + events
    else [events[0]] + Insert(e, events[1..])
  }

  /** The events sorted by version, equal ones in their order, as the Evaluation algorithm asks
      for. */
  function Sorted(events: seq<RangeEvent>): seq<RangeEvent> {
    if events == [] then [] else Insert(events[|events| - 1], Sorted(events[..|events| - 1]))
  }

  lemma {:induction false} InsertSorts(e: RangeEvent, events: seq<RangeEvent>)
    requires Ascending(events)
    ensures Ascending(Insert(e, events))
    ensures Insert(e, events)[0] == e || (events != [] && Insert(e, events)[0] == events[0])
    decreases |events|
  {
    hide AtOrBelow, Boundary;
    if events != [] {
      if !AtOrBelow(Boundary(events[0]), Boundary(e)) {
        CompareIsTotalPreorder(Boundary(events[0]), Boundary(e), Boundary(e));
        assert ([e] + events)[1..] == events;
      } else {
        var more := Insert(e, events[1..]);
        InsertSorts(e, events[1..]);
        assert ([events[0]] + more)[1..] == more;
      }
    }
  }

  lemma {:induction false} InsertKeeps(e: RangeEvent, events: seq<RangeEvent>)
    ensures multiset(Insert(e, events)) == multiset(events) + multiset{e}
    decreases |events|
  {
    hide AtOrBelow, Boundary;
    if events != [] && AtOrBelow(Boundary(events[0]), Boundary(e)) {
      InsertKeeps(e, events[1..]);
      assert events == [events[0]] + events[1..];
    }
  }

  lemma {:induction false} SortedSorts(events: seq<RangeEvent>)
    ensures Ascending(Sorted(events)) && multiset(Sorted(events)) == multiset(events)
    decreases |events|
  {
    if events != [] {
      var init, e := events[..|events| - 1], events[|events| - 1];
      SortedSorts(init);
      InsertSorts(e, Sorted(init));
      InsertKeeps(e, Sorted(init));
      assert events == init + [e];
    }
  }

  /** The version lies on the same side of every boundary as `other`. */
  predicate SameSides(events: seq<RangeEvent>, version: string, other: string) {
    forall e | e in events :: AtOrBelow(Boundary(e), version) == AtOrBelow(Boundary(e), other)
  }

  /** Walk and evaluation look at a version only through the boundaries at or below it. */
  lemma {:induction false} SidesDecideWalk(events: seq<RangeEvent>, active: Option<string>, version: string, other: string)
    requires SingleKind(events) && SameSides(events, version, other)
    requires active.Some? ==> AtOrBelow(active.value, version) == AtOrBelow(active.value, other)
    ensures Walk(events, active, version) == Walk(events, active, other)
    decreases |events|
  {
    hide AtOrBelow;
    if events != [] {
      var e := events[0];
      assert e in events && AtOrBelow(Boundary(e), version) == AtOrBelow(Boundary(e), other);
      assert forall f | f in events[1..] :: f in events;
      SidesDecideWalk(events[1..], if e.introduced.Some? then e.introduced else None, version, other);
    }
  }

  lemma {:induction false} SidesDecideEvaluation(events: seq<RangeEvent>, version: string, other: string, vulnerable: bool)
    requires SingleKind(events) && SameSides(events, version, other)
    ensures Evaluate(events, version, vulnerable) == Evaluate(events, other, vulnerable)
    decreases |events|
  {
    hide AtOrBelow;
    if events != [] {
      var e := events[0];
      assert e in events && AtOrBelow(Boundary(e), version) == AtOrBelow(Boundary(e), other);
      assert forall f | f in events[1..] :: f in events;
      SidesDecideEvaluation(events[1..], version, other,
        if AtOrBelow(Boundary(e), version) then e.introduced.Some? else vulnerable);
    }
  }

  /** The highest boundary at or below the version has it on the same sides. */
  lemma {:induction false} HighestBelow(events: seq<RangeEvent>, version: string) returns (e: RangeEvent)
    requires exists f | f in events :: AtOrBelow(Boundary(f), version)
    ensures e in events && AtOrBelow(Boundary(e), version) && SameSides(events, version, Boundary(e))
    decreases |events|
  {
    hide AtOrBelow, Boundary, SameSides;
    var first, rest := events[0], events[1..];
    assert events == [first] + rest;
    if exists f | f in rest :: AtOrBelow(Boundary(f), version) {
      e := HighestBelow(rest, version);
      if AtOrBelow(Boundary(first), version) && !AtOrBelow(Boundary(first), Boundary(e)) {
        HigherSides(rest, version, Boundary(e), Boundary(first));
        e := first;
        AtOrBelowItself(Boundary(e));
      } else if !AtOrBelow(Boundary(first), version) {
        LowerStays(Boundary(first), Boundary(e), version);
      }
    } else {
      e := first;
      AtOrBelowItself(Boundary(e));
      NoneBelow(rest, version, Boundary(e));
    }
    OneMoreSide(first, rest, version, Boundary(e));
  }

  lemma AtOrBelowItself(boundary: string)
    ensures AtOrBelow(boundary, boundary)
  {
    CompareIsTotalPreorder(boundary, boundary, boundary);
  }

  lemma OneMoreSide(first: RangeEvent, rest: seq<RangeEvent>, version: string, other: string)
    requires SameSides(rest, version, other)
    requires AtOrBelow(Boundary(first), version) == AtOrBelow(Boundary(first), other)
    ensures SameSides([first] + rest, version, other)
  {
    hide AtOrBelow, Boundary;
  }

  lemma NoneBelow(events: seq<RangeEvent>, version: string, lower: string)
    requires AtOrBelow(lower, version) && forall e | e in events :: !AtOrBelow(Boundary(e), version)
    ensures SameSides(events, version, lower)
  {
    hide AtOrBelow, Boundary;
    forall e | e in events
      ensures !AtOrBelow(Boundary(e), lower)
    {
      LowerStays(Boundary(e), lower, version);
    }
  }

  lemma LowerStays(upper: string, lower: string, version: string)
    requires AtOrBelow(lower, version) && !AtOrBelow(upper, version)
    ensures !AtOrBelow(upper, lower)
  {
    CompareIsTotalPreorder(upper, lower, version);
  }

  lemma HigherSides(events: seq<RangeEvent>, version: string, low: string, high: string)
    requires SameSides(events, version, low) && AtOrBelow(high, version) && !AtOrBelow(high, low)
    ensures SameSides(events, version, high)
  {
    hide AtOrBelow, Boundary;
    CompareIsTotalPreorder(low, high, version);
    forall e | e in events
      ensures AtOrBelow(Boundary(e), version) == AtOrBelow(Boundary(e), high)
    {
      CompareIsTotalPreorder(Boundary(e), low, high);
      CompareIsTotalPreorder(Boundary(e), high, version);
    }
  }

  lemma {:induction false} NothingBelow(events: seq<RangeEvent>, active: Option<string>, version: string)
    requires SingleKind(events) && forall e | e in events :: !AtOrBelow(Boundary(e), version)
    requires active.Some? ==> !AtOrBelow(active.value, version)
    ensures !Walk(events, active, version) && !Evaluate(events, version, false)
    decreases |events|
  {
    hide AtOrBelow;
    if events != [] {
      var e := events[0];
      assert e in events && forall f | f in events[1..] :: f in events;
      NothingBelow(events[1..], if e.introduced.Some? then e.introduced else None, version);
    }
  }

  /** For events in any order, the walk is the evaluation of the sorted events for every version
      if and only if it is for the versions the events name. */
  lemma BoundariesDecide(events: seq<RangeEvent>)
    requires SingleKind(events)
    ensures (forall version: string :: AffectedByRange(events, version) == Evaluate(Sorted(events), version, false))
      <==> forall e | e in events :: Agrees(events, Boundary(e))
  {
    hide Walk, Evaluate, Sorted, Boundary;
    var sorted := Sorted(events);
    SortedKinds(events);
    if forall e | e in events :: Agrees(events, Boundary(e)) {
      forall version: string
        ensures AffectedByRange(events, version) == Evaluate(sorted, version, false)
      {
        if exists e | e in events :: AtOrBelow(Boundary(e), version) {
          var e := HighestBelow(events, version);
          SidesDecideWalk(events, None, version, Boundary(e));
          SidesDecideEvaluation(sorted, version, Boundary(e), false);
          assert Agrees(events, Boundary(e));
        } else {
          NothingBelow(events, None, version);
          NothingBelow(sorted, None, version);
        }
      }
    } else if forall version: string :: AffectedByRange(events, version) == Evaluate(sorted, version, false) {
      forall e | e in events
        ensures Agrees(events, Boundary(e))
      {
        assert AffectedByRange(events, Boundary(e)) == Evaluate(sorted, Boundary(e), false);
      }
    }
  }

  predicate Agrees(events: seq<RangeEvent>, version: string) {
    AffectedByRange(events, version) == Evaluate(Sorted(events), version, false)
  }

  lemma SortedKinds(events: seq<RangeEvent>)
    requires SingleKind(events)
    ensures SingleKind(Sorted(events)) && forall e :: e in Sorted(events) <==> e in events
  {
    hide Sorted;
    SortedSorts(events);
    forall e: RangeEvent
      ensures e in Sorted(events) <==> e in events
    {
      assert e in multiset(Sorted(events)) <==> e in multiset(events);
    }
    forall i | 0 <= i < |Sorted(events)|
      ensures Sorted(events)[i].introduced.Some? != Sorted(events)[i].fixed.Some?
    {
      assert Sorted(events)[i] in events;
    }
  }

  /** A `fixed` before the lower `introduced` it should close leaves the window open: every
      version at or above the `fixed` is affected for the walk and not for the evaluation. */
  lemma UnsortedEventsDiffer(low: string, high: string, version: string)
    requires !AtOrBelow(high, low) && AtOrBelow(high, version)
    ensures var introduced, fixed := RangeEvent(Some(low), None), RangeEvent(None, Some(high));
      && Sorted([fixed, introduced]) == [introduced, fixed]
      && AffectedByRange([fixed, introduced], version) && !Evaluate([introduced, fixed], version, false)
  {
    hide AtOrBelow;
    var introduced, fixed := RangeEvent(Some(low), None), RangeEvent(None, Some(high));
    assert [fixed, introduced][..1] == [fixed] && [fixed][..0] == [];
    assert Sorted([fixed]) == [fixed];
    assert [fixed, introduced][1..] == [introduced] && [introduced][1..] == [];
    assert [introduced, fixed][1..] == [fixed] && [fixed][1..] == [];
    CompareIsTotalPreorder(low, high, version);
    assert AtOrBelow(low, version);
    assert Walk([introduced], None, version) == Walk([], Some(low), version);
    assert Evaluate([fixed], version, true) == Evaluate([], version, false);
  }

  // ---------- entries and advisories ----------

  predicate AffectedByEntry(entry: Affected, version: string) {
    version in entry.versions || exists r | r in entry.ranges :: AffectedByRange(r, version)
  }

  method IsVersionAffectedByEntry(entry: Affected, version: string) returns (affected: bool)
    ensures affected == AffectedByEntry(entry, version)
  {
    if version in entry.versions {
      return true;
    }
    for i := 0 to |entry.ranges|
      invariant forall r | r in entry.ranges[..i] :: !AffectedByRange(r, version)
    {
      var hit := IsVersionAffectedByRange(entry.ranges[i], version);
      if hit {
        return true;
      }
      assert entry.ranges[..i + 1] == entry.ranges[..i] + [entry.ranges[i]];
    }
    assert entry.ranges[..|entry.ranges|] == entry.ranges;
    return false;
  }

  predicate Vulnerable(advisory: seq<Affected>, version: string) {
    exists entry | entry in advisory :: AffectedByEntry(entry, version)
  }

  /** The affected versions among those available, in their order. */
  function VulnerableVersions(advisory: seq<Affected>, available: seq<string>): seq<string> {
    if available == [] then []
    else
      (if Vulnerable(advisory, available[0]) then [available[0]] else [])
      + VulnerableVersions(advisory, available[1..])
  }

  /** Exactly the affected versions are kept, each as often as it is available. */
  lemma {:induction false} VulnerableVersionsSelects(advisory: seq<Affected>, available: seq<string>, version: string)
    ensures multiset(VulnerableVersions(advisory, available))[version]
         == if Vulnerable(advisory, version) then multiset(available)[version] else 0
    decreases |available|
  {
    hide Vulnerable;
    if available != [] {
      VulnerableVersionsSelects(advisory, available[1..], version);
      assert available == [available[0]] + available[1..];
    }
  }

  /** The input order is kept: the cut of a list is the cut of its parts in turn. */
  lemma {:induction false} VulnerableVersionsInOrder(advisory: seq<Affected>, available: seq<string>, more: seq<string>)
    ensures VulnerableVersions(advisory, available + more)
         == VulnerableVersions(advisory, available) + VulnerableVersions(advisory, more)
    decreases |available|
  {
    hide Vulnerable;
    if available == [] {
      assert available + more == more;
    } else {
      VulnerableVersionsInOrder(advisory, available[1..], more);
      assert (available + more)[1..] == available[1..] + more;
      PrependConcat(if Vulnerable(advisory, available[0]) then [available[0]] else [],
                    VulnerableVersions(advisory, available[1..]), VulnerableVersions(advisory, more));
    }
  }

  // ---------- written versions ----------

  /** For a written introduced and fixed pair, in one event or in two, a written version is affected
      if and only if its triple is at or above the first and below the second. */
  lemma PairIsInterval(low: Parts, high: Parts, v: Parts, suffix: string)
    requires IsTriple(low) && IsTriple(high) && IsTriple(v) && IsSuffix(suffix)
    ensures var introduced, fixed := Some(Written(low, "")), Some(Written(high, ""));
      var inside := AtOrBefore(low, v) && !AtOrBefore(high, v);
      && (AffectedByRange([RangeEvent(introduced, None), RangeEvent(None, fixed)], Written(v, suffix)) <==> inside)
      && (AffectedByRange([RangeEvent(introduced, fixed)], Written(v, suffix)) <==> inside)
      && (AffectedByRange([RangeEvent(introduced, None)], Written(v, suffix)) <==> AtOrBefore(low, v))
  {
    hide AtOrBelow, Written, IsSuffix;
    assert IsSuffix("") by {
      NoSuffix();
    }
    WrittenOrder(low, v, "", suffix);
    WrittenOrder(high, v, "", suffix);
    PairWalks(Written(low, ""), Written(high, ""), Written(v, suffix));
  }

  lemma PairWalks(low: string, high: string, version: string)
    ensures var inside := AtOrBelow(low, version) && !AtOrBelow(high, version);
      && (AffectedByRange([RangeEvent(Some(low), None), RangeEvent(None, Some(high))], version) <==> inside)
      && (AffectedByRange([RangeEvent(Some(low), Some(high))], version) <==> inside)
      && (AffectedByRange([RangeEvent(Some(low), None)], version) <==> AtOrBelow(low, version))
  {
    hide AtOrBelow;
    var open, close, both := RangeEvent(Some(low), None), RangeEvent(None, Some(high)), RangeEvent(Some(low), Some(high));
    assert [open, close][1..] == [close] && [close][1..] == [] && [open][1..] == [] && [both][1..] == [];
    assert Walk([close], Some(low), version) == (AtOrBelow(low, version) && !AtOrBelow(high, version));
    assert Walk([open, close], None, version) == Walk([close], Some(low), version);
    assert Walk([open], None, version) == Walk([], Some(low), version);
  }

  lemma NoSuffix()
    ensures IsSuffix("")
  {
  }

  /** `introduced: "0"` opens a window for every written version. */
  lemma ZeroIsBelowAll(v: Parts, suffix: string)
    requires IsTriple(v) && IsSuffix(suffix)
    ensures AffectedByRange([RangeEvent(Some("0"), None)], Written(v, suffix))
  {
    hide ParseSemverParts, Written, IsSuffix;
    MissingPartsAreZero(0, 0);
    assert Decimal(0) == "0";
    assert ParseSemverParts(Written(v, suffix)) == v by {
      WrittenIs(v, suffix);
    }
    assert [RangeEvent(Some("0"), None)][1..] == [];
  }

  lemma WrittenIs(v: Parts, suffix: string)
    requires IsTriple(v) && IsSuffix(suffix)
    ensures ParseSemverParts(Written(v, suffix)) == v
  {
    hide ParseSemverParts, IsSuffix;
    WrittenVersionParses(v.major, v.minor, v.patch, suffix);
  }

  /** A version is reported if and only if it is available and an entry lists it or has it in a
      window of one of its ranges. */
  lemma ReportedExactly(advisory: seq<Affected>, available: seq<string>, version: string)
    ensures version in VulnerableVersions(advisory, available) <==>
      version in available && exists i | 0 <= i < |advisory| ::
        version in advisory[i].versions || InSomeWindow(advisory[i].ranges, version)
  {
    hide VulnerableVersions, AffectedByRange;
    VulnerableVersionsSelects(advisory, available, version);
    var reported := VulnerableVersions(advisory, available);
    assert version in reported <==> multiset(reported)[version] > 0;
    assert version in available <==> multiset(available)[version] > 0;
    forall i | 0 <= i < |advisory|
      ensures AffectedByEntry(advisory[i], version) <==>
        version in advisory[i].versions || InSomeWindow(advisory[i].ranges, version)
    {
      RangesAreWindows(advisory[i].ranges, version);
    }
    if Vulnerable(advisory, version) {
      var entry :| entry in advisory && AffectedByEntry(entry, version);
      var i :| 0 <= i < |advisory| && advisory[i] == entry;
      assert AffectedByEntry(advisory[i], version);
    }
    if i :| 0 <= i < |advisory| && (version in advisory[i].versions || InSomeWindow(advisory[i].ranges, version)) {
      assert advisory[i] in advisory;
    }
  }

  ghost predicate InSomeWindow(ranges: seq<seq<RangeEvent>>, version: string) {
    exists r, w | r in ranges && w in Windows(r, None) :: Contains(w, version)
  }

  lemma RangesAreWindows(ranges: seq<seq<RangeEvent>>, version: string)
    ensures (exists r | r in ranges :: AffectedByRange(r, version)) <==> InSomeWindow(ranges, version)
  {
    hide Walk, Windows, Contains;
    if r :| r in ranges && AffectedByRange(r, version) {
      WalkIsUnionOfWindows(r, None, version);
    }
    if r, w :| r in ranges && w in Windows(r, None) && Contains(w, version) {
      WalkIsUnionOfWindows(r, None, version);
      assert AffectedByRange(r, version);
    }
  }
}
