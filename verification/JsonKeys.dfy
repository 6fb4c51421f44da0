/** `findCanonicalKey` and `normalizeKeys` of src/json.mts. Lower-casing is a parameter. */
module JsonKeys {
  import opened JsonText
  import opened JsonPrint

  /** One entry of a synonym map, in the map's own order. */
  datatype Entry = Entry(canonical: string, synonyms: seq<string>)

  type Lower = string -> string

  /** The entry names `key`, ignoring case. */
  predicate Claims(entry: Entry, key: string, lower: Lower) {
    || lower(entry.canonical) == lower(key)
    || exists i | 0 <= i < |entry.synonyms| :: lower(entry.synonyms[i]) == lower(key)
  }

  function FindCanonicalKey(key: string, entries: seq<Entry>, lower: Lower): string {
    if entries == [] then key
    else if Claims(entries[0], key, lower) then entries[0].canonical
    else FindCanonicalKey(key, entries[1..], lower)
  }

  function NormalizeKeys(v: Json, entries: seq<Entry>, lower: Lower): Json
    decreases v, 1
  {
    match v
    case Arr(items) => Arr(NormalizeItems(items, entries, lower))
    case Obj(members) => Obj(AssignAll([], Renamed(members, entries, lower)))
    case _ => v
  }

  function NormalizeItems(items: seq<Json>, entries: seq<Entry>, lower: Lower): (r: seq<Json>)
    decreases items, 0
  {
    if items == [] then []
    else [NormalizeKeys(items[0], entries, lower)] + NormalizeItems(items[1..], entries, lower)
  }

  /** Each member under its canonical key, before any two of them meet. */
  function Renamed(members: seq<Member>, entries: seq<Entry>, lower: Lower): (r: seq<Member>)
    decreases members, 0
  {
    if members == [] then []
    else
      [RenamedMember(members[0], entries, lower)] + Renamed(members[1..], entries, lower)
  }

  function RenamedMember(m: Member, entries: seq<Entry>, lower: Lower): Member
    decreases m, 0
  {
    Member(FindCanonicalKey(m.key, entries, lower), NormalizeKeys(m.value, entries, lower))
  }

  // ---------- assignment in order ----------

  /** Where the assigned member ends up: in the place of its key, or at the end. */
  lemma {:induction false} AssignAt(members: seq<Member>, key: string, value: Json) returns (i: nat)
    ensures i <= |members|
    ensures i < |members| ==> members[i].key == key
    ensures i < |members| ==> Assign(members, key, value) == members[i := Member(key, value)]
    ensures i == |members| ==> forall m | m in members :: m.key != key
    ensures i == |members| ==> Assign(members, key, value) == members + [Member(key, value)]
  {
    if members == [] || members[0].key == key {
      i := 0;
    } else {
      i := AssignAt(members[1..], key, value);
      i := i + 1;
      assert members == [members[0]] + members[1..];
    }
  }

  lemma AssignKeepsDistinct(members: seq<Member>, key: string, value: Json)
    requires DistinctKeys(members)
    ensures DistinctKeys(Assign(members, key, value))
    ensures forall m | m in Assign(members, key, value) :: m in members || m == Member(key, value)
    ensures |Assign(members, key, value)|
         == |members| + if exists m | m in members :: m.key == key then 0 else 1
  {
    hide Assign;
    var i := AssignAt(members, key, value);
    assert i < |members| ==> members[i] in members;
  }

  lemma {:induction false} AssignAllKeeps(members: seq<Member>, more: seq<Member>)
    requires DistinctKeys(members)
    ensures DistinctKeys(AssignAll(members, more))
    ensures forall m | m in AssignAll(members, more) :: m in members || m in more
    ensures |AssignAll(members, more)| <= |members| + |more|
    decreases |more|
  {
    if more != [] {
      AssignKeepsDistinct(members, more[0].key, more[0].value);
      AssignAllKeeps(Assign(members, more[0].key, more[0].value), more[1..]);
    }
  }

  /** Nothing is lost exactly when no two assignments share a key. */
  lemma {:induction false} AssignAllSize(members: seq<Member>, more: seq<Member>)
    requires DistinctKeys(members)
    ensures |AssignAll(members, more)| == |members| + |more| <==> DistinctKeys(members + more)
    decreases |more|
  {
    hide Assign;
    var all := members + more;
    if more == [] {
      assert all == members;
    } else {
      var m := more[0];
      var next := Assign(members, m.key, m.value);
      AssignKeepsDistinct(members, m.key, m.value);
      AssignAllKeeps(next, more[1..]);
      var i := AssignAt(members, m.key, m.value);
      if i < |members| {
        assert all[i].key == all[|members|].key;
      } else {
        AssignAllSize(next, more[1..]);
        assert next + more[1..] == all;
      }
    }
  }

  // ---------- the laws ----------

  lemma {:induction false} RenamedAt(members: seq<Member>, entries: seq<Entry>, lower: Lower)
    ensures |Renamed(members, entries, lower)| == |members|
    ensures forall i | 0 <= i < |members| ::
      Renamed(members, entries, lower)[i] == RenamedMember(members[i], entries, lower)
  {
    if members != [] {
      RenamedAt(members[1..], entries, lower);
    }
  }

  lemma {:induction false} ItemsAt(items: seq<Json>, entries: seq<Entry>, lower: Lower)
    ensures |NormalizeItems(items, entries, lower)| == |items|
    ensures forall i | 0 <= i < |items| ::
      NormalizeItems(items, entries, lower)[i] == NormalizeKeys(items[i], entries, lower)
  {
    if items != [] {
      ItemsAt(items[1..], entries, lower);
    }
  }

  /** An object keeps its size exactly when no two of its keys share a canonical name, and
      then it keeps every member, in order, up to renaming. */
  lemma NormalizeKeepsMembers(members: seq<Member>, entries: seq<Entry>, lower: Lower)
    ensures var out := NormalizeKeys(Obj(members), entries, lower).members;
      && DistinctKeys(out) && |out| <= |members|
      && (|out| == |members| <==> forall i, j | 0 <= i < j < |members| ::
            FindCanonicalKey(members[i].key, entries, lower)
            != FindCanonicalKey(members[j].key, entries, lower))
      && (|out| == |members| ==> forall i | 0 <= i < |members| ::
            out[i] == RenamedMember(members[i], entries, lower))
  {
    hide RenamedMember, Renamed, AssignAll, FindCanonicalKey;
    var renamed := Renamed(members, entries, lower);
    RenamedAt(members, entries, lower);
    AssignAllKeeps([], renamed);
    AssignAllSize([], renamed);
    assert [] + renamed == renamed;
    if DistinctKeys(renamed) {
      AssignDistinct([], renamed);
    }
    RenamedKeys(members, entries, lower);
  }

  lemma RenamedKeys(members: seq<Member>, entries: seq<Entry>, lower: Lower)
    ensures DistinctKeys(Renamed(members, entries, lower)) <==>
      forall i, j | 0 <= i < j < |members| ::
        FindCanonicalKey(members[i].key, entries, lower)
        != FindCanonicalKey(members[j].key, entries, lower)
  {
    var renamed := Renamed(members, entries, lower);
    RenamedAt(members, entries, lower);
    assert forall i | 0 <= i < |members| ::
      renamed[i].key == FindCanonicalKey(members[i].key, entries, lower);
  }

  /** Renaming any key twice is renaming it once. */
  ghost predicate Stable(entries: seq<Entry>, lower: Lower) {
    forall key: string :: StableAt(key, entries, lower)
  }

  predicate StableAt(key: string, entries: seq<Entry>, lower: Lower) {
    FindCanonicalKey(FindCanonicalKey(key, entries, lower), entries, lower)
    == FindCanonicalKey(key, entries, lower)
  }

  /** A value that normalising does not change. */
  predicate Settled(v: Json, entries: seq<Entry>, lower: Lower) {
    NormalizeKeys(v, entries, lower) == v
  }

  lemma SettledObject(members: seq<Member>, entries: seq<Entry>, lower: Lower)
    requires DistinctKeys(members)
    requires forall m | m in members :: RenamedMember(m, entries, lower) == m
    ensures Settled(Obj(members), entries, lower)
  {
    hide RenamedMember;
    RenamedAt(members, entries, lower);
    forall i | 0 <= i < |members|
      ensures Renamed(members, entries, lower)[i] == members[i]
    {
      assert members[i] in members;
    }
    assert Renamed(members, entries, lower) == members;
    assert [] + members == members;
    AssignDistinct([], members);
  }

  lemma {:induction false} NormalizeSettles(v: Json, entries: seq<Entry>, lower: Lower)
    requires Stable(entries, lower)
    ensures Settled(NormalizeKeys(v, entries, lower), entries, lower)
    decreases v
  {
    match v
    case Arr(items) =>
      var out := NormalizeItems(items, entries, lower);
      ItemsAt(items, entries, lower);
      ItemsAt(out, entries, lower);
      forall i | 0 <= i < |items|
        ensures NormalizeItems(out, entries, lower)[i] == out[i]
      {
        NormalizeSettles(items[i], entries, lower);
      }
      assert NormalizeItems(out, entries, lower) == out;
    case Obj(members) =>
      var renamed := Renamed(members, entries, lower);
      var out := AssignAll([], renamed);
      RenamedAt(members, entries, lower);
      AssignAllKeeps([], renamed);
      forall m | m in out
        ensures RenamedMember(m, entries, lower) == m
      {
        var i :| 0 <= i < |renamed| && renamed[i] == m;
        assert StableAt(members[i].key, entries, lower);
        NormalizeSettles(members[i].value, entries, lower);
      }
      SettledObject(out, entries, lower);
    case _ =>
  }

  /** A second pass over any JSON tree changes nothing. */
  ghost predicate AlwaysSettles(entries: seq<Entry>, lower: Lower) {
    forall v: Json :: Settled(NormalizeKeys(v, entries, lower), entries, lower)
  }

  lemma SettlesOnlyIfStable(key: string, entries: seq<Entry>, lower: Lower)
    requires AlwaysSettles(entries, lower)
    ensures StableAt(key, entries, lower)
  {
    var v := Obj([Member(key, Null)]);
    SingleMember(key, entries, lower);
    SingleMember(FindCanonicalKey(key, entries, lower), entries, lower);
    assert Settled(NormalizeKeys(v, entries, lower), entries, lower);
  }

  lemma SingleMember(key: string, entries: seq<Entry>, lower: Lower)
    ensures NormalizeKeys(Obj([Member(key, Null)]), entries, lower)
         == Obj([Member(FindCanonicalKey(key, entries, lower), Null)])
  {
    var m := Member(key, Null);
    var renamed := Member(FindCanonicalKey(key, entries, lower), Null);
    assert RenamedMember(m, entries, lower) == renamed;
    RenamedAt([m], entries, lower);
    assert Renamed([m], entries, lower) == [renamed];
    assert [] + [renamed] == [renamed];
    AssignDistinct([], [renamed]);
  }

  /** The same for the names that occur in the map: each canonical name and each synonym. */
  predicate NamesStable(entries: seq<Entry>, lower: Lower) {
    forall i | 0 <= i < |entries| ::
      && StableAt(entries[i].canonical, entries, lower)
      && forall k | 0 <= k < |entries[i].synonyms| :: StableAt(entries[i].synonyms[k], entries, lower)
  }

  /** Two spellings that differ in case only are claimed alike. */
  lemma {:induction false} SameLower(key: string, name: string, entries: seq<Entry>, lower: Lower)
    requires lower(key) == lower(name)
    requires exists j | 0 <= j < |entries| :: Claims(entries[j], key, lower)
    ensures FindCanonicalKey(key, entries, lower) == FindCanonicalKey(name, entries, lower)
  {
    assert Claims(entries[0], key, lower) == Claims(entries[0], name, lower);
    if !Claims(entries[0], key, lower) {
      var j :| 0 <= j < |entries| && Claims(entries[j], key, lower);
      assert entries[1..][j - 1] == entries[j];
      SameLower(key, name, entries[1..], lower);
    }
  }

  /** It is enough to look at the names in the map. */
  lemma NamesDecide(entries: seq<Entry>, lower: Lower)
    ensures Stable(entries, lower) <==> NamesStable(entries, lower)
  {
    if NamesStable(entries, lower) {
      forall key: string
        ensures StableAt(key, entries, lower)
      {
        NamedKeyIsStable(key, entries, lower);
      }
    }
  }

  lemma NamedKeyIsStable(key: string, entries: seq<Entry>, lower: Lower)
    requires NamesStable(entries, lower)
    ensures StableAt(key, entries, lower)
  {
    hide FindCanonicalKey;
    CanonicalOrUnnamed(key, entries, lower);
    if j :| 0 <= j < |entries| && Claims(entries[j], key, lower) {
      var name :=
        if lower(entries[j].canonical) == lower(key) then entries[j].canonical
        else
          var k :| 0 <= k < |entries[j].synonyms| && lower(entries[j].synonyms[k]) == lower(key);
          entries[j].synonyms[k];
      SameLower(key, name, entries, lower);
      assert StableAt(name, entries, lower);
    }
  }

  /** Normalising every JSON tree twice is normalising it once if and only if renaming twice is
      renaming once for every name in the map. */
  lemma NormalizeIsIdempotent(entries: seq<Entry>, lower: Lower)
    ensures AlwaysSettles(entries, lower) <==> NamesStable(entries, lower)
  {
    hide Settled, NormalizeKeys, StableAt, NamesStable;
    NamesDecide(entries, lower);
    if Stable(entries, lower) {
      forall v: Json
        ensures Settled(NormalizeKeys(v, entries, lower), entries, lower)
      {
        NormalizeSettles(v, entries, lower);
      }
    } else if AlwaysSettles(entries, lower) {
      forall key: string
        ensures StableAt(key, entries, lower)
      {
        SettlesOnlyIfStable(key, entries, lower);
      }
    }
  }

  /** No entry's canonical name is claimed, as name or synonym and ignoring case, by an
      earlier entry. */
  predicate Unclaimed(entries: seq<Entry>, lower: Lower) {
    forall i, j | 0 <= i < j < |entries| :: !Claims(entries[i], entries[j].canonical, lower)
  }

  lemma {:induction false} CanonicalIsFixed(entries: seq<Entry>, lower: Lower, j: nat)
    requires Unclaimed(entries, lower) && j < |entries|
    ensures FindCanonicalKey(entries[j].canonical, entries, lower) == entries[j].canonical
  {
    if j > 0 {
      assert !Claims(entries[0], entries[j].canonical, lower);
      CanonicalIsFixed(entries[1..], lower, j - 1);
    }
  }

  /** A key some entry claims gets the canonical name of the first such entry; any other key is
      kept. */
  lemma {:induction false} CanonicalOrUnnamed(key: string, entries: seq<Entry>, lower: Lower)
    ensures (forall j | 0 <= j < |entries| :: !Claims(entries[j], key, lower)) ==>
      FindCanonicalKey(key, entries, lower) == key
    ensures forall j | 0 <= j < |entries| && FirstClaims(j, key, entries, lower) ::
      FindCanonicalKey(key, entries, lower) == entries[j].canonical
    ensures (forall j | 0 <= j < |entries| :: !Claims(entries[j], key, lower))
         || exists j | 0 <= j < |entries| :: FirstClaims(j, key, entries, lower)
  {
    hide Claims;
    if entries != [] {
      var rest := entries[1..];
      if Claims(entries[0], key, lower) {
        assert FirstClaims(0, key, entries, lower);
      } else {
        CanonicalOrUnnamed(key, rest, lower);
        forall j | 0 <= j < |entries| && FirstClaims(j, key, entries, lower)
          ensures FindCanonicalKey(key, entries, lower) == entries[j].canonical
        {
          assert FirstClaims(j - 1, key, rest, lower);
        }
        if j :| 0 <= j < |rest| && FirstClaims(j, key, rest, lower) {
          assert FirstClaims(j + 1, key, entries, lower);
        }
      }
    }
  }

  /** Entry `j` is the first that claims the key. */
  predicate FirstClaims(j: nat, key: string, entries: seq<Entry>, lower: Lower)
    requires j < |entries|
  {
    Claims(entries[j], key, lower) && forall i | 0 <= i < j :: !Claims(entries[i], key, lower)
  }

  /** Names pairwise distinct ignoring case, none a synonym in another entry: idempotent. */
  lemma UnclaimedIsStable(entries: seq<Entry>, lower: Lower)
    requires Unclaimed(entries, lower)
    ensures Stable(entries, lower)
  {
    forall key: string
      ensures StableAt(key, entries, lower)
    {
      CanonicalOrUnnamed(key, entries, lower);
      var canonical := FindCanonicalKey(key, entries, lower);
      if canonical != key {
        var j :| 0 <= j < |entries| && FirstClaims(j, key, entries, lower);
        CanonicalIsFixed(entries, lower, j);
      }
    }
  }

  /** Without that, one pass may leave a key a second pass renames. */
  lemma ChainedSynonyms(lower: Lower)
    requires lower("a") == "a" && lower("b") == "b" && lower("c") == "c"
    ensures !NamesStable([Entry("a", ["b"]), Entry("b", ["c"])], lower)
    ensures !AlwaysSettles([Entry("a", ["b"]), Entry("b", ["c"])], lower)
  {
    var first, second := Entry("a", ["b"]), Entry("b", ["c"]);
    var entries := [first, second];
    assert lower(first.synonyms[0]) == lower("b") && lower(second.synonyms[0]) == lower("c");
    assert entries[1..] == [second];
    assert FindCanonicalKey("c", entries, lower) == "b";
    assert FindCanonicalKey("b", entries, lower) == "a";
    assert !StableAt("c", entries, lower);
    assert entries[1].synonyms[0] == "c";
    NormalizeIsIdempotent(entries, lower);
  }

  /** Every object of the tree repeats no key, as every JavaScript object does. */
  ghost predicate KeysDistinct(v: Json) {
    match v
    case Arr(items) => forall item | item in items :: KeysDistinct(item)
    case Obj(members) => DistinctKeys(members) && forall m | m in members :: KeysDistinct(m.value)
    case _ => true
  }

  /** The empty synonym map changes nothing. */
  lemma {:induction false} EmptyMapIsIdentity(v: Json, lower: Lower)
    requires KeysDistinct(v)
    ensures Settled(v, [], lower)
    decreases v
  {
    match v
    case Arr(items) =>
      ItemsAt(items, [], lower);
      forall i | 0 <= i < |items|
        ensures NormalizeItems(items, [], lower)[i] == items[i]
      {
        assert items[i] in items;
        EmptyMapIsIdentity(items[i], lower);
      }
      assert NormalizeItems(items, [], lower) == items;
    case Obj(members) =>
      forall m | m in members
        ensures RenamedMember(m, [], lower) == m
      {
        EmptyMapIsIdentity(m.value, lower);
      }
      SettledObject(members, [], lower);
    case _ =>
  }

  // ---------- the whole tree ----------

  /** Some object within the value, at any depth and in arrays too, has the key. */
  ghost predicate KeyWithin(v: Json, key: string) {
    match v
    case Arr(items) => exists item | item in items :: KeyWithin(item, key)
    case Obj(members) => exists m | m in members :: m.key == key || KeyWithin(m.value, key)
    case _ => false
  }

  /** `w` is the tree `v` with every key, at any depth and in arrays too, replaced by its canonical
      name, and nothing else changed. */
  ghost predicate Canonised(v: Json, w: Json, entries: seq<Entry>, lower: Lower)
    decreases v
  {
    match v
    case Arr(items) =>
      && w.Arr? && |w.items| == |items|
      && forall i | 0 <= i < |items| :: Canonised(items[i], w.items[i], entries, lower)
    case Obj(members) =>
      && w.Obj? && |w.members| == |members|
      && forall i | 0 <= i < |members| ::
           && w.members[i].key == FindCanonicalKey(members[i].key, entries, lower)
           && Canonised(members[i].value, w.members[i].value, entries, lower)
    case _ => w == v
  }

  /** No two keys of any object share a canonical name. */
  ghost predicate NoneMeet(v: Json, entries: seq<Entry>, lower: Lower) {
    match v
    case Arr(items) => forall item | item in items :: NoneMeet(item, entries, lower)
    case Obj(members) =>
      && (forall i, j | 0 <= i < j < |members| ::
            FindCanonicalKey(members[i].key, entries, lower) != FindCanonicalKey(members[j].key, entries, lower))
      && forall m | m in members :: NoneMeet(m.value, entries, lower)
    case _ => true
  }

  /** Where no two keys meet, the tree keeps its shape and its leaves, and every key becomes its
      canonical name. */
  lemma {:induction false} NormalizeCanonises(v: Json, entries: seq<Entry>, lower: Lower)
    requires NoneMeet(v, entries, lower)
    ensures Canonised(v, NormalizeKeys(v, entries, lower), entries, lower)
    decreases v
  {
    hide FindCanonicalKey;
    match v
    case Arr(items) =>
      ItemsAt(items, entries, lower);
      forall i | 0 <= i < |items|
        ensures Canonised(items[i], NormalizeItems(items, entries, lower)[i], entries, lower)
      {
        assert items[i] in items;
        NormalizeCanonises(items[i], entries, lower);
      }
    case Obj(members) =>
      NormalizeKeepsMembers(members, entries, lower);
      var out := NormalizeKeys(v, entries, lower).members;
      forall i | 0 <= i < |members|
        ensures out[i].key == FindCanonicalKey(members[i].key, entries, lower)
        ensures Canonised(members[i].value, out[i].value, entries, lower)
      {
        assert members[i] in members;
        NormalizeCanonises(members[i].value, entries, lower);
      }
    case _ =>
  }

  /** The key is the canonical name of a key of the value. */
  ghost predicate NamesKeyOf(v: Json, key: string, entries: seq<Entry>, lower: Lower) {
    exists source :: KeyWithin(v, source) && key == FindCanonicalKey(source, entries, lower)
  }

  /** Every key of the result, at any depth, is the canonical name of a key of the source. */
  lemma {:induction false} KeysAreCanonical(v: Json, entries: seq<Entry>, lower: Lower, key: string)
    requires KeyWithin(NormalizeKeys(v, entries, lower), key)
    ensures NamesKeyOf(v, key, entries, lower)
    decreases v
  {
    hide FindCanonicalKey;
    match v
    case Arr(items) =>
      ItemsAt(items, entries, lower);
      var out := NormalizeItems(items, entries, lower);
      var item :| item in out && KeyWithin(item, key);
      var i :| 0 <= i < |out| && out[i] == item;
      KeysAreCanonical(items[i], entries, lower, key);
      var source :| KeyWithin(items[i], source) && key == FindCanonicalKey(source, entries, lower);
      assert KeyWithin(v, source);
    case Obj(members) =>
      var renamed := Renamed(members, entries, lower);
      RenamedAt(members, entries, lower);
      AssignAllKeeps([], renamed);
      var m :| m in AssignAll([], renamed) && (m.key == key || KeyWithin(m.value, key));
      var i :| 0 <= i < |renamed| && renamed[i] == m;
      var was := members[i];
      assert was in members;
      if m.key == key {
        assert KeyWithin(v, was.key);
      } else {
        KeysAreCanonical(was.value, entries, lower, key);
        var source :| KeyWithin(was.value, source) && key == FindCanonicalKey(source, entries, lower);
        assert KeyWithin(v, source);
      }
    case _ =>
  }

  lemma {:induction false} AssignedStays(members: seq<Member>, more: seq<Member>, m: Member)
    requires m in members && DistinctKeys(members) && forall n | n in more :: n.key != m.key
    ensures m in AssignAll(members, more)
    decreases |more|
  {
    hide Assign;
    if more != [] {
      var n := more[0];
      var i := AssignAt(members, n.key, n.value);
      var k :| 0 <= k < |members| && members[k] == m;
      AssignKeepsDistinct(members, n.key, n.value);
      assert Assign(members, n.key, n.value)[k] == m;
      AssignedStays(Assign(members, n.key, n.value), more[1..], m);
    }
  }

  lemma {:induction false} LastAssigned(members: seq<Member>, more: seq<Member>, k: nat)
    requires DistinctKeys(members) && k < |more| && forall j | k < j < |more| :: more[j].key != more[k].key
    ensures more[k] in AssignAll(members, more)
    decreases |more|
  {
    hide Assign;
    var m := more[0];
    var next := Assign(members, m.key, m.value);
    AssignKeepsDistinct(members, m.key, m.value);
    if k == 0 {
      var i := AssignAt(members, m.key, m.value);
      assert next[i] == m;
      AssignedStays(next, more[1..], m);
    } else {
      LastAssigned(next, more[1..], k - 1);
    }
  }

  /** Where keys of an object meet, the last of them gives the value, itself normalised. */
  lemma LastOneWins(members: seq<Member>, entries: seq<Entry>, lower: Lower, k: nat)
    requires k < |members|
    requires forall j | k < j < |members| ::
      FindCanonicalKey(members[j].key, entries, lower) != FindCanonicalKey(members[k].key, entries, lower)
    ensures Member(FindCanonicalKey(members[k].key, entries, lower), NormalizeKeys(members[k].value, entries, lower))
      in NormalizeKeys(Obj(members), entries, lower).members
  {
    hide FindCanonicalKey, AssignAll;
    RenamedAt(members, entries, lower);
    LastAssigned([], Renamed(members, entries, lower), k);
  }

  // ---------- what the parser gives ----------

  /** No object the parser gives repeats a key. */
  lemma {:induction false} ParsedKeysDistinct(s: string)
    requires ParseValue(s).Ok?
    ensures KeysDistinct(ParseValue(s).value)
    decreases |s|, 2
  {
    hide SkipWs, LexString, Word, ParseNumber, ParseMembers, ParseItems, AssignAll;
    var t := SkipWs(s[1..]);
    if s[0] == '{' && t[0] != '}' {
      ParsedMembersDistinct(t);
      AssignAllKeeps([], ParseMembers(t).value);
    } else if s[0] == '[' && t[0] != ']' {
      ParsedItemsDistinct(t);
    } else if s[0] != '{' && s[0] != '[' {
      TokenIsFlat(s);
    }
  }

  lemma TokenIsFlat(s: string)
    requires ParseValue(s).Ok? && s[0] != '{' && s[0] != '['
    ensures !ParseValue(s).value.Obj? && !ParseValue(s).value.Arr?
  {
  }

  lemma {:induction false} ParsedItemsDistinct(s: string)
    requires ParseItems(s).Ok?
    ensures forall item | item in ParseItems(s).value :: KeysDistinct(item)
    decreases |s|, 3
  {
    hide SkipWs, ParseValue;
    ParsedKeysDistinct(s);
    var t := SkipWs(ParseValue(s).rest);
    if t[0] == ',' {
      ParsedItemsDistinct(SkipWs(t[1..]));
    }
  }

  lemma {:induction false} ParsedMembersDistinct(s: string)
    requires ParseMembers(s).Ok?
    ensures forall m | m in ParseMembers(s).value :: KeysDistinct(m.value)
    decreases |s|, 4
  {
    hide SkipWs, ParseValue, LexString;
    var key := LexString(s[1..]);
    ParsedKeysDistinct(SkipWs(SkipWs(key.rest)[1..]));
    var t := SkipWs(ParseMember(s).rest);
    if t[0] == ',' {
      ParsedMembersDistinct(SkipWs(t[1..]));
    }
  }

  lemma ParsedJsonDistinct(text: string)
    requires ParseJson(text).Some?
    ensures KeysDistinct(ParseJson(text).value)
  {
    hide ParseValue, SkipWs;
    ParsedKeysDistinct(SkipWs(text));
  }
}
