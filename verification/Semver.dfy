/** The numeric version order of src/semver.mts. */
module Semver {
  import opened Text

  datatype Parts = Parts(major: int, minor: int, patch: int)

  function DigitValue(c: char): nat
    requires IsDigit(c)
  {
    c as nat - '0' as nat
  }

  /** The value of the leading digits, read left to right onto `acc`. */
  function ReadDigits(s: string, acc: nat): nat {
    if s != [] && IsDigit(s[0]) then ReadDigits(s[1..], 10 * acc + DigitValue(s[0])) else acc
  }

  /** `Number.parseInt(s, 10)`, with NaN as None. */
  function ParseInt(s: string): Option<int> {
    var t := TrimStart(s);
    var signed := t != [] && (t[0] == '+' || t[0] == '-');
    var digits := if signed then t[1..] else t;
    if digits == [] || !IsDigit(digits[0]) then None
    else
      var value: int := ReadDigits(digits, 0);
      if signed && t[0] == '-' then Some(-value) else Some(value)
  }

  function Split(s: string): (parts: seq<string>)
    ensures parts != []
  {
    var dot := IndexOf(s, '.');
    if dot == -1 then [s] else [s[..dot]] + Split(s[dot + 1..])
  }

  /** A missing or unreadable part counts as 0. */
  function PartAt(parts: seq<string>, i: nat): int {
    if i < |parts| && ParseInt(parts[i]).Some? then ParseInt(parts[i]).value else 0
  }

  function ParseSemverParts(version: string): Parts {
    var parts := Split(Trim(version));
    Parts(PartAt(parts, 0), PartAt(parts, 1), PartAt(parts, 2))
  }

  function CompareParts(a: Parts, b: Parts): int {
    if a.major != b.major then a.major - b.major
    else if a.minor != b.minor then a.minor - b.minor
    else a.patch - b.patch
  }

  function CompareSemverVersions(a: string, b: string): int {
    CompareParts(ParseSemverParts(a), ParseSemverParts(b))
  }

  predicate AtOrBelow(a: string, b: string) {
    CompareSemverVersions(a, b) <= 0
  }

  /** A total preorder whose ties are the versions with the same three numbers. */
  lemma CompareIsTotalPreorder(a: string, b: string, c: string)
    ensures CompareSemverVersions(a, b) == -CompareSemverVersions(b, a)
    ensures AtOrBelow(a, b) || AtOrBelow(b, a)
    ensures AtOrBelow(a, b) && AtOrBelow(b, c) ==> AtOrBelow(a, c)
    ensures CompareSemverVersions(a, b) == 0 <==> ParseSemverParts(a) == ParseSemverParts(b)
    ensures AtOrBelow(a, b) && !AtOrBelow(c, b) ==> !AtOrBelow(c, a)
  {
    hide ParseSemverParts;
  }

  // ---------- the numbers of a written version ----------

  /** Decimal notation without leading zeros. */
  function Decimal(n: nat): (s: string)
    ensures s != [] && forall c | c in s :: IsDigit(c)
  {
    if n < 10 then [('0' as nat + n) as char] else Decimal(n / 10) + [('0' as nat + n % 10) as char]
  }

  lemma {:induction false} ReadDigitsConcat(s: string, rest: string, acc: nat)
    requires forall c | c in s :: IsDigit(c)
    ensures ReadDigits(s + rest, acc) == ReadDigits(rest, ReadDigits(s, acc))
    decreases |s|
  {
    if s == [] {
      assert s + rest == rest;
    } else {
      assert s[0] in s;
      assert (s + rest)[1..] == s[1..] + rest;
      ReadDigitsConcat(s[1..], rest, 10 * acc + DigitValue(s[0]));
    }
  }

  lemma {:induction false} DecimalReads(n: nat, rest: string)
    requires rest != [] ==> !IsDigit(rest[0])
    ensures ReadDigits(Decimal(n) + rest, 0) == n
    decreases n
  {
    var last := [('0' as nat + n % 10) as char];
    assert (last + rest)[1..] == rest;
    if n >= 10 {
      var init := Decimal(n / 10);
      ReadDigitsConcat(init, last + rest, 0);
      assert Decimal(n) + rest == init + (last + rest);
      DecimalReads(n / 10, "");
      assert init + "" == init;
    }
  }

  /** Text after the digits does not change the number. */
  lemma ParseIntOfDecimal(n: nat, rest: string)
    requires rest != [] ==> !IsDigit(rest[0])
    ensures ParseInt(Decimal(n) + rest) == Some(n)
  {
    hide ReadDigits, Decimal;
    assert Decimal(n)[0] in Decimal(n);
    DecimalReads(n, rest);
  }

  lemma SplitAt(part: string, rest: string)
    requires '.' !in part
    ensures Split(part + "." + rest) == [part] + Split(rest)
  {
    hide IndexOf;
    var s := part + "." + rest;
    assert s == part + ("." + rest);
    IndexOfAfter(part, "." + rest, '.');
    assert s[..|part|] == part && s[|part| + 1..] == rest;
  }

  lemma NoDot(part: string)
    requires '.' !in part
    ensures Split(part) == [part]
  {
    hide IndexOf;
  }

  lemma DecimalHasNoDot(n: nat)
    ensures '.' !in Decimal(n) && !IsSpace(Decimal(n)[0])
    ensures !IsSpace(Decimal(n)[|Decimal(n)| - 1])
  {
    assert Decimal(n)[0] in Decimal(n);
    assert Decimal(n)[|Decimal(n)| - 1] in Decimal(n);
  }

  /** What may follow the three numbers: nothing, or a pre-release or build suffix. */
  predicate IsSuffix(suffix: string) {
    suffix == "" || ((suffix[0] == '-' || suffix[0] == '+') && !IsSpace(suffix[|suffix| - 1]))
  }

  /** The last number and the suffix, up to the suffix's first dot. */
  lemma PatchPart(z: nat, suffix: string)
    requires IsSuffix(suffix)
    ensures ParseInt(Split(Decimal(z) + suffix)[0]) == Some(z)
  {
    hide ParseInt, Decimal, IsSpace;
    DecimalHasNoDot(z);
    var text := Decimal(z) + suffix;
    var dot := IndexOf(suffix, '.');
    if dot == -1 {
      assert '.' !in text;
      NoDot(text);
      ParseIntOfDecimal(z, suffix);
    } else {
      var part, rest := Decimal(z) + suffix[..dot], suffix[dot + 1..];
      assert text == part + "." + rest;
      SplitAt(part, rest);
      ParseIntOfDecimal(z, suffix[..dot]);
    }
  }

  /** A written version has the core triple that SemVer compares by, whatever its pre-release
      or build suffix. */
  lemma WrittenVersionParses(x: nat, y: nat, z: nat, suffix: string)
    requires IsSuffix(suffix)
    ensures ParseSemverParts(Decimal(x) + "." + (Decimal(y) + "." + (Decimal(z) + suffix))) == Parts(x, y, z)
  {
    hide ParseInt, Decimal, Split, Trim, IsSpace;
    var last := Decimal(z) + suffix;
    var middle := Decimal(y) + "." + last;
    var version := Decimal(x) + "." + middle;
    DecimalHasNoDot(x);
    DecimalHasNoDot(y);
    DecimalHasNoDot(z);
    VisibleEndsTrim(version);
    SplitAt(Decimal(x), middle);
    SplitAt(Decimal(y), last);
    ParseIntOfDecimal(x, "");
    ParseIntOfDecimal(y, "");
    assert Decimal(x) + "" == Decimal(x) && Decimal(y) + "" == Decimal(y);
    PatchPart(z, suffix);
    assert Split(version)[0] == Decimal(x) && Split(version)[1] == Decimal(y)
        && Split(version)[2] == Split(last)[0];
  }

  // ---------- the order of written versions ----------

  predicate IsTriple(v: Parts) {
    v.major >= 0 && v.minor >= 0 && v.patch >= 0
  }

  /** `major.minor.patch` in decimal, and a suffix. */
  function Written(v: Parts, suffix: string): string
    requires IsTriple(v)
  {
    Decimal(v.major) + "." + (Decimal(v.minor) + "." + (Decimal(v.patch) + suffix))
  }

  /** The first triple is lexicographically at or below the second: the major number decides, then
      the minor, then the patch. */
  predicate AtOrBefore(a: Parts, b: Parts) {
    || a.major < b.major
    || (a.major == b.major && a.minor < b.minor)
    || (a.major == b.major && a.minor == b.minor && a.patch <= b.patch)
  }

  /** Written versions compare by their triples, whatever their suffixes. */
  lemma WrittenOrder(a: Parts, b: Parts, suffix: string, other: string)
    requires IsTriple(a) && IsTriple(b) && IsSuffix(suffix) && IsSuffix(other)
    ensures AtOrBelow(Written(a, suffix), Written(b, other)) <==> AtOrBefore(a, b)
    ensures CompareSemverVersions(Written(a, suffix), Written(b, other)) < 0 <==> !AtOrBefore(b, a)
    ensures CompareSemverVersions(Written(a, suffix), Written(b, other)) == 0 <==> a == b
  {
    hide ParseSemverParts, IsSuffix;
    WrittenVersionParses(a.major, a.minor, a.patch, suffix);
    WrittenVersionParses(b.major, b.minor, b.patch, other);
  }

  /** A version that leaves numbers out reads as if they were 0. */
  lemma MissingPartsAreZero(x: nat, y: nat)
    ensures ParseSemverParts(Decimal(x)) == Parts(x, 0, 0)
    ensures ParseSemverParts(Decimal(x) + "." + Decimal(y)) == Parts(x, y, 0)
  {
    hide ParseInt, Decimal, Split, Trim, IsSpace;
    var both := Decimal(x) + "." + Decimal(y);
    DecimalHasNoDot(x);
    DecimalHasNoDot(y);
    VisibleEndsTrim(Decimal(x));
    VisibleEndsTrim(both);
    NoDot(Decimal(x));
    NoDot(Decimal(y));
    SplitAt(Decimal(x), Decimal(y));
    ParseIntOfDecimal(x, "");
    ParseIntOfDecimal(y, "");
    assert Decimal(x) + "" == Decimal(x) && Decimal(y) + "" == Decimal(y);
  }

  /** A part that starts with anything but a number counts as 0, as in `latest` or `v1.2.3`. */
  lemma UnreadablePartIsZero(part: string, rest: string)
    requires part != "" && '.' !in part && !IsSpace(part[0]) && !IsDigit(part[0]) && part[0] != '+' && part[0] != '-'
    requires rest != "" && !IsSpace(rest[|rest| - 1])
    ensures ParseSemverParts(part + "." + rest).major == 0
    ensures !IsSpace(part[|part| - 1]) ==> ParseSemverParts(part) == Parts(0, 0, 0)
  {
    hide Split, Trim, IsSpace, ReadDigits;
    var version := part + "." + rest;
    VisibleEndsTrim(version);
    SplitAt(part, rest);
    NoDot(part);
    assert TrimStart(part) == part;
    if !IsSpace(part[|part| - 1]) {
      VisibleEndsTrim(part);
    }
  }

  /** A sign in front of a number counts. */
  lemma SignedPart(n: nat, rest: string)
    requires rest != [] ==> !IsDigit(rest[0])
    ensures var minus, plus := ParseInt("-" + (Decimal(n) + rest)), ParseInt("+" + (Decimal(n) + rest));
      minus.Some? && minus.value + n == 0 && plus.Some? && plus.value == n
  {
    hide ReadDigits, Decimal;
    assert Decimal(n)[0] in Decimal(n);
    DecimalReads(n, rest);
    assert ("-" + (Decimal(n) + rest))[1..] == Decimal(n) + rest == ("+" + (Decimal(n) + rest))[1..];
  }
}
