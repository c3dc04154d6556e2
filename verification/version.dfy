/**
 The firmware-version comparison NovaLogic runs on an offered OTA version
 (`isOTAVersionNewer`). Both strings are split at the first and the last dot
 with the Arduino `String` primitives, each part is read with `atol`, and
 the offered triple must be lexicographically greater than the running one.
 */
module Version {

  /** The running firmware's version string. */
  const FirmwareVersion: string := "1.0.5"

  /** `-1` from `indexOf` passed where an `unsigned int` is expected. */
  const UnsignedMinusOne: nat := 0xFFFF_FFFF

  /** `String::indexOf(char)`: first position of `c`, or -1. */
  function IndexOf(s: string, c: char): (r: int)
    ensures -1 <= r < |s|
    ensures r == -1 <==> c !in s
    ensures 0 <= r ==> s[r] == c && c !in s[..r]
  {
    if |s| == 0 then -1
    else if s[0] == c then 0
    else
      var k := IndexOf(s[1..], c);
      assert s[1..] == s[1..][..];
      if k == -1 then -1
      else
        assert s[..k + 1] == [s[0]] + s[1..][..k];
        k + 1
  }

  /** `String::lastIndexOf(char)`: last position of `c`, or -1. */
  function LastIndexOf(s: string, c: char): (r: int)
    ensures -1 <= r < |s|
    ensures r == -1 <==> c !in s
    ensures 0 <= r ==> s[r] == c && c !in s[r + 1..]
  {
    if |s| == 0 then -1
    else if s[|s| - 1] == c then |s| - 1
    else
      var k := LastIndexOf(s[..|s| - 1], c);
      LastIndexStep(s, c, k);
      k
  }

  /** A last character other than `c` leaves the last `c` where it was. */
  lemma LastIndexStep(s: string, c: char, k: int)
    requires |s| > 0 && s[|s| - 1] != c
    requires -1 <= k < |s| - 1 && (k == -1 <==> c !in s[..|s| - 1])
    requires 0 <= k ==> s[k] == c && c !in s[..|s| - 1][k + 1..]
    ensures k == -1 <==> c !in s
    ensures 0 <= k ==> c !in s[k + 1..]
  {
    var t, x := s[..|s| - 1], s[|s| - 1];
    assert s == t + [x];
    InSnoc(t, x, c);
    if 0 <= k {
      assert s[k + 1..] == t[k + 1..] + [x];
      InSnoc(t[k + 1..], x, c);
    }
  }

  lemma InSnoc(t: string, x: char, c: char)
    ensures c in t + [x] <==> c in t || c == x
  {
    if c in t + [x] && c != x {
      var i :| 0 <= i < |t| + 1 && (t + [x])[i] == c;
      assert t[i] == c;
    }
  }

  /** An `int` position handed to an `unsigned int` parameter. */
  function Unsigned(i: int): (r: nat)
    requires i >= -1
    ensures i >= 0 ==> r == i
  {
    if i < 0 then UnsignedMinusOne else i
  }

  /** `String::substring(left, right)`: reversed bounds are swapped, the end
      is clamped to the length, and a start at or past the end gives "". */
  function Substring(s: string, left: nat, right: nat): (r: string)
    ensures |r| <= |s|
    ensures left <= right <= |s| ==> r == s[left..right]
  {
    var lo := if left <= right then left else right;
    var hi := if left <= right then right else left;
    if lo >= |s| then "" else if hi > |s| then s[lo..] else s[lo..hi]
  }

  predicate IsDigit(c: char) {
    '0' <= c <= '9'
  }

  predicate AllDigits(s: string) {
    forall i :: 0 <= i < |s| ==> IsDigit(s[i])
  }

  /** Characters `atol` skips before the number. */
  predicate IsSpace(c: char) {
    c == ' ' || c == '\t' || c == '\n' || c == 11 as char || c == 12 as char || c == '\r'
  }

  /** The longest prefix of decimal digits. */
  function DigitPrefix(s: string): (r: string)
    ensures r <= s && AllDigits(r)
    ensures |r| < |s| ==> !IsDigit(s[|r|])
  {
    if |s| == 0 || !IsDigit(s[0]) then ""
    else
      var rest := DigitPrefix(s[1..]);
      [s[0]] + rest
  }

  /** The value of a string of decimal digits, most significant first. */
  function DigitsValue(d: string): nat
    requires AllDigits(d)
  {
    if |d| == 0 then 0
    else DigitsValue(d[..|d| - 1]) * 10 + (d[|d| - 1] as int - '0' as int)
  }

  /** What remains after the leading blanks. */
  function SkipSpaces(s: string): (r: string)
    ensures |r| <= |s| && r == s[|s| - |r|..]
    ensures |r| > 0 ==> !IsSpace(r[0])
  {
    if |s| > 0 && IsSpace(s[0]) then SkipSpaces(s[1..]) else s
  }

  /** `atol`: optional blanks and sign, then the leading digits; no digits
      read as 0. */
  function Atol(s: string): (r: int) {
    var t := SkipSpaces(s);
    if |t| > 0 && t[0] == '-' then 0 - DigitsValue(DigitPrefix(t[1..])) as int
    else if |t| > 0 && t[0] == '+' then DigitsValue(DigitPrefix(t[1..]))
    else DigitsValue(DigitPrefix(t))
  }

  datatype Triple = Triple(major: int, minor: int, patch: int)

  /** How `isOTAVersionNewer` reads a version string: major before the first
      dot, minor between the first and the last dot, patch after the last. */
  function Parse(v: string): Triple {
    Cut(v, IndexOf(v, '.'), LastIndexOf(v, '.'))
  }

  /** The three numbers around the dots at `first` and `last` (-1 when there
      is no dot). */
  function Cut(v: string, first: int, last: int): Triple
    requires first >= -1 && last >= -1
  {
    Triple(Atol(Substring(v, 0, Unsigned(first))),
           Atol(Substring(v, first + 1, Unsigned(last))),
           Atol(Substring(v, last + 1, |v|)))
  }

  /** Strictly greater in (major, minor, patch) order. */
  predicate Newer(a: Triple, b: Triple) {
    a.major > b.major
    || (a.major == b.major && (a.minor > b.minor || (a.minor == b.minor && a.patch > b.patch)))
  }

  /** `isOTAVersionNewer`. */
  predicate IsOtaVersionNewer(offered: string) {
    Newer(Parse(offered), Parse(FirmwareVersion))
  }

  lemma NewerIrreflexive(a: Triple)
    ensures !Newer(a, a)
  {
  }

  lemma NewerAsymmetric(a: Triple, b: Triple)
    ensures Newer(a, b) ==> !Newer(b, a)
  {
  }

  lemma NewerTransitive(a: Triple, b: Triple, c: Triple)
    ensures Newer(a, b) && Newer(b, c) ==> Newer(a, c)
  {
  }

  /** Any two different triples are ordered one way or the other. */
  lemma NewerTotal(a: Triple, b: Triple)
    ensures a == b || Newer(a, b) || Newer(b, a)
  {
  }

  /** Decimal rendering of a natural number, most significant digit first. */
  function NatToString(n: nat): (r: string)
    ensures 0 < |r| <= n + 1 && AllDigits(r)
    ensures '.' !in r
  {
    var d := [('0' as int + n % 10) as char];
    if n < 10 then d else NatToString(n / 10) + d
  }

  /** The version string of a triple, "major.minor.patch". */
  function Render(major: nat, minor: nat, patch: nat): string {
    NatToString(major) + "." + NatToString(minor) + "." + NatToString(patch)
  }

  lemma {:induction false} DigitsValueOfNat(n: nat)
    ensures DigitsValue(NatToString(n)) == n
    decreases n
  {
    var s := NatToString(n);
    assert s[..|s| - 1] == (if n < 10 then "" else NatToString(n / 10));
    if n >= 10 {
      DigitsValueOfNat(n / 10);
    }
  }

  lemma {:induction false} DigitPrefixOfDigits(s: string)
    requires AllDigits(s)
    ensures DigitPrefix(s) == s
    decreases |s|
  {
    if |s| > 0 {
      DigitPrefixOfDigits(s[1..]);
      assert s == [s[0]] + s[1..];
    }
  }

  /** `atol` reads back a rendered number. */
  lemma AtolOfNat(n: nat)
    ensures Atol(NatToString(n)) == n
  {
    var s := NatToString(n);
    assert !IsSpace(s[0]) && s[0] != '-' && s[0] != '+';
    assert SkipSpaces(s) == s;
    DigitPrefixOfDigits(s);
    DigitsValueOfNat(n);
  }

  /** The first dot of `a + "." + rest` follows `a` when `a` has none. */
  lemma FirstDot(a: string, rest: string)
    requires '.' !in a
    ensures IndexOf(a + "." + rest, '.') == |a|
  {
    var v := a + "." + rest;
    assert v[|a|] == '.';
    assert v[..|a|] == a;
  }

  /** The last dot of `init + "." + c` precedes `c` when `c` has none. */
  lemma LastDot(init: string, c: string)
    requires '.' !in c
    ensures LastIndexOf(init + "." + c, '.') == |init|
  {
    var v := init + "." + c;
    assert v[|init|] == '.';
    assert v[|init| + 1..] == c;
  }

  /** In `a.b.c` with dot-free parts, the first dot follows `a` and the last
      one precedes `c`. */
  lemma DotPositions(a: string, b: string, c: string)
    requires '.' !in a && '.' !in b && '.' !in c
    ensures IndexOf(a + "." + b + "." + c, '.') == |a|
    ensures LastIndexOf(a + "." + b + "." + c, '.') == |a| + 1 + |b|
  {
    Regroup(a, b, c);
    FirstDot(a, b + "." + c);
    LastDot(a + "." + b, c);
  }

  lemma Regroup(a: string, b: string, c: string)
    ensures a + "." + b + "." + c == a + "." + (b + "." + c)
  {
  }

  /** The three parts of `a.b.c` as `substring` cuts them. */
  lemma SubstringParts(a: string, b: string, c: string)
    ensures Substring(a + "." + b + "." + c, 0, |a|) == a
    ensures Substring(a + "." + b + "." + c, |a| + 1, |a| + 1 + |b|) == b
    ensures Substring(a + "." + b + "." + c, |a| + 1 + |b| + 1, |a + "." + b + "." + c|) == c
  {
    var v := a + "." + b + "." + c;
    assert v[..|a|] == a;
    assert v[|a| + 1..|a| + 1 + |b|] == b;
    assert v[|a| + 1 + |b| + 1..] == c;
  }

  /** Three dot-free parts joined by dots are read part by part. */
  lemma ParseParts(a: string, b: string, c: string)
    requires '.' !in a && '.' !in b && '.' !in c
    ensures Parse(a + "." + b + "." + c) == Triple(Atol(a), Atol(b), Atol(c))
  {
    var v := a + "." + b + "." + c;
    var i, j := |a|, |a| + 1 + |b|;
    assert IndexOf(v, '.') == i && LastIndexOf(v, '.') == j by {
      DotPositions(a, b, c);
    }
    assert Substring(v, 0, i) == a && Substring(v, i + 1, j) == b && Substring(v, j + 1, |v|) == c by {
      SubstringParts(a, b, c);
    }
    ParseAt(v, i, j);
  }

  /** `Parse` once the two dots are located. */
  lemma ParseAt(v: string, i: nat, j: nat)
    requires IndexOf(v, '.') == i && LastIndexOf(v, '.') == j
    ensures Parse(v) == Triple(Atol(Substring(v, 0, i)), Atol(Substring(v, i + 1, j)), Atol(Substring(v, j + 1, |v|)))
  {
    assert Parse(v) == Cut(v, i, j);
    assert Unsigned(i) == i && Unsigned(j) == j;
  }

  /** A well-formed "major.minor.patch" string is read back as its triple. */
  lemma ParseRender(major: nat, minor: nat, patch: nat)
    ensures Parse(Render(major, minor, patch)) == Triple(major, minor, patch)
  {
    ParseParts(NatToString(major), NatToString(minor), NatToString(patch));
    AtolOfNat(major);
    AtolOfNat(minor);
    AtolOfNat(patch);
  }

  /** The running version reads as 1.0.5, so an offered well-formed version
      is newer exactly when its triple is greater than (1, 0, 5). */
  lemma OfferedVersionNewer(major: nat, minor: nat, patch: nat)
    ensures IsOtaVersionNewer(Render(major, minor, patch)) <==> Newer(Triple(major, minor, patch), Triple(1, 0, 5))
  {
    ParseRender(major, minor, patch);
    FirmwareVersionParsed();
  }

  /** An offered version is newer exactly when it reads as more than (1, 0, 5). */
  lemma NewerThanRunning(offered: string)
    ensures IsOtaVersionNewer(offered) <==> Newer(Parse(offered), Triple(1, 0, 5))
  {
    FirmwareVersionParsed();
  }

  /** The running version string reads as (1, 0, 5). */
  lemma FirmwareVersionParsed()
    ensures Parse(FirmwareVersion) == Triple(1, 0, 5)
  {
    assert NatToString(1) == "1" && NatToString(0) == "0" && NatToString(5) == "5";
    assert Render(1, 0, 5) == FirmwareVersion;
    ParseRender(1, 0, 5);
  }

  /** A string without dots is read as the same number three times. */
  lemma UndottedReadsThrice(n: nat)
    requires n < UnsignedMinusOne
    ensures Parse(NatToString(n)) == Triple(n, n, n)
  {
    var s := NatToString(n);
    assert IndexOf(s, '.') == -1 && LastIndexOf(s, '.') == -1;
    assert Substring(s, 0, UnsignedMinusOne) == s;
    assert Substring(s, 0, |s|) == s;
    AtolOfNat(n);
  }
}
