/**
 * Version comparison of the self-updater (AppUpdater.compare_versions in
 * utils/updater.py): both strings are split on '.', every piece is read as
 * an integer, and the two integer lists are compared the way Python compares
 * lists. Any piece that is not an integer makes the answer "not newer".
 */
module Versions {
  import opened Wrappers

  /** `s.split('.')`: the pieces between the dots, always at least one. */
  function Split(s: string): (parts: seq<string>)
    ensures |parts| >= 1
    ensures forall p <- parts :: '.' !in p
  {
    if s == [] then [""]
    else
      var rest := Split(s[1..]);
      if s[0] == '.' then [""] + rest
      else [[s[0]] + rest[0]] + rest[1..]
  }

  /** `'.'.join(parts)`. */
  function JoinDots(parts: seq<string>): string
    requires |parts| >= 1
  {
    if |parts| == 1 then parts[0] else parts[0] + "." + JoinDots(parts[1..])
  }

  /** Joining the pieces gives back the original string. */
  lemma {:induction false} JoinSplit(s: string)
    ensures JoinDots(Split(s)) == s
  {
    if s != [] {
      var rest := Split(s[1..]);
      JoinSplit(s[1..]);
      if s[0] == '.' {
        assert JoinDots(Split(s)) == "" + "." + JoinDots(rest);
      } else if |rest| == 1 {
        assert JoinDots(Split(s)) == [s[0]] + rest[0];
      } else {
        assert JoinDots(rest) == rest[0] + "." + JoinDots(rest[1..]);
        assert JoinDots(Split(s)) == [s[0]] + rest[0] + "." + JoinDots(rest[1..]);
      }
      assert s == [s[0]] + s[1..];
    }
  }

  /** Splitting a string that starts with a dot-free word extends the first piece by that word. */
  lemma {:induction false} SplitPrefix(w: string, s: string)
    requires '.' !in w
    ensures Split(w + s) == [w + Split(s)[0]] + Split(s)[1..]
  {
    if w != [] {
      SplitPrefix(w[1..], s);
      assert (w + s)[1..] == w[1..] + s;
      assert [w[0]] + (w[1..] + Split(s)[0]) == w + Split(s)[0];
    } else {
      assert w + s == s;
      assert Split(s) == [Split(s)[0]] + Split(s)[1..];
      assert w + Split(s)[0] == Split(s)[0];
    }
  }

  /** Splitting dot-free pieces joined by dots gives back the pieces. */
  lemma {:induction false} SplitJoin(parts: seq<string>)
    requires |parts| >= 1
    requires forall p <- parts :: '.' !in p
    ensures Split(JoinDots(parts)) == parts
  {
    if |parts| == 1 {
      SplitPrefix(parts[0], "");
      assert parts[0] + "" == parts[0];
    } else {
      var tail := JoinDots(parts[1..]);
      SplitJoin(parts[1..]);
      assert parts[0] + "." + tail == parts[0] + ("." + tail);
      SplitPrefix(parts[0], "." + tail);
      assert ("." + tail)[1..] == tail;
      assert parts[0] + "" == parts[0];
    }
  }

  predicate IsDigit(c: char) {
    '0' <= c <= '9'
  }

  predicate AllDigits(s: string) {
    forall i | 0 <= i < |s| :: IsDigit(s[i])
  }

  /** The decimal value of a digit string. */
  function DigitsValue(s: string): nat
    requires AllDigits(s)
  {
    if s == [] then 0
    else DigitsValue(s[..|s| - 1]) * 10 + (s[|s| - 1] as int - '0' as int)
  }

  /** `int(piece)`, restricted to plain decimal digit strings. */
  function ParseSegment(s: string): (r: Option<nat>)
    ensures r.Some? <==> s != [] && AllDigits(s)
  {
    if s != [] && AllDigits(s) then Some(DigitsValue(s)) else None
  }

  /** `[int(x) for x in parts]`: fails as a whole when any piece fails. */
  function ParseSegments(parts: seq<string>): (r: Option<seq<nat>>)
    ensures r.Some? <==> forall i | 0 <= i < |parts| :: ParseSegment(parts[i]).Some?
    ensures r.Some? ==> |r.value| == |parts|
    ensures r.Some? ==> forall i | 0 <= i < |parts| :: ParseSegment(parts[i]) == Some(r.value[i])
  {
    if parts == [] then Some([])
    else
      match (ParseSegment(parts[0]), ParseSegments(parts[1..]))
      case (Some(n), Some(ns)) => Some([n] + ns)
      case _ => None
  }

  /** A dotted version string as its list of integers. */
  function ParseVersion(s: string): Option<seq<nat>> {
    ParseSegments(Split(s))
  }

  /** A version that parses has one integer per dot-separated piece, so at least one. */
  lemma ParsedVersionLength(s: string)
    requires ParseVersion(s).Some?
    ensures |ParseVersion(s).value| == |Split(s)| >= 1
  {
  }

  /** Python's `a < b` on lists, element by element; a proper prefix is smaller. */
  predicate LexLess(a: seq<int>, b: seq<int>) {
    if a == [] then b != []
    else if b == [] then false
    else if a[0] != b[0] then a[0] < b[0]
    else LexLess(a[1..], b[1..])
  }

  /**
   * The ordering as Python's language reference defines it: either the
   * lists first differ at some position k, and there a is smaller, or they
   * agree as far as a goes and b is longer.
   */
  ghost predicate LessAt(a: seq<int>, b: seq<int>, k: nat) {
    k <= |a| && k < |b| && a[..k] == b[..k] && (k == |a| || a[k] < b[k])
  }

  ghost predicate ListLess(a: seq<int>, b: seq<int>) {
    exists k: nat :: LessAt(a, b, k)
  }

  lemma {:induction false} LexLessSound(a: seq<int>, b: seq<int>)
    requires LexLess(a, b)
    ensures ListLess(a, b)
  {
    if a == [] {
      assert LessAt(a, b, 0);
    } else if a[0] != b[0] {
      assert LessAt(a, b, 0);
    } else {
      LexLessSound(a[1..], b[1..]);
      var k: nat :| LessAt(a[1..], b[1..], k);
      assert a[..k + 1] == [a[0]] + a[1..][..k];
      assert b[..k + 1] == [b[0]] + b[1..][..k];
      assert LessAt(a, b, k + 1);
    }
  }

  lemma {:induction false} LexLessComplete(a: seq<int>, b: seq<int>, k: nat)
    requires LessAt(a, b, k)
    ensures LexLess(a, b)
  {
    if a != [] && k > 0 {
      assert a[0] == a[..k][0] == b[..k][0] == b[0];
      assert a[1..][..k - 1] == a[..k][1..];
      assert b[1..][..k - 1] == b[..k][1..];
      LexLessComplete(a[1..], b[1..], k - 1);
    }
  }

  /** The recursive comparison is exactly Python's list ordering. */
  lemma LexLessIff(a: seq<int>, b: seq<int>)
    ensures LexLess(a, b) <==> ListLess(a, b)
  {
    if LexLess(a, b) {
      LexLessSound(a, b);
    }
    if ListLess(a, b) {
      var k: nat :| LessAt(a, b, k);
      LexLessComplete(a, b, k);
    }
  }

  lemma {:induction false} LexLessIrreflexive(a: seq<int>)
    ensures !LexLess(a, a)
  {
    if a != [] {
      LexLessIrreflexive(a[1..]);
    }
  }

  lemma {:induction false} LexLessAsymmetric(a: seq<int>, b: seq<int>)
    requires LexLess(a, b)
    ensures !LexLess(b, a)
  {
    if a != [] && b != [] && a[0] == b[0] {
      LexLessAsymmetric(a[1..], b[1..]);
    }
  }

  lemma {:induction false} LexLessTransitive(a: seq<int>, b: seq<int>, c: seq<int>)
    requires LexLess(a, b) && LexLess(b, c)
    ensures LexLess(a, c)
  {
    if a != [] && a[0] == b[0] && b[0] == c[0] {
      LexLessTransitive(a[1..], b[1..], c[1..]);
    }
  }

  lemma {:induction false} LexLessTotal(a: seq<int>, b: seq<int>)
    requires a != b
    ensures LexLess(a, b) || LexLess(b, a)
  {
    if a != [] && b != [] && a[0] == b[0] {
      assert a == [a[0]] + a[1..] && b == [b[0]] + b[1..];
      LexLessTotal(a[1..], b[1..]);
    }
  }

  /** AppUpdater.compare_versions: is `remote` strictly newer than `local`? */
  function CompareVersions(local: string, remote: string): (newer: bool)
    ensures newer <==> ParseVersion(local).Some? && ParseVersion(remote).Some?
                       && ListLess(ParseVersion(local).value, ParseVersion(remote).value)
  {
    match (ParseVersion(local), ParseVersion(remote))
    case (Some(l), Some(r)) => LexLessIff(l, r); LexLess(l, r)
    case _ => false
  }

  /** A piece that is not an integer, on either side, means "not newer". */
  lemma CompareMalformed(local: string, remote: string, i: nat)
    requires (i < |Split(local)| && ParseSegment(Split(local)[i]).None?)
          || (i < |Split(remote)| && ParseSegment(Split(remote)[i]).None?)
    ensures !CompareVersions(local, remote)
  {
  }

  /** No version is newer than itself. */
  lemma CompareIrreflexive(v: string)
    ensures !CompareVersions(v, v)
  {
    if ParseVersion(v).Some? {
      LexLessIrreflexive(ParseVersion(v).value);
      LexLessIff(ParseVersion(v).value, ParseVersion(v).value);
    }
  }

  /** If `b` is newer than `a`, then `a` is not newer than `b`. */
  lemma CompareAsymmetric(a: string, b: string)
    requires CompareVersions(a, b)
    ensures !CompareVersions(b, a)
  {
    var x, y := ParseVersion(a).value, ParseVersion(b).value;
    LexLessIff(x, y);
    LexLessIff(y, x);
    LexLessAsymmetric(x, y);
  }

  lemma CompareTransitive(a: string, b: string, c: string)
    requires CompareVersions(a, b) && CompareVersions(b, c)
    ensures CompareVersions(a, c)
  {
    var x, y, z := ParseVersion(a).value, ParseVersion(b).value, ParseVersion(c).value;
    LexLessIff(x, y);
    LexLessIff(y, z);
    LexLessIff(x, z);
    LexLessTransitive(x, y, z);
  }

  /** Two well-formed versions with different integer lists: exactly one is newer than the other. */
  lemma CompareTotal(a: string, b: string)
    requires ParseVersion(a).Some? && ParseVersion(b).Some?
    requires ParseVersion(a) != ParseVersion(b)
    ensures CompareVersions(a, b) == !CompareVersions(b, a)
  {
    var x, y := ParseVersion(a).value, ParseVersion(b).value;
    LexLessIff(x, y);
    LexLessIff(y, x);
    LexLessTotal(x, y);
    if LexLess(x, y) {
      LexLessAsymmetric(x, y);
    }
  }

  /** The decimal digits of `n`, without leading zeros. */
  function NatToDigits(n: nat): (s: string)
    ensures s != [] && AllDigits(s)
  {
    if n < 10 then [('0' as int + n) as char]
    else NatToDigits(n / 10) + [('0' as int + n % 10) as char]
  }

  /** A digit string with a non-zero leading digit has a non-zero value. */
  lemma {:induction false} LeadingDigitPositive(s: string)
    requires s != [] && AllDigits(s) && s[0] != '0'
    ensures DigitsValue(s) >= 1
  {
    if |s| > 1 {
      LeadingDigitPositive(s[..|s| - 1]);
    }
  }

  /**
   * The other direction of DigitsRoundTrip: a digit string without leading
   * zeros is the decimal form of the number `int()` reads from it.
   */
  lemma {:induction false} ParseSegmentCanonical(s: string)
    requires ParseSegment(s).Some? && (|s| == 1 || s[0] != '0')
    ensures NatToDigits(ParseSegment(s).value) == s
  {
    var n := DigitsValue(s);
    var last := s[|s| - 1];
    if |s| == 1 {
      assert s[..|s| - 1] == [];
      assert DigitsValue([]) == 0;
      assert n == DigitsValue(s[..|s| - 1]) * 10 + (last as int - '0' as int);
    } else {
      var init := s[..|s| - 1];
      assert init[0] == s[0];
      LeadingDigitPositive(init);
      assert n / 10 == DigitsValue(init) && n % 10 == last as int - '0' as int;
      ParseSegmentCanonical(init);
      assert s == init + [last];
    }
  }

  lemma {:induction false} DigitsRoundTrip(n: nat)
    ensures DigitsValue(NatToDigits(n)) == n
  {
    if n >= 10 {
      var s := NatToDigits(n);
      assert s[..|s| - 1] == NatToDigits(n / 10);
      DigitsRoundTrip(n / 10);
    }
  }

  /** A list of integers written as a dotted version string. */
  function FormatVersion(v: seq<nat>): string
    requires |v| >= 1
  {
    JoinDots(seq(|v|, i requires 0 <= i < |v| => NatToDigits(v[i])))
  }

  /** Every list of integers is read back from its dotted form. */
  lemma ParseFormat(v: seq<nat>)
    requires |v| >= 1
    ensures ParseVersion(FormatVersion(v)) == Some(v)
  {
    var parts := seq(|v|, i requires 0 <= i < |v| => NatToDigits(v[i]));
    forall p | p in parts
      ensures '.' !in p
    {
      var i :| 0 <= i < |parts| && parts[i] == p;
      assert AllDigits(p);
    }
    SplitJoin(parts);
    forall i | 0 <= i < |parts|
      ensures ParseSegment(parts[i]) == Some(v[i])
    {
      DigitsRoundTrip(v[i]);
    }
    var r := ParseSegments(parts);
    assert r.Some?;
    assert r.value == v;
  }

  /** "1.0" is older than "1.0.0": the shorter list is a proper prefix. */
  lemma ShorterPrefixIsOlder()
    ensures CompareVersions("1.0", "1.0.0")
    ensures !CompareVersions("1.0.0", "1.0")
  {
    ParseTwoDigits('1', '0');
    ParseThreeDigits('1', '0', '0');
    assert "1.0" == ['1', '.', '0'] && "1.0.0" == ['1', '.', '0', '.', '0'];
    LexLessIff([1, 0], [1, 0, 0]);
    LexLessIff([1, 0, 0], [1, 0]);
  }

  /** A version "a.b" with one digit per piece. */
  lemma ParseTwoDigits(a: char, b: char)
    requires IsDigit(a) && IsDigit(b)
    ensures ParseVersion([a, '.', b]) == Some([a as int - '0' as int, b as int - '0' as int])
  {
    var parts := [[a], [b]];
    assert parts[1..] == [[b]];
    assert JoinDots(parts) == [a, '.', b];
    SplitJoin(parts);
    assert [a][..0] == [] && [b][..0] == [];
    assert DigitsValue([a]) == a as int - '0' as int;
    assert DigitsValue([b]) == b as int - '0' as int;
    var r := ParseVersion([a, '.', b]);
    assert ParseSegment(parts[0]).Some? && ParseSegment(parts[1]).Some?;
    assert r.Some? && |r.value| == 2;
    assert r.value == [a as int - '0' as int, b as int - '0' as int];
  }

  /** A version "a.b.c" with one digit per piece. */
  lemma ParseThreeDigits(a: char, b: char, c: char)
    requires IsDigit(a) && IsDigit(b) && IsDigit(c)
    ensures ParseVersion([a, '.', b, '.', c])
         == Some([a as int - '0' as int, b as int - '0' as int, c as int - '0' as int])
  {
    var parts := [[a], [b], [c]];
    assert parts[1..] == [[b], [c]] && parts[1..][1..] == [[c]];
    assert JoinDots(parts[1..][1..]) == [c];
    assert JoinDots(parts[1..]) == [b] + "." + [c];
    assert JoinDots(parts) == [a, '.', b, '.', c];
    SplitJoin(parts);
    assert [a][..0] == [] && [b][..0] == [] && [c][..0] == [];
    assert DigitsValue([a]) == a as int - '0' as int;
    assert DigitsValue([b]) == b as int - '0' as int;
    assert DigitsValue([c]) == c as int - '0' as int;
    var r := ParseVersion([a, '.', b, '.', c]);
    assert ParseSegment(parts[0]).Some? && ParseSegment(parts[1]).Some? && ParseSegment(parts[2]).Some?;
    assert r.Some? && |r.value| == 3;
    assert r.value[0] == a as int - '0' as int;
    assert r.value[1] == b as int - '0' as int;
    assert r.value[2] == c as int - '0' as int;
    assert r.value == [a as int - '0' as int, b as int - '0' as int, c as int - '0' as int];
  }

  /** The three sample comparisons: a newer patch, an older minor, a newer major. */
  lemma SampleComparisons()
    ensures CompareVersions("1.0.0", "1.0.1")
    ensures !CompareVersions("1.2.0", "1.1.9")
    ensures CompareVersions("0.9.9", "1.0.0")
  {
    ParseThreeDigits('1', '0', '0');
    ParseThreeDigits('1', '0', '1');
    ParseThreeDigits('1', '2', '0');
    ParseThreeDigits('1', '1', '9');
    ParseThreeDigits('0', '9', '9');
    LexLessIff([1, 0, 0], [1, 0, 1]);
    LexLessIff([1, 2, 0], [1, 1, 9]);
    LexLessIff([0, 9, 9], [1, 0, 0]);
  }

  /** Non-numeric and empty pieces make the comparison false rather than fail. */
  lemma SampleMalformed(v: string)
    ensures !CompareVersions("abc", v) && !CompareVersions(v, "abc")
    ensures !CompareVersions("1..2", v) && !CompareVersions(v, "1..2")
  {
    assert JoinDots(["abc"]) == "abc";
    SplitJoin(["abc"]);
    assert !IsDigit("abc"[0]);
    CompareMalformed("abc", v, 0);
    CompareMalformed(v, "abc", 0);
    assert JoinDots(["1", "", "2"]) == "1..2";
    SplitJoin(["1", "", "2"]);
    CompareMalformed("1..2", v, 1);
    CompareMalformed(v, "1..2", 1);
  }
}
