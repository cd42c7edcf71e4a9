/**
 * String helpers the program relies on: pathlib's stem/suffix split, decimal
 * rendering of counters, ASCII lower-casing, substring tests and Python's
 * code-point ordering of strings.
 */
module Names {

  /** Position of the last '.' in `s`, or -1 (Python's `str.rfind('.')`). */
  function LastDot(s: string): (r: int)
    ensures -1 <= r < |s|
  {
    if |s| == 0 then -1
    else if s[|s| - 1] == '.' then |s| - 1
    else LastDot(s[..|s| - 1])
  }

  /** `LastDot` finds a dot with none after it, or reports that there is none. */
  lemma {:induction false} LastDotMeans(s: string)
    ensures var r := LastDot(s);
            (r >= 0 ==> s[r] == '.' && forall j :: r < j < |s| ==> s[j] != '.')
            && (r == -1 ==> forall j :: 0 <= j < |s| ==> s[j] != '.')
  {
    if |s| > 0 && s[|s| - 1] != '.' {
      var t := s[..|s| - 1];
      LastDotMeans(t);
      assert forall j :: 0 <= j < |t| ==> t[j] == s[j];
    }
  }

  /** Where pathlib splits a file name into stem and suffix. */
  function SuffixStart(name: string): (k: nat)
    ensures k <= |name|
  {
    var i := LastDot(name);
    if 0 < i < |name| - 1 then i else |name|
  }

  /** `PurePath.stem`. */
  function Stem(name: string): string {
    name[..SuffixStart(name)]
  }

  /** `PurePath.suffix`: from the last dot on, unless that dot is the first or the last character. */
  function Suffix(name: string): string {
    name[SuffixStart(name)..]
  }

  lemma StemSuffixSplit(name: string)
    ensures Stem(name) + Suffix(name) == name
    ensures Suffix(name) == "" || (|Suffix(name)| >= 2 && Suffix(name)[0] == '.' && '.' !in Suffix(name)[1..] && Stem(name) != "")
    ensures Suffix(name) != "" <==> 0 < LastDot(name) < |name| - 1
  {
    LastDotMeans(name);
    var k := SuffixStart(name);
    assert name[..k] + name[k..] == name;
    if k < |name| {
      forall j | 0 <= j < |name[k..][1..]| ensures name[k..][1..][j] != '.' {
        assert name[k..][1..][j] == name[k + 1 + j];
      }
    }
  }

  function DigitChar(d: nat): (c: char)
    requires d < 10
    ensures '0' <= c <= '9'
  {
    ('0' as int + d) as char
  }

  predicate IsDigit(c: char) {
    '0' <= c <= '9'
  }

  /** Decimal rendering of a natural number, as Python's `f"{n}"`. */
  function NatToString(n: nat): (s: string)
    ensures |s| >= 1
    ensures forall i :: 0 <= i < |s| ==> IsDigit(s[i])
    decreases n
  {
    if n < 10 then [DigitChar(n)] else NatToString(n / 10) + [DigitChar(n % 10)]
  }

  /** Value of a run of decimal digits, as Python's `int(...)` on such a run. */
  function DigitsValue(s: string): nat
    requires forall i :: 0 <= i < |s| ==> IsDigit(s[i])
  {
    if |s| == 0 then 0
    else
      assert IsDigit(s[|s| - 1]);
      DigitsValue(s[..|s| - 1]) * 10 + DigitOf(s[|s| - 1])
  }

  function DigitOf(c: char): (d: nat)
    requires IsDigit(c)
    ensures d < 10
  {
    c as int - '0' as int
  }

  /** Every digit string of `NatToString` reads back as the number it renders. */
  lemma {:induction false} NatToStringRoundTrip(n: nat)
    ensures DigitsValue(NatToString(n)) == n
    decreases n
  {
    var s := NatToString(n);
    if n >= 10 {
      NatToStringRoundTrip(n / 10);
      assert s[..|s| - 1] == NatToString(n / 10);
    }
  }

  function LowerChar(c: char): char {
    if 'A' <= c <= 'Z' then (c as int - 'A' as int + 'a' as int) as char else c
  }

  /** `str.lower()` restricted to ASCII letters. */
  function Lower(s: string): (r: string)
    ensures |r| == |s|
    ensures forall i :: 0 <= i < |s| ==> r[i] == LowerChar(s[i])
  {
    seq(|s|, i requires 0 <= i < |s| => LowerChar(s[i]))
  }

  /** Python's `sub in s`. */
  predicate Contains(s: string, sub: string) {
    sub <= s || (|s| > 0 && Contains(s[1..], sub))
  }

  lemma {:induction false} ContainsAppend(s: string, t: string, sub: string)
    requires Contains(s, sub)
    ensures Contains(s + t, sub)
  {
    if sub <= s {
      assert sub <= s + t;
    } else {
      assert (s + t)[1..] == s[1..] + t;
      ContainsAppend(s[1..], t, sub);
    }
  }

  /** Python's `a < b` on strings: lexicographic by code point, a proper prefix first. */
  predicate StrLess(a: string, b: string) {
    if |a| == 0 then |b| > 0
    else if |b| == 0 then false
    else if a[0] != b[0] then a[0] < b[0]
    else StrLess(a[1..], b[1..])
  }

  lemma {:induction false} StrLessAsymmetric(a: string, b: string)
    ensures StrLess(a, b) ==> !StrLess(b, a)
  {
    if |a| > 0 && |b| > 0 && a[0] == b[0] {
      StrLessAsymmetric(a[1..], b[1..]);
    }
  }

  lemma {:induction false} StrLessIrreflexive(a: string)
    ensures !StrLess(a, a)
  {
    if |a| > 0 {
      StrLessIrreflexive(a[1..]);
    }
  }

  lemma {:induction false} StrLessTransitive(a: string, b: string, c: string)
    requires StrLess(a, b) && StrLess(b, c)
    ensures StrLess(a, c)
  {
    if |a| > 0 && |b| > 0 && |c| > 0 && a[0] == b[0] && b[0] == c[0] {
      StrLessTransitive(a[1..], b[1..], c[1..]);
    }
  }

  /** Strings that are neither below nor above each other are equal. */
  lemma {:induction false} StrLessTotal(a: string, b: string)
    requires !StrLess(a, b) && !StrLess(b, a)
    ensures a == b
  {
    if |a| > 0 && |b| > 0 {
      StrLessTotal(a[1..], b[1..]);
      assert a == [a[0]] + a[1..];
      assert b == [b[0]] + b[1..];
    }
  }
}
