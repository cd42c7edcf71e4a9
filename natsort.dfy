/**
 * The orderings the folder list uses: `_natural_sort_key` (text runs
 * lower-cased, digit runs read as numbers), Python's list and string
 * comparison, and a stable sort by key as `list.sort(key=...)` performs it.
 */
module NaturalSort {
  import opened Names

  /** One element of a natural key: a lower-cased text run or the value of a digit run. */
  datatype Part = Text(s: string) | Num(n: nat)

  type Key = seq<Part>

  /** Length of the longest prefix of `s` without a digit. */
  function TextRun(s: string): (n: nat)
    ensures n <= |s|
    ensures n < |s| ==> IsDigit(s[n])
  {
    if |s| == 0 || IsDigit(s[0]) then 0 else 1 + TextRun(s[1..])
  }

  /** Length of the longest prefix of `s` made of digits. */
  function DigitRun(s: string): (n: nat)
    ensures n <= |s|
    ensures n < |s| ==> !IsDigit(s[n])
  {
    if |s| == 0 || !IsDigit(s[0]) then 0 else 1 + DigitRun(s[1..])
  }

  lemma {:induction false} TextRunNoDigit(s: string, i: nat)
    requires i < TextRun(s)
    ensures !IsDigit(s[i])
  {
    if i > 0 {
      TextRunNoDigit(s[1..], i - 1);
    }
  }

  lemma {:induction false} DigitRunDigits(s: string)
    ensures forall i :: 0 <= i < DigitRun(s) ==> IsDigit(s[i])
  {
    if |s| > 0 && IsDigit(s[0]) {
      DigitRunDigits(s[1..]);
      forall i | 0 <= i < DigitRun(s) ensures IsDigit(s[i]) {
        if i > 0 {
          assert s[i] == s[1..][i - 1];
        }
      }
    }
  }

  /**
   * `_natural_sort_key`: `re.split(r'(\d+)', text)` yields text, digits,
   * text, ..., text (the outer runs possibly empty); digit runs become
   * their value, text runs are lower-cased.
   */
  function NaturalKey(s: string): Key
    decreases |s|
  {
    var t := TextRun(s);
    if t == |s| then [Text(Lower(s))]
    else
      var rest := s[t..];
      var d := DigitRun(rest);
      DigitRunDigits(rest);
      [Text(Lower(s[..t])), Num(DigitsValue(rest[..d]))] + NaturalKey(rest[d..])
  }

  /** Text at even positions, numbers at odd ones, text at both ends. */
  predicate Alternates(k: Key) {
    |k| % 2 == 1 && forall i :: 0 <= i < |k| ==> (k[i].Text? <==> i % 2 == 0)
  }

  lemma AlternatesCons(t: string, n: nat, tail: Key)
    requires Alternates(tail)
    ensures Alternates([Text(t), Num(n)] + tail)
  {
    var k := [Text(t), Num(n)] + tail;
    forall i | 2 <= i < |k| ensures k[i].Text? <==> i % 2 == 0 {
      assert k[i] == tail[i - 2];
    }
  }

  /**
   * The key alternates text and number, starting and ending with text, so
   * comparing two keys never puts a text run against a number (Python would
   * raise on that).
   */
  lemma {:induction false} NaturalKeyShape(s: string)
    ensures Alternates(NaturalKey(s))
    decreases |s|
  {
    var t := TextRun(s);
    if t < |s| {
      var rest := s[t..];
      var d := DigitRun(rest);
      assert d > 0;
      NaturalKeyShape(rest[d..]);
      DigitRunDigits(rest);
      AlternatesCons(Lower(s[..t]), DigitsValue(rest[..d]), NaturalKey(rest[d..]));
    }
  }

  /** Python's `<` between two key elements of the same type; a text run is put first otherwise. */
  predicate PartLess(a: Part, b: Part) {
    match (a, b)
    case (Text(x), Text(y)) => StrLess(x, y)
    case (Num(x), Num(y)) => x < y
    case (Text(_), Num(_)) => true
    case (Num(_), Text(_)) => false
  }

  /** Python's `<` on lists: the first differing element decides; a proper prefix comes first. */
  predicate KeyLess(a: Key, b: Key) {
    if |b| == 0 then false
    else if |a| == 0 then true
    else if a[0] != b[0] then PartLess(a[0], b[0])
    else KeyLess(a[1..], b[1..])
  }

  lemma PartLessIrreflexive(a: Part)
    ensures !PartLess(a, a)
  {
    if a.Text? {
      StrLessIrreflexive(a.s);
    }
  }

  lemma PartLessTransitive(a: Part, b: Part, c: Part)
    requires PartLess(a, b) && PartLess(b, c)
    ensures PartLess(a, c)
  {
    if a.Text? && b.Text? && c.Text? {
      StrLessTransitive(a.s, b.s, c.s);
    }
  }

  lemma {:induction false} KeyLessIrreflexive(a: Key)
    ensures !KeyLess(a, a)
  {
    if |a| > 0 {
      KeyLessIrreflexive(a[1..]);
    }
  }

  lemma {:induction false} KeyLessTransitive(a: Key, b: Key, c: Key)
    requires KeyLess(a, b) && KeyLess(b, c)
    ensures KeyLess(a, c)
  {
    if |a| > 0 && |b| > 0 && |c| > 0 {
      if a[0] == b[0] && b[0] == c[0] {
        KeyLessTransitive(a[1..], b[1..], c[1..]);
      } else if a[0] != b[0] && b[0] != c[0] {
        PartLessTransitive(a[0], b[0], c[0]);
        if a[0] == c[0] {
          PartLessIrreflexive(a[0]);
        }
      }
    }
  }

  lemma KeyLessAsymmetric(a: Key, b: Key)
    requires KeyLess(a, b)
    ensures !KeyLess(b, a)
  {
    if KeyLess(b, a) {
      KeyLessTransitive(a, b, a);
      KeyLessIrreflexive(a);
    }
  }

  /** A plain string key: list comparison of one-element keys is Python's string `<`. */
  function PlainKey(s: string): Key {
    [Text(s)]
  }

  lemma PlainKeyOrder(a: string, b: string)
    ensures KeyLess(PlainKey(a), PlainKey(b)) <==> StrLess(a, b)
  {
    StrLessIrreflexive(a);
  }

  /** A name stem followed by a number: `folder2` comes before `folder10` under the natural key. */
  lemma NumberedKey(t: string, n: nat)
    requires forall i :: 0 <= i < |t| ==> !IsDigit(t[i])
    ensures NaturalKey(t + NatToString(n)) == [Text(Lower(t)), Num(n), Text("")]
  {
    var s := t + NatToString(n);
    TextRunAcross(t, NatToString(n));
    var rest := s[|t|..];
    assert rest == NatToString(n);
    DigitRunAll(rest);
    assert rest[..|rest|] == rest;
    NatToStringRoundTrip(n);
    assert s[..|t|] == t;
    assert rest[|rest|..] == "";
  }

  lemma {:induction false} TextRunAcross(t: string, d: string)
    requires forall i :: 0 <= i < |t| ==> !IsDigit(t[i])
    requires |d| > 0 && IsDigit(d[0])
    ensures TextRun(t + d) == |t|
  {
    if |t| > 0 {
      assert (t + d)[1..] == t[1..] + d;
      TextRunAcross(t[1..], d);
    } else {
      assert t + d == d;
    }
  }

  lemma {:induction false} DigitRunAll(d: string)
    requires forall i :: 0 <= i < |d| ==> IsDigit(d[i])
    ensures DigitRun(d) == |d|
  {
    if |d| > 0 {
      DigitRunAll(d[1..]);
    }
  }

  /**
   * Numbers in names compare by value under the natural key, while plain
   * string order puts `folder10` before `folder2`.
   */
  lemma NaturalOrdersNumbers(t: string, m: nat, n: nat)
    requires forall i :: 0 <= i < |t| ==> !IsDigit(t[i])
    requires m < n
    ensures KeyLess(NaturalKey(t + NatToString(m)), NaturalKey(t + NatToString(n)))
  {
    NumberedKey(t, m);
    NumberedKey(t, n);
    NumberedLess(Lower(t), m, n);
  }

  lemma NumberedLess(l: string, m: nat, n: nat)
    requires m < n
    ensures KeyLess([Text(l), Num(m), Text("")], [Text(l), Num(n), Text("")])
  {
    var a: Key := [Num(m), Text("")];
    var b: Key := [Num(n), Text("")];
    assert KeyLess(a, b);
    assert [Text(l), Num(m), Text("")] == [Text(l)] + a;
    assert [Text(l), Num(n), Text("")] == [Text(l)] + b;
    KeyLessCommonHead(Text(l), a, b);
  }

  lemma KeyLessCommonHead(p: Part, a: Key, b: Key)
    requires KeyLess(a, b)
    ensures KeyLess([p] + a, [p] + b)
  {
    assert ([p] + a)[1..] == a;
    assert ([p] + b)[1..] == b;
  }

  lemma FolderTwoBeforeTen()
    ensures KeyLess(NaturalKey("folder2"), NaturalKey("folder10"))
  {
    var t := "folder";
    forall i | 0 <= i < |t| ensures !IsDigit(t[i]) {
    }
    var two, ten := NatToString(2), NatToString(10);
    assert two == "2";
    assert ten == NatToString(1) + [DigitChar(0)];
    assert t + two == "folder2";
    assert t + ten == "folder10";
    NaturalOrdersNumbers(t, 2, 10);
  }

  /** Plain string order puts `folder10` first. */
  lemma PlainTenBeforeTwo()
    ensures StrLess("folder10", "folder2")
  {
    var a, b := "folder10", "folder2";
    assert a[6..] == "10" && b[6..] == "2";
    assert StrLess(a[6..], b[6..]);
  }

  /** No element is strictly below an earlier one. */
  predicate SortedBy<T>(s: seq<T>, key: T -> Key) {
    forall i, j :: 0 <= i < j < |s| ==> !KeyLess(key(s[j]), key(s[i]))
  }

  /** Places `x` after every element whose key is not above its own (ties keep their order). */
  function Insert<T>(s: seq<T>, x: T, key: T -> Key): seq<T> {
    if |s| == 0 then [x]
    else if KeyLess(key(x), key(s[0])) then [x] + s
    else [s[0]] + Insert(s[1..], x, key)
  }

  /** `list.sort(key=...)`: a stable sort, here as insertion of each element in turn. */
  function SortBy<T>(xs: seq<T>, key: T -> Key): seq<T> {
    if |xs| == 0 then [] else Insert(SortBy(xs[..|xs| - 1], key), xs[|xs| - 1], key)
  }

  lemma InsertFront<T>(s: seq<T>, x: T, key: T -> Key)
    requires SortedBy(s, key) && |s| > 0 && KeyLess(key(x), key(s[0]))
    ensures SortedBy([x] + s, key)
  {
    var r := [x] + s;
    forall i, j | 0 <= i < j < |r| ensures !KeyLess(key(r[j]), key(r[i])) {
      if i == 0 {
        assert r[j] == s[j - 1];
        if KeyLess(key(s[j - 1]), key(x)) {
          KeyLessTransitive(key(s[j - 1]), key(x), key(s[0]));
          if j == 1 {
            KeyLessIrreflexive(key(s[0]));
          }
        }
      } else {
        assert r[i] == s[i - 1] && r[j] == s[j - 1];
      }
    }
  }

  lemma InsertLater<T>(s: seq<T>, x: T, key: T -> Key, t: seq<T>)
    requires SortedBy(s, key) && |s| > 0 && !KeyLess(key(x), key(s[0]))
    requires SortedBy(t, key) && multiset(t) == multiset(s[1..]) + multiset{x}
    ensures SortedBy([s[0]] + t, key)
  {
    var r := [s[0]] + t;
    forall i, j | 0 <= i < j < |r| ensures !KeyLess(key(r[j]), key(r[i])) {
      if i == 0 {
        assert r[j] == t[j - 1];
        assert r[j] in multiset(t);
        if r[j] != x {
          assert r[j] in multiset(s[1..]);
          var k :| 0 <= k < |s[1..]| && s[1..][k] == r[j];
          assert s[k + 1] == r[j];
        }
      } else {
        assert r[i] == t[i - 1] && r[j] == t[j - 1];
      }
    }
  }

  lemma {:induction false} InsertSorted<T>(s: seq<T>, x: T, key: T -> Key)
    requires SortedBy(s, key)
    ensures multiset(Insert(s, x, key)) == multiset(s) + multiset{x}
    ensures SortedBy(Insert(s, x, key), key)
  {
    if |s| > 0 {
      assert s == [s[0]] + s[1..];
      if KeyLess(key(x), key(s[0])) {
        InsertFront(s, x, key);
      } else {
        assert SortedBy(s[1..], key) by {
          forall i, j | 0 <= i < j < |s[1..]| ensures !KeyLess(key(s[1..][j]), key(s[1..][i])) {
            assert s[1..][j] == s[j + 1] && s[1..][i] == s[i + 1];
          }
        }
        InsertSorted(s[1..], x, key);
        InsertLater(s, x, key, Insert(s[1..], x, key));
      }
    }
  }

    /** The sorted list is a permutation of the input, in key order. */
  lemma {:induction false} SortBySpec<T>(xs: seq<T>, key: T -> Key)
    ensures multiset(SortBy(xs, key)) == multiset(xs)
    ensures SortedBy(SortBy(xs, key), key)
  {
    if |xs| > 0 {
      var init := xs[..|xs| - 1];
      SortBySpec(init, key);
      InsertSorted(SortBy(init, key), xs[|xs| - 1], key);
      assert xs == init + [xs[|xs| - 1]];
    }
  }
}
