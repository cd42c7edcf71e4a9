/**
 * `_generate_unique_target_path`: picks the name a moved file gets inside the
 * merge target. The target's current contents are the set `taken`; the
 * millisecond clock reading is the opaque number `ts`.
 */
module Resolver {
  import opened Wrappers
  import opened Names

  /** `f"{stem}_{n}{suffix}"`. */
  function Candidate(stem: string, n: nat, suffix: string): string {
    stem + "_" + NatToString(n) + suffix
  }

  /** The last counter whose candidate is checked; the 1000th is overwritten by the clock fallback. */
  const LastCounter: nat := 999

  /**
   * Reference definition of the collision loop from counter `n` on: the first
   * free numbered candidate, else the timestamp candidate when that is free.
   */
  function FirstFree(stem: string, suffix: string, n: nat, taken: set<string>, ts: nat): Option<string>
    requires 1 <= n <= LastCounter + 1
    decreases LastCounter + 1 - n
  {
    if n == LastCounter + 1 then
      var t := Candidate(stem, ts, suffix);
      if t in taken then None else Some(t)
    else if Candidate(stem, n, suffix) !in taken then Some(Candidate(stem, n, suffix))
    else FirstFree(stem, suffix, n + 1, taken, ts)
  }

  /** The name the resolver returns for `name` in a target holding `taken`. */
  function UniqueName(name: string, taken: set<string>, ts: nat): Option<string> {
    if name !in taken then Some(name)
    else FirstFree(Stem(name), Suffix(name), 1, taken, ts)
  }

  /** The loop of the source, with the counter and the current candidate path. */
  method GenerateUniqueTargetPath(name: string, taken: set<string>, ts: nat) returns (r: Option<string>)
    ensures r == UniqueName(name, taken, ts)
    ensures r.Some? ==> r.value !in taken
    ensures name !in taken <==> r == Some(name)
  {
    var target := name;
    if target !in taken {
      return Some(target);
    }
    var counter: nat := 1;
    var stem, suffix := Stem(name), Suffix(name);
    while target in taken
      invariant 1 <= counter <= LastCounter + 1
      invariant counter == 1 ==> target == name
      invariant (if target in taken then FirstFree(stem, suffix, counter, taken, ts) else Some(target))
                == FirstFree(stem, suffix, 1, taken, ts)
      decreases LastCounter + 1 - counter
    {
      target := Candidate(stem, counter, suffix);
      counter := counter + 1;
      if counter > LastCounter + 1 {
        target := Candidate(stem, ts, suffix);
        if target in taken {
          FirstFreeFresh(stem, suffix, 1, taken, ts);
          return None;
        }
        break;
      }
    }
    r := Some(target);
    FirstFreeFresh(stem, suffix, 1, taken, ts);
  }

  lemma {:induction false} FirstFreeFresh(stem: string, suffix: string, n: nat, taken: set<string>, ts: nat)
    requires 1 <= n <= LastCounter + 1
    ensures var r := FirstFree(stem, suffix, n, taken, ts); r.Some? ==> r.value !in taken
    decreases LastCounter + 1 - n
  {
    if n <= LastCounter && Candidate(stem, n, suffix) in taken {
      FirstFreeFresh(stem, suffix, n + 1, taken, ts);
    }
  }

  /** Any name the resolver returns is free in the target (the freshness guarantee). */
  lemma UniqueNameFresh(name: string, taken: set<string>, ts: nat)
    ensures var r := UniqueName(name, taken, ts); r.Some? ==> r.value !in taken
  {
    if name in taken {
      FirstFreeFresh(Stem(name), Suffix(name), 1, taken, ts);
    }
  }

  lemma {:induction false} FirstFreeAt(stem: string, suffix: string, k: nat, n: nat, taken: set<string>, ts: nat)
    requires 1 <= k <= n <= LastCounter
    requires forall m :: k <= m < n ==> Candidate(stem, m, suffix) in taken
    requires Candidate(stem, n, suffix) !in taken
    ensures FirstFree(stem, suffix, k, taken, ts) == Some(Candidate(stem, n, suffix))
    decreases n - k
  {
    if k < n {
      FirstFreeAt(stem, suffix, k + 1, n, taken, ts);
    }
  }

  lemma {:induction false} FirstFreeExhausted(stem: string, suffix: string, k: nat, taken: set<string>, ts: nat)
    requires 1 <= k <= LastCounter + 1
    requires forall m :: k <= m <= LastCounter ==> Candidate(stem, m, suffix) in taken
    ensures FirstFree(stem, suffix, k, taken, ts)
            == (if Candidate(stem, ts, suffix) in taken then None else Some(Candidate(stem, ts, suffix)))
    decreases LastCounter + 1 - k
  {
    if k <= LastCounter {
      FirstFreeExhausted(stem, suffix, k + 1, taken, ts);
    }
  }

  /**
   * The three outcomes of the resolver: the name itself when free; otherwise
   * `stem_n + suffix` for the first free n in 1..999, every smaller one being
   * taken; otherwise the timestamp name, or None when that is taken too.
   */
  lemma UniqueNameCases(name: string, taken: set<string>, ts: nat, n: nat)
    ensures name !in taken ==> UniqueName(name, taken, ts) == Some(name)
    ensures name in taken && 1 <= n <= LastCounter
            && (forall m :: 1 <= m < n ==> Candidate(Stem(name), m, Suffix(name)) in taken)
            && Candidate(Stem(name), n, Suffix(name)) !in taken
            ==> UniqueName(name, taken, ts) == Some(Candidate(Stem(name), n, Suffix(name)))
    ensures name in taken
            && (forall m :: 1 <= m <= LastCounter ==> Candidate(Stem(name), m, Suffix(name)) in taken)
            ==> UniqueName(name, taken, ts)
                == (var t := Candidate(Stem(name), ts, Suffix(name)); if t in taken then None else Some(t))
  {
    var stem, suffix := Stem(name), Suffix(name);
    if name in taken && 1 <= n <= LastCounter
       && (forall m :: 1 <= m < n ==> Candidate(stem, m, suffix) in taken)
       && Candidate(stem, n, suffix) !in taken {
      FirstFreeAt(stem, suffix, 1, n, taken, ts);
    }
    if name in taken && (forall m :: 1 <= m <= LastCounter ==> Candidate(stem, m, suffix) in taken) {
      FirstFreeExhausted(stem, suffix, 1, taken, ts);
    }
  }

  lemma CandidateInjective(stem: string, suffix: string, n: nat, m: nat)
    requires Candidate(stem, n, suffix) == Candidate(stem, m, suffix)
    ensures n == m
  {
    var a, b := NatToString(n), NatToString(m);
    var c := Candidate(stem, n, suffix);
    assert |a| == |b|;
    assert a == c[|stem| + 1..|stem| + 1 + |a|];
    assert b == c[|stem| + 1..|stem| + 1 + |b|];
    NatToStringRoundTrip(n);
    NatToStringRoundTrip(m);
  }

  lemma {:induction false} FirstFreeShape(stem: string, suffix: string, k: nat, taken: set<string>, ts: nat)
    requires 1 <= k <= LastCounter + 1
    ensures var r := FirstFree(stem, suffix, k, taken, ts);
            r.Some? ==> r.value == Candidate(stem, ts, suffix)
                        || exists n :: k <= n <= LastCounter && r.value == Candidate(stem, n, suffix)
    decreases LastCounter + 1 - k
  {
    if k <= LastCounter && Candidate(stem, k, suffix) in taken {
      FirstFreeShape(stem, suffix, k + 1, taken, ts);
    }
  }

  /** `stem_1000 + suffix` comes back only if the clock itself read 1000. */
  lemma NeverCounterThousand(name: string, taken: set<string>, ts: nat)
    ensures UniqueName(name, taken, ts) == Some(Candidate(Stem(name), 1000, Suffix(name))) ==> ts == 1000
  {
    var stem, suffix := Stem(name), Suffix(name);
    var t := Candidate(stem, 1000, suffix);
    if UniqueName(name, taken, ts) == Some(t) {
      StemSuffixSplit(name);
      if name in taken {
        FirstFreeShape(stem, suffix, 1, taken, ts);
        if t == Candidate(stem, ts, suffix) {
          CandidateInjective(stem, suffix, 1000, ts);
        } else {
          var n :| 1 <= n <= LastCounter && t == Candidate(stem, n, suffix);
          CandidateInjective(stem, suffix, 1000, n);
        }
      }
    }
  }
}
