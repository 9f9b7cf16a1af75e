/** Lists: subsequences, and counting the positions that hold a value of some kind. */
module Sequences {

  /** a is b with some elements left out. */
  predicate Subsequence<T(==)>(a: seq<T>, b: seq<T>) {
    a == [] || (b != [] && ((a[|a| - 1] == b[|b| - 1] && Subsequence(a[..|a| - 1], b[..|b| - 1])) || Subsequence(a, b[..|b| - 1])))
  }

  lemma {:induction false} SubsequenceSkip<T>(a: seq<T>, b: seq<T>, x: T)
    requires Subsequence(a, b)
    ensures Subsequence(a, b + [x])
  {
    assert (b + [x])[..|b|] == b;
  }

  lemma {:induction false} SubsequenceBoth<T>(a: seq<T>, b: seq<T>, x: T)
    requires Subsequence(a, b)
    ensures Subsequence(a + [x], b + [x])
  {
    assert (a + [x])[..|a|] == a && (b + [x])[..|b|] == b;
  }

  lemma {:induction false} SubsequenceDrop<T>(a: seq<T>, b: seq<T>)
    requires Subsequence(a, b) && a != []
    ensures Subsequence(a[..|a| - 1], b)
    decreases |b|
  {
    var n := |b| - 1;
    if a[|a| - 1] == b[n] && Subsequence(a[..|a| - 1], b[..n]) {
      SubsequenceSkip(a[..|a| - 1], b[..n], b[n]);
      assert b == b[..n] + [b[n]];
    } else {
      SubsequenceDrop(a, b[..n]);
      SubsequenceSkip(a[..|a| - 1], b[..n], b[n]);
      assert b == b[..n] + [b[n]];
    }
  }

  /** How many positions hold a value with property p. */
  function Matches<T>(s: seq<T>, p: T -> bool): nat {
    |set i: nat | i < |s| && p(s[i])|
  }

  lemma {:induction false} MatchesStep<T>(s: seq<T>, p: T -> bool)
    requires s != []
    ensures Matches(s, p) == Matches(s[..|s| - 1], p) + if p(s[|s| - 1]) then 1 else 0
  {
    var n := |s| - 1;
    var before := set i: nat | i < |s[..n]| && p(s[..n][i]);
    var all := set i: nat | i < |s| && p(s[i]);
    forall i: nat ensures i in all <==> i in before || (i == n && p(s[n])) {
      if i < n {
        assert s[..n][i] == s[i];
      }
    }
    if p(s[n]) {
      assert all == before + {n};
    } else {
      assert all == before;
    }
  }

  lemma {:induction false} NoMatches<T>(s: seq<T>, p: T -> bool)
    requires forall i :: 0 <= i < |s| ==> !p(s[i])
    ensures Matches(s, p) == 0
  {
    assert (set i: nat | i < |s| && p(s[i])) == {};
  }

  lemma {:induction false} MatchesAt<T>(s: seq<T>, p: T -> bool, at: set<nat>)
    requires forall i: nat :: i in at <==> i < |s| && p(s[i])
    ensures Matches(s, p) == |at|
  {
    assert at == set i: nat | i < |s| && p(s[i]);
  }
}
