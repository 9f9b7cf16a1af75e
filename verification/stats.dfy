/** Order statistics under the detector: the median and the MAD of ComputeStats, and the counting
    laws that every detection theorem rests on. */
module Stats {
  import opened Sequences

  const MAD_TO_SIGMA := 1.4826

  // ---------------------------------------------------------------- sorting

  ghost predicate Sorted(s: seq<real>) {
    forall i, j :: 0 <= i < j < |s| ==> s[i] <= s[j]
  }

  lemma {:induction false} SortedExtend(s: seq<real>, x: real)
    requires Sorted(s) && (s == [] || s[|s| - 1] <= x)
    ensures Sorted(s + [x])
  {
  }

  function Insert(s: seq<real>, x: real): (r: seq<real>)
    requires Sorted(s)
    ensures Sorted(r) && |r| == |s| + 1
    ensures r[|s|] == if s == [] || s[|s| - 1] <= x then x else s[|s| - 1]
  {
    if s == [] || s[|s| - 1] <= x then
      SortedExtend(s, x);
      s + [x]
    else
      var r := Insert(s[..|s| - 1], x);
      SortedExtend(r, s[|s| - 1]);
      r + [s[|s| - 1]]
  }

  lemma {:induction false} InsertBag(s: seq<real>, x: real)
    requires Sorted(s)
    ensures multiset(Insert(s, x)) == multiset(s) + multiset{x}
  {
    if s != [] && s[|s| - 1] > x {
      assert s == s[..|s| - 1] + [s[|s| - 1]];
      InsertBag(s[..|s| - 1], x);
    }
  }

  /** sort.Float64s */
  function Sort(s: seq<real>): (r: seq<real>)
    ensures Sorted(r) && |r| == |s|
  {
    if s == [] then [] else Insert(Sort(s[..|s| - 1]), s[|s| - 1])
  }

  lemma {:induction false} SortBag(s: seq<real>)
    ensures multiset(Sort(s)) == multiset(s)
  {
    if s != [] {
      assert s == s[..|s| - 1] + [s[|s| - 1]];
      SortBag(s[..|s| - 1]);
      InsertBag(Sort(s[..|s| - 1]), s[|s| - 1]);
    }
  }

  // ---------------------------------------------------------------- the statistics

  function MedianOfSorted(s: seq<real>): real
    requires s != []
  {
    var n := |s|;
    if n % 2 == 1 then s[n / 2] else (s[n / 2 - 1] + s[n / 2]) / 2.0
  }

  /** ComputeStats(s).Median; zero for empty input. */
  function Median(s: seq<real>): real {
    if s == [] then 0.0 else MedianOfSorted(Sort(s))
  }

  function Abs(x: real): real {
    if x < 0.0 then -x else x
  }

  function Deviations(s: seq<real>, c: real): (d: seq<real>)
    ensures |d| == |s|
  {
    if s == [] then [] else Deviations(s[..|s| - 1], c) + [Abs(s[|s| - 1] - c)]
  }

  /** ComputeStats(s).MAD, the raw median absolute deviation. */
  function Mad(s: seq<real>): real {
    Median(Deviations(Sort(s), Median(s)))
  }

  function Sum(s: seq<real>): real {
    if s == [] then 0.0 else Sum(s[..|s| - 1]) + s[|s| - 1]
  }

  function Mean(s: seq<real>): real {
    if s == [] then 0.0 else Sum(s) / |s| as real
  }

  // ---------------------------------------------------------------- counting

  /** x <= w, or x < w when strict. */
  predicate Below(x: real, w: real, strict: bool) {
    if strict then x < w else x <= w
  }

  function Count(s: seq<real>, w: real, strict: bool): (n: nat)
    ensures n <= |s|
  {
    if s == [] then 0
    else Count(s[..|s| - 1], w, strict) + if Below(s[|s| - 1], w, strict) then 1 else 0
  }

  lemma {:induction false} CountAppend(a: seq<real>, b: seq<real>, w: real, strict: bool)
    ensures Count(a + b, w, strict) == Count(a, w, strict) + Count(b, w, strict)
  {
    if b == [] {
      assert a + b == a;
    } else {
      assert (a + b)[..|a + b| - 1] == a + b[..|b| - 1];
      CountAppend(a, b[..|b| - 1], w, strict);
    }
  }

  lemma {:induction false} CountRemove(s: seq<real>, j: nat, w: real, strict: bool)
    requires j < |s|
    ensures Count(s, w, strict) == Count(s[..j] + s[j + 1..], w, strict) + if Below(s[j], w, strict) then 1 else 0
  {
    var front, x, rest := s[..j], [s[j]], s[j + 1..];
    assert s == front + x + rest;
    CountAppend(front + x, rest, w, strict);
    CountAppend(front, x, w, strict);
    CountAppend(front, rest, w, strict);
    assert x[..0] == [];
  }

  lemma {:induction false} BagRemove(s: seq<real>, j: nat)
    requires j < |s|
    ensures multiset(s[..j] + s[j + 1..]) == multiset(s) - multiset{s[j]}
  {
    assert s == s[..j] + [s[j]] + s[j + 1..];
  }

  lemma {:induction false} CountPermutation(a: seq<real>, b: seq<real>, w: real, strict: bool)
    requires multiset(a) == multiset(b)
    ensures Count(a, w, strict) == Count(b, w, strict)
    decreases |a|
  {
    if a == [] {
      assert |multiset(b)| == 0;
    } else {
      var n := |a| - 1;
      assert a[n] in multiset(b);
      var j :| 0 <= j < |b| && b[j] == a[n];
      BagRemove(a, n);
      BagRemove(b, j);
      assert a[..n] + a[n + 1..] == a[..n];
      CountPermutation(a[..n], b[..j] + b[j + 1..], w, strict);
      CountRemove(b, j, w, strict);
    }
  }

  lemma {:induction false} CountSorted(s: seq<real>, k: nat, w: real, strict: bool)
    requires Sorted(s) && k < |s|
    ensures Below(s[k], w, strict) <==> Count(s, w, strict) > k
  {
    if Below(s[|s| - 1], w, strict) {
      CountAll(s, w, strict);
    } else if k < |s| - 1 {
      CountSorted(s[..|s| - 1], k, w, strict);
    }
  }

  lemma {:induction false} CountAll(s: seq<real>, w: real, strict: bool)
    requires forall x :: x in s ==> Below(x, w, strict)
    ensures Count(s, w, strict) == |s|
  {
    if s != [] {
      CountAll(s[..|s| - 1], w, strict);
    }
  }

  lemma {:induction false} CountNone(s: seq<real>, w: real, strict: bool)
    requires forall x :: x in s ==> !Below(x, w, strict)
    ensures Count(s, w, strict) == 0
  {
    if s != [] {
      CountNone(s[..|s| - 1], w, strict);
    }
  }

  /** The k-th order statistic is below w exactly when more than k values are. */
  lemma {:induction false} KthBelow(s: seq<real>, k: nat, w: real, strict: bool)
    requires k < |s|
    ensures Below(Sort(s)[k], w, strict) <==> Count(s, w, strict) > k
  {
    CountSorted(Sort(s), k, w, strict);
    SortBag(s);
    CountPermutation(Sort(s), s, w, strict);
  }

  // ---------------------------------------------------------------- laws of the median

  /** More than half of the values below w put the median below w; a median below w needs half of them. */
  lemma {:induction false} MedianByCount(s: seq<real>, w: real, strict: bool)
    requires s != []
    ensures 2 * Count(s, w, strict) > |s| ==> Below(Median(s), w, strict)
    ensures Below(Median(s), w, strict) ==> 2 * Count(s, w, strict) >= |s|
  {
    hide Count, Sort;
    var n := |s|;
    KthBelow(s, n / 2, w, strict);
    if n % 2 == 0 {
      KthBelow(s, n / 2 - 1, w, strict);
    }
  }

  /** x is the k-th smallest of the values, counted from 1: fewer than k lie below it, at least k not above. */
  ghost predicate Ranks(s: seq<real>, x: real, k: nat) {
    x in s && Count(s, x, true) < k <= Count(s, x, false)
  }

  lemma {:induction false} KthRanks(s: seq<real>, k: nat)
    requires k < |s|
    ensures Ranks(s, Sort(s)[k], k + 1)
  {
    KthBelow(s, k, Sort(s)[k], true);
    KthBelow(s, k, Sort(s)[k], false);
    SortBag(s);
    hide Sort, Count;
    assert Sort(s)[k] in multiset(Sort(s));
  }

  /** The median is the middle value, or halfway between the two in the middle. */
  lemma {:induction false} MedianExactly(s: seq<real>) returns (lo: real, hi: real)
    requires s != []
    ensures Ranks(s, lo, (|s| + 1) / 2) && Ranks(s, hi, |s| / 2 + 1)
    ensures Median(s) == (lo + hi) / 2.0
  {
    hide Ranks, Sort;
    var n := |s|;
    lo, hi := Sort(s)[(n + 1) / 2 - 1], Sort(s)[n / 2];
    KthRanks(s, (n + 1) / 2 - 1);
    KthRanks(s, n / 2);
  }

  lemma {:induction false} MedianInRange(s: seq<real>, lo: real, hi: real)
    requires s != [] && forall x :: x in s ==> lo <= x <= hi
    ensures lo <= Median(s) <= hi
  {
    CountAll(s, hi, false);
    MedianByCount(s, hi, false);
    CountNone(s, lo, true);
    MedianByCount(s, lo, true);
  }

  /** a lies below b as a distribution: every threshold has at least as many values of a under it. */
  ghost predicate Dominated(a: seq<real>, b: seq<real>) {
    |a| == |b| && forall w :: Count(a, w, false) >= Count(b, w, false)
  }

  lemma {:induction false} DominatedLength(a: seq<real>, b: seq<real>)
    requires Dominated(a, b)
    ensures |a| == |b|
  {
  }

  lemma {:induction false} KthMonotone(a: seq<real>, b: seq<real>, k: nat)
    requires Dominated(a, b) && k < |a|
    ensures Sort(a)[k] <= Sort(b)[k]
  {
    var w := Sort(b)[k];
    KthBelow(b, k, w, false);
    KthBelow(a, k, w, false);
  }

  lemma {:induction false} MedianMonotone(a: seq<real>, b: seq<real>)
    requires Dominated(a, b)
    ensures Median(a) <= Median(b)
  {
    hide Dominated, Sort;
    assert |a| == |b| by { DominatedLength(a, b); }
    var n := |a|;
    if n != 0 {
      KthMonotone(a, b, n / 2);
      if n % 2 == 0 {
        KthMonotone(a, b, n / 2 - 1);
      }
    }
  }

  lemma {:induction false} PointwiseDominated(a: seq<real>, b: seq<real>)
    requires |a| == |b| && forall i :: 0 <= i < |a| ==> a[i] <= b[i]
    ensures Dominated(a, b)
  {
    if a != [] {
      PointwiseDominated(a[..|a| - 1], b[..|b| - 1]);
    }
  }

  lemma {:induction false} MedianPermutation(a: seq<real>, b: seq<real>)
    requires multiset(a) == multiset(b)
    ensures Median(a) == Median(b)
  {
    assert |multiset(a)| == |a| && |multiset(b)| == |b|;
    forall w ensures Count(a, w, false) == Count(b, w, false) {
      CountPermutation(a, b, w, false);
    }
    MedianMonotone(a, b);
    MedianMonotone(b, a);
  }

  // ---------------------------------------------------------------- scaling

  function Map(s: seq<real>, f: real -> real): (r: seq<real>)
    ensures |r| == |s|
  {
    if s == [] then [] else Map(s[..|s| - 1], f) + [f(s[|s| - 1])]
  }

  ghost predicate Increasing(f: real -> real) {
    forall x, y :: x <= y <==> f(x) <= f(y)
  }

  lemma {:induction false} MapAt(s: seq<real>, f: real -> real, i: nat)
    requires i < |s|
    ensures Map(s, f)[i] == f(s[i])
  {
    if i < |s| - 1 {
      MapAt(s[..|s| - 1], f, i);
    }
  }

  lemma {:induction false} MapSorted(s: seq<real>, f: real -> real)
    requires Increasing(f) && Sorted(s)
    ensures Sorted(Map(s, f))
  {
    if s != [] {
      MapSorted(s[..|s| - 1], f);
      if |s| > 1 {
        MapAt(s[..|s| - 1], f, |s| - 2);
      }
      SortedExtend(Map(s[..|s| - 1], f), f(s[|s| - 1]));
    }
  }

  lemma {:induction false} MapExtend(s: seq<real>, x: real, f: real -> real)
    ensures Map(s + [x], f) == Map(s, f) + [f(x)]
  {
    assert (s + [x])[..|s|] == s;
  }

  lemma {:induction false} InsertMap(s: seq<real>, x: real, f: real -> real)
    requires Increasing(f) && Sorted(s)
    ensures Sorted(Map(s, f)) && Insert(Map(s, f), f(x)) == Map(Insert(s, x), f)
  {
    MapSorted(s, f);
    if s == [] || s[|s| - 1] <= x {
      MapExtend(s, x, f);
    } else {
      var front, y := s[..|s| - 1], s[|s| - 1];
      assert Map(s, f)[..|s| - 1] == Map(front, f);
      InsertMap(front, x, f);
      MapExtend(Insert(front, x), y, f);
    }
  }

  /** Sorting commutes with a strictly increasing change of unit. */
  lemma {:induction false} SortMap(s: seq<real>, f: real -> real)
    requires Increasing(f)
    ensures Sort(Map(s, f)) == Map(Sort(s), f)
  {
    if s != [] {
      var front := s[..|s| - 1];
      assert Map(s, f)[..|s| - 1] == Map(front, f);
      SortMap(front, f);
      InsertMap(Sort(front), s[|s| - 1], f);
    }
  }

  /** Multiplication by a positive constant, as the change of unit of a measurement. */
  function Times(c: real): real -> real {
    x => c * x
  }

  lemma {:induction false} MulOrder(x: real, y: real, c: real)
    requires c > 0.0
    ensures c * x <= c * y <==> x <= y
  {
    if x < y {
      assert c * (y - x) > 0.0;
    } else if y < x {
      assert c * (x - y) > 0.0;
    }
  }

  lemma {:induction false} TimesIncreasing(c: real)
    requires c > 0.0
    ensures Increasing(Times(c))
  {
    var f := Times(c);
    forall x, y ensures x <= y <==> f(x) <= f(y) {
      MulOrder(x, y, c);
    }
  }

  ghost predicate Halves(f: real -> real, x: real, y: real) {
    (f(x) + f(y)) / 2.0 == f((x + y) / 2.0)
  }

  lemma {:induction false} TimesHalves(c: real, x: real, y: real)
    ensures Halves(Times(c), x, y)
  {
    var f := Times(c);
    assert f(x) + f(y) == c * (x + y);
    assert c * (x + y) / 2.0 == c * ((x + y) / 2.0);
  }

  lemma {:induction false} MedianOfSortedMap(s: seq<real>, f: real -> real)
    requires s != [] && forall x, y :: Halves(f, x, y)
    ensures MedianOfSorted(Map(s, f)) == f(MedianOfSorted(s))
  {
    var n := |s|;
    MapAt(s, f, n / 2);
    if n % 2 == 0 {
      MapAt(s, f, n / 2 - 1);
      assert Halves(f, s[n / 2 - 1], s[n / 2]);
    }
  }

  lemma {:induction false} MedianScale(s: seq<real>, c: real)
    requires c > 0.0
    ensures Median(Map(s, Times(c))) == Times(c)(Median(s))
  {
    TimesIncreasing(c);
    SortMap(s, Times(c));
    forall x, y ensures Halves(Times(c), x, y) {
      TimesHalves(c, x, y);
    }
    if s != [] {
      MedianOfSortedMap(Sort(s), Times(c));
    }
  }

  // ---------------------------------------------------------------- laws of the MAD

  lemma {:induction false} DeviationAt(s: seq<real>, m: real, i: nat)
    requires i < |s|
    ensures Deviations(s, m)[i] == Abs(s[i] - m)
  {
    if i < |s| - 1 {
      DeviationAt(s[..|s| - 1], m, i);
    }
  }

  lemma {:induction false} DeviationRange(s: seq<real>, m: real, w: real)
    requires 0.0 <= m <= w
    requires forall x :: x in s ==> 0.0 <= x <= w
    ensures forall d :: d in Deviations(s, m) ==> 0.0 <= d <= w
  {
    forall d | d in Deviations(s, m) ensures 0.0 <= d <= w {
      var i :| 0 <= i < |s| && Deviations(s, m)[i] == d;
      DeviationAt(s, m, i);
      assert s[i] in s;
    }
  }

  lemma {:induction false} SortKeeps(s: seq<real>, x: real)
    ensures x in Sort(s) <==> x in s
  {
    SortBag(s);
    assert x in Sort(s) <==> x in multiset(Sort(s));
    assert x in s <==> x in multiset(s);
  }

  lemma {:induction false} MadInRange(s: seq<real>, w: real)
    requires w >= 0.0
    requires forall x :: x in s ==> 0.0 <= x <= w
    ensures 0.0 <= Mad(s) <= w
  {
    if s != [] {
      MedianInRange(s, 0.0, w);
      forall x | x in Sort(s) ensures 0.0 <= x <= w {
        SortKeeps(s, x);
      }
      DeviationRange(Sort(s), Median(s), w);
      MedianInRange(Deviations(Sort(s), Median(s)), 0.0, w);
    }
  }

  /** Within w of c, or nearer when strict. */
  function Near(c: real, w: real, strict: bool): real -> bool {
    (x: real) => Below(Abs(x - c), w, strict)
  }

  lemma {:induction false} NearDeviations(s: seq<real>, c: real, w: real, strict: bool)
    ensures Matches(s, Near(c, w, strict)) == Count(Deviations(s, c), w, strict)
  {
    hide Abs, Below, Matches;
    if s != [] {
      MatchesStep(s, Near(c, w, strict));
      NearDeviations(s[..|s| - 1], c, w, strict);
      var v := Deviations(s[..|s| - 1], c);
      assert Deviations(s, c)[..|v|] == v;
    } else {
      NoMatches(s, Near(c, w, strict));
    }
  }

  /** The MAD is in the middle of the distances from the median: below w if more than half of the values are nearer
      than that, and only if at least half are. */
  lemma {:induction false} MadByCount(s: seq<real>, w: real, strict: bool)
    requires s != []
    ensures 2 * Matches(s, Near(Median(s), w, strict)) > |s| ==> Below(Mad(s), w, strict)
    ensures Below(Mad(s), w, strict) ==> 2 * Matches(s, Near(Median(s), w, strict)) >= |s|
  {
    var t := Sort(s);
    SortBag(s);
    hide Sort, Median, Matches, Near, Count, Deviations, Below;
    NearDeviations(s, Median(s), w, strict);
    DeviationsPermuted(t, s, Median(s));
    CountPermutation(Deviations(t, Median(s)), Deviations(s, Median(s)), w, strict);
    MedianByCount(Deviations(t, Median(s)), w, strict);
  }

  lemma {:induction false} DeviationsAppend(a: seq<real>, b: seq<real>, c: real)
    ensures Deviations(a + b, c) == Deviations(a, c) + Deviations(b, c)
  {
    if b == [] {
      assert a + b == a;
    } else {
      assert (a + b)[..|a + b| - 1] == a + b[..|b| - 1];
      DeviationsAppend(a, b[..|b| - 1], c);
    }
  }

  lemma {:induction false} DeviationsRemove(s: seq<real>, j: nat, c: real)
    requires j < |s|
    ensures multiset(Deviations(s, c)) == multiset(Deviations(s[..j] + s[j + 1..], c)) + multiset{Abs(s[j] - c)}
  {
    hide Abs;
    var a, b := s[..j], s[j + 1..];
    assert s == a + ([s[j]] + b);
    DeviationsAppend(a, [s[j]] + b, c);
    DeviationsAppend([s[j]], b, c);
    DeviationsAppend(a, b, c);
    assert [s[j]][..0] == [];
    assert Deviations([s[j]], c) == [Abs(s[j] - c)];
  }

  lemma {:induction false} DeviationsPermuted(a: seq<real>, b: seq<real>, c: real)
    requires multiset(a) == multiset(b)
    ensures multiset(Deviations(a, c)) == multiset(Deviations(b, c))
    decreases |a|
  {
    hide Deviations;
    if a == [] {
      assert |multiset(b)| == 0;
      assert b == [];
    } else {
      assert a[0] in multiset(b);
      var j :| 0 <= j < |b| && b[j] == a[0];
      DeviationsStep(a, b, 0, j, c);
      BagRemove(a, 0);
      BagRemove(b, j);
      DeviationsPermuted(a[..0] + a[1..], b[..j] + b[j + 1..], c);
    }
  }

  lemma {:induction false} DeviationsStep(a: seq<real>, b: seq<real>, i: nat, j: nat, c: real)
    requires i < |a| && j < |b| && a[i] == b[j]
    ensures multiset(Deviations(a[..i] + a[i + 1..], c)) == multiset(Deviations(b[..j] + b[j + 1..], c)) ==>
      multiset(Deviations(a, c)) == multiset(Deviations(b, c))
  {
    hide Deviations, Abs;
    DeviationsRemove(a, i, c);
    DeviationsRemove(b, j, c);
  }

  lemma {:induction false} MadNonNegative(s: seq<real>)
    ensures Mad(s) >= 0.0
  {
    var m, d := Median(s), Deviations(Sort(s), Median(s));
    if d != [] {
      forall x | x in d ensures !Below(x, 0.0, true) {
        var i :| 0 <= i < |d| && d[i] == x;
        DeviationAt(Sort(s), m, i);
      }
      CountNone(d, 0.0, true);
      MedianByCount(d, 0.0, true);
    }
  }

  lemma {:induction false} SortedPermutationUnique(a: seq<real>, b: seq<real>)
    requires Sorted(a) && Sorted(b) && multiset(a) == multiset(b)
    ensures a == b
  {
    assert |multiset(a)| == |a| && |multiset(b)| == |b|;
    forall k | 0 <= k < |a| ensures a[k] == b[k] {
      CountSorted(a, k, a[k], false);
      CountPermutation(a, b, a[k], false);
      CountSorted(b, k, a[k], false);
      CountSorted(b, k, b[k], false);
      CountPermutation(a, b, b[k], false);
      CountSorted(a, k, b[k], false);
    }
  }

  lemma {:induction false} MadPermutation(a: seq<real>, b: seq<real>)
    requires multiset(a) == multiset(b)
    ensures Mad(a) == Mad(b)
  {
    MedianPermutation(a, b);
    SortBag(a);
    SortBag(b);
    SortedPermutationUnique(Sort(a), Sort(b));
  }

  /** Distances scale with the values. */
  ghost predicate ScalesDistance(f: real -> real, x: real, y: real) {
    Abs(f(x) - f(y)) == f(Abs(x - y))
  }

  lemma {:induction false} TimesDistance(c: real, x: real, y: real)
    requires c > 0.0
    ensures ScalesDistance(Times(c), x, y)
  {
    MulOrder(y, x, c);
    assert c * x - c * y == c * (x - y);
    assert c * y - c * x == c * (y - x);
  }

  lemma {:induction false} DeviationMap(s: seq<real>, m: real, f: real -> real)
    requires forall x, y :: ScalesDistance(f, x, y)
    ensures Deviations(Map(s, f), f(m)) == Map(Deviations(s, m), f)
  {
    if s != [] {
      var front, x := s[..|s| - 1], s[|s| - 1];
      assert Map(s, f)[..|s| - 1] == Map(front, f);
      DeviationMap(front, m, f);
      OneDeviation(x, m, f);
      hide Abs;
      MapExtend(Deviations(front, m), Abs(x - m), f);
    }
  }

  lemma {:induction false} OneDeviation(x: real, m: real, f: real -> real)
    requires forall x, y :: ScalesDistance(f, x, y)
    ensures Abs(f(x) - f(m)) == f(Abs(x - m))
  {
    assert ScalesDistance(f, x, m);
  }

  lemma {:induction false} MadScale(s: seq<real>, c: real)
    requires c > 0.0
    ensures Mad(Map(s, Times(c))) == Times(c)(Mad(s))
  {
    var f, t, m := Times(c), Sort(s), Median(s);
    MedianScale(s, c);
    TimesIncreasing(c);
    SortMap(s, f);
    forall x, y ensures ScalesDistance(f, x, y) {
      TimesDistance(c, x, y);
    }
    DeviationMap(t, m, f);
    MedianScale(Deviations(t, m), c);
  }

  // ---------------------------------------------------------------- means, and lists apart

  lemma {:induction false} SumAppend(a: seq<real>, b: seq<real>)
    ensures Sum(a + b) == Sum(a) + Sum(b)
  {
    if b == [] {
      assert a + b == a;
    } else {
      assert (a + b)[..|a + b| - 1] == a + b[..|b| - 1];
      SumAppend(a, b[..|b| - 1]);
    }
  }

  /** The mean is the value that, in place of each, leaves the sum as it is; of one value it is that value. */
  lemma {:induction false} MeanExactly(s: seq<real>)
    requires s != []
    ensures Mean(s) * |s| as real == Sum(s)
    ensures |s| == 1 ==> Mean(s) == s[0]
  {
    if |s| == 1 {
      assert Sum(s[..0]) == 0.0;
    }
    hide Sum;
    MeanProduct(Sum(s), |s| as real);
  }

  lemma {:induction false} MeanProduct(sum: real, n: real)
    requires n > 0.0
    ensures sum / n * n == sum
  {
  }

  lemma {:induction false} SumBounds(s: seq<real>, lo: real, hi: real)
    requires forall x :: x in s ==> lo <= x <= hi
    ensures lo * |s| as real <= Sum(s) <= hi * |s| as real
  {
    if s != [] {
      var n := |s| - 1;
      assert s[n] in s;
      forall x | x in s[..n] ensures lo <= x <= hi {
        assert x in s;
      }
      SumBounds(s[..n], lo, hi);
      assert |s| as real == n as real + 1.0;
    }
  }

  lemma {:induction false} MeanInRange(s: seq<real>, lo: real, hi: real)
    requires s != [] && forall x :: x in s ==> lo <= x <= hi
    ensures lo <= Mean(s) <= hi
  {
    hide Sum;
    SumBounds(s, lo, hi);
    MeanProduct(Sum(s), |s| as real);
    MulOrder(lo, Sum(s) / |s| as real, |s| as real);
    MulOrder(Sum(s) / |s| as real, hi, |s| as real);
  }

  /** The largest and the smallest value. */
  lemma {:induction false} Ends(s: seq<real>) returns (lo: real, hi: real)
    requires s != []
    ensures lo in s && hi in s && forall x :: x in s ==> lo <= x <= hi
    decreases |s|
  {
    var n := |s| - 1;
    lo, hi := s[n], s[n];
    assert s == s[..n] + [s[n]];
    if n > 0 {
      var l, h := Ends(s[..n]);
      lo, hi := if l < lo then l else lo, if h > hi then h else hi;
    }
  }

  /** The median is where all the values are. */
  lemma {:induction false} MedianSide(s: seq<real>, m: real)
    requires s != []
    ensures (forall x :: x in s ==> x > m) ==> Median(s) > m
    ensures (forall x :: x in s ==> x >= m) ==> Median(s) >= m
    ensures (forall x :: x in s ==> x < m) ==> Median(s) < m
    ensures (forall x :: x in s ==> x <= m) ==> Median(s) <= m
  {
    hide Median;
    var lo, hi := Ends(s);
    MedianInRange(s, lo, hi);
  }
}
