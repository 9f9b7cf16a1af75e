/** Values collected in no particular order. The detector appends to its slices while it ranges over
    Go maps, so every such slice is known only up to order: it is a bag, and a statistic of it is one
    of the bag. */
module Bags {
  import opened Stats

  /** Some order of the bag's values. */
  ghost function Arrange(b: multiset<real>): (s: seq<real>)
    ensures multiset(s) == b && |s| == |b|
  {
    if exists x :: x in b then
      var x :| x in b;
      Arrange(b - multiset{x}) + [x]
    else []
  }

  ghost function BagMedian(b: multiset<real>): real {
    Median(Arrange(b))
  }

  ghost function BagMad(b: multiset<real>): real {
    Mad(Arrange(b))
  }

  ghost function BagCount(b: multiset<real>, w: real, strict: bool): nat {
    Count(Arrange(b), w, strict)
  }

  lemma {:induction false} BagStatistics(s: seq<real>)
    ensures BagMedian(multiset(s)) == Median(s)
    ensures BagMad(multiset(s)) == Mad(s)
  {
    MedianPermutation(Arrange(multiset(s)), s);
    MadPermutation(Arrange(multiset(s)), s);
  }

  lemma {:induction false} BagInRange(b: multiset<real>, lo: real, hi: real)
    requires b != multiset{}
    requires forall x :: x in b ==> lo <= x <= hi
    ensures lo <= BagMedian(b) <= hi
  {
    var s := Arrange(b);
    assert forall x :: x in s ==> x in multiset(s);
    MedianInRange(s, lo, hi);
  }

  lemma {:induction false} BagMadInRange(b: multiset<real>, w: real)
    requires w >= 0.0
    requires forall x :: x in b ==> 0.0 <= x <= w
    ensures 0.0 <= BagMad(b) <= w
  {
    var s := Arrange(b);
    assert forall x :: x in s ==> x in multiset(s);
    MadInRange(s, w);
  }

  lemma {:induction false} BagCountAdd(a: multiset<real>, b: multiset<real>, w: real, strict: bool)
    ensures BagCount(a + b, w, strict) == BagCount(a, w, strict) + BagCount(b, w, strict)
  {
    CountPermutation(Arrange(a + b), Arrange(a) + Arrange(b), w, strict);
    CountAppend(Arrange(a), Arrange(b), w, strict);
  }

  lemma {:induction false} BagCountOf(s: seq<real>, w: real, strict: bool)
    ensures BagCount(multiset(s), w, strict) == Count(s, w, strict)
  {
    CountPermutation(Arrange(multiset(s)), s, w, strict);
  }

  // ---------------------------------------------------------------- pooling over a map

  /** What a loop over the map collects when each key contributes its bag. */
  ghost function Pool<K>(m: map<K, multiset<real>>): multiset<real>
  {
    if m == map[] then multiset{}
    else
      var k :| k in m;
      Pool(m - {k}) + m[k]
  }

  /** The collected bag does not depend on the order in which keys are visited. */
  lemma {:induction false} PoolRemove<K>(m: map<K, multiset<real>>, k: K)
    requires k in m
    ensures Pool(m) == Pool(m - {k}) + m[k]
    decreases |m|
  {
    var j :| j in m && Pool(m) == Pool(m - {j}) + m[j];
    if j != k {
      PoolRemove(m - {j}, k);
      PoolRemove(m - {k}, j);
      assert (m - {j}) - {k} == (m - {k}) - {j};
    }
  }

  lemma {:induction false} PoolInsert<K>(m: map<K, multiset<real>>, k: K, b: multiset<real>)
    requires k !in m
    ensures Pool(m[k := b]) == Pool(m) + b
  {
    PoolRemove(m[k := b], k);
    assert m[k := b] - {k} == m;
  }

  lemma {:induction false} PoolMember<K>(m: map<K, multiset<real>>, x: real)
    ensures x in Pool(m) <==> exists k :: k in m && x in m[k]
    decreases |m|
  {
    if m != map[] {
      var k :| k in m && Pool(m) == Pool(m - {k}) + m[k];
      PoolMember(m - {k}, x);
      assert forall j :: j in m && x in m[j] <==> (j in m - {k} && x in (m - {k})[j]) || (j == k && x in m[k]);
    }
  }

  /** a lies below b as a distribution. */
  ghost predicate BagDominated(a: multiset<real>, b: multiset<real>) {
    |a| == |b| && forall w :: BagCount(a, w, false) >= BagCount(b, w, false)
  }

  lemma {:induction false} BagMedianMonotone(a: multiset<real>, b: multiset<real>)
    requires BagDominated(a, b)
    ensures BagMedian(a) <= BagMedian(b)
  {
    forall w ensures Count(Arrange(a), w, false) >= Count(Arrange(b), w, false) {
      assert BagCount(a, w, false) >= BagCount(b, w, false);
    }
    MedianMonotone(Arrange(a), Arrange(b));
  }

  lemma {:induction false} BagDominatedAdd(a: multiset<real>, a': multiset<real>, b: multiset<real>, b': multiset<real>)
    requires BagDominated(a, b) && BagDominated(a', b')
    ensures BagDominated(a + a', b + b')
  {
    forall w ensures BagCount(a + a', w, false) >= BagCount(b + b', w, false) {
      BagCountAdd(a, a', w, false);
      BagCountAdd(b, b', w, false);
    }
  }

  lemma {:induction false} PoolDominated<K>(m: map<K, multiset<real>>, n: map<K, multiset<real>>)
    requires m.Keys == n.Keys && forall k :: k in m ==> BagDominated(m[k], n[k])
    ensures BagDominated(Pool(m), Pool(n))
    decreases |m|
  {
    if m != map[] {
      var k :| k in m;
      PoolRemove(m, k);
      PoolRemove(n, k);
      PoolDominated(m - {k}, n - {k});
      BagDominatedAdd(Pool(m - {k}), m[k], Pool(n - {k}), n[k]);
    } else {
      assert n == map[];
    }
  }

  lemma {:induction false} SingletonDominated(x: real, y: real)
    requires x <= y
    ensures BagDominated(multiset{x}, multiset{y})
  {
    PointwiseDominated([x], [y]);
    forall w ensures BagCount(multiset{x}, w, false) >= BagCount(multiset{y}, w, false) {
      BagCountOf([x], w, false);
      BagCountOf([y], w, false);
      assert multiset([x]) == multiset{x} && multiset([y]) == multiset{y};
    }
  }

  // ---------------------------------------------------------------- change of unit

  /** b is a with every value mapped by f. */
  ghost predicate IsImage(a: multiset<real>, b: multiset<real>, f: real -> real) {
    exists s :: multiset(s) == a && multiset(Map(s, f)) == b
  }

  lemma {:induction false} ImageOf(s: seq<real>, f: real -> real)
    ensures IsImage(multiset(s), multiset(Map(s, f)), f)
  {
  }

  lemma {:induction false} MapAppend(s: seq<real>, t: seq<real>, f: real -> real)
    ensures Map(s + t, f) == Map(s, f) + Map(t, f)
  {
    if t == [] {
      assert s + t == s;
    } else {
      assert s + t == (s + t[..|t| - 1]) + [t[|t| - 1]];
      MapExtend(s + t[..|t| - 1], t[|t| - 1], f);
      MapAppend(s, t[..|t| - 1], f);
    }
  }

  lemma {:induction false} ImageAdd(a: multiset<real>, b: multiset<real>, a': multiset<real>, b': multiset<real>, f: real -> real)
    requires IsImage(a, b, f) && IsImage(a', b', f)
    ensures IsImage(a + a', b + b', f)
  {
    var s :| multiset(s) == a && multiset(Map(s, f)) == b;
    var t :| multiset(t) == a' && multiset(Map(t, f)) == b';
    MapAppend(s, t, f);
    ImageOf(s + t, f);
    assert multiset(s + t) == multiset(s) + multiset(t);
    assert multiset(Map(s, f) + Map(t, f)) == multiset(Map(s, f)) + multiset(Map(t, f));
  }

  lemma {:induction false} PoolImageStep<K>(m: map<K, multiset<real>>, n: map<K, multiset<real>>, k: K, f: real -> real)
    requires k in m && k in n
    requires IsImage(Pool(m - {k}), Pool(n - {k}), f) && IsImage(m[k], n[k], f)
    ensures IsImage(Pool(m), Pool(n), f)
  {
    hide IsImage, Pool;
    PoolRemove(m, k);
    PoolRemove(n, k);
    ImageAdd(Pool(m - {k}), Pool(n - {k}), m[k], n[k], f);
  }

  lemma {:induction false} PoolImage<K>(m: map<K, multiset<real>>, n: map<K, multiset<real>>, f: real -> real)
    requires m.Keys == n.Keys && forall k :: k in m ==> IsImage(m[k], n[k], f)
    ensures IsImage(Pool(m), Pool(n), f)
    decreases |m|
  {
    if m != map[] {
      hide IsImage, Pool;
      var k :| k in m;
      PoolImage(m - {k}, n - {k}, f);
      PoolImageStep(m, n, k, f);
    } else {
      assert n == map[];
      ImageOf([], f);
    }
  }

  lemma {:induction false} ImageScale(a: multiset<real>, b: multiset<real>, c: real)
    requires c > 0.0 && IsImage(a, b, Times(c))
    ensures BagMedian(b) == Times(c)(BagMedian(a))
    ensures BagMad(b) == Times(c)(BagMad(a))
  {
    var s :| multiset(s) == a && multiset(Map(s, Times(c))) == b;
    BagStatistics(s);
    BagStatistics(Map(s, Times(c)));
    MedianScale(s, c);
    MadScale(s, c);
  }
}
