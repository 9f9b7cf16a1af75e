/** How much blame one block can hand out. */
module Blame {
  import opened Events
  import opened Stats
  import opened Bags
  import opened Detection
  import opened Scores

  function Slower(blk: Block, ranks: set<Rank>, c: real): set<Rank> {
    set p | p in ranks && MedianLag(blk, p) < c
  }

  lemma {:induction false} CountSlower(blk: Block, ranks: set<Rank>, c: real)
    ensures BagCount(Pool(MedianBags(blk, ranks)), c, true) == |Slower(blk, ranks, c)|
    ensures |Pool(MedianBags(blk, ranks))| == |ranks|
    decreases |ranks|
  {
    hide MedianLag;
    if ranks == {} {
      assert MedianBags(blk, ranks) == map[];
    } else {
      var p :| p in ranks;
      var rest := ranks - {p};
      CountSlower(blk, rest, c);
      MedianBagsRemove(blk, ranks, p);
      SlowerRemove(blk, ranks, p, c);
      hide *;
      BagCountAdd(Pool(MedianBags(blk, rest)), multiset{MedianLag(blk, p)}, c, true);
      SingleCount(MedianLag(blk, p), c);
    }
  }

  lemma {:induction false} MedianBagsRemove(blk: Block, ranks: set<Rank>, p: Rank)
    requires p in ranks
    ensures Pool(MedianBags(blk, ranks)) == Pool(MedianBags(blk, ranks - {p})) + multiset{MedianLag(blk, p)}
  {
    hide MedianLag;
    PoolRemove(MedianBags(blk, ranks), p);
    assert MedianBags(blk, ranks) - {p} == MedianBags(blk, ranks - {p});
  }

  lemma {:induction false} SlowerRemove(blk: Block, ranks: set<Rank>, p: Rank, c: real)
    requires p in ranks
    ensures |Slower(blk, ranks, c)| == |Slower(blk, ranks - {p}, c)| + if MedianLag(blk, p) < c then 1 else 0
  {
    hide MedianLag;
    if MedianLag(blk, p) < c {
      assert Slower(blk, ranks, c) == Slower(blk, ranks - {p}, c) + {p};
    } else {
      assert Slower(blk, ranks, c) == Slower(blk, ranks - {p}, c);
    }
  }

  lemma {:induction false} SingleCount(x: real, c: real)
    ensures BagCount(multiset{x}, c, true) == if x < c then 1 else 0
  {
    BagCountOf([x], c, true);
    assert multiset([x]) == multiset{x};
    assert [x][..0] == [];
  }

  /** A flagged rank lags more than half of the ranks it is compared with. */
  lemma {:induction false} FlaggedLagsHalf(cfg: Config, blk: Block, floor: real, r: Rank)
    requires |blk| >= 2 && cfg.thresholdSigma >= 0.0 && Flagged(cfg, blk, floor, r)
    ensures r in Eligible(blk) && Excess(blk, r) > 0.0
    ensures 2 * |Slower(blk, Peers(blk, r), MedianLag(blk, r))| >= |Peers(blk, r)| > 0
  {
    FlaggedExcess(cfg, blk, floor, r);
    hide *;
    ExcessPositive(blk, r);
    CountSlower(blk, Peers(blk, r), MedianLag(blk, r));
    BagHalf(Pool(MedianBags(blk, Peers(blk, r))), MedianLag(blk, r));
    assert |Peers(blk, r)| > 0;
  }

  lemma {:induction false} ExcessPositive(blk: Block, r: Rank)
    requires Excess(blk, r) > 0.0
    ensures BagMedian(Pool(MedianBags(blk, Peers(blk, r)))) < MedianLag(blk, r)
  {
  }

  lemma {:induction false} BagHalf(b: multiset<real>, c: real)
    requires |b| > 0 && BagMedian(b) < c
    ensures 2 * BagCount(b, c, true) >= |b|
  {
    MedianByCount(Arrange(b), c, true);
  }

  lemma {:induction false} LeastLag(blk: Block, ranks: set<Rank>) returns (r: Rank)
    requires ranks != {}
    ensures r in ranks && forall p :: p in ranks ==> MedianLag(blk, r) <= MedianLag(blk, p)
    decreases |ranks|
  {
    hide MedianLag;
    r :| r in ranks;
    var rest := ranks - {r};
    if rest != {} {
      var q := LeastLag(blk, rest);
      var s := r;
      if MedianLag(blk, q) < MedianLag(blk, r) {
        r := q;
      }
      forall p | p in ranks ensures MedianLag(blk, r) <= MedianLag(blk, p) {
        assert p == s || p in rest;
      }
    } else {
      forall p | p in ranks ensures p == r {
        assert p !in rest;
      }
    }
  }

  /** Minority of blame. With a non-negative threshold, of n eligible ranks at most half, rounded up, are
      flagged in a block; and whoever is flagged lags some rank that is not, so never the rank of least
      median lag. Of two ranks at most one is flagged. */
  lemma {:induction false} MinorityOfBlame(cfg: Config, blk: Block, floor: real, flagged: set<Rank>)
    requires |blk| >= 2 && cfg.thresholdSigma >= 0.0
    requires forall r :: r in flagged ==> Flagged(cfg, blk, floor, r)
    ensures flagged <= Eligible(blk)
    ensures 2 * |flagged| <= |Eligible(blk)| + 1
    ensures forall r :: r in flagged ==> exists p :: p in Eligible(blk) && MedianLag(blk, p) < MedianLag(blk, r)
  {
    hide Flagged, MedianLag;
    forall r | r in flagged
      ensures r in Eligible(blk) && exists p :: p in Eligible(blk) && MedianLag(blk, p) < MedianLag(blk, r)
    {
      FlaggedLagsHalf(cfg, blk, floor, r);
      var slower := Slower(blk, Peers(blk, r), MedianLag(blk, r));
      assert |slower| > 0;
      var p :| p in slower;
    }
    hide Eligible;
    if flagged != {} {
      var r := LeastLag(blk, flagged);
      FlaggedLagsHalf(cfg, blk, floor, r);
      var slower := Slower(blk, Peers(blk, r), MedianLag(blk, r));
      assert slower !! flagged && slower <= Eligible(blk);
      SubsetSize(slower + flagged, Eligible(blk));
      assert |Peers(blk, r)| == |Eligible(blk)| - 1;
    }
  }

  lemma {:induction false} SubsetSize<T>(a: set<T>, b: set<T>)
    requires a <= b
    ensures |a| <= |b|
  {
    assert b == a + (b - a);
  }
}
