/** Facts about one block that every detection theorem uses. */
module Scores {
  import opened Events
  import opened Sequences
  import opened Stats
  import opened Bags
  import opened Detection

  // ---------------------------------------------------------------- arithmetic of the threshold

  lemma {:induction false} QuotientAbove(x: real, d: real, t: real)
    requires d > 0.0
    ensures x / d > t <==> x > t * d
  {
    var q := x / d;
    assert q * d == x;
    MulOrder(q, t, d);
  }

  lemma {:induction false} ProductNonNegative(a: real, b: real)
    requires a >= 0.0 && b >= 0.0
    ensures a * b >= 0.0
  {
  }

  lemma {:induction false} MulMonotone(a: real, b: real, c: real)
    requires a <= b && c >= 0.0
    ensures a * c <= b * c
  {
    ProductNonNegative(b - a, c);
    assert (b - a) * c == b * c - a * c;
  }

  lemma {:induction false} StdErrNonNegative(root: Root, sigma: real, n: nat)
    requires n > 0 && sigma >= 0.0
    ensures StdErr(root, sigma, n) >= 0.0
    ensures StdErr(root, sigma, n) == 0.0 <==> sigma == 0.0
    ensures StdErr(root, sigma, n) * root(n) == SE_FACTOR * sigma
  {
    QuotientAbove(SE_FACTOR * sigma, root(n), 0.0);
  }

  lemma {:induction false} SpreadNonNegative(blk: Block, r: Rank, floor: real)
    ensures Spread(blk, r, floor) >= 0.0 && Spread(blk, r, floor) >= floor
  {
    MadNonNegative(Arrange(PeerLags(blk, r)));
  }

  ghost function BlockStdErr(cfg: Config, blk: Block, floor: real, r: Rank): real
    requires |blk| >= 2 && Judged(blk, r)
  {
    ColumnNonEmpty(blk, r);
    StdErr(cfg.root, Spread(blk, r, floor), |Column(blk, r)|)
  }

  lemma {:induction false} ZTest(excess: real, se: real, t: real)
    requires se >= 0.0
    ensures var z := ZScore(excess, se); z.Some? && Above(z.value, t) <==> excess > t * se
  {
    if se > 0.0 {
      QuotientAbove(excess, se, t);
    }
  }

  lemma {:induction false} BlockStdErrNonNegative(cfg: Config, blk: Block, floor: real, r: Rank)
    requires |blk| >= 2 && Judged(blk, r)
    ensures BlockStdErr(cfg, blk, floor, r) >= 0.0
  {
    ColumnNonEmpty(blk, r);
    SpreadNonNegative(blk, r, floor);
    StdErrNonNegative(cfg.root, Spread(blk, r, floor), |Column(blk, r)|);
  }

  /** The z test without its division: also right when the standard error is zero. */
  lemma {:induction false} FlaggedByProduct(cfg: Config, blk: Block, floor: real, r: Rank)
    requires |blk| >= 2 && Judged(blk, r)
    ensures Flagged(cfg, blk, floor, r) <==> Excess(blk, r) > cfg.thresholdSigma * BlockStdErr(cfg, blk, floor, r)
  {
    hide StdErr, Excess, Spread, ZScore, Judged, Above;
    BlockStdErrNonNegative(cfg, blk, floor, r);
    ZTest(Excess(blk, r), BlockStdErr(cfg, blk, floor, r), cfg.thresholdSigma);
  }

  lemma {:induction false} FlaggedJudged(cfg: Config, blk: Block, floor: real, r: Rank)
    requires Flagged(cfg, blk, floor, r)
    ensures |blk| >= 2 && Judged(blk, r) && r in Eligible(blk) && Peers(blk, r) != {}
  {
    hide ZScore, Excess, StdErr, Spread, Eligible, Peers, Column, RootLike;
  }

  lemma {:induction false} FlaggedExcess(cfg: Config, blk: Block, floor: real, r: Rank)
    requires cfg.thresholdSigma >= 0.0 && Flagged(cfg, blk, floor, r)
    ensures |blk| >= 2 && r in Eligible(blk) && Peers(blk, r) != {} && Excess(blk, r) > 0.0
  {
    hide *;
    FlaggedJudged(cfg, blk, floor, r);
    BlockStdErrNonNegative(cfg, blk, floor, r);
    FlaggedByProduct(cfg, blk, floor, r);
    ProductNonNegative(cfg.thresholdSigma, BlockStdErr(cfg, blk, floor, r));
  }

  // ---------------------------------------------------------------- columns

  lemma {:induction false} ColumnMember(blk: Block, r: Rank, x: real)
    requires x in Column(blk, r)
    ensures exists i :: 0 <= i < |blk| && r in blk[i].lags && blk[i].lags[r] == x
  {
    var n := |blk| - 1;
    if r in blk[n].lags && x == blk[n].lags[r] {
    } else {
      assert x in Column(blk[..n], r);
      ColumnMember(blk[..n], r, x);
      var i :| 0 <= i < n && r in blk[i].lags && blk[i].lags[r] == x;
      assert blk[..n][i] == blk[i];
    }
  }

  /** With r present everywhere, its column lists its lags. */
  lemma {:induction false} ColumnAt(blk: Block, r: Rank)
    requires forall i :: 0 <= i < |blk| ==> r in blk[i].lags
    ensures |Column(blk, r)| == |blk|
    ensures forall i :: 0 <= i < |blk| ==> Column(blk, r)[i] == blk[i].lags[r]
  {
    if blk != [] {
      ColumnAt(blk[..|blk| - 1], r);
    }
  }

  lemma {:induction false} EligibleColumn(blk: Block, r: Rank)
    requires |blk| >= 2 && r in Eligible(blk)
    ensures 0 < |Column(blk, r)| <= |blk|
  {
  }

  /** How many of the block's collectives rank r has a record of. */
  function Present(blk: Block, r: Rank): nat {
    |set i: nat | i < |blk| && r in blk[i].lags|
  }

  function HasRecord(r: Rank): GInfo -> bool {
    (g: GInfo) => r in g.lags
  }

  lemma {:induction false} PresentMatches(blk: Block, r: Rank)
    ensures Present(blk, r) == Matches(blk, HasRecord(r))
  {
    MatchesAt(blk, HasRecord(r), set i: nat | i < |blk| && r in blk[i].lags);
  }

  lemma {:induction false} PresentColumn(blk: Block, r: Rank)
    ensures |Column(blk, r)| == Present(blk, r)
  {
    PresentMatches(blk, r);
    hide Matches, Present;
    if blk != [] {
      MatchesStep(blk, HasRecord(r));
      PresentColumn(blk[..|blk| - 1], r);
      PresentMatches(blk[..|blk| - 1], r);
    } else {
      NoMatches(blk, HasRecord(r));
    }
  }

  /** A median goes to exactly the ranks with a record of at least half of the block's collectives. */
  lemma {:induction false} EligibleExactly(blk: Block, r: Rank)
    requires |blk| >= 2
    ensures r in Eligible(blk) <==> Present(blk, r) >= |blk| / 2
  {
    hide Column;
    PresentColumn(blk, r);
    if Present(blk, r) > 0 {
      var here := set i: nat | i < |blk| && r in blk[i].lags;
      var i :| i in here;
      assert r in RanksOf(blk);
    }
  }

  /** So a rank recorded in fewer is never flagged, however it lags. */
  lemma {:induction false} AbsentNotFlagged(cfg: Config, blk: Block, floor: real, r: Rank)
    requires Present(blk, r) < |blk| / 2
    ensures !Flagged(cfg, blk, floor, r)
  {
    hide Eligible, Present, Flagged, Peers;
    if Flagged(cfg, blk, floor, r) {
      FlaggedJudged(cfg, blk, floor, r);
      EligibleExactly(blk, r);
    }
  }

  /** Who is flagged: a rank with a record of half of the block, beside another such rank, whose excess over the
      standard error of a median of the lags it has is above the threshold. */
  lemma {:induction false} FlaggedExactly(cfg: Config, blk: Block, floor: real, r: Rank)
    requires |blk| >= 2
    ensures Flagged(cfg, blk, floor, r) <==>
      && Present(blk, r) >= |blk| / 2 && (exists p :: p != r && Present(blk, p) >= |blk| / 2)
      && Excess(blk, r) * cfg.root(Present(blk, r)) > cfg.thresholdSigma * (1.2533 * Max(1.4826 * BagMad(PeerLags(blk, r)), floor))
  {
    SpreadIs(blk, r, floor);
    hide *;
    FlaggedBySpread(cfg, blk, floor, r);
  }

  lemma {:induction false} SpreadIs(blk: Block, r: Rank, floor: real)
    ensures Spread(blk, r, floor) == Max(1.4826 * BagMad(PeerLags(blk, r)), floor)
  {
    hide BagMad, PeerLags;
  }

  lemma {:induction false} FlaggedBySpread(cfg: Config, blk: Block, floor: real, r: Rank)
    requires |blk| >= 2
    ensures Flagged(cfg, blk, floor, r) <==>
      && Present(blk, r) >= |blk| / 2 && (exists p :: p != r && Present(blk, p) >= |blk| / 2)
      && Excess(blk, r) * cfg.root(Present(blk, r)) > cfg.thresholdSigma * (1.2533 * Spread(blk, r, floor))
  {
    hide Present, Excess, Spread, Flagged, Eligible, StdErr, Column;
    JudgedExactly(blk, r);
    hide Judged;
    if Flagged(cfg, blk, floor, r) {
      FlaggedJudged(cfg, blk, floor, r);
    }
    if Judged(blk, r) {
      PresentColumn(blk, r);
      ColumnNonEmpty(blk, r);
      FlaggedByProduct(cfg, blk, floor, r);
      SpreadNonNegative(blk, r, floor);
      StdErrNonNegative(cfg.root, Spread(blk, r, floor), Present(blk, r));
      ClearRoot(Excess(blk, r), cfg.thresholdSigma, BlockStdErr(cfg, blk, floor, r), cfg.root(Present(blk, r)),
                1.2533 * Spread(blk, r, floor));
    }
  }

  lemma {:induction false} ClearRoot(x: real, t: real, se: real, q: real, s: real)
    requires q > 0.0 && se * q == s
    ensures x > t * se <==> x * q > t * s
  {
    MulOrder(t * se, x, q);
    assert q * (t * se) == t * (se * q);
    assert q * x == x * q;
  }

  lemma {:induction false} JudgedExactly(blk: Block, r: Rank)
    requires |blk| >= 2
    ensures Judged(blk, r) <==> Present(blk, r) >= |blk| / 2 && exists p :: p != r && Present(blk, p) >= |blk| / 2
  {
    hide Present, Eligible;
    EligibleExactly(blk, r);
    if exists p :: p != r && Present(blk, p) >= |blk| / 2 {
      var p :| p != r && Present(blk, p) >= |blk| / 2;
      EligibleExactly(blk, p);
      assert p in Peers(blk, r);
    }
    if p :| p in Peers(blk, r) {
      EligibleExactly(blk, p);
    }
  }

  // ---------------------------------------------------------------- the peers' statistics

  lemma {:induction false} PeerMediansRange(blk: Block, r: Rank, lo: real, hi: real)
    requires Peers(blk, r) != {}
    requires forall p :: p in Peers(blk, r) ==> lo <= MedianLag(blk, p) <= hi
    ensures lo <= BagMedian(PeerMedians(blk, r)) <= hi
  {
    var m := MedianBags(blk, Peers(blk, r));
    forall x | x in Pool(m) ensures lo <= x <= hi {
      PoolMember(m, x);
      var p :| p in m && x in m[p];
    }
    var p :| p in Peers(blk, r);
    PoolMember(m, MedianLag(blk, p));
    assert MedianLag(blk, p) in m[p];
    BagInRange(Pool(m), lo, hi);
  }

  lemma {:induction false} PeerSpreadRange(blk: Block, r: Rank, w: real)
    requires w >= 0.0
    requires forall p, x :: p in Peers(blk, r) && x in Column(blk, p) ==> 0.0 <= x <= w
    ensures 0.0 <= BagMad(PeerLags(blk, r)) <= w
  {
    var m := ColumnBags(blk, Peers(blk, r));
    forall x | x in Pool(m) ensures 0.0 <= x <= w {
      PoolMember(m, x);
      var p :| p in m && x in m[p];
      assert x in Column(blk, p);
    }
    BagMadInRange(Pool(m), w);
  }

  // ---------------------------------------------------------------- blocks of a list

  lemma {:induction false} BlockMember(gs: seq<GInfo>, bs: nat, blk: Block, g: GInfo)
    requires bs > 0 && blk in Blocks(gs, bs) && g in blk
    ensures g in gs
  {
    if blk != gs[..bs] {
      BlockMember(gs[bs..], bs, blk, g);
    }
  }

  lemma {:induction false} NoFlags(cfg: Config, blocks: seq<Block>, floor: real, r: Rank)
    requires forall blk :: blk in blocks ==> !Flagged(cfg, blk, floor, r)
    ensures Flags(cfg, blocks, floor, r) == []
  {
    hide Flagged;
    if blocks != [] {
      NoFlags(cfg, blocks[..|blocks| - 1], floor, r);
    }
  }

  lemma {:induction false} FlagsStep(cfg: Config, blocks: seq<Block>, floor: real, r: Rank)
    requires blocks != []
    ensures var n := |blocks| - 1;
            Flags(cfg, blocks, floor, r) == Flags(cfg, blocks[..n], floor, r) +
            if Flagged(cfg, blocks[n], floor, r) then [FlagOf(cfg, blocks[n], n, floor, r)] else []
  {
    hide Flagged, FlagOf, Ordered;
  }

  /** Every flagged block has its flag. */
  lemma {:induction false} FlagFor(cfg: Config, blocks: seq<Block>, floor: real, r: Rank, b: nat) returns (i: nat)
    requires b < |blocks| && Flagged(cfg, blocks[b], floor, r)
    ensures i < |Flags(cfg, blocks, floor, r)| && Flags(cfg, blocks, floor, r)[i].block == b
  {
    hide *;
    var n := |blocks| - 1;
    FlagsStep(cfg, blocks, floor, r);
    if b < n {
      assert blocks[..n][b] == blocks[b];
      i := FlagFor(cfg, blocks[..n], floor, r, b);
    } else {
      i := |Flags(cfg, blocks[..n], floor, r)|;
    }
  }

  /** Each flag is that of a flagged block. */
  lemma {:induction false} FlagsContent(cfg: Config, blocks: seq<Block>, floor: real, r: Rank, i: nat)
    requires i < |Flags(cfg, blocks, floor, r)|
    ensures var f := Flags(cfg, blocks, floor, r)[i];
            && f.block < |blocks| && Flagged(cfg, blocks[f.block], floor, r)
            && f == FlagOf(cfg, blocks[f.block], f.block, floor, r)
  {
    hide *;
    var n := |blocks| - 1;
    FlagsStep(cfg, blocks, floor, r);
    if i < |Flags(cfg, blocks[..n], floor, r)| {
      FlagsContent(cfg, blocks[..n], floor, r, i);
    }
  }
}
