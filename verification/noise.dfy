/** What is never reported: jitter below the floor, and bursts. */
module Noise {
  import opened Events
  import opened Stats
  import opened Bags
  import opened Detection
  import opened Grouping
  import opened Scores

  /** Every lag of the collective lies in [0, w]. */
  ghost predicate Quiet(g: GInfo, w: real) {
    forall r :: r in g.lags ==> 0.0 <= g.lags[r] <= w
  }

  /** All ranks took about as long: durations are non-negative and within w of one another. */
  ghost predicate Agrees(g: Group, w: real) {
    forall r :: r in g ==> g[r].dur >= 0 && forall q :: q in g ==> (g[q].dur - g[r].dur) as real <= w
  }

  lemma {:induction false} AgreesIsQuiet(gi: GInfo, k: GroupKey, g: Group, w: real)
    requires Describes(gi, k, g) && Agrees(g, w) && w >= 0.0
    ensures Quiet(gi, w)
  {
    var durs := set r | r in g :: g[r].dur;
    forall r | r in gi.lags ensures 0.0 <= gi.lags[r] <= w {
      assert g[r].dur in durs;
      var m := MaxFromZero(durs);
      if m != 0 {
        var q :| q in g && g[q].dur == m;
        assert (g[q].dur - g[r].dur) as real <= w;
      }
    }
  }

  // ---------------------------------------------------------------- the noise floor

  /** The excess w a block may show: below it the z score cannot pass the threshold. */
  ghost predicate UnderFloor(cfg: Config, w: real, floor: real)
    requires cfg.blockSize >= 2
  {
    w * cfg.root(cfg.blockSize) <= cfg.thresholdSigma * (SE_FACTOR * floor)
  }

  lemma {:induction false} SmallExcess(cfg: Config, blk: Block, floor: real, r: Rank, w: real)
    requires |blk| == cfg.blockSize >= 2 && Judged(blk, r)
    requires w >= 0.0 && cfg.thresholdSigma >= 0.0 && UnderFloor(cfg, w, floor)
    requires Excess(blk, r) <= w
    ensures !Flagged(cfg, blk, floor, r)
  {
    hide Excess, Spread, StdErr, Flagged;
    FlaggedByProduct(cfg, blk, floor, r);
    EligibleColumn(blk, r);
    SpreadNonNegative(blk, r, floor);
    StdErrCoversFloor(cfg, floor, Spread(blk, r, floor), |Column(blk, r)|, w);
  }

  lemma {:induction false} StdErrCoversFloor(cfg: Config, floor: real, sigma: real, n: nat, w: real)
    requires 0 < n <= cfg.blockSize && 2 <= cfg.blockSize && sigma >= 0.0 && sigma >= floor
    requires w >= 0.0 && cfg.thresholdSigma >= 0.0 && UnderFloor(cfg, w, floor)
    ensures w <= cfg.thresholdSigma * StdErr(cfg.root, sigma, n)
  {
    StdErrNonNegative(cfg.root, sigma, n);
    hide StdErr;
    FloorBound(w, cfg.root(n), cfg.root(cfg.blockSize), cfg.thresholdSigma, SE_FACTOR * floor, SE_FACTOR * sigma,
               StdErr(cfg.root, sigma, n));
  }

  lemma {:induction false} FloorBound(w: real, q: real, q': real, t: real, f: real, s: real, se: real)
    requires w >= 0.0 && t >= 0.0 && 0.0 < q <= q'
    requires w * q' <= t * f && f <= s && se * q == s
    ensures w <= t * se
  {
    MulMonotone(q, q', w);
    assert q * w == w * q && q' * w == w * q';
    MulMonotone(f, s, t);
    assert f * t == t * f && s * t == t * s;
    assert t * s == q * (t * se);
    MulOrder(w, t * se, q);
  }

  lemma {:induction false} QuietColumn(blk: Block, p: Rank, w: real)
    requires forall g :: g in blk ==> Quiet(g, w)
    ensures forall x :: x in Column(blk, p) ==> 0.0 <= x <= w
  {
    forall x | x in Column(blk, p) ensures 0.0 <= x <= w {
      ColumnMember(blk, p, x);
      var i :| 0 <= i < |blk| && p in blk[i].lags && blk[i].lags[p] == x;
      assert blk[i] in blk;
    }
  }

  lemma {:induction false} QuietExcess(blk: Block, r: Rank, w: real)
    requires |blk| >= 2 && Judged(blk, r)
    requires forall g :: g in blk ==> Quiet(g, w)
    ensures Excess(blk, r) <= w && 0.0 <= BagMad(PeerLags(blk, r)) <= w && w >= 0.0
    ensures w == 0.0 ==> Excess(blk, r) == 0.0
  {
    forall p | p in Eligible(blk) ensures 0.0 <= MedianLag(blk, p) <= w {
      EligibleColumn(blk, p);
      QuietColumn(blk, p, w);
      MedianInRange(Column(blk, p), 0.0, w);
    }
    PeerMediansRange(blk, r, 0.0, w);
    forall p, x | p in Peers(blk, r) && x in Column(blk, p) ensures 0.0 <= x <= w {
      QuietColumn(blk, p, w);
    }
    PeerSpreadRange(blk, r, w);
  }

  /** A block of quiet collectives flags nobody, whoever is missing from them. */
  lemma {:induction false} QuietBlock(cfg: Config, blk: Block, floor: real, r: Rank, w: real)
    requires |blk| == cfg.blockSize >= 2
    requires forall g :: g in blk ==> Quiet(g, w)
    requires cfg.thresholdSigma >= 0.0 || floor >= 0.0
    requires w >= 0.0 && UnderFloor(cfg, w, floor)
    ensures !Flagged(cfg, blk, floor, r)
  {
    if Judged(blk, r) {
      QuietExcess(blk, r, w);
      hide Flagged, Excess, PeerLags, Quiet, Judged, UnderFloor;
      if cfg.thresholdSigma >= 0.0 {
        SmallExcess(cfg, blk, floor, r, w);
      } else {
        NegativeFloor(cfg, floor, w);
        SilentBlock(cfg, blk, floor, r);
      }
    }
  }

  lemma {:induction false} NegativeFloor(cfg: Config, floor: real, w: real)
    requires cfg.blockSize >= 2 && cfg.thresholdSigma < 0.0 && floor >= 0.0 && w >= 0.0 && UnderFloor(cfg, w, floor)
    ensures w == 0.0 && floor == 0.0
  {
    NegativeThreshold(cfg.thresholdSigma, SE_FACTOR * floor, w, cfg.root(cfg.blockSize));
  }

  /** No excess and no spread: the z score is NaN. */
  lemma {:induction false} SilentBlock(cfg: Config, blk: Block, floor: real, r: Rank)
    requires |blk| >= 2 && Judged(blk, r) && floor == 0.0
    requires Excess(blk, r) == 0.0 && BagMad(PeerLags(blk, r)) == 0.0
    ensures !Flagged(cfg, blk, floor, r)
  {
    EligibleColumn(blk, r);
    assert Spread(blk, r, floor) == 0.0;
    StdErrNonNegative(cfg.root, 0.0, |Column(blk, r)|);
    hide StdErr, Excess;
  }

  lemma {:induction false} NegativeThreshold(t: real, f: real, w: real, q: real)
    requires t < 0.0 && f >= 0.0 && w >= 0.0 && q > 0.0 && w * q <= t * f
    ensures w == 0.0 && f == 0.0
  {
    ProductNonNegative(-t, f);
    assert (-t) * f == -(t * f);
    MulOrder(w, 0.0, q);
    if f > 0.0 {
      MulOrder(0.0, -t, f);
      MulOrder(-t, 0.0, f);
    }
  }

  lemma {:induction false} NothingReported(cfg: Config, gs: seq<GInfo>, floor: real, out: seq<Anomaly>)
    requires IsReport(cfg, gs, floor, out)
    requires cfg.blockSize >= 2 ==> forall r :: !Reported(cfg, Blocks(gs, cfg.blockSize), floor, r)
    ensures out == []
  {
    if out != [] {
      FirstReported(cfg, gs, floor, out);
    }
  }

  lemma {:induction false} FirstReported(cfg: Config, gs: seq<GInfo>, floor: real, out: seq<Anomaly>)
    requires IsReport(cfg, gs, floor, out) && out != []
    ensures cfg.blockSize >= 2 && Reported(cfg, Blocks(gs, cfg.blockSize), floor, out[0].rank)
  {
    hide Reported, Blocks;
  }

  /** Noise floor. When the ranks of every scored collective of the window agree to within w, and w is below the
      floor that the threshold and the jitter fraction set, nothing is reported: for any set of ranks,
      any members missing and any window. */
  lemma {:induction false} NoiseFloor(cfg: Config, groups: Groups, cutoff: int, out: seq<Anomaly>, w: real)
    requires IsDetection(cfg, groups, cutoff, out)
    requires forall k :: k in WindowKeys(cfg, groups, cutoff) ==> Agrees(groups[k], w)
    requires w >= 0.0 && (cfg.thresholdSigma >= 0.0 || JitterFloor(cfg, groups) >= 0.0)
    requires cfg.blockSize >= 2 ==> UnderFloor(cfg, w, JitterFloor(cfg, groups))
    ensures out == []
  {
    var floor := JitterFloor(cfg, groups);
    var ks, gs :| IsListing(groups, WindowKeys(cfg, groups, cutoff), ks, gs) && IsReport(cfg, gs, floor, out);
    if cfg.blockSize >= 2 {
      var blocks := Blocks(gs, cfg.blockSize);
      forall r ensures !Reported(cfg, blocks, floor, r) {
        forall blk | blk in blocks ensures !Flagged(cfg, blk, floor, r) {
          forall g | g in blk ensures Quiet(g, w) {
            BlockMember(gs, cfg.blockSize, blk, g);
            var i :| 0 <= i < |gs| && gs[i] == g;
            assert ks[i] in ks;
            AgreesIsQuiet(g, ks[i], groups[ks[i]], w);
          }
          QuietBlock(cfg, blk, floor, r, w);
        }
        NoFlags(cfg, blocks, floor, r);
      }
    }
    NothingReported(cfg, gs, floor, out);
  }

  /** With the default configuration the floor is 4.57% of the median duration. */
  lemma {:induction false} DefaultNoiseFloor(root: Root, groups: Groups, cutoff: int, out: seq<Anomaly>, w: real)
    requires root(30) * root(30) == 30.0
    requires IsDetection(DefaultConfig(4.0, root), groups, cutoff, out)
    requires forall k :: k in WindowKeys(DefaultConfig(4.0, root), groups, cutoff) ==> Agrees(groups[k], w)
    requires 0.0 <= w <= 0.0457 * BagMedian(AllDurations(DefaultConfig(4.0, root), groups))
    ensures out == []
  {
    hide IsDetection, AllDurations, Agrees;
    DefaultUnderFloor(root, groups, w);
    NoiseFloor(DefaultConfig(4.0, root), groups, cutoff, out, w);
  }

  lemma {:induction false} DefaultUnderFloor(root: Root, groups: Groups, w: real)
    requires root(30) * root(30) == 30.0
    requires 0.0 <= w <= 0.0457 * BagMedian(AllDurations(DefaultConfig(4.0, root), groups))
    ensures UnderFloor(DefaultConfig(4.0, root), w, JitterFloor(DefaultConfig(4.0, root), groups))
  {
    hide AllDurations, BagMedian;
    FloorOfThirty(w, root(30), BagMedian(AllDurations(DefaultConfig(4.0, root), groups)));
  }

  lemma {:induction false} FloorOfThirty(w: real, q: real, med: real)
    requires q > 0.0 && q * q == 30.0 && 0.0 <= w <= 0.0457 * med
    ensures w * q <= 4.0 * (SE_FACTOR * (0.05 * med))
  {
    RootOfThirty(q);
    MulMonotone(w, 0.0457 * med, q);
    MulMonotone(q, 5.4773, 0.0457 * med);
    assert 0.0457 * med * q == q * (0.0457 * med);
  }

  lemma {:induction false} RootOfThirty(q: real)
    requires q > 0.0 && q * q == 30.0
    ensures 5.4772 <= q <= 5.4773
  {
    if q > 5.4773 {
      MulMonotone(5.4773, q, q);
    } else if q < 5.4772 {
      MulMonotone(q, 5.4772, q);
    }
  }

  // ---------------------------------------------------------------- bursts

  /** The number of collectives that are not quiet. */
  ghost function Loud(gs: seq<GInfo>, w: real): (n: nat)
    ensures n <= |gs|
  {
    if gs == [] then 0 else Loud(gs[1..], w) + if Quiet(gs[0], w) then 0 else 1
  }

  ghost function LoudBlocks(blocks: seq<Block>, w: real): nat {
    if blocks == [] then 0 else LoudBlocks(blocks[..|blocks| - 1], w) + Loud(blocks[|blocks| - 1], w)
  }

  lemma {:induction false} LoudAppend(a: seq<GInfo>, b: seq<GInfo>, w: real)
    ensures Loud(a + b, w) == Loud(a, w) + Loud(b, w)
  {
    if a == [] {
      assert a + b == b;
    } else {
      assert (a + b)[1..] == a[1..] + b;
      LoudAppend(a[1..], b, w);
    }
  }

  lemma {:induction false} LoudBlocksCons(blk: Block, rest: seq<Block>, w: real)
    ensures LoudBlocks([blk] + rest, w) == Loud(blk, w) + LoudBlocks(rest, w)
  {
    var all := [blk] + rest;
    if rest == [] {
      assert all[..0] == [];
    } else {
      assert all[..|all| - 1] == [blk] + rest[..|rest| - 1];
      LoudBlocksCons(blk, rest[..|rest| - 1], w);
    }
  }

  lemma {:induction false} LoudPartition(gs: seq<GInfo>, bs: nat, w: real)
    requires bs > 0
    ensures LoudBlocks(Blocks(gs, bs), w) <= Loud(gs, w)
  {
    if |gs| >= bs {
      LoudPartition(gs[bs..], bs, w);
      LoudBlocksCons(gs[..bs], Blocks(gs[bs..], bs), w);
      assert gs == gs[..bs] + gs[bs..];
      LoudAppend(gs[..bs], gs[bs..], w);
    }
  }

  /** Every collective has the same members, and its lags are what LagsOf yields: never negative. */
  ghost predicate Complete(gs: seq<GInfo>, ranks: set<Rank>) {
    forall g :: g in gs ==> g.lags.Keys == ranks && forall r :: r in g.lags ==> g.lags[r] >= 0.0
  }

  lemma {:induction false} LoudLast(gs: seq<GInfo>, w: real)
    requires gs != []
    ensures Loud(gs, w) == Loud(gs[..|gs| - 1], w) + if Quiet(gs[|gs| - 1], w) then 0 else 1
  {
    hide Quiet;
    var n := |gs| - 1;
    assert gs == gs[..n] + [gs[n]];
    LoudAppend(gs[..n], [gs[n]], w);
    assert [gs[n]][1..] == [];
  }

  lemma {:induction false} LoudCount(blk: Block, r: Rank, w: real)
    requires forall g :: g in blk ==> r in g.lags
    ensures Count(Column(blk, r), w, false) + Loud(blk, w) >= |blk|
  {
    if blk != [] {
      var n := |blk| - 1;
      assert blk[n] in blk;
      LoudCount(blk[..n], r, w);
      LoudLast(blk, w);
      hide Loud;
      assert Column(blk, r)[..|Column(blk, r)| - 1] == Column(blk[..n], r);
    }
  }

  lemma {:induction false} LoudColumn(blk: Block, ranks: set<Rank>, r: Rank, w: real)
    requires Complete(blk, ranks) && r in ranks
    ensures |Column(blk, r)| == |blk|
    ensures Count(Column(blk, r), w, false) + Loud(blk, w) >= |blk|
    ensures forall x :: x in Column(blk, r) ==> x >= 0.0
  {
    hide Column, Loud, Count;
    LoudCount(blk, r, w);
    forall i | 0 <= i < |blk| ensures r in blk[i].lags {
      assert blk[i] in blk;
    }
    ColumnAt(blk, r);
    forall x | x in Column(blk, r) ensures x >= 0.0 {
      ColumnMember(blk, r, x);
      var i :| 0 <= i < |blk| && r in blk[i].lags && blk[i].lags[r] == x;
      assert blk[i] in blk;
    }
  }

  lemma {:induction false} CompleteEligible(blk: Block, ranks: set<Rank>)
    requires |blk| >= 2 && Complete(blk, ranks)
    ensures Eligible(blk) == ranks
  {
    forall r | r in ranks ensures r in Eligible(blk) {
      assert blk[0] in blk && r in blk[0].lags;
      forall i | 0 <= i < |blk| ensures r in blk[i].lags {
        assert blk[i] in blk;
      }
      ColumnAt(blk, r);
    }
    forall r | r in Eligible(blk) ensures r in ranks {
      var i :| 0 <= i < |blk| && r in blk[i].lags;
      assert blk[i] in blk;
    }
  }

  /** Fewer than half of the block's collectives corrupted: nobody is flagged. */
  lemma {:induction false} MostlyQuietBlock(cfg: Config, blk: Block, floor: real, ranks: set<Rank>, r: Rank, w: real)
    requires |blk| == cfg.blockSize >= 2 && Complete(blk, ranks)
    requires 2 * Loud(blk, w) < |blk|
    requires w >= 0.0 && cfg.thresholdSigma >= 0.0 && UnderFloor(cfg, w, floor)
    ensures !Flagged(cfg, blk, floor, r)
  {
    CompleteEligible(blk, ranks);
    if Judged(blk, r) {
      forall p | p in ranks ensures 0.0 <= MedianLag(blk, p) <= w {
        LoudColumn(blk, ranks, p, w);
        MedianByCount(Column(blk, p), w, false);
        CountNone(Column(blk, p), 0.0, true);
        MedianByCount(Column(blk, p), 0.0, true);
      }
      PeerMediansRange(blk, r, 0.0, w);
      SmallExcess(cfg, blk, floor, r, w);
    }
  }

  lemma {:induction false} Successor(n: int, d: int)
    ensures (n + 1) * d == n * d + d
  {
  }

  lemma {:induction false} ProductOrder(a: int, b: int, d: nat)
    requires a >= b
    ensures a * d >= b * d
  {
    assert (a - b) * d >= 0;
  }

  /** Each flag costs half a block of corrupted collectives. */
  lemma {:induction false} FlagsNeedCorruption(cfg: Config, blocks: seq<Block>, floor: real, ranks: set<Rank>, r: Rank, w: real)
    requires cfg.blockSize >= 2 && forall blk :: blk in blocks ==> |blk| == cfg.blockSize && Complete(blk, ranks)
    requires w >= 0.0 && cfg.thresholdSigma >= 0.0 && UnderFloor(cfg, w, floor)
    ensures HalfCorrupted(|Flags(cfg, blocks, floor, r)|, cfg.blockSize, LoudBlocks(blocks, w))
  {
    if blocks != [] {
      hide Flags, Flagged, FlagOf, UnderFloor, Complete, Loud, HalfCorrupted;
      var n, bs := |blocks| - 1, cfg.blockSize;
      FlagsStep(cfg, blocks, floor, r);
      assert |Flags(cfg, blocks, floor, r)| == |Flags(cfg, blocks[..n], floor, r)| + if Flagged(cfg, blocks[n], floor, r) then 1 else 0;
      FlagsNeedCorruption(cfg, blocks[..n], floor, ranks, r, w);
      var flagged := Flagged(cfg, blocks[n], floor, r);
      if 2 * Loud(blocks[n], w) < bs {
        MostlyQuietBlock(cfg, blocks[n], floor, ranks, r, w);
      }
      HalfCorruptedStep(|Flags(cfg, blocks[..n], floor, r)|, bs, LoudBlocks(blocks[..n], w), flagged, Loud(blocks[n], w));
    } else {
      assert |Flags(cfg, blocks, floor, r)| == 0;
    }
  }

  ghost predicate HalfCorrupted(flags: nat, bs: nat, loud: nat) {
    flags * bs <= 2 * loud
  }

  lemma {:induction false} HalfCorruptedStep(flags: nat, bs: nat, loud: nat, flagged: bool, more: nat)
    requires HalfCorrupted(flags, bs, loud) && (flagged ==> 2 * more >= bs)
    ensures HalfCorrupted(flags + if flagged then 1 else 0, bs, loud + more)
  {
    Successor(flags, bs);
  }

  lemma {:induction false} TooFewCorrupted(cfg: Config, blocks: seq<Block>, floor: real, ranks: set<Rank>, r: Rank, w: real)
    requires cfg.blockSize >= 2 && forall blk :: blk in blocks ==> |blk| == cfg.blockSize && Complete(blk, ranks)
    requires w >= 0.0 && cfg.thresholdSigma >= 0.0 && UnderFloor(cfg, w, floor)
    requires 2 * LoudBlocks(blocks, w) < cfg.minHits * cfg.blockSize
    ensures !Reported(cfg, blocks, floor, r)
  {
    hide Flags, UnderFloor, Complete, LoudBlocks;
    FlagsNeedCorruption(cfg, blocks, floor, ranks, r, w);
    if |Flags(cfg, blocks, floor, r)| >= cfg.minHits {
      ProductOrder(|Flags(cfg, blocks, floor, r)|, cfg.minHits, cfg.blockSize);
    }
  }

  lemma {:induction false} LoudOutside(groups: Groups, keys: set<GroupKey>, ks: seq<GroupKey>, gs: seq<GInfo>, corrupted: set<GroupKey>, w: real)
    requires |ks| == |gs| && Distinct(ks) && (forall k :: k in ks ==> k in keys) && keys <= groups.Keys
    requires forall i :: 0 <= i < |ks| ==> Describes(gs[i], ks[i], groups[ks[i]])
    requires w >= 0.0 && forall k :: k in keys - corrupted ==> Agrees(groups[k], w)
    ensures Loud(gs, w) <= |corrupted|
    decreases |gs|
  {
    if gs != [] {
      var k := ks[0];
      assert k in ks;
      forall i | 0 <= i < |ks| - 1 ensures ks[1..][i] != k {
      }
      LoudOutside(groups, keys - {k}, ks[1..], gs[1..], corrupted - {k}, w);
      if k !in corrupted {
        AgreesIsQuiet(gs[0], k, groups[k], w);
      }
    }
  }

  /** Burst immunity. With complete groups, fewer than MinHits * BlockSize / 2 corrupted collectives
      report nobody, whatever durations they hold and wherever they stand; the others need only agree
      to below the floor. With MinHits = 2 that covers every burst shorter than BlockSize. */
  lemma {:induction false} BurstImmunity(cfg: Config, groups: Groups, cutoff: int, out: seq<Anomaly>,
                      ranks: set<Rank>, corrupted: set<GroupKey>, w: real)
    requires IsDetection(cfg, groups, cutoff, out)
    requires forall k :: k in WindowKeys(cfg, groups, cutoff) ==> groups[k].Keys == ranks
    requires forall k :: k in WindowKeys(cfg, groups, cutoff) - corrupted ==> Agrees(groups[k], w)
    requires 2 * |corrupted| < cfg.minHits * cfg.blockSize
    requires w >= 0.0 && cfg.thresholdSigma >= 0.0
    requires cfg.blockSize >= 2 ==> UnderFloor(cfg, w, JitterFloor(cfg, groups))
    ensures out == []
  {
    var floor, keys := JitterFloor(cfg, groups), WindowKeys(cfg, groups, cutoff);
    var ks, gs :| IsListing(groups, keys, ks, gs) && IsReport(cfg, gs, floor, out);
    if cfg.blockSize >= 2 {
      var bs := cfg.blockSize;
      var blocks := Blocks(gs, bs);
      LoudOutside(groups, keys, ks, gs, corrupted, w);
      LoudPartition(gs, bs, w);
      ListingComplete(groups, keys, ks, gs, ranks);
      forall r ensures !Reported(cfg, blocks, floor, r) {
        forall blk | blk in blocks ensures Complete(blk, ranks) {
          BlockComplete(gs, bs, blk, ranks);
        }
        TooFewCorrupted(cfg, blocks, floor, ranks, r, w);
      }
    }
    NothingReported(cfg, gs, floor, out);
  }

  lemma {:induction false} LagsNonNegative(g: Group)
    ensures forall r :: r in g ==> LagsOf(g)[r] >= 0.0
  {
    var durs := set r | r in g :: g[r].dur;
    forall r | r in g ensures LagsOf(g)[r] >= 0.0 {
      assert g[r].dur in durs;
    }
  }

  lemma {:induction false} ListingComplete(groups: Groups, keys: set<GroupKey>, ks: seq<GroupKey>, gs: seq<GInfo>, ranks: set<Rank>)
    requires IsListing(groups, keys, ks, gs)
    requires forall k :: k in keys ==> groups[k].Keys == ranks
    ensures Complete(gs, ranks)
  {
    forall g | g in gs ensures g.lags.Keys == ranks && forall r :: r in g.lags ==> g.lags[r] >= 0.0 {
      var i :| 0 <= i < |gs| && gs[i] == g;
      assert ks[i] in ks;
      var grp := groups[ks[i]];
      assert Describes(g, ks[i], grp);
      LagsNonNegative(grp);
    }
  }

  lemma {:induction false} BlockComplete(gs: seq<GInfo>, bs: nat, blk: Block, ranks: set<Rank>)
    requires bs > 0 && Complete(gs, ranks) && blk in Blocks(gs, bs)
    ensures Complete(blk, ranks)
  {
    forall g | g in blk ensures g in gs {
      BlockMember(gs, bs, blk, g);
    }
  }
}
