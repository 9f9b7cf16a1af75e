/** A straggler cannot hide itself by being slower still. */
module Hiding {
  import opened Events
  import opened Stats
  import opened Bags
  import opened Detection
  import opened Grouping
  import opened Scores
  import opened Order

  // ---------------------------------------------------------------- one block

  /** The same lags, except that r's may be larger. */
  ghost predicate Raised(a: GInfo, b: GInfo, r: Rank) {
    && a.lags.Keys == b.lags.Keys
    && (forall q :: q in a.lags && q != r ==> a.lags[q] == b.lags[q])
    && (r in a.lags ==> a.lags[r] <= b.lags[r])
  }

  ghost predicate RaisedBlock(blk: Block, blk': Block, r: Rank) {
    |blk| == |blk'| && forall i :: 0 <= i < |blk| ==> Raised(blk[i], blk'[i], r)
  }

  lemma {:induction false} RaisedColumn(blk: Block, blk': Block, r: Rank, q: Rank)
    requires RaisedBlock(blk, blk', r)
    ensures |Column(blk, q)| == |Column(blk', q)|
    ensures forall i :: 0 <= i < |Column(blk, q)| ==> Column(blk, q)[i] <= Column(blk', q)[i]
    ensures q != r ==> Column(blk, q) == Column(blk', q)
  {
    if blk != [] {
      var n := |blk| - 1;
      assert Raised(blk[n], blk'[n], r);
      RaisedColumn(blk[..n], blk'[..n], r, q);
      hide RaisedBlock;
      assert Column(blk, q) == Column(blk[..n], q) + if q in blk[n].lags then [blk[n].lags[q]] else [];
      assert Column(blk', q) == Column(blk'[..n], q) + if q in blk[n].lags then [blk'[n].lags[q]] else [];
      hide Column;
    }
  }

  lemma {:induction false} RaisedSame(blk: Block, blk': Block, r: Rank, q: Rank)
    requires RaisedBlock(blk, blk', r) && q != r
    ensures Column(blk, q) == Column(blk', q)
  {
    RaisedColumn(blk, blk', r, q);
  }

  lemma {:induction false} RaisedEligible(blk: Block, blk': Block, r: Rank)
    requires RaisedBlock(blk, blk', r)
    ensures Eligible(blk) == Eligible(blk')
  {
    hide Column, RaisedBlock, RanksOf;
    RaisedRanks(blk, blk', r);
    forall q ensures |Column(blk, q)| == |Column(blk', q)| {
      RaisedColumn(blk, blk', r, q);
    }
    assert |blk| == |blk'| by {
      RaisedLength(blk, blk', r);
    }
  }

  lemma {:induction false} RaisedMedianBags(blk: Block, blk': Block, r: Rank, ranks: set<Rank>)
    requires RaisedBlock(blk, blk', r) && r !in ranks
    ensures MedianBags(blk, ranks) == MedianBags(blk', ranks)
  {
    hide Column, Median, RaisedBlock;
    forall q | q in ranks ensures MedianLag(blk, q) == MedianLag(blk', q) {
      RaisedSame(blk, blk', r, q);
    }
  }

  lemma {:induction false} RaisedColumnBags(blk: Block, blk': Block, r: Rank, ranks: set<Rank>)
    requires RaisedBlock(blk, blk', r) && r !in ranks
    ensures ColumnBags(blk, ranks) == ColumnBags(blk', ranks)
  {
    hide Column, RaisedBlock;
    forall q | q in ranks ensures Column(blk, q) == Column(blk', q) {
      RaisedSame(blk, blk', r, q);
    }
  }

  lemma {:induction false} RaisedPeers(blk: Block, blk': Block, r: Rank)
    requires RaisedBlock(blk, blk', r)
    ensures Eligible(blk) == Eligible(blk') && Peers(blk, r) == Peers(blk', r)
    ensures PeerMedians(blk, r) == PeerMedians(blk', r) && PeerLags(blk, r) == PeerLags(blk', r)
  {
    hide RaisedBlock, Eligible, MedianBags, ColumnBags, Pool;
    RaisedEligible(blk, blk', r);
    RaisedMedianBags(blk, blk', r, Peers(blk, r));
    RaisedColumnBags(blk, blk', r, Peers(blk, r));
  }

  lemma {:induction false} RaisedRanks(blk: Block, blk': Block, r: Rank)
    requires RaisedBlock(blk, blk', r)
    ensures RanksOf(blk) == RanksOf(blk')
  {
    assert forall i :: 0 <= i < |blk| ==> blk[i].lags.Keys == blk'[i].lags.Keys;
    forall q ensures q in RanksOf(blk) <==> q in RanksOf(blk') {
      if q in RanksOf(blk) {
        var i :| 0 <= i < |blk| && q in blk[i].lags;
        assert q in blk'[i].lags;
      }
      if q in RanksOf(blk') {
        var i :| 0 <= i < |blk'| && q in blk'[i].lags;
        assert q in blk[i].lags;
      }
    }
  }

  lemma {:induction false} RaisedExcess(blk: Block, blk': Block, r: Rank)
    requires RaisedBlock(blk, blk', r)
    ensures Excess(blk, r) <= Excess(blk', r) && |Column(blk, r)| == |Column(blk', r)|
  {
    hide Column, Median, PeerMedians, BagMedian, RaisedBlock;
    RaisedPeers(blk, blk', r);
    RaisedColumn(blk, blk', r, r);
    PointwiseDominated(Column(blk, r), Column(blk', r));
    MedianMonotone(Column(blk, r), Column(blk', r));
  }

  lemma {:induction false} StdErrMonotone(root: Root, s: real, s': real, n: nat, t: real)
    requires n > 0 && 0.0 <= s' <= s && t >= 0.0
    ensures t * StdErr(root, s', n) <= t * StdErr(root, s, n)
  {
    StdErrNonNegative(root, s, n);
    StdErrNonNegative(root, s', n);
    hide StdErr;
    QuotientMonotone(StdErr(root, s, n), StdErr(root, s', n), root(n), SE_FACTOR * s, SE_FACTOR * s');
    ProductMonotone(t, StdErr(root, s', n), StdErr(root, s, n));
  }

  lemma {:induction false} QuotientMonotone(e: real, e': real, q: real, x: real, x': real)
    requires q > 0.0 && e * q == x && e' * q == x' && x' <= x
    ensures e' <= e
  {
    MulOrder(e', e, q);
  }

  lemma {:induction false} ProductMonotone(c: real, a: real, b: real)
    requires c >= 0.0 && a <= b
    ensures c * a <= c * b
  {
    MulMonotone(a, b, c);
  }

  /** Larger lags for r and a lower floor keep the block flagged. */
  lemma {:induction false} RaisedStaysFlagged(cfg: Config, blk: Block, blk': Block, floor: real, floor': real, r: Rank)
    requires cfg.thresholdSigma >= 0.0
    requires RaisedBlock(blk, blk', r) && floor' <= floor
    requires Flagged(cfg, blk, floor, r)
    ensures Flagged(cfg, blk', floor', r)
  {
    hide *;
    FlaggedJudged(cfg, blk, floor, r);
    RaisedLength(blk, blk', r);
    RaisedJudged(blk, blk', r);
    RaisedSpread(blk, blk', floor, floor', r);
    RaisedExcess(blk, blk', r);
    FlaggedByProduct(cfg, blk, floor, r);
    FlaggedByProduct(cfg, blk', floor', r);
    RaisedStdErr(cfg, blk, blk', floor, floor', r);
  }

  lemma {:induction false} RaisedLength(blk: Block, blk': Block, r: Rank)
    requires RaisedBlock(blk, blk', r)
    ensures |blk| == |blk'|
  {
  }

  lemma {:induction false} RaisedJudged(blk: Block, blk': Block, r: Rank)
    requires RaisedBlock(blk, blk', r) && Judged(blk, r)
    ensures Judged(blk', r)
  {
    hide RaisedBlock, PeerMedians, PeerLags, Eligible, Peers;
    RaisedPeers(blk, blk', r);
  }

  lemma {:induction false} RaisedSpread(blk: Block, blk': Block, floor: real, floor': real, r: Rank)
    requires RaisedBlock(blk, blk', r) && floor' <= floor
    ensures 0.0 <= Spread(blk', r, floor') <= Spread(blk, r, floor)
  {
    hide RaisedBlock, PeerLags, BagMad;
    RaisedPeers(blk, blk', r);
    SpreadNonNegative(blk', r, floor');
  }

  lemma {:induction false} RaisedStdErr(cfg: Config, blk: Block, blk': Block, floor: real, floor': real, r: Rank)
    requires |blk| == |blk'| >= 2 && Judged(blk, r) && Judged(blk', r) && cfg.thresholdSigma >= 0.0
    requires |Column(blk, r)| == |Column(blk', r)|
    requires 0.0 <= Spread(blk', r, floor') <= Spread(blk, r, floor)
    ensures cfg.thresholdSigma * BlockStdErr(cfg, blk', floor', r) <= cfg.thresholdSigma * BlockStdErr(cfg, blk, floor, r)
  {
    hide Spread, StdErr, Column;
    ColumnNonEmpty(blk, r);
    StdErrMonotone(cfg.root, Spread(blk, r, floor), Spread(blk', r, floor'), |Column(blk, r)|, cfg.thresholdSigma);
  }

  // ---------------------------------------------------------------- the stored groups

  /** g' is g with r's duration lowered; nothing else changes. */
  ghost predicate Lowered(g: Group, g': Group, r: Rank) {
    && g.Keys == g'.Keys
    && (forall q :: q in g ==> g'[q].ts == g[q].ts && g'[q].dur <= g[q].dur)
    && (forall q :: q in g && q != r ==> g'[q] == g[q])
  }

  ghost predicate LoweredGroups(groups: Groups, groups': Groups, r: Rank) {
    groups.Keys == groups'.Keys && forall k :: k in groups ==> Lowered(groups[k], groups'[k], r)
  }

  /** r's duration does not exceed max(0, the longest of its peers'). */
  ghost predicate NotLongest(g: Group, r: Rank) {
    r in g ==> g[r].dur <= 0 || exists q :: q in g && q != r && g[r].dur <= g[q].dur
  }

  lemma {:induction false} LoweredMax(g: Group, g': Group, r: Rank)
    requires Lowered(g, g', r) && NotLongest(g, r)
    ensures MaxDur(g') == MaxDur(g)
  {
    var s, s' := set q | q in g :: g[q].dur, set q | q in g' :: g'[q].dur;
    var m, m' := MaxFromZero(s), MaxFromZero(s');
    if m != 0 {
      var q :| q in g && g[q].dur == m;
      var p := q;
      if q == r {
        p :| p in g && p != r && g[r].dur <= g[p].dur;
        assert g[p].dur in s;
      }
      assert g'[p].dur in s';
      assert m <= m';
    }
    if m' != 0 {
      var q :| q in g' && g'[q].dur == m';
      assert g[q].dur in s;
    }
  }

  lemma {:induction false} LoweredNewest(g: Group, g': Group, r: Rank)
    requires Lowered(g, g', r)
    ensures Newest(g) == Newest(g')
  {
    SameTs(g, g');
  }

  lemma {:induction false} LoweredLags(gi: GInfo, gi': GInfo, k: GroupKey, g: Group, g': Group, r: Rank)
    requires Describes(gi, k, g) && Describes(gi', k, g') && Lowered(g, g', r) && NotLongest(g, r)
    ensures Raised(gi, gi', r)
  {
    hide MaxDur, Newest, NotLongest;
    LoweredMax(g, g', r);
  }

  lemma {:induction false} LoweredDurations(g: Group, g': Group, r: Rank)
    requires Lowered(g, g', r)
    ensures BagDominated(Durations(g'), Durations(g))
  {
    hide BagDominated, Pool;
    var m, m' := DurationBags(g), DurationBags(g');
    forall q | q in m' ensures BagDominated(m'[q], m[q]) {
      SingletonDominated(g'[q].dur as real, g[q].dur as real);
    }
    PoolDominated(m', m);
  }

  lemma {:induction false} LoweredScored(cfg: Config, groups: Groups, groups': Groups, r: Rank)
    requires LoweredGroups(groups, groups', r)
    ensures ScoredKeys(cfg, groups) == ScoredKeys(cfg, groups')
  {
    forall k | k in groups ensures |groups[k]| == |groups'[k]| {
      assert |groups[k].Keys| == |groups'[k].Keys|;
    }
  }

  lemma {:induction false} LoweredFloor(cfg: Config, groups: Groups, groups': Groups, r: Rank)
    requires LoweredGroups(groups, groups', r) && cfg.jitterFloor >= 0.0
    ensures JitterFloor(cfg, groups') <= JitterFloor(cfg, groups)
  {
    hide AllDurations, BagMedian, BagDominated, LoweredGroups;
    LoweredAll(cfg, groups, groups', r);
    BagMedianMonotone(AllDurations(cfg, groups'), AllDurations(cfg, groups));
    ProductMonotone(cfg.jitterFloor, BagMedian(AllDurations(cfg, groups')), BagMedian(AllDurations(cfg, groups)));
  }

  lemma {:induction false} LoweredAll(cfg: Config, groups: Groups, groups': Groups, r: Rank)
    requires LoweredGroups(groups, groups', r)
    ensures BagDominated(AllDurations(cfg, groups'), AllDurations(cfg, groups))
  {
    LoweredScored(cfg, groups, groups', r);
    hide BagDominated, Pool, Durations, Lowered, ScoredKeys;
    var m, m' := ScoredDurations(cfg, groups), ScoredDurations(cfg, groups');
    forall k | k in m' ensures BagDominated(m'[k], m[k]) {
      InScored(cfg, groups, k);
      LoweredDurations(groups[k], groups'[k], r);
    }
    PoolDominated(m', m);
  }

  /** Lowered durations leave the groups in the window, and their order, as they were. */
  lemma {:induction false} LoweredOrder(cfg: Config, groups: Groups, groups': Groups, r: Rank, cutoff: int,
                                        ks: seq<GroupKey>, gs: seq<GInfo>, ls: seq<GroupKey>, gs': seq<GInfo>)
    requires LoweredGroups(groups, groups', r) && NoTies(groups, WindowKeys(cfg, groups, cutoff))
    requires IsListing(groups, WindowKeys(cfg, groups, cutoff), ks, gs)
    requires IsListing(groups', WindowKeys(cfg, groups', cutoff), ls, gs')
    ensures ks == ls && |gs| == |gs'|
  {
    LoweredScored(cfg, groups, groups', r);
    forall k | k in groups ensures Newest(groups[k]) == Newest(groups'[k]) {
      LoweredNewest(groups[k], groups'[k], r);
    }
    assert SameNewest(groups, groups');
    SameWindow(cfg, groups, groups', cutoff);
    SameOrder(groups, groups', WindowKeys(cfg, groups, cutoff), ks, gs, ls, gs');
    hide InOrder, Describes, WindowKeys;
  }

  lemma {:induction false} SameBlockCount(gs: seq<GInfo>, gs': seq<GInfo>, bs: nat)
    requires bs > 0 && |gs| == |gs'|
    ensures |Blocks(gs, bs)| == |Blocks(gs', bs)|
  {
    BlockCount(gs, bs);
    BlockCount(gs', bs);
  }

  /** A straggler cannot hide itself. If rank r is flagged in a block, and in the block's groups its
      duration is never above max(0, its peers'), then lowering its durations, there or anywhere, keeps
      the block flagged: the groups keep their order, its median lag can only rise, the peers' base and
      noise stay what they were, and the floor can only fall. */
  lemma {:induction false} StragglerCannotHide(cfg: Config, groups: Groups, groups': Groups, cutoff: int, r: Rank,
                            ks: seq<GroupKey>, gs: seq<GInfo>, ls: seq<GroupKey>, gs': seq<GInfo>, b: nat)
    requires cfg.blockSize >= 2 && cfg.thresholdSigma >= 0.0 && cfg.jitterFloor >= 0.0
    requires LoweredGroups(groups, groups', r) && NoTies(groups, WindowKeys(cfg, groups, cutoff))
    requires IsListing(groups, WindowKeys(cfg, groups, cutoff), ks, gs)
    requires IsListing(groups', WindowKeys(cfg, groups', cutoff), ls, gs')
    requires b < |Blocks(gs, cfg.blockSize)|
    requires forall i :: b * cfg.blockSize <= i < (b + 1) * cfg.blockSize && i < |ks| ==>
      ks[i] in groups && NotLongest(groups[ks[i]], r)
    requires Flagged(cfg, Blocks(gs, cfg.blockSize)[b], JitterFloor(cfg, groups), r)
    ensures ks == ls && |Blocks(gs', cfg.blockSize)| == |Blocks(gs, cfg.blockSize)|
    ensures Flagged(cfg, Blocks(gs', cfg.blockSize)[b], JitterFloor(cfg, groups'), r)
  {
    hide *;
    LoweredOrder(cfg, groups, groups', r, cutoff, ks, gs, ls, gs');
    SameBlockCount(gs, gs', cfg.blockSize);
    LoweredFloor(cfg, groups, groups', r);
    LoweredBlock(cfg, groups, groups', cutoff, r, ks, gs, gs', b);
    RaisedStaysFlagged(cfg, Blocks(gs, cfg.blockSize)[b], Blocks(gs', cfg.blockSize)[b],
                       JitterFloor(cfg, groups), JitterFloor(cfg, groups'), r);
  }

  lemma {:induction false} LoweredBlock(cfg: Config, groups: Groups, groups': Groups, cutoff: int, r: Rank,
                     ks: seq<GroupKey>, gs: seq<GInfo>, gs': seq<GInfo>, b: nat)
    requires cfg.blockSize >= 2 && LoweredGroups(groups, groups', r)
    requires IsListing(groups, WindowKeys(cfg, groups, cutoff), ks, gs)
    requires IsListing(groups', WindowKeys(cfg, groups', cutoff), ks, gs')
    requires b < |Blocks(gs, cfg.blockSize)| == |Blocks(gs', cfg.blockSize)|
    requires forall i :: b * cfg.blockSize <= i < (b + 1) * cfg.blockSize && i < |ks| ==>
      ks[i] in groups && NotLongest(groups[ks[i]], r)
    ensures RaisedBlock(Blocks(gs, cfg.blockSize)[b], Blocks(gs', cfg.blockSize)[b], r)
  {
    hide WindowKeys, InOrder, Blocks, NotLongest, Lowered, Raised, Describes, Distinct;
    var bs := cfg.blockSize;
    BlockAt(gs, bs, b);
    BlockAt(gs', bs, b);
    var lo, hi := b * bs, (b + 1) * bs;
    forall i | lo <= i < hi ensures Raised(gs[i], gs'[i], r) {
      LoweredLags(gs[i], gs'[i], ks[i], groups[ks[i]], groups'[ks[i]], r);
    }
    assert forall j :: 0 <= j < hi - lo ==> gs[lo..hi][j] == gs[lo + j] && gs'[lo..hi][j] == gs'[lo + j];
  }
}
