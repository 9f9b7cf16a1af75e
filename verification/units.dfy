/** Verdicts do not depend on the unit durations are measured in, nor on anything but durations. */
module Units {
  import opened Events
  import opened Stats
  import opened Bags
  import opened Detection
  import opened Grouping
  import opened Scores
  import opened WellFormed
  import opened Order

  // ---------------------------------------------------------------- one block

  /** b has the members of a, with every lag multiplied by c. Times, op and sequence number are free. */
  ghost predicate LagsScaled(a: GInfo, b: GInfo, c: real) {
    a.lags.Keys == b.lags.Keys && forall r :: r in a.lags ==> b.lags[r] == Times(c)(a.lags[r])
  }

  ghost predicate BlockScaled(blk: Block, blk': Block, c: real) {
    |blk| == |blk'| && forall i :: 0 <= i < |blk| ==> LagsScaled(blk[i], blk'[i], c)
  }

  lemma {:induction false} ColumnScaled(blk: Block, blk': Block, c: real, r: Rank)
    requires BlockScaled(blk, blk', c)
    ensures Column(blk', r) == Map(Column(blk, r), Times(c))
  {
    if blk != [] {
      var n := |blk| - 1;
      assert LagsScaled(blk[n], blk'[n], c);
      ColumnScaled(blk[..n], blk'[..n], c, r);
      if r in blk[n].lags {
        MapExtend(Column(blk[..n], r), blk[n].lags[r], Times(c));
      }
    }
  }

  lemma {:induction false} EligibleScaled(blk: Block, blk': Block, c: real)
    requires BlockScaled(blk, blk', c)
    ensures Eligible(blk) == Eligible(blk')
  {
    RanksScaled(blk, blk', c);
    hide Column, RanksOf, Times, Map;
    forall q ensures |Column(blk, q)| == |Column(blk', q)| {
      ColumnScaled(blk, blk', c, q);
    }
  }

  lemma {:induction false} RanksScaled(blk: Block, blk': Block, c: real)
    requires BlockScaled(blk, blk', c)
    ensures RanksOf(blk) == RanksOf(blk')
  {
    hide Times;
    forall q ensures q in RanksOf(blk) <==> q in RanksOf(blk') {
      if q in RanksOf(blk) {
        var i :| 0 <= i < |blk| && q in blk[i].lags;
        assert LagsScaled(blk[i], blk'[i], c);
      }
      if q in RanksOf(blk') {
        var i :| 0 <= i < |blk'| && q in blk'[i].lags;
        assert LagsScaled(blk[i], blk'[i], c);
      }
    }
  }

  lemma {:induction false} MedianLagScaled(blk: Block, blk': Block, c: real, r: Rank)
    requires BlockScaled(blk, blk', c) && c > 0.0
    ensures MedianLag(blk', r) == Times(c)(MedianLag(blk, r))
  {
    hide Column, Median, Times, BlockScaled;
    ColumnScaled(blk, blk', c, r);
    MedianScale(Column(blk, r), c);
  }

  lemma {:induction false} MedianBagsScaled(blk: Block, blk': Block, c: real, ranks: set<Rank>)
    requires BlockScaled(blk, blk', c) && c > 0.0
    ensures IsImage(Pool(MedianBags(blk, ranks)), Pool(MedianBags(blk', ranks)), Times(c))
  {
    hide MedianLag, Times, Pool, BlockScaled, IsImage;
    forall p | p in ranks ensures IsImage(MedianBags(blk, ranks)[p], MedianBags(blk', ranks)[p], Times(c)) {
      MedianLagScaled(blk, blk', c, p);
      SingletonImage(MedianLag(blk, p), Times(c));
    }
    PoolImage(MedianBags(blk, ranks), MedianBags(blk', ranks), Times(c));
  }

  lemma {:induction false} SingletonImage(x: real, f: real -> real)
    ensures IsImage(multiset{x}, multiset{f(x)}, f)
  {
    ImageOf([x], f);
    assert [x][..0] == [];
    assert Map([x], f) == [f(x)];
    assert multiset([x]) == multiset{x} && multiset([f(x)]) == multiset{f(x)};
  }

  lemma {:induction false} ColumnBagsScaled(blk: Block, blk': Block, c: real, ranks: set<Rank>)
    requires BlockScaled(blk, blk', c)
    ensures IsImage(Pool(ColumnBags(blk, ranks)), Pool(ColumnBags(blk', ranks)), Times(c))
  {
    hide Column, Times, Pool, BlockScaled, IsImage, Map;
    forall p | p in ranks ensures IsImage(ColumnBags(blk, ranks)[p], ColumnBags(blk', ranks)[p], Times(c)) {
      ColumnScaled(blk, blk', c, p);
      ImageOf(Column(blk, p), Times(c));
    }
    PoolImage(ColumnBags(blk, ranks), ColumnBags(blk', ranks), Times(c));
  }

  lemma {:induction false} BaseScaled(blk: Block, blk': Block, c: real, r: Rank)
    requires BlockScaled(blk, blk', c) && c > 0.0
    ensures BagMedian(PeerMedians(blk', r)) == Times(c)(BagMedian(PeerMedians(blk, r)))
  {
    hide BlockScaled, Pool, MedianBags, IsImage, Eligible, BagMedian, BagMad, Times;
    EligibleScaled(blk, blk', c);
    MedianBagsScaled(blk, blk', c, Peers(blk, r));
    ImageScale(PeerMedians(blk, r), PeerMedians(blk', r), c);
  }

  lemma {:induction false} NoiseScaled(blk: Block, blk': Block, c: real, r: Rank)
    requires BlockScaled(blk, blk', c) && c > 0.0
    ensures BagMad(PeerLags(blk', r)) == Times(c)(BagMad(PeerLags(blk, r)))
  {
    hide BlockScaled, Pool, ColumnBags, IsImage, Eligible, BagMad, BagMedian, Times;
    EligibleScaled(blk, blk', c);
    ColumnBagsScaled(blk, blk', c, Peers(blk, r));
    ImageScale(PeerLags(blk, r), PeerLags(blk', r), c);
  }

  lemma {:induction false} ExcessScaled(blk: Block, blk': Block, c: real, r: Rank)
    requires BlockScaled(blk, blk', c) && c > 0.0
    ensures Excess(blk', r) == Times(c)(Excess(blk, r))
  {
    hide MedianLag, BlockScaled, PeerMedians, BagMedian, Times;
    BaseScaled(blk, blk', c, r);
    MedianLagScaled(blk, blk', c, r);
    Distribute(c, MedianLag(blk, r), BagMedian(PeerMedians(blk, r)));
  }

  lemma {:induction false} Distribute(c: real, a: real, b: real)
    ensures Times(c)(a) - Times(c)(b) == Times(c)(a - b)
  {
  }

  lemma {:induction false} SpreadScaled(blk: Block, blk': Block, c: real, r: Rank, floor: real)
    requires BlockScaled(blk, blk', c) && c > 0.0
    ensures Spread(blk', r, Times(c)(floor)) == Times(c)(Spread(blk, r, floor))
  {
    hide BlockScaled, PeerLags, BagMad, Times, Max;
    NoiseScaled(blk, blk', c, r);
    MaxScaled(c, BagMad(PeerLags(blk, r)), floor);
  }

  lemma {:induction false} MaxScaled(c: real, mad: real, floor: real)
    requires c > 0.0
    ensures Max(Times(c)(mad) * MAD_TO_SIGMA, Times(c)(floor)) == Times(c)(Max(mad * MAD_TO_SIGMA, floor))
  {
    MulOrder(floor, mad * MAD_TO_SIGMA, c);
    MulOrder(mad * MAD_TO_SIGMA, floor, c);
    assert c * mad * MAD_TO_SIGMA == c * (mad * MAD_TO_SIGMA);
  }

  lemma {:induction false} StdErrScaled(root: Root, sigma: real, n: nat, c: real)
    requires n > 0 && sigma >= 0.0 && c > 0.0
    ensures StdErr(root, Times(c)(sigma), n) == Times(c)(StdErr(root, sigma, n))
  {
    ProductNonNegative(c, sigma);
    StdErrNonNegative(root, sigma, n);
    StdErrNonNegative(root, c * sigma, n);
    hide StdErr, RootLike;
    SameQuotient(StdErr(root, c * sigma, n), c * StdErr(root, sigma, n), root(n), SE_FACTOR * sigma, c);
  }

  lemma {:induction false} SameQuotient(e': real, e: real, q: real, x: real, c: real)
    requires q > 0.0 && e' * q == c * x && e * q == c * x
    ensures e' == e
  {
    MulOrder(e', e, q);
    MulOrder(e, e', q);
  }

  lemma {:induction false} ZScoreScaled(x: real, e: real, c: real)
    requires c > 0.0 && e >= 0.0
    ensures ZScore(Times(c)(x), Times(c)(e)) == ZScore(x, e)
  {
    ScaledSign(x, c);
    ScaledSign(e, c);
    if e > 0.0 {
      ScaledRatio(x, e, c);
    }
    hide Times;
  }

  lemma {:induction false} ScaledSign(x: real, c: real)
    requires c > 0.0
    ensures (Times(c)(x) > 0.0 <==> x > 0.0) && (Times(c)(x) == 0.0 <==> x == 0.0)
  {
    MulOrder(x, 0.0, c);
    MulOrder(0.0, x, c);
  }

  lemma {:induction false} ScaledRatio(x: real, e: real, c: real)
    requires c > 0.0 && e > 0.0
    ensures Times(c)(e) > 0.0 && Times(c)(x) / Times(c)(e) == x / e
  {
    ScaledSign(e, c);
    var q := x / e;
    assert q * e == x;
    assert q * (c * e) == c * x;
    SameRatio(c * x, c * e, q);
  }

  lemma {:induction false} SameRatio(a: real, b: real, q: real)
    requires b > 0.0 && q * b == a
    ensures a / b == q
  {
    SameQuotient(a / b, q, b, a, 1.0);
  }

  /** The z score of a rank in a block is a ratio of durations. */
  lemma {:induction false} ScoreScaled(cfg: Config, blk: Block, blk': Block, floor: real, c: real, r: Rank)
    requires BlockScaled(blk, blk', c) && c > 0.0
    ensures Score(cfg, blk', Times(c)(floor), r) == Score(cfg, blk, floor, r)
  {
    JudgedScaled(blk, blk', c, r);
    hide Excess, Spread, Judged, ZScore, BlockScaled, Column, StdErr, RootLike, Times;
    if |blk| >= 2 && Judged(blk, r) {
      ColumnNonEmpty(blk, r);
      ColumnNonEmpty(blk', r);
      ExcessScaled(blk, blk', c, r);
      SpreadScaled(blk, blk', c, r, floor);
      SpreadNonNegative(blk, r, floor);
      StdErrScaled(cfg.root, Spread(blk, r, floor), |Column(blk, r)|, c);
      StdErrSign(cfg.root, Spread(blk, r, floor), |Column(blk, r)|);
      ZScoreScaled(Excess(blk, r), StdErr(cfg.root, Spread(blk, r, floor), |Column(blk, r)|), c);
    }
  }

  lemma {:induction false} StdErrSign(root: Root, sigma: real, n: nat)
    requires n > 0 && sigma >= 0.0
    ensures StdErr(root, sigma, n) >= 0.0
  {
    StdErrNonNegative(root, sigma, n);
  }

  lemma {:induction false} JudgedScaled(blk: Block, blk': Block, c: real, r: Rank)
    requires BlockScaled(blk, blk', c)
    ensures |blk| == |blk'| && (Judged(blk, r) <==> Judged(blk', r)) && |Column(blk, r)| == |Column(blk', r)|
    ensures Judged(blk, r) ==> r in Eligible(blk) && r in Eligible(blk')
  {
    BlockLength(blk, blk', c);
    hide Eligible, BlockScaled, Column, Map, Times;
    EligibleScaled(blk, blk', c);
    ColumnScaled(blk, blk', c, r);
  }

  lemma {:induction false} BlockLength(blk: Block, blk': Block, c: real)
    requires BlockScaled(blk, blk', c)
    ensures |blk| == |blk'|
  {
  }

  // ---------------------------------------------------------------- flags and reports

  /** The same flags, with excesses multiplied by c; ops are free. */
  ghost predicate FlagsScaled(fl: seq<Flag>, fl': seq<Flag>, c: real) {
    && |fl| == |fl'|
    && forall i :: 0 <= i < |fl| ==> fl[i].block == fl'[i].block && fl[i].z == fl'[i].z && fl'[i].lag == Times(c)(fl[i].lag)
  }

  ghost predicate BlocksScaled(blocks: seq<Block>, blocks': seq<Block>, c: real) {
    |blocks| == |blocks'| && forall b :: 0 <= b < |blocks| ==> BlockScaled(blocks[b], blocks'[b], c)
  }

  lemma {:induction false} FlaggedScaled(cfg: Config, blk: Block, blk': Block, b: nat, floor: real, c: real, r: Rank)
    requires BlockScaled(blk, blk', c) && c > 0.0
    ensures Flagged(cfg, blk, floor, r) <==> Flagged(cfg, blk', Times(c)(floor), r)
    ensures Flagged(cfg, blk, floor, r) ==> FlagsScaled([FlagOf(cfg, blk, b, floor, r)], [FlagOf(cfg, blk', b, Times(c)(floor), r)], c)
  {
    hide Score, Excess, BlockScaled;
    ScoreScaled(cfg, blk, blk', floor, c, r);
    ExcessScaled(blk, blk', c, r);
  }

  lemma {:induction false} FlagsScaledAppend(a: seq<Flag>, a': seq<Flag>, b: seq<Flag>, b': seq<Flag>, c: real)
    requires FlagsScaled(a, a', c) && FlagsScaled(b, b', c)
    ensures FlagsScaled(a + b, a' + b', c)
  {
    hide Times;
  }

  lemma {:induction false} AllFlagsScaled(cfg: Config, blocks: seq<Block>, blocks': seq<Block>, floor: real, c: real, r: Rank)
    requires BlocksScaled(blocks, blocks', c) && c > 0.0
    ensures FlagsScaled(Flags(cfg, blocks, floor, r), Flags(cfg, blocks', Times(c)(floor), r), c)
  {
    if blocks != [] {
      var n := |blocks| - 1;
      assert BlockScaled(blocks[n], blocks'[n], c);
      hide Flags, Flagged, FlagOf, FlagsScaled, BlockScaled, Ordered;
      AllFlagsScaled(cfg, blocks[..n], blocks'[..n], floor, c, r);
      FlagsStep(cfg, blocks, floor, r);
      FlagsStep(cfg, blocks', Times(c)(floor), r);
      FlaggedScaled(cfg, blocks[n], blocks'[n], n, floor, c, r);
      if Flagged(cfg, blocks[n], floor, r) {
        FlagsScaledAppend(Flags(cfg, blocks[..n], floor, r), Flags(cfg, blocks'[..n], Times(c)(floor), r),
                          [FlagOf(cfg, blocks[n], n, floor, r)], [FlagOf(cfg, blocks'[n], n, Times(c)(floor), r)], c);
      }
    }
  }

  lemma {:induction false} EvidenceScaled(fl: seq<Flag>, fl': seq<Flag>, c: real)
    requires FlagsScaled(fl, fl', c)
    ensures Lags(fl') == Map(Lags(fl), Times(c)) && ZScores(fl') == ZScores(fl)
  {
    if fl != [] {
      var n := |fl| - 1;
      hide Times;
      EvidenceScaled(fl[..n], fl'[..n], c);
      MapExtend(Lags(fl[..n]), fl[n].lag, Times(c));
    }
  }

  /** The same verdict on a rank: sigma, Hits and Groups agree, and the lags reported are `lag` and c times
      `lag`, each truncated to an integer; when `timed`, the reported times agree too. */
  ghost predicate SameVerdict(a: Anomaly, b: Anomaly, lag: real, c: real, timed: bool) {
    && a.rank == b.rank && a.sigma == b.sigma && a.hits == b.hits && a.groups == b.groups
    && a.lagNs == Trunc(lag) && b.lagNs == Trunc(Times(c)(lag))
    && (timed ==> a.startNs == b.startNs && a.endNs == b.endNs && a.detectedAt == b.detectedAt)
  }

  ghost predicate SameTimes(blk: Block, blk': Block) {
    |blk| == |blk'| && forall i :: 0 <= i < |blk| ==> blk[i].ts == blk'[i].ts
  }

  ghost predicate SameClock(blocks: seq<Block>, blocks': seq<Block>) {
    |blocks| == |blocks'| && forall b :: 0 <= b < |blocks| ==> SameTimes(blocks[b], blocks'[b])
  }

  /** The median excess lag of rank r over the blocks that flag it. */
  ghost function ReportedLag(cfg: Config, blocks: seq<Block>, floor: real, r: Rank): real {
    Median(Lags(Flags(cfg, blocks, floor, r)))
  }

  lemma {:induction false} VerdictScaled(cfg: Config, blocks: seq<Block>, blocks': seq<Block>, bs: nat, floor: real, c: real,
                                         timed: bool, r: Rank)
    requires BlocksScaled(blocks, blocks', c) && c > 0.0 && bs >= 2 && (timed ==> SameClock(blocks, blocks'))
    requires forall blk :: blk in blocks ==> |blk| == bs
    requires forall blk :: blk in blocks' ==> |blk| == bs
    ensures Reported(cfg, blocks, floor, r) <==> Reported(cfg, blocks', Times(c)(floor), r)
    ensures Reported(cfg, blocks, floor, r) ==>
      SameVerdict(AnomalyOf(cfg, blocks, floor, r), AnomalyOf(cfg, blocks', Times(c)(floor), r),
                  ReportedLag(cfg, blocks, floor, r), c, timed)
  {
    BlocksLength(blocks, blocks', c);
    hide BlocksScaled, FlagsScaled, Flags, MakeAnomaly, Persistent, Lags, ZScores, Median, SameVerdict, Times, Span, SameClock;
    AllFlagsScaled(cfg, blocks, blocks', floor, c, r);
    var fl, fl' := Flags(cfg, blocks, floor, r), Flags(cfg, blocks', Times(c)(floor), r);
    EvidenceScaled(fl, fl', c);
    MedianScale(Lags(fl), c);
    PersistentScaled(cfg, fl, fl', c);
    if Reported(cfg, blocks, floor, r) {
      SameFields(blocks, blocks', bs, r, fl, fl', c, timed);
    }
  }

  lemma {:induction false} BlocksLength(blocks: seq<Block>, blocks': seq<Block>, c: real)
    requires BlocksScaled(blocks, blocks', c)
    ensures |blocks| == |blocks'|
  {
  }

  lemma {:induction false} PersistentScaled(cfg: Config, fl: seq<Flag>, fl': seq<Flag>, c: real)
    requires FlagsScaled(fl, fl', c)
    ensures Persistent(cfg, fl) <==> Persistent(cfg, fl')
    ensures fl != [] ==> fl' != [] && Span(fl) == Span(fl')
    ensures Persistent(cfg, fl) ==> fl != []
  {
    hide Times;
  }

  lemma {:induction false} SameFields(blocks: seq<Block>, blocks': seq<Block>, bs: nat, r: Rank, fl: seq<Flag>, fl': seq<Flag>,
                                      c: real, timed: bool)
    requires bs >= 2 && |blocks| == |blocks'| && (timed ==> SameClock(blocks, blocks'))
    requires forall blk :: blk in blocks ==> |blk| == bs
    requires forall blk :: blk in blocks' ==> |blk| == bs
    requires FlagsScaled(fl, fl', c) && fl != [] && Ordered(fl, |blocks|) && Ordered(fl', |blocks'|)
    requires ZScores(fl) == ZScores(fl') && Span(fl) == Span(fl') && Median(Lags(fl')) == Times(c)(Median(Lags(fl)))
    ensures SameVerdict(MakeAnomaly(blocks, r, fl), MakeAnomaly(blocks', r, fl'), Median(Lags(fl)), c, timed)
  {
    hide Mode, MedianSigma, Median, ZScores, Lags, Ops, Span, Times, Trunc, SameTimes;
    var first, last := fl[0].block, fl[|fl| - 1].block;
    if timed {
      ClockAt(blocks[first], blocks'[first], 0);
      ClockAt(blocks[last], blocks'[last], bs - 1);
    }
  }

  lemma {:induction false} ClockAt(blk: Block, blk': Block, i: nat)
    requires SameTimes(blk, blk') && i < |blk|
    ensures blk[i].ts == blk'[i].ts
  {
  }

  // ---------------------------------------------------------------- lists

  lemma {:induction false} BlocksOfScaled(gs: seq<GInfo>, gs': seq<GInfo>, bs: nat, c: real)
    requires bs > 0 && BlockScaled(gs, gs', c)
    ensures BlocksScaled(Blocks(gs, bs), Blocks(gs', bs), c)
  {
    if |gs| >= bs {
      hide LagsScaled;
      BlocksOfScaled(gs[bs..], gs'[bs..], bs, c);
    }
  }

  lemma {:induction false} BlocksOfClock(gs: seq<GInfo>, gs': seq<GInfo>, bs: nat)
    requires bs > 0 && SameTimes(gs, gs')
    ensures SameClock(Blocks(gs, bs), Blocks(gs', bs))
  {
    if |gs| >= bs {
      BlocksOfClock(gs[bs..], gs'[bs..], bs);
    }
  }

  /** The lag of rank r on the list gs, before truncation. */
  ghost function LagIn(cfg: Config, gs: seq<GInfo>, floor: real, r: Rank): real {
    if cfg.blockSize >= 2 then ReportedLag(cfg, Blocks(gs, cfg.blockSize), floor, r) else 0.0
  }

  ghost predicate HasCounterpart(a: Anomaly, out: seq<Anomaly>, lag: real, c: real, timed: bool) {
    exists j :: 0 <= j < |out| && SameVerdict(a, out[j], lag, c, timed)
  }

  /** Each report of `out`, made on the list gs, has a counterpart in `out'`, its lag multiplied by c. */
  ghost predicate Included(cfg: Config, gs: seq<GInfo>, floor: real, out: seq<Anomaly>, out': seq<Anomaly>, c: real, timed: bool) {
    forall i :: 0 <= i < |out| ==> HasCounterpart(out[i], out', LagIn(cfg, gs, floor, out[i].rank), c, timed)
  }

  lemma {:induction false} LagScaled(cfg: Config, gs: seq<GInfo>, gs': seq<GInfo>, floor: real, c: real, r: Rank)
    requires BlockScaled(gs, gs', c) && c > 0.0
    ensures cfg.blockSize >= 2 ==> LagIn(cfg, gs', Times(c)(floor), r) == Times(c)(LagIn(cfg, gs, floor, r))
  {
    hide Blocks, BlockScaled, BlocksScaled, FlagsScaled, Flags, Median, Times, Lags;
    if cfg.blockSize >= 2 {
      var blocks, blocks' := Blocks(gs, cfg.blockSize), Blocks(gs', cfg.blockSize);
      BlocksOfScaled(gs, gs', cfg.blockSize, c);
      AllFlagsScaled(cfg, blocks, blocks', floor, c, r);
      EvidenceScaled(Flags(cfg, blocks, floor, r), Flags(cfg, blocks', Times(c)(floor), r), c);
      MedianScale(Lags(Flags(cfg, blocks, floor, r)), c);
    }
  }

  lemma {:induction false} Counterpart(cfg: Config, blocks: seq<Block>, blocks': seq<Block>, bs: nat, floor: real, c: real,
                                       timed: bool, a: Anomaly, out': seq<Anomaly>)
    requires BlocksScaled(blocks, blocks', c) && c > 0.0 && bs >= 2 && (timed ==> SameClock(blocks, blocks'))
    requires forall blk :: blk in blocks ==> |blk| == bs
    requires forall blk :: blk in blocks' ==> |blk| == bs
    requires Reported(cfg, blocks, floor, a.rank) && a == AnomalyOf(cfg, blocks, floor, a.rank)
    requires forall r :: Reported(cfg, blocks', Times(c)(floor), r) ==> exists j :: 0 <= j < |out'| && out'[j].rank == r
    requires forall j :: 0 <= j < |out'| ==> Reported(cfg, blocks', Times(c)(floor), out'[j].rank)
    requires forall j :: 0 <= j < |out'| ==> out'[j] == AnomalyOf(cfg, blocks', Times(c)(floor), out'[j].rank)
    ensures HasCounterpart(a, out', ReportedLag(cfg, blocks, floor, a.rank), c, timed)
  {
    hide BlocksScaled, Reported, AnomalyOf, SameVerdict, Times, SameClock, ReportedLag;
    VerdictScaled(cfg, blocks, blocks', bs, floor, c, timed, a.rank);
    var j :| 0 <= j < |out'| && out'[j].rank == a.rank;
  }

  lemma {:induction false} ReportedAt(cfg: Config, gs: seq<GInfo>, floor: real, out: seq<Anomaly>)
    requires IsReport(cfg, gs, floor, out) && cfg.blockSize >= 2
    ensures var blocks := Blocks(gs, cfg.blockSize);
            && (forall j :: 0 <= j < |out| ==> Reported(cfg, blocks, floor, out[j].rank))
            && (forall j :: 0 <= j < |out| ==> out[j] == AnomalyOf(cfg, blocks, floor, out[j].rank))
            && (forall r :: Reported(cfg, blocks, floor, r) ==> exists j :: 0 <= j < |out| && out[j].rank == r)
  {
    hide Blocks, Reported, AnomalyOf;
  }

  lemma {:induction false} ReportCounterpart(cfg: Config, gs: seq<GInfo>, gs': seq<GInfo>, floor: real, c: real, timed: bool,
                                             out: seq<Anomaly>, out': seq<Anomaly>, i: nat)
    requires BlockScaled(gs, gs', c) && c > 0.0 && (timed ==> SameTimes(gs, gs'))
    requires IsReport(cfg, gs, floor, out) && IsReport(cfg, gs', Times(c)(floor), out') && i < |out| && cfg.blockSize >= 2
    ensures HasCounterpart(out[i], out', LagIn(cfg, gs, floor, out[i].rank), c, timed)
  {
    hide IsReport, Blocks, Reported, AnomalyOf, HasCounterpart, BlockScaled, BlocksScaled, Times, SameTimes, SameClock, ReportedLag;
    var blocks, blocks' := Blocks(gs, cfg.blockSize), Blocks(gs', cfg.blockSize);
    ReportedAt(cfg, gs, floor, out);
    ReportedAt(cfg, gs', Times(c)(floor), out');
    BlocksOfScaled(gs, gs', cfg.blockSize, c);
    if timed {
      BlocksOfClock(gs, gs', cfg.blockSize);
    }
    Counterpart(cfg, blocks, blocks', cfg.blockSize, floor, c, timed, out[i], out');
  }

  lemma {:induction false} NothingSmall(cfg: Config, gs: seq<GInfo>, floor: real, out: seq<Anomaly>)
    requires IsReport(cfg, gs, floor, out)
    ensures out != [] ==> cfg.blockSize >= 2
  {
    hide Blocks, Reported, AnomalyOf;
  }

  lemma {:induction false} ReportIncluded(cfg: Config, gs: seq<GInfo>, gs': seq<GInfo>, floor: real, c: real, timed: bool,
                                          out: seq<Anomaly>, out': seq<Anomaly>)
    requires BlockScaled(gs, gs', c) && c > 0.0 && (timed ==> SameTimes(gs, gs'))
    requires IsReport(cfg, gs, floor, out) && IsReport(cfg, gs', Times(c)(floor), out')
    ensures Included(cfg, gs, floor, out, out', c, timed)
  {
    hide IsReport, HasCounterpart, BlockScaled, Times, SameTimes, LagIn;
    NothingSmall(cfg, gs, floor, out);
    forall i | 0 <= i < |out| ensures HasCounterpart(out[i], out', LagIn(cfg, gs, floor, out[i].rank), c, timed) {
      ReportCounterpart(cfg, gs, gs', floor, c, timed, out, out', i);
    }
  }

  lemma {:induction false} InfoScaledBack(a: GInfo, b: GInfo, c: real)
    requires LagsScaled(a, b, c) && c > 0.0
    ensures LagsScaled(b, a, 1.0 / c)
  {
    forall r | r in b.lags ensures a.lags[r] == Times(1.0 / c)(b.lags[r]) {
      Undo(c, a.lags[r]);
    }
  }

  lemma {:induction false} Undo(c: real, x: real)
    requires c > 0.0
    ensures 1.0 / c > 0.0 && Times(1.0 / c)(Times(c)(x)) == x
  {
    var d := 1.0 / c;
    assert d * c == 1.0;
    QuotientAbove(1.0, c, 0.0);
    assert d * (c * x) == (d * c) * x;
  }

  lemma {:induction false} BlockScaledBack(blk: Block, blk': Block, c: real)
    requires BlockScaled(blk, blk', c) && c > 0.0
    ensures BlockScaled(blk', blk, 1.0 / c)
  {
    hide LagsScaled;
    forall i | 0 <= i < |blk| ensures LagsScaled(blk'[i], blk[i], 1.0 / c) {
      InfoScaledBack(blk[i], blk'[i], c);
    }
  }

  /** The verdicts agree both ways. */
  lemma {:induction false} ReportsScaled(cfg: Config, gs: seq<GInfo>, gs': seq<GInfo>, floor: real, c: real, timed: bool,
                                         out: seq<Anomaly>, out': seq<Anomaly>)
    requires BlockScaled(gs, gs', c) && c > 0.0 && (timed ==> SameTimes(gs, gs'))
    requires IsReport(cfg, gs, floor, out) && IsReport(cfg, gs', Times(c)(floor), out')
    ensures Included(cfg, gs, floor, out, out', c, timed)
    ensures Included(cfg, gs', Times(c)(floor), out', out, 1.0 / c, timed)
  {
    if timed {
      TimesBack(gs, gs');
    }
    hide IsReport, BlockScaled, Included, Times, SameTimes;
    ReportIncluded(cfg, gs, gs', floor, c, timed, out, out');
    BlockScaledBack(gs, gs', c);
    Undo(c, floor);
    ReportIncluded(cfg, gs', gs, Times(c)(floor), 1.0 / c, timed, out', out);
  }

  lemma {:induction false} TimesBack(gs: seq<GInfo>, gs': seq<GInfo>)
    requires SameTimes(gs, gs')
    ensures SameTimes(gs', gs)
  {
  }

  // ---------------------------------------------------------------- the stored groups

  /** g' is g with every duration multiplied by c. */
  ghost predicate GroupScaled(g: Group, g': Group, c: real) {
    && g.Keys == g'.Keys
    && forall r :: r in g ==> g'[r].ts == g[r].ts && g'[r].dur as real == Times(c)(g[r].dur as real)
  }

  ghost predicate GroupsScaled(groups: Groups, groups': Groups, c: real) {
    groups.Keys == groups'.Keys && forall k :: k in groups ==> GroupScaled(groups[k], groups'[k], c)
  }

  lemma {:induction false} TimesOrder(c: real, a: real, b: real)
    requires c > 0.0
    ensures Times(c)(a) <= Times(c)(b) <==> a <= b
    ensures Times(c)(0.0) == 0.0
  {
    MulOrder(a, b, c);
  }

  lemma {:induction false} MaxDurScaled(g: Group, g': Group, c: real)
    requires GroupScaled(g, g', c) && c > 0.0
    ensures MaxDur(g') as real == Times(c)(MaxDur(g) as real)
  {
    hide Times;
    var s, s' := set r | r in g :: g[r].dur, set r | r in g' :: g'[r].dur;
    var m, m' := MaxFromZero(s), MaxFromZero(s');
    TimesOrder(c, 0.0, m as real);
    if m != 0 {
      var q :| q in g && g[q].dur == m;
      assert g'[q].dur in s';
      assert Times(c)(m as real) <= m' as real;
    }
    if m' != 0 {
      var p :| p in g' && g'[p].dur == m';
      assert g[p].dur in s;
      TimesOrder(c, g[p].dur as real, m as real);
      assert m' as real <= Times(c)(m as real);
    }
  }

  lemma {:induction false} LagsOfScaled(gi: GInfo, gi': GInfo, k: GroupKey, g: Group, g': Group, c: real)
    requires Describes(gi, k, g) && Describes(gi', k, g') && GroupScaled(g, g', c) && c > 0.0
    ensures LagsScaled(gi, gi', c)
  {
    hide Times, MaxDur, Newest;
    MaxDurScaled(g, g', c);
    forall r | r in gi.lags ensures gi'.lags[r] == Times(c)(gi.lags[r]) {
      Distribute(c, MaxDur(g) as real, g[r].dur as real);
    }
  }

  lemma {:induction false} ScoredScaled(cfg: Config, groups: Groups, groups': Groups)
    requires groups.Keys == groups'.Keys && forall k :: k in groups ==> groups[k].Keys == groups'[k].Keys
    ensures ScoredKeys(cfg, groups) == ScoredKeys(cfg, groups')
  {
    forall k | k in groups ensures |groups[k]| == |groups'[k]| {
      assert |groups[k].Keys| == |groups'[k].Keys|;
    }
  }

  lemma {:induction false} DurationsScaled(g: Group, g': Group, c: real)
    requires GroupScaled(g, g', c)
    ensures IsImage(Durations(g), Durations(g'), Times(c))
  {
    hide Times, Pool, IsImage;
    forall r | r in g ensures IsImage(DurationBags(g)[r], DurationBags(g')[r], Times(c)) {
      SingletonImage(g[r].dur as real, Times(c));
    }
    PoolImage(DurationBags(g), DurationBags(g'), Times(c));
  }

  lemma {:induction false} GroupsKeys(groups: Groups, groups': Groups, c: real)
    requires GroupsScaled(groups, groups', c)
    ensures groups.Keys == groups'.Keys && forall k :: k in groups ==> groups[k].Keys == groups'[k].Keys
  {
  }

  lemma {:induction false} AllDurationsScaled(cfg: Config, groups: Groups, groups': Groups, c: real)
    requires GroupsScaled(groups, groups', c)
    ensures IsImage(AllDurations(cfg, groups), AllDurations(cfg, groups'), Times(c))
  {
    GroupsKeys(groups, groups', c);
    ScoredScaled(cfg, groups, groups');
    hide Times, Pool, IsImage, Durations, GroupScaled, ScoredKeys;
    forall k | k in ScoredKeys(cfg, groups)
      ensures IsImage(ScoredDurations(cfg, groups)[k], ScoredDurations(cfg, groups')[k], Times(c))
    {
      InScored(cfg, groups, k);
      DurationsScaled(groups[k], groups'[k], c);
    }
    PoolImage(ScoredDurations(cfg, groups), ScoredDurations(cfg, groups'), Times(c));
  }

  lemma {:induction false} FloorScaled(cfg: Config, groups: Groups, groups': Groups, c: real)
    requires GroupsScaled(groups, groups', c) && c > 0.0
    ensures JitterFloor(cfg, groups') == Times(c)(JitterFloor(cfg, groups))
  {
    hide Times, AllDurations, IsImage, BagMedian, BagMad, GroupsScaled;
    AllDurationsScaled(cfg, groups, groups', c);
    ImageScale(AllDurations(cfg, groups), AllDurations(cfg, groups'), c);
    Commute(cfg.jitterFloor, c, BagMedian(AllDurations(cfg, groups)), BagMedian(AllDurations(cfg, groups')),
            JitterFloor(cfg, groups), JitterFloor(cfg, groups'));
  }

  lemma {:induction false} Commute(a: real, c: real, x: real, y: real, fx: real, fy: real)
    requires y == Times(c)(x) && fx == a * x && fy == a * y
    ensures fy == Times(c)(fx)
  {
    assert a * (c * x) == c * (a * x);
  }

  lemma {:induction false} NewestScaled(groups: Groups, groups': Groups, c: real)
    requires GroupsScaled(groups, groups', c)
    ensures SameNewest(groups, groups')
  {
    forall k | k in groups ensures Newest(groups[k]) == Newest(groups'[k]) {
      SameTs(groups[k], groups'[k]);
    }
  }

  lemma {:induction false} ListingScaled(groups: Groups, groups': Groups, keys: set<GroupKey>, ks: seq<GroupKey>,
                                         gs: seq<GInfo>, gs': seq<GInfo>, c: real)
    requires IsListing(groups, keys, ks, gs) && IsListing(groups', keys, ks, gs')
    requires GroupsScaled(groups, groups', c) && c > 0.0
    ensures BlockScaled(gs, gs', c) && SameTimes(gs, gs')
  {
    NewestScaled(groups, groups', c);
    hide InOrder, GroupScaled, LagsScaled, Distinct, Newest, LagsOf;
    forall i | 0 <= i < |gs| ensures LagsScaled(gs[i], gs'[i], c) && gs[i].ts == gs'[i].ts {
      assert ks[i] in ks;
      LagsOfScaled(gs[i], gs'[i], ks[i], groups[ks[i]], groups'[ks[i]], c);
    }
  }

  /** Unit independence. Multiplying every duration by a positive constant changes no verdict: the same
      ranks are reported with the same sigma, Hits, Groups and times. Every rank's median excess lag, on the
      lists gs and gs' that the reports were made of, is multiplied by the constant, and each report holds that
      lag truncated. */
  lemma {:induction false} UnitIndependence(cfg: Config, groups: Groups, groups': Groups, cutoff: int, c: real,
                                            out: seq<Anomaly>, out': seq<Anomaly>)
    returns (ks: seq<GroupKey>, gs: seq<GInfo>, gs': seq<GInfo>)
    requires IsDetection(cfg, groups, cutoff, out) && IsDetection(cfg, groups', cutoff, out')
    requires GroupsScaled(groups, groups', c) && c > 0.0
    requires NoTies(groups, WindowKeys(cfg, groups, cutoff))
    ensures IsListing(groups, WindowKeys(cfg, groups, cutoff), ks, gs) && IsReport(cfg, gs, JitterFloor(cfg, groups), out)
    ensures IsListing(groups', WindowKeys(cfg, groups', cutoff), ks, gs') && IsReport(cfg, gs', JitterFloor(cfg, groups'), out')
    ensures cfg.blockSize >= 2 ==>
      forall r :: LagIn(cfg, gs', JitterFloor(cfg, groups'), r) == Times(c)(LagIn(cfg, gs, JitterFloor(cfg, groups), r))
    ensures Included(cfg, gs, JitterFloor(cfg, groups), out, out', c, true)
    ensures Included(cfg, gs', JitterFloor(cfg, groups'), out', out, 1.0 / c, true)
  {
    var keys := WindowKeys(cfg, groups, cutoff);
    NewestScaled(groups, groups', c);
    GroupsKeys(groups, groups', c);
    ScoredScaled(cfg, groups, groups');
    hide IsReport, IsListing, JitterFloor, NoTies, WindowKeys, GroupsScaled, SameNewest, Included, Times, BlockScaled, SameTimes,
         ScoredKeys, LagIn;
    SameWindow(cfg, groups, groups', cutoff);
    FloorScaled(cfg, groups, groups', c);
    ks, gs :| IsListing(groups, keys, ks, gs) && IsReport(cfg, gs, JitterFloor(cfg, groups), out);
    var ls;
    ls, gs' :| IsListing(groups', keys, ls, gs') && IsReport(cfg, gs', JitterFloor(cfg, groups'), out');
    SameOrder(groups, groups', keys, ks, gs, ls, gs');
    ListingScaled(groups, groups', keys, ks, gs, gs', c);
    ReportsScaled(cfg, gs, gs', JitterFloor(cfg, groups), c, true, out, out');
    forall r ensures cfg.blockSize >= 2 ==>
        LagIn(cfg, gs', JitterFloor(cfg, groups'), r) == Times(c)(LagIn(cfg, gs, JitterFloor(cfg, groups), r)) {
      LagScaled(cfg, gs, gs', JitterFloor(cfg, groups), c, r);
    }
  }
}
