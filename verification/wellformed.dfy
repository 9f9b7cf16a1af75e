/** What every report looks like. */
module WellFormed {
  import opened Events
  import opened Stats
  import opened Bags
  import opened Detection
  import opened Grouping
  import opened Scores

  lemma {:induction false} ScoresAt(fl: seq<Flag>, i: nat)
    requires i < |fl|
    ensures ZScores(fl)[i] == fl[i].z && Lags(fl)[i] == fl[i].lag && Ops(fl)[i] == fl[i].op
  {
    if i < |fl| - 1 {
      ScoresAt(fl[..|fl| - 1], i);
    }
  }

  lemma {:induction false} FinitesFrom(zs: seq<Sigma>, v: real)
    requires v in Finites(zs)
    ensures Finite(v) in zs
  {
    var n := |zs| - 1;
    if zs[n] != Finite(v) {
      FinitesFrom(zs[..n], v);
    }
  }

  lemma {:induction false} KthSigmaAbove(zs: seq<Sigma>, k: nat, t: real)
    requires k < |zs| && forall z :: z in zs ==> Above(z, t)
    ensures Above(KthSigma(zs, k), t)
  {
    var f := Finites(zs);
    if k < |Sort(f)| {
      SortKeeps(f, Sort(f)[k]);
      FinitesFrom(zs, Sort(f)[k]);
    }
  }

  /** The reported deviation passes the threshold, as each of the scores it is the median of does. */
  lemma {:induction false} MedianSigmaAbove(zs: seq<Sigma>, t: real)
    requires zs != [] && forall z :: z in zs ==> Above(z, t)
    ensures Above(MedianSigma(zs), t)
  {
    hide KthSigma;
    var n := |zs|;
    KthSigmaAbove(zs, n / 2, t);
    if n % 2 == 0 {
      KthSigmaAbove(zs, n / 2 - 1, t);
    }
  }

  lemma {:induction false} MedianPositive(s: seq<real>)
    requires forall x :: x in s ==> x >= 0.0
    ensures Median(s) >= 0.0
  {
    if s != [] {
      CountNone(s, 0.0, true);
      MedianByCount(s, 0.0, true);
    }
  }

  lemma {:induction false} FlagScores(cfg: Config, blocks: seq<Block>, floor: real, r: Rank)
    ensures forall z :: z in ZScores(Flags(cfg, blocks, floor, r)) ==> Above(z, cfg.thresholdSigma)
    ensures cfg.thresholdSigma >= 0.0 ==> forall x :: x in Lags(Flags(cfg, blocks, floor, r)) ==> x >= 0.0
  {
    hide Flags, ZScores, Lags, Ops, Excess, StdErr, Spread, ZScore, Judged;
    var fl := Flags(cfg, blocks, floor, r);
    forall i | 0 <= i < |fl|
      ensures Above(ZScores(fl)[i], cfg.thresholdSigma) && (cfg.thresholdSigma >= 0.0 ==> Lags(fl)[i] >= 0.0)
    {
      ScoresAt(fl, i);
      FlagsContent(cfg, blocks, floor, r, i);
      if cfg.thresholdSigma >= 0.0 {
        FlaggedExcess(cfg, blocks[fl[i].block], floor, r);
      }
    }
  }

  /** n flags in block order span at least n blocks. */
  lemma {:induction false} SpanBound(fl: seq<Flag>, n: nat)
    requires Ordered(fl, n) && fl != []
    ensures |fl| <= Span(fl) <= n
  {
    SpanStep(fl, n, |fl| - 1);
  }

  lemma {:induction false} SpanStep(fl: seq<Flag>, n: nat, i: nat)
    requires Ordered(fl, n) && i < |fl|
    ensures fl[0].block + i <= fl[i].block
  {
    if i > 0 {
      SpanStep(fl, n, i - 1);
    }
  }

  lemma {:induction false} BlockEnds(gs: seq<GInfo>, bs: nat, first: nat, last: nat)
    requires bs >= 2 && InOrder(gs) && first <= last < |Blocks(gs, bs)|
    ensures first * bs < (last + 1) * bs <= |gs|
    ensures Blocks(gs, bs)[first][0] == gs[first * bs]
    ensures Blocks(gs, bs)[last][bs - 1] == gs[(last + 1) * bs - 1]
    ensures gs[first * bs].ts <= gs[(last + 1) * bs - 1].ts
  {
    hide Blocks, InOrder;
    BlockAt(gs, bs, first);
    BlockAt(gs, bs, last);
    MulLess(first, last + 1, bs);
    StepBack(first, bs);
    StepBack(last, bs);
    EarlierIndex(gs, first * bs, (last + 1) * bs - 1);
  }

  lemma {:induction false} EarlierIndex(gs: seq<GInfo>, i: nat, j: nat)
    requires InOrder(gs) && i <= j < |gs|
    ensures gs[i].ts <= gs[j].ts
  {
  }

  lemma {:induction false} StepBack(last: nat, bs: nat)
    ensures (last + 1) * bs == last * bs + bs
  {
  }

  lemma {:induction false} MulLess(a: int, b: int, d: nat)
    requires a < b && d > 0
    ensures a * d < b * d
    decreases b - a
  {
    if a + 1 < b {
      MulLess(a, b - 1, d);
    }
    assert b * d == (b - 1) * d + d;
  }

  lemma {:induction false} MulAtMost(a: int, b: int, d: nat)
    requires a <= b
    ensures a * d <= b * d
  {
    assert (b - a) * d >= 0;
  }

  lemma {:induction false} FractionScales(n: nat, span: int, frac: real, bs: nat)
    requires span > 0 && n as real / span as real >= frac
    ensures (n * bs) as real >= frac * (span * bs) as real
  {
    var s, d := span as real, bs as real;
    var q := n as real / s;
    assert q * s == n as real;
    MulMonotone(frac, q, s);
    MulMonotone(frac * s, n as real, d);
    assert frac * s * d == frac * (s * d);
    assert (span * bs) as real == s * d;
    assert (n * bs) as real == n as real * d;
  }

  /** The collectives counted, the persistence rule, the times and the strength of the evidence agree:
      n is the number of collectives in the window. */
  ghost predicate Consistent(cfg: Config, n: nat, a: Anomaly)
    requires cfg.blockSize >= 2
  {
    && Counts(cfg, n, a.hits, a.groups)
    && a.startNs <= a.endNs == a.detectedAt
    && Above(a.sigma, cfg.thresholdSigma)
    && (cfg.thresholdSigma >= 0.0 ==> a.lagNs >= 0)
  }

  ghost predicate Counts(cfg: Config, n: nat, hits: int, groups: int)
    requires cfg.blockSize >= 2
  {
    var bs := cfg.blockSize;
    && cfg.minHits * bs <= hits <= groups <= n
    && 0 < hits && hits % bs == 0 && groups % bs == 0
    && hits as real >= cfg.minHitFraction * groups as real
  }

  /** A rank is reported at most once, reports come by descending sigma, and each is consistent. */
  lemma {:induction false} ReportWellFormed(cfg: Config, gs: seq<GInfo>, floor: real, out: seq<Anomaly>, i: nat)
    requires IsReport(cfg, gs, floor, out) && InOrder(gs) && i < |out|
    ensures cfg.blockSize >= 2 && Consistent(cfg, |gs|, out[i])
    ensures forall j :: 0 <= j < |out| && j != i ==> out[j].rank != out[i].rank
    ensures forall j, t :: i <= j < |out| && Above(out[j].sigma, t) ==> Above(out[i].sigma, t)
  {
    hide *;
    OneReport(cfg, gs, floor, out, i);
    AnomalyWellFormed(cfg, gs, floor, out[i].rank);
    forall j, t | i <= j < |out| && Above(out[j].sigma, t) ensures Above(out[i].sigma, t) {
      AboveOrder(out[i].sigma, out[j].sigma, t);
    }
  }

  lemma {:induction false} AboveOrder(a: Sigma, b: Sigma, t: real)
    requires NotBelow(a, b) && Above(b, t)
    ensures Above(a, t)
  {
  }

  lemma {:induction false} OneReport(cfg: Config, gs: seq<GInfo>, floor: real, out: seq<Anomaly>, i: nat)
    requires IsReport(cfg, gs, floor, out) && i < |out|
    ensures cfg.blockSize >= 2
    ensures Reported(cfg, Blocks(gs, cfg.blockSize), floor, out[i].rank)
    ensures out[i] == AnomalyOf(cfg, Blocks(gs, cfg.blockSize), floor, out[i].rank)
    ensures forall j :: 0 <= j < |out| && j != i ==> out[j].rank != out[i].rank
    ensures forall j :: i <= j < |out| ==> NotBelow(out[i].sigma, out[j].sigma)
  {
    hide Flags, Blocks, Reported, AnomalyOf;
  }

  lemma {:induction false} AnomalyWellFormed(cfg: Config, gs: seq<GInfo>, floor: real, r: Rank)
    requires cfg.blockSize >= 2 && InOrder(gs) && Reported(cfg, Blocks(gs, cfg.blockSize), floor, r)
    ensures Consistent(cfg, |gs|, AnomalyOf(cfg, Blocks(gs, cfg.blockSize), floor, r))
  {
    hide Flags, Blocks, InOrder, RootLike, MakeAnomaly, Consistent, Counts, Span;
    var blocks := Blocks(gs, cfg.blockSize);
    var fl := Flags(cfg, blocks, floor, r);
    SpanBound(fl, |blocks|);
    Counting(cfg, gs, fl);
    FlagBlocks(cfg, gs, floor, r);
    ReportedStrength(cfg, blocks, floor, r);
    Assemble(cfg, |gs|, blocks, r, fl);
  }

  lemma {:induction false} Assemble(cfg: Config, n: nat, blocks: seq<Block>, r: Rank, fl: seq<Flag>)
    requires cfg.blockSize >= 2 && forall blk :: blk in blocks ==> |blk| == cfg.blockSize
    requires fl != [] && Ordered(fl, |blocks|)
    requires Counts(cfg, n, |fl| * cfg.blockSize, Span(fl) * cfg.blockSize)
    requires blocks[fl[0].block][0].ts <= blocks[fl[|fl| - 1].block][cfg.blockSize - 1].ts
    requires Above(MedianSigma(ZScores(fl)), cfg.thresholdSigma)
    requires cfg.thresholdSigma >= 0.0 ==> Trunc(Median(Lags(fl))) >= 0
    ensures Consistent(cfg, n, MakeAnomaly(blocks, r, fl))
  {
    hide Counts, Span, Mode, MedianSigma, Median, ZScores, Lags, Ops, Trunc, Above;
  }

  lemma {:induction false} ReportedStrength(cfg: Config, blocks: seq<Block>, floor: real, r: Rank)
    requires Flags(cfg, blocks, floor, r) != []
    ensures Above(MedianSigma(ZScores(Flags(cfg, blocks, floor, r))), cfg.thresholdSigma)
    ensures cfg.thresholdSigma >= 0.0 ==> Trunc(Median(Lags(Flags(cfg, blocks, floor, r)))) >= 0
  {
    hide Flags, ZScores, Lags, MedianSigma, Median, Above;
    FlagScores(cfg, blocks, floor, r);
    MedianSigmaAbove(ZScores(Flags(cfg, blocks, floor, r)), cfg.thresholdSigma);
    if cfg.thresholdSigma >= 0.0 {
      MedianPositive(Lags(Flags(cfg, blocks, floor, r)));
    }
  }

  lemma {:induction false} FlagBlocks(cfg: Config, gs: seq<GInfo>, floor: real, r: Rank)
    requires cfg.blockSize >= 2 && InOrder(gs)
    requires var fl := Flags(cfg, Blocks(gs, cfg.blockSize), floor, r); fl != []
    ensures var blocks := Blocks(gs, cfg.blockSize); var fl := Flags(cfg, blocks, floor, r);
            && |blocks[fl[0].block]| == |blocks[fl[|fl| - 1].block]| == cfg.blockSize
            && blocks[fl[0].block][0].ts <= blocks[fl[|fl| - 1].block][cfg.blockSize - 1].ts
  {
    hide Flags, Blocks, InOrder;
    var blocks := Blocks(gs, cfg.blockSize);
    var fl := Flags(cfg, blocks, floor, r);
    BlockEnds(gs, cfg.blockSize, fl[0].block, fl[|fl| - 1].block);
  }

  lemma {:induction false} Counting(cfg: Config, gs: seq<GInfo>, fl: seq<Flag>)
    requires cfg.blockSize >= 2 && Persistent(cfg, fl) && |fl| <= Span(fl) <= |Blocks(gs, cfg.blockSize)|
    ensures Counts(cfg, |gs|, |fl| * cfg.blockSize, Span(fl) * cfg.blockSize)
  {
    hide Span, Blocks;
    var bs := cfg.blockSize;
    var span := Span(fl);
    hide Counts;
    BlockCount(gs, bs);
    DivFloor(|gs|, bs);
    FractionScales(|fl|, span, cfg.minHitFraction, bs);
    CountsArithmetic(cfg, |gs|, |fl|, span, |gs| / bs);
  }

  lemma {:induction false} CountsArithmetic(cfg: Config, n: nat, flags: nat, span: nat, blocks: nat)
    requires cfg.blockSize >= 2 && cfg.minHits <= flags <= span <= blocks && flags > 0
    requires blocks * cfg.blockSize <= n
    requires (flags * cfg.blockSize) as real >= cfg.minHitFraction * (span * cfg.blockSize) as real
    ensures Counts(cfg, n, flags * cfg.blockSize, span * cfg.blockSize)
  {
    var bs := cfg.blockSize;
    MulAtMost(cfg.minHits, flags, bs);
    MulAtMost(flags, span, bs);
    MulAtMost(span, blocks, bs);
    MulLess(0, flags, bs);
    Multiple(flags, bs);
    Multiple(span, bs);
  }

  lemma {:induction false} Multiple(n: int, d: nat)
    requires d > 0 && n >= 0
    ensures n * d % d == 0
  {
    DivUnique(n * d, d, n, 0);
    assert n * d == n * d / d * d + n * d % d;
  }

  lemma {:induction false} DivFloor(n: nat, d: nat)
    requires d > 0
    ensures n / d * d <= n
  {
  }
}
