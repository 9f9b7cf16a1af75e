/** What DetectAnomalies computes from the time-ordered list of scored collectives: blocks, per-rank
    block medians, the comparison with the other ranks, and the persistence rule. */
module Detection {
  import opened Events
  import opened Stats
  import opened Bags

  const SE_FACTOR := 1.2533

  /** gInfo: one scored collective. */
  datatype GInfo = GInfo(ts: int, seqId: nat, op: string, lags: map<Rank, real>)

  type Block = seq<GInfo>

  // ---------------------------------------------------------------- z scores

  /** A z score. The quotient is +Inf when the standard error is zero and the excess is positive. */
  datatype Sigma = Finite(v: real) | Infinite

  predicate Above(z: Sigma, t: real) {
    z.Infinite? || z.v > t
  }

  predicate NotBelow(a: Sigma, b: Sigma) {
    a.Infinite? || (b.Finite? && a.v >= b.v)
  }

  /** (m - base) / se; None for NaN (0/0) and -Inf, which exceed no threshold. */
  function ZScore(excess: real, se: real): Option<Sigma> {
    if se == 0.0 then (if excess > 0.0 then Some(Infinite) else None)
    else Some(Finite(excess / se))
  }

  function Finites(zs: seq<Sigma>): (s: seq<real>)
    ensures |s| <= |zs|
  {
    if zs == [] then []
    else
      var rest := Finites(zs[..|zs| - 1]);
      var z := zs[|zs| - 1];
      if z.Finite? then rest + [z.v] else rest
  }

  /** The k-th smallest: +Inf sorts after every finite score. */
  function KthSigma(zs: seq<Sigma>, k: nat): Sigma {
    var f := Sort(Finites(zs));
    if k < |f| then Finite(f[k]) else Infinite
  }

  function MedianSigma(zs: seq<Sigma>): Sigma {
    var n := |zs|;
    if n == 0 then Finite(0.0)
    else if n % 2 == 1 then KthSigma(zs, n / 2)
    else
      var a, b := KthSigma(zs, n / 2 - 1), KthSigma(zs, n / 2);
      if a.Finite? && b.Finite? then Finite((a.v + b.v) / 2.0) else Infinite
  }

  // ---------------------------------------------------------------- one block

  /** perRank[r]: the lags of rank r in block order. */
  function Column(blk: Block, r: Rank): (c: seq<real>)
    ensures |c| <= |blk|
  {
    if blk == [] then []
    else
      var c := Column(blk[..|blk| - 1], r);
      var g := blk[|blk| - 1];
      if r in g.lags then c + [g.lags[r]] else c
  }

  function RanksOf(blk: Block): set<Rank> {
    set i, r | 0 <= i < |blk| && r in blk[i].lags :: r
  }

  /** The ranks with a median: those present in at least half of the block. */
  function Eligible(blk: Block): set<Rank> {
    set r | r in RanksOf(blk) && |Column(blk, r)| >= |blk| / 2
  }

  function Peers(blk: Block, r: Rank): set<Rank> {
    Eligible(blk) - {r}
  }

  function MedianLag(blk: Block, r: Rank): real {
    Median(Column(blk, r))
  }

  ghost function MedianBags(blk: Block, ranks: set<Rank>): (m: map<Rank, multiset<real>>)
    ensures m.Keys == ranks
  {
    map p | p in ranks :: multiset{MedianLag(blk, p)}
  }

  ghost function ColumnBags(blk: Block, ranks: set<Rank>): (m: map<Rank, multiset<real>>)
    ensures m.Keys == ranks
  {
    map p | p in ranks :: multiset(Column(blk, p))
  }

  /** others: the median lags of the ranks r is compared with. */
  ghost function PeerMedians(blk: Block, r: Rank): multiset<real> {
    Pool(MedianBags(blk, Peers(blk, r)))
  }

  /** pooled: all lags of those ranks. */
  ghost function PeerLags(blk: Block, r: Rank): multiset<real> {
    Pool(ColumnBags(blk, Peers(blk, r)))
  }

  function Max(a: real, b: real): real {
    if a < b then b else a
  }

  ghost function Excess(blk: Block, r: Rank): real {
    MedianLag(blk, r) - BagMedian(PeerMedians(blk, r))
  }

  ghost function Spread(blk: Block, r: Rank, floor: real): real {
    Max(BagMad(PeerLags(blk, r)) * MAD_TO_SIGMA, floor)
  }

  function StdErr(root: Root, sigma: real, n: nat): real
    requires n > 0
  {
    SE_FACTOR * sigma / root(n)
  }

  datatype Flag = Flag(block: nat, z: Sigma, lag: real, op: string)

  ghost predicate Judged(blk: Block, r: Rank) {
    r in Eligible(blk) && Peers(blk, r) != {}
  }

  lemma {:induction false} ColumnNonEmpty(blk: Block, r: Rank)
    requires |blk| >= 2 && r in Eligible(blk)
    ensures Column(blk, r) != []
  {
  }

  ghost function Score(cfg: Config, blk: Block, floor: real, r: Rank): Option<Sigma> {
    if |blk| >= 2 && Judged(blk, r) then
      ColumnNonEmpty(blk, r);
      ZScore(Excess(blk, r), StdErr(cfg.root, Spread(blk, r, floor), |Column(blk, r)|))
    else None
  }

  ghost predicate Flagged(cfg: Config, blk: Block, floor: real, r: Rank) {
    var z := Score(cfg, blk, floor, r);
    z.Some? && Above(z.value, cfg.thresholdSigma)
  }

  // ---------------------------------------------------------------- blocks

  /** Consecutive blocks of bs collectives; a trailing partial block is ignored. */
  function Blocks(gs: seq<GInfo>, bs: nat): (blocks: seq<Block>)
    requires bs > 0
    ensures forall blk :: blk in blocks ==> |blk| == bs
  {
    if |gs| < bs then [] else [gs[..bs]] + Blocks(gs[bs..], bs)
  }

  lemma {:induction false} BlockCount(gs: seq<GInfo>, bs: nat)
    requires bs > 0
    ensures |Blocks(gs, bs)| == |gs| / bs
  {
    if |gs| >= bs {
      BlockCount(gs[bs..], bs);
      DivStep(|gs|, bs);
    } else {
      DivSmall(|gs|, bs);
    }
  }

  lemma {:induction false} DivSmall(n: nat, d: nat)
    requires n < d
    ensures n / d == 0
  {
  }

  lemma {:induction false} DivStep(n: nat, d: nat)
    requires 0 < d <= n
    ensures n / d == (n - d) / d + 1
  {
    var q, r := (n - d) / d, (n - d) % d;
    assert n == (q + 1) * d + r;
    DivUnique(n, d, q + 1, r);
  }

  lemma {:induction false} DivUnique(n: nat, d: nat, q: int, r: nat)
    requires r < d && n == q * d + r
    ensures n / d == q
  {
    var k := n / d - q;
    assert n == n / d * d + n % d;
    assert k * d == r - n % d;
    MulSign(k, d);
  }

  lemma {:induction false} MulSign(k: int, d: nat)
    ensures k >= 1 ==> k * d >= d
    ensures k <= -1 ==> k * d + d <= 0
  {
    if k >= 1 {
      assert (k - 1) * d >= 0;
    } else if k <= -1 {
      assert (-1 - k) * d >= 0;
    }
  }

  lemma {:induction false} BlockAt(gs: seq<GInfo>, bs: nat, b: nat)
    requires bs > 0 && b < |Blocks(gs, bs)|
    ensures 0 <= b * bs <= (b + 1) * bs <= |gs|
    ensures Blocks(gs, bs)[b] == gs[b * bs..(b + 1) * bs]
  {
    if b > 0 {
      BlockAt(gs[bs..], bs, b - 1);
      assert b * bs == (b - 1) * bs + bs;
    }
  }

  // ---------------------------------------------------------------- flags and persistence

  /** One flag per block at most, in block order, all among the first n blocks. */
  predicate Ordered(fl: seq<Flag>, n: nat) {
    && (forall i :: 0 <= i < |fl| ==> fl[i].block < n)
    && (forall i, j :: 0 <= i < j < |fl| ==> fl[i].block < fl[j].block)
  }

  lemma {:induction false} OrderedExtend(fl: seq<Flag>, n: nat, f: Flag)
    requires Ordered(fl, n) && f.block == n
    ensures Ordered(fl, n + 1) && Ordered(fl + [f], n + 1)
  {
  }

  lemma {:induction false} OrderedWeaken(fl: seq<Flag>, n: nat)
    requires Ordered(fl, n)
    ensures Ordered(fl, n + 1)
  {
  }

  ghost function FlagOf(cfg: Config, blk: Block, b: nat, floor: real, r: Rank): (f: Flag)
    requires Flagged(cfg, blk, floor, r)
    ensures f.block == b
  {
    Flag(b, Score(cfg, blk, floor, r).value, Excess(blk, r), blk[|blk| / 2].op)
  }

  /** The flags of rank r, block by block. */
  ghost function Flags(cfg: Config, blocks: seq<Block>, floor: real, r: Rank): (fl: seq<Flag>)
    ensures |fl| <= |blocks| && Ordered(fl, |blocks|)
  {
    if blocks == [] then []
    else
      var n := |blocks| - 1;
      var fl := Flags(cfg, blocks[..n], floor, r);
      if Flagged(cfg, blocks[n], floor, r) then
        OrderedExtend(fl, n, FlagOf(cfg, blocks[n], n, floor, r));
        fl + [FlagOf(cfg, blocks[n], n, floor, r)]
      else
        OrderedWeaken(fl, n);
        fl
  }

  datatype Anomaly = Anomaly(
    detectedAt: int,
    rank: Rank,
    op: string,
    lagNs: int,
    sigma: Sigma,
    hits: int,
    groups: int,
    startNs: int,
    endNs: int)

  /** int64(x): truncation toward zero. */
  function Trunc(x: real): int {
    if x >= 0.0 then x.Floor else -((-x).Floor)
  }

  function Lags(fl: seq<Flag>): (s: seq<real>)
    ensures |s| == |fl|
  {
    if fl == [] then [] else Lags(fl[..|fl| - 1]) + [fl[|fl| - 1].lag]
  }

  function ZScores(fl: seq<Flag>): (s: seq<Sigma>)
    ensures |s| == |fl|
  {
    if fl == [] then [] else ZScores(fl[..|fl| - 1]) + [fl[|fl| - 1].z]
  }

  function Ops(fl: seq<Flag>): (s: seq<string>)
    ensures |s| == |fl|
  {
    if fl == [] then [] else Ops(fl[..|fl| - 1]) + [fl[|fl| - 1].op]
  }

  // ---------------------------------------------------------------- the commonest op

  /** Go's order on strings. */
  predicate StringLess(a: string, b: string) {
    if b == [] then false
    else if a == [] then true
    else a[0] < b[0] || (a[0] == b[0] && StringLess(a[1..], b[1..]))
  }

  /** Of two counted keys, the one modeKey keeps. */
  predicate Beats(ops: multiset<string>, a: string, b: string) {
    ops[a] > ops[b] || (ops[a] == ops[b] && StringLess(a, b))
  }

  /** The most frequent of the ops seen, the smallest on a tie; "" when there is none. */
  function Mode(ops: seq<string>, n: nat): string
    requires n <= |ops|
  {
    if n == 0 then ""
    else if n == 1 then ops[0]
    else
      var best := Mode(ops, n - 1);
      if Beats(multiset(ops), ops[n - 1], best) then ops[n - 1] else best
  }

  function Span(fl: seq<Flag>): int
    requires fl != []
  {
    fl[|fl| - 1].block - fl[0].block + 1
  }

  predicate Persistent(cfg: Config, fl: seq<Flag>)
  {
    fl != [] && |fl| >= cfg.minHits && Span(fl) > 0 && |fl| as real / Span(fl) as real >= cfg.minHitFraction
  }

  /** The report on rank r, given its flags. */
  function MakeAnomaly(blocks: seq<Block>, r: Rank, fl: seq<Flag>): Anomaly
    requires forall blk :: blk in blocks ==> |blk| >= 2
    requires fl != [] && Ordered(fl, |blocks|)
  {
    var first, last := fl[0].block, fl[|fl| - 1].block;
    var bs := |blocks[first]|;
    var endTs := blocks[last][|blocks[last]| - 1].ts;
    Anomaly(endTs, r, Mode(Ops(fl), |fl|), Trunc(Median(Lags(fl))), MedianSigma(ZScores(fl)),
            |fl| * bs, Span(fl) * bs, blocks[first][0].ts, endTs)
  }

  ghost predicate Reported(cfg: Config, blocks: seq<Block>, floor: real, r: Rank) {
    Persistent(cfg, Flags(cfg, blocks, floor, r))
  }

  ghost function AnomalyOf(cfg: Config, blocks: seq<Block>, floor: real, r: Rank): Anomaly
    requires forall blk :: blk in blocks ==> |blk| >= 2
    requires Reported(cfg, blocks, floor, r)
  {
    MakeAnomaly(blocks, r, Flags(cfg, blocks, floor, r))
  }

  /** The slice DetectAnomalies returns: one anomaly for each reported rank, by descending sigma. */
  ghost predicate IsReport(cfg: Config, gs: seq<GInfo>, floor: real, out: seq<Anomaly>) {
    if cfg.blockSize < 2 then out == []
    else
      var blocks := Blocks(gs, cfg.blockSize);
      && (forall i :: 0 <= i < |out| ==> Reported(cfg, blocks, floor, out[i].rank))
      && (forall i :: 0 <= i < |out| ==> out[i] == AnomalyOf(cfg, blocks, floor, out[i].rank))
      && (forall r :: Reported(cfg, blocks, floor, r) ==> exists i :: 0 <= i < |out| && out[i].rank == r)
      && (forall i, j :: 0 <= i < j < |out| ==> out[i].rank != out[j].rank && NotBelow(out[i].sigma, out[j].sigma))
  }
}
