/** A persistent straggler under bounded jitter is reported, alone, and located to about a block. */
module Exact {
  import opened Events
  import opened Stats
  import opened Bags
  import opened Detection
  import opened Grouping
  import opened Scores
  import opened Noise
  import opened WellFormed

  // ---------------------------------------------------------------- one block

  /** No lag is negative, and of the ranks recorded all but s lag by at most w. Anyone may be missing. */
  ghost predicate PeersQuiet(blk: Block, s: Rank, w: real) {
    forall g, p :: g in blk && p in g.lags ==> g.lags[p] >= 0.0 && (p != s ==> g.lags[p] <= w)
  }

  /** s and some peer have a record of half of the block, s of at least m collectives. */
  ghost predicate Recorded(blk: Block, s: Rank, m: nat) {
    && Present(blk, s) >= m && Present(blk, s) >= |blk| / 2
    && exists p :: p != s && Present(blk, p) >= |blk| / 2
  }

  lemma {:induction false} QuietPeerColumn(blk: Block, s: Rank, p: Rank, w: real)
    requires PeersQuiet(blk, s, w)
    ensures forall x :: x in Column(blk, p) ==> 0.0 <= x && (p != s ==> x <= w)
  {
    hide Column;
    forall x | x in Column(blk, p) ensures 0.0 <= x && (p != s ==> x <= w) {
      ColumnMember(blk, p, x);
      var i :| 0 <= i < |blk| && p in blk[i].lags && blk[i].lags[p] == x;
      assert blk[i] in blk;
    }
  }

  lemma {:induction false} QuietPeerMedian(blk: Block, s: Rank, p: Rank, w: real)
    requires |blk| >= 2 && PeersQuiet(blk, s, w) && p in Eligible(blk)
    ensures MedianLag(blk, p) >= 0.0 && (p != s ==> MedianLag(blk, p) <= w)
  {
    EligibleColumn(blk, p);
    hide PeersQuiet, Column, Median, Eligible;
    QuietPeerColumn(blk, s, p, w);
    MedianPositive(Column(blk, p));
    if p != s {
      MedianInRange(Column(blk, p), 0.0, w);
    }
  }

  /** A rank that is not the straggler is not flagged, whatever the straggler does. */
  lemma {:induction false} PeerNotFlagged(cfg: Config, blk: Block, floor: real, s: Rank, p: Rank, w: real)
    requires |blk| == cfg.blockSize >= 2 && PeersQuiet(blk, s, w) && p != s
    requires w >= 0.0 && cfg.thresholdSigma >= 0.0 && UnderFloor(cfg, w, floor)
    ensures !Flagged(cfg, blk, floor, p)
  {
    hide UnderFloor, PeersQuiet, MedianLag, Eligible, PeerMedians, Flagged, Peers;
    if Flagged(cfg, blk, floor, p) {
      FlaggedJudged(cfg, blk, floor, p);
      PeerExcess(blk, s, p, w);
      SmallExcess(cfg, blk, floor, p, w);
    }
  }

  lemma {:induction false} PeerExcess(blk: Block, s: Rank, p: Rank, w: real)
    requires |blk| >= 2 && PeersQuiet(blk, s, w) && p in Eligible(blk) && p != s && Peers(blk, p) != {}
    ensures Excess(blk, p) <= w
  {
    hide PeersQuiet, MedianLag, Eligible, PeerMedians;
    QuietPeerMedian(blk, s, p, w);
    var top := Max(w, MedianLag(blk, s));
    forall q | q in Peers(blk, p) ensures 0.0 <= MedianLag(blk, q) <= top {
      QuietPeerMedian(blk, s, q, w);
    }
    PeerMediansRange(blk, p, 0.0, top);
  }

  /** The lag d of a straggler that no jitter of up to w among its peers can mask, when m of its lags are
      recorded in a block. */
  ghost predicate Decisive(cfg: Config, d: real, w: real, floor: real, m: nat) {
    m > 0 && (d - w) * cfg.root(m) > cfg.thresholdSigma * (SE_FACTOR * Max(w * MAD_TO_SIGMA, floor))
  }

  lemma {:induction false} DecisiveBound(t: real, se: real, q: real, s: real, m: real, x: real)
    requires t >= 0.0 && q > 0.0 && se * q == SE_FACTOR * s && s <= m && x * q > t * (SE_FACTOR * m)
    ensures x > t * se
  {
    MulMonotone(SE_FACTOR * s, SE_FACTOR * m, t);
    assert t * (SE_FACTOR * s) == (SE_FACTOR * s) * t;
    assert t * (SE_FACTOR * m) == (SE_FACTOR * m) * t;
    assert t * (se * q) == q * (t * se);
    assert x * q == q * x;
    MulOrder(x, t * se, q);
  }

  /** What decides with m lags decides with more. */
  lemma {:induction false} DecisiveMore(cfg: Config, d: real, w: real, floor: real, m: nat, n: nat)
    requires Decisive(cfg, d, w, floor, m) && m <= n && w >= 0.0 && cfg.thresholdSigma >= 0.0
    ensures d > w && Decisive(cfg, d, w, floor, n)
  {
    var x, bound := d - w, SE_FACTOR * Max(w * MAD_TO_SIGMA, floor);
    ProductNonNegative(cfg.thresholdSigma, bound);
    RootMonotone(cfg.root, m, n);
    hide Max;
    MoreRoot(x, cfg.root(m), cfg.root(n), cfg.thresholdSigma * bound);
  }

  lemma {:induction false} RootMonotone(root: Root, m: nat, n: nat)
    requires 0 < m <= n
    ensures 0.0 < root(m) <= root(n)
  {
  }

  lemma {:induction false} MoreRoot(x: real, q: real, q': real, b: real)
    requires 0.0 < q <= q' && b >= 0.0 && x * q > b
    ensures x > 0.0 && x * q' > b
  {
    if x <= 0.0 {
      MulMonotone(x, 0.0, q);
    } else {
      MulMonotone(q, q', x);
      assert x * q == q * x && x * q' == q' * x;
    }
  }

  lemma {:induction false} StragglerSpread(blk: Block, s: Rank, w: real, floor: real)
    requires PeersQuiet(blk, s, w) && w >= 0.0
    ensures Spread(blk, s, floor) <= Max(w * MAD_TO_SIGMA, floor)
  {
    hide Column, Eligible, BagMad, PeersQuiet;
    forall p, x | p in Peers(blk, s) && x in Column(blk, p) ensures 0.0 <= x <= w {
      QuietPeerColumn(blk, s, p, w);
    }
    PeerSpreadRange(blk, s, w);
  }

  lemma {:induction false} StragglerExcess(blk: Block, s: Rank, w: real, d: real)
    requires |blk| >= 2 && PeersQuiet(blk, s, w) && s in Eligible(blk) && Peers(blk, s) != {}
    requires forall g :: g in blk && s in g.lags ==> g.lags[s] >= d
    ensures Excess(blk, s) >= d - w
  {
    LaggingColumn(blk, s, d);
    hide Eligible, PeerMedians, PeersQuiet, Column, MedianLag;
    forall p | p in Peers(blk, s) ensures 0.0 <= MedianLag(blk, p) <= w {
      QuietPeerMedian(blk, s, p, w);
    }
    PeerMediansRange(blk, s, 0.0, w);
  }

  lemma {:induction false} LaggingColumn(blk: Block, s: Rank, d: real)
    requires |blk| >= 2 && s in Eligible(blk) && forall g :: g in blk && s in g.lags ==> g.lags[s] >= d
    ensures MedianLag(blk, s) >= d
  {
    EligibleColumn(blk, s);
    hide Column, Median, Eligible;
    forall x | x in Column(blk, s) ensures x >= d {
      ColumnMember(blk, s, x);
      var i :| 0 <= i < |blk| && s in blk[i].lags && blk[i].lags[s] == x;
      assert blk[i] in blk;
    }
    CountNone(Column(blk, s), d, true);
    MedianByCount(Column(blk, s), d, true);
  }

  /** Detection with members missing: in a block of quiet peers a straggler with a record of half of the
      collectives, m of them or more, that lags by a decisive d wherever it is recorded is flagged. */
  lemma {:induction false} InsideFlagged(cfg: Config, blk: Block, floor: real, s: Rank, w: real, d: real, m: nat)
    requires |blk| >= 2 && PeersQuiet(blk, s, w) && Recorded(blk, s, m)
    requires forall g :: g in blk && s in g.lags ==> g.lags[s] >= d
    requires w >= 0.0 && cfg.thresholdSigma >= 0.0 && Decisive(cfg, d, w, floor, m)
    ensures Flagged(cfg, blk, floor, s)
  {
    StragglerJudged(blk, s, m);
    hide PeersQuiet, Judged, Eligible, Peers, Decisive, Recorded, Present;
    StragglerSpread(blk, s, w, floor);
    StragglerExcess(blk, s, w, d);
    DecisiveMore(cfg, d, w, floor, m, Present(blk, s));
    DecisiveScore(cfg, blk, floor, s, w, d);
    hide *;
    FlaggedByProduct(cfg, blk, floor, s);
  }

  lemma {:induction false} StragglerJudged(blk: Block, s: Rank, m: nat)
    requires |blk| >= 2 && Recorded(blk, s, m)
    ensures s in Eligible(blk) && Judged(blk, s) && Peers(blk, s) != {} && Present(blk, s) >= m
  {
    hide Eligible, Present;
    EligibleExactly(blk, s);
    var p :| p != s && Present(blk, p) >= |blk| / 2;
    EligibleExactly(blk, p);
    assert p in Peers(blk, s);
  }

  lemma {:induction false} DecisiveScore(cfg: Config, blk: Block, floor: real, s: Rank, w: real, d: real)
    requires |blk| >= 2 && Judged(blk, s)
    requires Spread(blk, s, floor) <= Max(w * MAD_TO_SIGMA, floor) && Excess(blk, s) >= d - w
    requires cfg.thresholdSigma >= 0.0 && Decisive(cfg, d, w, floor, Present(blk, s))
    ensures Excess(blk, s) > cfg.thresholdSigma * BlockStdErr(cfg, blk, floor, s)
  {
    hide Spread, Excess, StdErr, Judged, Column, Max, Present;
    PresentColumn(blk, s);
    var n := Present(blk, s);
    RootMonotone(cfg.root, n, n);
    SpreadNonNegative(blk, s, floor);
    StdErrNonNegative(cfg.root, Spread(blk, s, floor), n);
    DecisiveBound(cfg.thresholdSigma, StdErr(cfg.root, Spread(blk, s, floor), n), cfg.root(n),
                  Spread(blk, s, floor), Max(w * MAD_TO_SIGMA, floor), d - w);
  }

  // ---------------------------------------------------------------- the window

  /** Wherever they are recorded, rank s lags by at least d on the collectives [from, to) and by at most w
      elsewhere, and its peers lag by at most w throughout. Of each whole block of bs inside the fault s and
      some peer have half, s at least m. */
  ghost predicate Straggles(gs: seq<GInfo>, bs: nat, m: nat, s: Rank, from: nat, to: nat, w: real, d: real)
    requires bs > 0
  {
    && PeersQuiet(gs, s, w) && from <= to <= |gs|
    && (forall i :: from <= i < to && s in gs[i].lags ==> gs[i].lags[s] >= d)
    && (forall i :: 0 <= i < |gs| && !(from <= i < to) && s in gs[i].lags ==> gs[i].lags[s] <= w)
    && (forall b :: 0 <= b < |Blocks(gs, bs)| && Inside(bs, b, from, to) ==> Recorded(Blocks(gs, bs)[b], s, m))
  }

  ghost predicate Assumptions(cfg: Config, floor: real, w: real, d: real, m: nat)
    requires cfg.blockSize >= 2
  {
    && w >= 0.0 && cfg.thresholdSigma >= 0.0
    && UnderFloor(cfg, w, floor) && Decisive(cfg, d, w, floor, m)
  }

  lemma {:induction false} SlicePeersQuiet(gs: seq<GInfo>, s: Rank, w: real, lo: nat, hi: nat)
    requires PeersQuiet(gs, s, w) && lo <= hi <= |gs|
    ensures PeersQuiet(gs[lo..hi], s, w)
  {
    assert forall g :: g in gs[lo..hi] ==> g in gs;
  }

  lemma {:induction false} InsideRecorded(gs: seq<GInfo>, bs: nat, m: nat, s: Rank, from: nat, to: nat, w: real, d: real, b: nat)
    requires bs > 0 && Straggles(gs, bs, m, s, from, to, w, d) && b < |Blocks(gs, bs)| && Inside(bs, b, from, to)
    ensures Recorded(Blocks(gs, bs)[b], s, m)
  {
    hide PeersQuiet, Recorded, Blocks, Inside;
  }

  /** What the position of a block says about the flags. */
  lemma {:induction false} BlockVerdict(cfg: Config, gs: seq<GInfo>, floor: real, m: nat, s: Rank, from: nat, to: nat,
                     w: real, d: real, b: nat)
    requires cfg.blockSize >= 2 && Straggles(gs, cfg.blockSize, m, s, from, to, w, d) && Assumptions(cfg, floor, w, d, m)
    requires b < |Blocks(gs, cfg.blockSize)|
    ensures Inside(cfg.blockSize, b, from, to) ==> Flagged(cfg, Blocks(gs, cfg.blockSize)[b], floor, s)
    ensures Outside(cfg.blockSize, b, from, to) ==> !Flagged(cfg, Blocks(gs, cfg.blockSize)[b], floor, s)
    ensures forall p :: p != s ==> !Flagged(cfg, Blocks(gs, cfg.blockSize)[b], floor, p)
  {
    hide Blocks, Flagged, Straggles, Assumptions, Recorded;
    BlockAt(gs, cfg.blockSize, b);
    StepBack(b, cfg.blockSize);
    if Inside(cfg.blockSize, b, from, to) {
      InsideRecorded(gs, cfg.blockSize, m, s, from, to, w, d, b);
    }
    SliceVerdict(cfg, gs, floor, m, s, from, to, w, d, b * cfg.blockSize, (b + 1) * cfg.blockSize);
  }

  lemma {:induction false} SliceVerdict(cfg: Config, gs: seq<GInfo>, floor: real, m: nat, s: Rank, from: nat, to: nat,
                     w: real, d: real, lo: nat, hi: nat)
    requires cfg.blockSize >= 2 && Straggles(gs, cfg.blockSize, m, s, from, to, w, d) && Assumptions(cfg, floor, w, d, m)
    requires lo <= hi <= |gs| && hi - lo == cfg.blockSize
    requires from <= lo && hi <= to ==> Recorded(gs[lo..hi], s, m)
    ensures from <= lo && hi <= to ==> Flagged(cfg, gs[lo..hi], floor, s)
    ensures hi <= from || to <= lo ==> !Flagged(cfg, gs[lo..hi], floor, s)
    ensures forall p :: p != s ==> !Flagged(cfg, gs[lo..hi], floor, p)
  {
    var blk := gs[lo..hi];
    hide Flagged, UnderFloor, Decisive, Quiet, RootLike, Recorded, Blocks, Inside;
    SlicePeersQuiet(gs, s, w, lo, hi);
    hide PeersQuiet;
    if from <= lo && hi <= to {
      forall g | g in blk && s in g.lags ensures g.lags[s] >= d {
        var i :| lo <= i < hi && gs[i] == g;
      }
      InsideFlagged(cfg, blk, floor, s, w, d, m);
    }
    if hi <= from || to <= lo {
      OutsideQuiet(gs, cfg.blockSize, m, s, from, to, w, d, lo, hi);
      QuietBlock(cfg, blk, floor, s, w);
    }
    forall p | p != s ensures !Flagged(cfg, blk, floor, p) {
      PeerNotFlagged(cfg, blk, floor, s, p, w);
    }
  }

  lemma {:induction false} OutsideQuiet(gs: seq<GInfo>, bs: nat, m: nat, s: Rank, from: nat, to: nat, w: real, d: real,
                                        lo: nat, hi: nat)
    requires bs > 0 && Straggles(gs, bs, m, s, from, to, w, d) && lo <= hi <= |gs|
    requires hi <= from || to <= lo
    ensures forall g :: g in gs[lo..hi] ==> Quiet(g, w)
  {
    hide Recorded, Blocks, Inside;
    forall g | g in gs[lo..hi] ensures Quiet(g, w) {
      var i :| lo <= i < hi && gs[i] == g;
      assert g in gs;
    }
  }

  ghost predicate HasFlag(fl: seq<Flag>, b: int) {
    exists j :: 0 <= j < |fl| && fl[j].block == b
  }

  /** Flags on every block from the first flagged to the last. */
  lemma {:induction false} Contiguous(fl: seq<Flag>, n: nat, i: nat)
    requires Ordered(fl, n) && i < |fl|
    requires forall b :: fl[0].block <= b <= fl[|fl| - 1].block ==> HasFlag(fl, b)
    ensures fl[i].block == fl[0].block + i
  {
    if i > 0 {
      Contiguous(fl, n, i - 1);
      var b := fl[i - 1].block + 1;
      OrderedEnds(fl, n, i);
      assert HasFlag(fl, b);
      var j :| 0 <= j < |fl| && fl[j].block == b;
      OrderedAt(fl, n, i - 1, j);
      OrderedAt(fl, n, i, j);
    }
  }

  lemma {:induction false} OrderedAt(fl: seq<Flag>, n: nat, i: nat, j: nat)
    requires Ordered(fl, n) && i < |fl| && j < |fl|
    ensures i < j ==> fl[i].block < fl[j].block
    ensures j < i ==> fl[j].block < fl[i].block
  {
  }

  ghost predicate FlaggedRange(cfg: Config, blocks: seq<Block>, floor: real, s: Rank, first: nat, last: nat) {
    && first <= last < |blocks|
    && forall b :: 0 <= b < |blocks| ==> (Flagged(cfg, blocks[b], floor, s) <==> first <= b <= last)
  }

  lemma {:induction false} OrderedEnds(fl: seq<Flag>, n: nat, i: nat)
    requires Ordered(fl, n) && i < |fl|
    ensures fl[0].block <= fl[i].block <= fl[|fl| - 1].block
  {
  }

  lemma {:induction false} RangeHasFlags(cfg: Config, blocks: seq<Block>, floor: real, s: Rank, first: nat, last: nat)
    requires FlaggedRange(cfg, blocks, floor, s, first, last)
    ensures forall b :: first <= b <= last ==> HasFlag(Flags(cfg, blocks, floor, s), b)
    ensures forall f :: f in Flags(cfg, blocks, floor, s) ==> first <= f.block <= last
  {
    hide Flags, Flagged, HasFlag, FlagOf, Ordered;
    var fl := Flags(cfg, blocks, floor, s);
    forall b | first <= b <= last ensures HasFlag(fl, b) {
      FlagExists(cfg, blocks, floor, s, b);
    }
    forall f | f in fl ensures first <= f.block <= last {
      var i :| 0 <= i < |fl| && fl[i] == f;
      FlagsContent(cfg, blocks, floor, s, i);
    }
  }

  lemma {:induction false} FlagExists(cfg: Config, blocks: seq<Block>, floor: real, s: Rank, b: nat)
    requires b < |blocks| && Flagged(cfg, blocks[b], floor, s)
    ensures HasFlag(Flags(cfg, blocks, floor, s), b)
  {
    hide Flags, Flagged;
    var i := FlagFor(cfg, blocks, floor, s, b);
  }

  /** If exactly the blocks first..last are flagged, the flags are on just those. */
  lemma {:induction false} RangeFlags(cfg: Config, blocks: seq<Block>, floor: real, s: Rank, first: nat, last: nat)
    requires FlaggedRange(cfg, blocks, floor, s, first, last)
    ensures var fl := Flags(cfg, blocks, floor, s);
            |fl| == last - first + 1 && fl[0].block == first && fl[|fl| - 1].block == last && Span(fl) == |fl|
  {
    hide Flags, FlaggedRange;
    RangeHasFlags(cfg, blocks, floor, s, first, last);
    RangeBounds(cfg, blocks, floor, s, first, last);
    FillsRange(Flags(cfg, blocks, floor, s), |blocks|, first, last);
  }

  lemma {:induction false} FillsRange(fl: seq<Flag>, n: nat, first: nat, last: nat)
    requires Ordered(fl, n) && first <= last
    requires forall b :: first <= b <= last ==> HasFlag(fl, b)
    requires forall f :: f in fl ==> first <= f.block <= last
    ensures |fl| == last - first + 1 && fl[0].block == first && fl[|fl| - 1].block == last && Span(fl) == |fl|
  {
    hide Ordered;
    assert HasFlag(fl, first) && HasFlag(fl, last);
    var a :| 0 <= a < |fl| && fl[a].block == first;
    var z :| 0 <= z < |fl| && fl[z].block == last;
    OrderedEnds(fl, n, a);
    OrderedEnds(fl, n, z);
    assert fl[0] in fl && fl[|fl| - 1] in fl;
    Contiguous(fl, n, |fl| - 1);
  }

  ghost predicate MaximalRun(cfg: Config, blocks: seq<Block>, floor: real, s: Rank, first: nat, last: nat) {
    && first <= last < |blocks|
    && (forall b :: first <= b <= last ==> Flagged(cfg, blocks[b], floor, s))
    && (first > 0 ==> !Flagged(cfg, blocks[first - 1], floor, s))
    && (last + 1 < |blocks| ==> !Flagged(cfg, blocks[last + 1], floor, s))
  }

  /** The longest run of flagged blocks around block a. */
  lemma {:induction false} Run(cfg: Config, blocks: seq<Block>, floor: real, s: Rank, a: nat) returns (first: nat, last: nat)
    requires a < |blocks| && Flagged(cfg, blocks[a], floor, s)
    ensures first <= a <= last && MaximalRun(cfg, blocks, floor, s, first, last)
  {
    hide Flagged;
    first, last := a, a;
    while first > 0 && Flagged(cfg, blocks[first - 1], floor, s)
      invariant first <= a && forall b :: first <= b <= a ==> Flagged(cfg, blocks[b], floor, s)
    {
      first := first - 1;
    }
    while last + 1 < |blocks| && Flagged(cfg, blocks[last + 1], floor, s)
      invariant a <= last < |blocks| && forall b :: a <= b <= last ==> Flagged(cfg, blocks[b], floor, s)
    {
      last := last + 1;
    }
  }

  /** Block b lies wholly inside the fault, or wholly outside it. */
  ghost predicate Inside(bs: nat, b: nat, from: nat, to: nat) {
    from <= b * bs && (b + 1) * bs <= to
  }

  ghost predicate Outside(bs: nat, b: nat, from: nat, to: nat) {
    (b + 1) * bs <= from || to <= b * bs
  }

  /** The straggler's verdicts alone. */
  lemma {:induction false} StragglerVerdict(cfg: Config, gs: seq<GInfo>, floor: real, m: nat, s: Rank, from: nat, to: nat,
                         w: real, d: real, b: nat)
    requires cfg.blockSize >= 2 && Straggles(gs, cfg.blockSize, m, s, from, to, w, d) && Assumptions(cfg, floor, w, d, m)
    requires b < |Blocks(gs, cfg.blockSize)|
    ensures Inside(cfg.blockSize, b, from, to) ==> Flagged(cfg, Blocks(gs, cfg.blockSize)[b], floor, s)
    ensures Outside(cfg.blockSize, b, from, to) ==> !Flagged(cfg, Blocks(gs, cfg.blockSize)[b], floor, s)
  {
    hide Flagged, Blocks, Straggles, Assumptions;
    BlockVerdict(cfg, gs, floor, m, s, from, to, w, d, b);
  }

  /** The flagged blocks around one inside the fault are all there are. */
  lemma {:induction false} Extent(cfg: Config, gs: seq<GInfo>, floor: real, m: nat, s: Rank, from: nat, to: nat,
               w: real, d: real, a: nat, first: nat, last: nat)
    requires cfg.blockSize >= 2 && Straggles(gs, cfg.blockSize, m, s, from, to, w, d) && Assumptions(cfg, floor, w, d, m)
    requires Inside(cfg.blockSize, a, from, to) && first <= a <= last
    requires MaximalRun(cfg, Blocks(gs, cfg.blockSize), floor, s, first, last)
    ensures FlaggedRange(cfg, Blocks(gs, cfg.blockSize), floor, s, first, last)
  {
    var blocks := Blocks(gs, cfg.blockSize);
    hide Flagged, Blocks, Straggles, Assumptions, Inside, Outside, MaximalRun, FlaggedRange;
    forall b | 0 <= b < |blocks| && !(first <= b <= last) ensures !Flagged(cfg, blocks[b], floor, s) {
      Beyond(cfg, gs, floor, m, s, from, to, w, d, a, first, last, b);
    }
    RunIsRange(cfg, blocks, floor, s, first, last);
  }

  lemma {:induction false} RunIsRange(cfg: Config, blocks: seq<Block>, floor: real, s: Rank, first: nat, last: nat)
    requires MaximalRun(cfg, blocks, floor, s, first, last)
    requires forall b :: 0 <= b < |blocks| && !(first <= b <= last) ==> !Flagged(cfg, blocks[b], floor, s)
    ensures FlaggedRange(cfg, blocks, floor, s, first, last)
  {
    hide Flagged;
  }

  lemma {:induction false} Beyond(cfg: Config, gs: seq<GInfo>, floor: real, m: nat, s: Rank, from: nat, to: nat,
               w: real, d: real, a: nat, first: nat, last: nat, b: nat)
    requires cfg.blockSize >= 2 && Straggles(gs, cfg.blockSize, m, s, from, to, w, d) && Assumptions(cfg, floor, w, d, m)
    requires Inside(cfg.blockSize, a, from, to) && first <= a <= last
    requires MaximalRun(cfg, Blocks(gs, cfg.blockSize), floor, s, first, last)
    requires b < |Blocks(gs, cfg.blockSize)| && !(first <= b <= last)
    ensures !Flagged(cfg, Blocks(gs, cfg.blockSize)[b], floor, s)
  {
    hide Flagged, Blocks, Straggles, Assumptions, Inside, Outside;
    StragglerVerdict(cfg, gs, floor, m, s, from, to, w, d, b);
    if b < first {
      StragglerVerdict(cfg, gs, floor, m, s, from, to, w, d, first - 1);
      BeforeFault(from, to, cfg.blockSize, a, first, b);
    } else {
      StragglerVerdict(cfg, gs, floor, m, s, from, to, w, d, last + 1);
      AfterFault(from, to, cfg.blockSize, a, last, b);
    }
  }

  /** The unflagged block just before the range is not inside the fault, so all earlier ones are outside. */
  lemma {:induction false} BeforeFault(from: nat, to: nat, bs: nat, a: nat, first: nat, b: nat)
    requires bs > 0 && b < first <= a && Inside(bs, a, from, to) && !Inside(bs, first - 1, from, to)
    ensures b < first - 1 ==> Outside(bs, b, from, to)
  {
    MulAtMost(first, a + 1, bs);
    if b < first - 1 {
      MulAtMost(b + 1, first - 1, bs);
    }
  }

  lemma {:induction false} AfterFault(from: nat, to: nat, bs: nat, a: nat, last: nat, b: nat)
    requires bs > 0 && a <= last < b && Inside(bs, a, from, to) && !Inside(bs, last + 1, from, to)
    ensures b > last + 1 ==> Outside(bs, b, from, to)
  {
    MulAtMost(a, last + 1, bs);
    if b > last + 1 {
      MulAtMost(last + 2, b, bs);
    }
  }

  // ---------------------------------------------------------------- the report

  /** The range starts and ends less than one block away from the fault. */
  ghost predicate Locates(bs: nat, first: nat, last: nat, from: nat, to: nat) {
    && from - bs < first * bs < from + bs
    && to - bs < (last + 1) * bs < to + bs
  }

  lemma {:induction false} LocatedStart(cfg: Config, gs: seq<GInfo>, floor: real, m: nat, s: Rank, from: nat, to: nat,
                     w: real, d: real, first: nat, last: nat)
    requires cfg.blockSize >= 2 && Straggles(gs, cfg.blockSize, m, s, from, to, w, d) && Assumptions(cfg, floor, w, d, m)
    requires MaximalRun(cfg, Blocks(gs, cfg.blockSize), floor, s, first, last)
    ensures !Outside(cfg.blockSize, first, from, to) && (first > 0 ==> !Inside(cfg.blockSize, first - 1, from, to))
  {
    hide Flagged, Blocks, Straggles, Assumptions, Inside, Outside;
    StragglerVerdict(cfg, gs, floor, m, s, from, to, w, d, first);
    if first > 0 {
      StragglerVerdict(cfg, gs, floor, m, s, from, to, w, d, first - 1);
    }
  }

  lemma {:induction false} LocatedEnd(cfg: Config, gs: seq<GInfo>, floor: real, m: nat, s: Rank, from: nat, to: nat,
                   w: real, d: real, first: nat, last: nat)
    requires cfg.blockSize >= 2 && Straggles(gs, cfg.blockSize, m, s, from, to, w, d) && Assumptions(cfg, floor, w, d, m)
    requires MaximalRun(cfg, Blocks(gs, cfg.blockSize), floor, s, first, last)
    ensures last < |Blocks(gs, cfg.blockSize)| && !Outside(cfg.blockSize, last, from, to)
    ensures last + 1 < |Blocks(gs, cfg.blockSize)| ==> !Inside(cfg.blockSize, last + 1, from, to)
  {
    hide Flagged, Blocks, Straggles, Assumptions, Inside, Outside;
    StragglerVerdict(cfg, gs, floor, m, s, from, to, w, d, last);
    if last + 1 < |Blocks(gs, cfg.blockSize)| {
      StragglerVerdict(cfg, gs, floor, m, s, from, to, w, d, last + 1);
    }
  }

  lemma {:induction false} Located(cfg: Config, gs: seq<GInfo>, floor: real, m: nat, s: Rank, from: nat, to: nat,
                w: real, d: real, a: nat, first: nat, last: nat)
    requires cfg.blockSize >= 2 && Straggles(gs, cfg.blockSize, m, s, from, to, w, d) && Assumptions(cfg, floor, w, d, m)
    requires Inside(cfg.blockSize, a, from, to) && first <= a <= last
    requires MaximalRun(cfg, Blocks(gs, cfg.blockSize), floor, s, first, last)
    ensures Locates(cfg.blockSize, first, last, from, to)
  {
    hide *;
    StragglesBounds(gs, cfg.blockSize, m, s, from, to, w, d);
    LocatedStart(cfg, gs, floor, m, s, from, to, w, d, first, last);
    LocatedEnd(cfg, gs, floor, m, s, from, to, w, d, first, last);
    RestIsPartial(gs, cfg.blockSize);
    LocatesArithmetic(from, to, |gs|, cfg.blockSize, |Blocks(gs, cfg.blockSize)|, a, first, last);
  }

  /** After n blocks less than one is left. */
  ghost predicate Partial(bs: nat, n: nat, len: nat) {
    len < n * bs + bs
  }

  lemma {:induction false} RestIsPartial(gs: seq<GInfo>, bs: nat)
    requires bs > 0
    ensures Partial(bs, |Blocks(gs, bs)|, |gs|)
  {
    hide Blocks;
    LastBlock(gs, bs);
  }

  lemma {:induction false} LocatesArithmetic(from: nat, to: nat, len: nat, bs: nat, n: nat, a: nat, first: nat, last: nat)
    requires bs > 0 && first <= a <= last < n && Inside(bs, a, from, to) && to <= len
    requires !Outside(bs, first, from, to) && !Outside(bs, last, from, to)
    requires first > 0 ==> !Inside(bs, first - 1, from, to)
    requires if last + 1 < n then !Inside(bs, last + 1, from, to) else Partial(bs, n, len)
    ensures Locates(bs, first, last, from, to)
  {
    StepBack(first, bs);
    StepBack(last, bs);
    StepBack(last + 1, bs);
    MulAtMost(first, a + 1, bs);
    MulAtMost(a, last + 1, bs);
    if first > 0 {
      StepBack(first - 1, bs);
    }
  }

  lemma {:induction false} StragglesBounds(gs: seq<GInfo>, bs: nat, m: nat, s: Rank, from: nat, to: nat, w: real, d: real)
    requires bs > 0 && Straggles(gs, bs, m, s, from, to, w, d)
    ensures from <= to <= |gs|
  {
  }

  lemma {:induction false} LastBlock(gs: seq<GInfo>, bs: nat)
    requires bs > 0
    ensures |Blocks(gs, bs)| * bs <= |gs| < |Blocks(gs, bs)| * bs + bs
  {
    if |gs| >= bs {
      LastBlock(gs[bs..], bs);
      StepBack(|Blocks(gs[bs..], bs)|, bs);
    } else {
      assert |Blocks(gs, bs)| == 0;
    }
  }

  /** What ExactDetection promises of the slice returned. */
  ghost predicate ReportsOnly(cfg: Config, gs: seq<GInfo>, out: seq<Anomaly>, s: Rank, first: nat, last: nat) {
    && |out| == 1 && out[0].rank == s && cfg.blockSize >= 2
    && out[0].hits == out[0].groups == (last - first + 1) * cfg.blockSize
    && first * cfg.blockSize < (last + 1) * cfg.blockSize <= |gs|
    && out[0].startNs == gs[first * cfg.blockSize].ts
    && out[0].endNs == gs[(last + 1) * cfg.blockSize - 1].ts
  }

  /** Exact detection, on the list of scored collectives, with any members missing. Peers and healthy phases
      jitter by at most w, which is under the floor; the fault adds a lag d that decides with the m lags
      recorded of each block and covers at least MinHits whole blocks, a to a + h - 1. Then s is reported, nobody else is, its flagged blocks are exactly first..last, and
      they begin and end less than one block away from the fault. */
  lemma {:induction false} ExactDetection(cfg: Config, gs: seq<GInfo>, floor: real, out: seq<Anomaly>, m: nat, s: Rank,
                       from: nat, to: nat, w: real, d: real, a: nat, h: nat) returns (first: nat, last: nat)
    requires IsReport(cfg, gs, floor, out) && InOrder(gs)
    requires cfg.blockSize >= 2 && Straggles(gs, cfg.blockSize, m, s, from, to, w, d) && Assumptions(cfg, floor, w, d, m)
    requires h >= 1 && h >= cfg.minHits && cfg.minHitFraction <= 1.0
    requires Inside(cfg.blockSize, a, from, to) && Inside(cfg.blockSize, a + h - 1, from, to)
    ensures ReportsOnly(cfg, gs, out, s, first, last)
    ensures FlaggedRange(cfg, Blocks(gs, cfg.blockSize), floor, s, first, last)
    ensures Locates(cfg.blockSize, first, last, from, to)
  {
    hide *;
    var blocks := Blocks(gs, cfg.blockSize);
    StragglesBounds(gs, cfg.blockSize, m, s, from, to, w, d);
    InsideExists(gs, cfg.blockSize, a, from, to);
    InsideExists(gs, cfg.blockSize, a + h - 1, from, to);
    StragglerVerdict(cfg, gs, floor, m, s, from, to, w, d, a);
    StragglerVerdict(cfg, gs, floor, m, s, from, to, w, d, a + h - 1);
    first, last := Run(cfg, blocks, floor, s, a);
    Extent(cfg, gs, floor, m, s, from, to, w, d, a, first, last);
    InFlaggedRange(cfg, blocks, floor, s, first, last, a + h - 1);
    Located(cfg, gs, floor, m, s, from, to, w, d, a, first, last);
    forall p | p != s ensures !Reported(cfg, blocks, floor, p) {
      PeerUnreported(cfg, gs, floor, m, s, from, to, w, d, p);
    }
    SoleReport(cfg, gs, floor, out, s, first, last);
  }

  lemma {:induction false} InsideExists(gs: seq<GInfo>, bs: nat, b: nat, from: nat, to: nat)
    requires bs > 0 && Inside(bs, b, from, to) && to <= |gs|
    ensures b < |Blocks(gs, bs)|
  {
    hide Blocks;
    LastBlock(gs, bs);
    if b >= |Blocks(gs, bs)| {
      MulAtMost(|Blocks(gs, bs)| + 1, b + 1, bs);
      StepBack(|Blocks(gs, bs)|, bs);
    }
  }

  lemma {:induction false} InFlaggedRange(cfg: Config, blocks: seq<Block>, floor: real, s: Rank, first: nat, last: nat, b: nat)
    requires FlaggedRange(cfg, blocks, floor, s, first, last) && b < |blocks| && Flagged(cfg, blocks[b], floor, s)
    ensures first <= b <= last
  {
    hide Flagged;
  }

  lemma {:induction false} PeerUnreported(cfg: Config, gs: seq<GInfo>, floor: real, m: nat, s: Rank, from: nat, to: nat,
                       w: real, d: real, p: Rank)
    requires cfg.blockSize >= 2 && Straggles(gs, cfg.blockSize, m, s, from, to, w, d) && Assumptions(cfg, floor, w, d, m) && p != s
    ensures !Reported(cfg, Blocks(gs, cfg.blockSize), floor, p)
  {
    var blocks := Blocks(gs, cfg.blockSize);
    hide Flagged, Blocks, Straggles, Assumptions;
    forall blk | blk in blocks ensures !Flagged(cfg, blk, floor, p) {
      var b :| 0 <= b < |blocks| && blocks[b] == blk;
      BlockVerdict(cfg, gs, floor, m, s, from, to, w, d, b);
    }
    NoFlags(cfg, blocks, floor, p);
  }

  lemma {:induction false} SoleReport(cfg: Config, gs: seq<GInfo>, floor: real, out: seq<Anomaly>, s: Rank, first: nat, last: nat)
    requires cfg.blockSize >= 2 && IsReport(cfg, gs, floor, out) && InOrder(gs)
    requires FlaggedRange(cfg, Blocks(gs, cfg.blockSize), floor, s, first, last)
    requires last - first + 1 >= cfg.minHits && cfg.minHitFraction <= 1.0
    requires forall p :: p != s ==> !Reported(cfg, Blocks(gs, cfg.blockSize), floor, p)
    ensures ReportsOnly(cfg, gs, out, s, first, last)
  {
    hide IsReport, Blocks, FlaggedRange, AnomalyOf, Reported, InOrder;
    RangeAnomaly(cfg, gs, floor, s, first, last);
    OnlyOne(cfg, gs, floor, out, s);
    RangeBounds(cfg, Blocks(gs, cfg.blockSize), floor, s, first, last);
    BlockEnds(gs, cfg.blockSize, first, last);
  }

  lemma {:induction false} RangeAnomaly(cfg: Config, gs: seq<GInfo>, floor: real, s: Rank, first: nat, last: nat)
    requires cfg.blockSize >= 2 && InOrder(gs)
    requires FlaggedRange(cfg, Blocks(gs, cfg.blockSize), floor, s, first, last)
    requires last - first + 1 >= cfg.minHits && cfg.minHitFraction <= 1.0
    ensures first <= last < |Blocks(gs, cfg.blockSize)| && Reported(cfg, Blocks(gs, cfg.blockSize), floor, s)
    ensures Covers(AnomalyOf(cfg, Blocks(gs, cfg.blockSize), floor, s), Blocks(gs, cfg.blockSize), s, cfg.blockSize, first, last)
  {
    var blocks := Blocks(gs, cfg.blockSize);
    hide FlaggedRange, Blocks, InOrder, MakeAnomaly, RootLike, Flags, Span, Covers, Persistent;
    RangeBounds(cfg, blocks, floor, s, first, last);
    RangeFlags(cfg, blocks, floor, s, first, last);
    FullSpan(cfg, Flags(cfg, blocks, floor, s));
    AnomalyFields(blocks, s, Flags(cfg, blocks, floor, s), cfg.blockSize, first, last);
  }

  lemma {:induction false} FullSpan(cfg: Config, fl: seq<Flag>)
    requires fl != [] && Span(fl) == |fl| >= cfg.minHits && cfg.minHitFraction <= 1.0
    ensures Persistent(cfg, fl)
  {
    hide Span;
    var n := |fl| as real;
    assert n / n == 1.0;
  }

  ghost predicate Covers(a: Anomaly, blocks: seq<Block>, s: Rank, bs: nat, first: nat, last: nat)
    requires bs >= 2 && first <= last < |blocks| && forall blk :: blk in blocks ==> |blk| == bs
  {
    && a.rank == s && a.hits == a.groups == (last - first + 1) * bs
    && a.startNs == blocks[first][0].ts && a.endNs == blocks[last][bs - 1].ts
  }

  lemma {:induction false} AnomalyFields(blocks: seq<Block>, s: Rank, fl: seq<Flag>, bs: nat, first: nat, last: nat)
    requires bs >= 2 && forall blk :: blk in blocks ==> |blk| == bs
    requires first <= last < |blocks| && Ordered(fl, |blocks|)
    requires |fl| == last - first + 1 && fl[0].block == first && fl[|fl| - 1].block == last && Span(fl) == |fl|
    ensures Covers(MakeAnomaly(blocks, s, fl), blocks, s, bs, first, last)
  {
    hide Mode, MedianSigma, Median, ZScores, Lags, Ops;
  }

  lemma {:induction false} RangeBounds(cfg: Config, blocks: seq<Block>, floor: real, s: Rank, first: nat, last: nat)
    requires FlaggedRange(cfg, blocks, floor, s, first, last)
    ensures first <= last < |blocks|
  {
  }

  lemma {:induction false} OnlyOne(cfg: Config, gs: seq<GInfo>, floor: real, out: seq<Anomaly>, s: Rank)
    requires cfg.blockSize >= 2 && IsReport(cfg, gs, floor, out)
    requires Reported(cfg, Blocks(gs, cfg.blockSize), floor, s)
    requires forall p :: p != s ==> !Reported(cfg, Blocks(gs, cfg.blockSize), floor, p)
    ensures |out| == 1 && out[0].rank == s && out[0] == AnomalyOf(cfg, Blocks(gs, cfg.blockSize), floor, s)
  {
    hide Blocks, Reported, AnomalyOf;
    var i :| 0 <= i < |out| && out[i].rank == s;
    forall j | 0 <= j < |out| ensures out[j].rank == s {
    }
    if |out| > 1 {
      TwoRanks(cfg, gs, floor, out);
    }
  }

  lemma {:induction false} TwoRanks(cfg: Config, gs: seq<GInfo>, floor: real, out: seq<Anomaly>)
    requires IsReport(cfg, gs, floor, out) && |out| > 1
    ensures out[0].rank != out[1].rank
  {
    hide Blocks, Reported, AnomalyOf;
  }

  // ---------------------------------------------------------------- durations

  /** In group g the peers of s agree to within w, and s, if recorded at all, finished at least d below each
      of them. */
  ghost predicate Lagging(g: Group, s: Rank, w: real, d: real) {
    && (forall p :: p in g ==> g[p].dur >= 0)
    && (s in g ==> exists p :: p in g && p != s)
    && (forall p :: p in g && p != s && s in g ==> g[s].dur as real + d <= g[p].dur as real)
    && (forall p, q :: p in g && q in g && p != s && q != s ==> (g[q].dur - g[p].dur) as real <= w)
  }

  lemma {:induction false} LaggingLags(gi: GInfo, k: GroupKey, g: Group, s: Rank, w: real, d: real)
    requires Describes(gi, k, g) && Lagging(g, s, w, d) && w >= 0.0 && d >= 0.0
    ensures s in gi.lags ==> gi.lags[s] >= d
    ensures forall p :: p in gi.lags ==> gi.lags[p] >= 0.0 && (p != s ==> gi.lags[p] <= w)
  {
    var durs := set r | r in g :: g[r].dur;
    var m := MaxFromZero(durs);
    forall p | p in g ensures 0 <= g[p].dur <= m {
      assert g[p].dur in durs;
    }
    if s in g {
      var p :| p in g && p != s;
      assert g[s].dur as real + d <= g[p].dur as real;
    }
    if m != 0 {
      var q :| q in g && g[q].dur == m;
      forall p | p in g && p != s ensures gi.lags[p] <= w {
        if q == s {
          assert g[s].dur as real + d <= g[p].dur as real;
        }
      }
    }
  }

  /** How many of the groups ks[lo..hi] rank r has a record in. */
  function PresentIn(groups: Groups, ks: seq<GroupKey>, lo: nat, hi: nat, r: Rank): nat {
    |set i: nat | lo <= i < hi && i < |ks| && ks[i] in groups && r in groups[ks[i]]|
  }

  /** The fault as it shows in the stored durations: everyone within w outside the collectives [from, to),
      s faster than everyone by d inside. Of each whole block inside, s and some peer have a record of half,
      s of at least m; any other record may be missing. */
  ghost predicate FaultIn(groups: Groups, ks: seq<GroupKey>, bs: nat, m: nat, s: Rank, from: nat, to: nat, w: real, d: real) {
    && from <= to <= |ks|
    && (forall k :: k in ks ==> k in groups)
    && (forall i :: from <= i < to ==> Lagging(groups[ks[i]], s, w, d))
    && (forall i :: 0 <= i < |ks| && !(from <= i < to) ==> Agrees(groups[ks[i]], w))
    && (forall b: nat :: Inside(bs, b, from, to) ==> RecordedIn(groups, ks, b * bs, b * bs + bs, s, m))
  }

  ghost predicate RecordedIn(groups: Groups, ks: seq<GroupKey>, lo: nat, hi: nat, s: Rank, m: nat)
    requires lo <= hi
  {
    && PresentIn(groups, ks, lo, hi, s) >= m && PresentIn(groups, ks, lo, hi, s) >= (hi - lo) / 2
    && exists p :: p != s && PresentIn(groups, ks, lo, hi, p) >= (hi - lo) / 2
  }

  /** Collective g as the assumptions have it, inside or outside the fault. */
  ghost predicate LagsAt(g: GInfo, s: Rank, faulty: bool, w: real, d: real) {
    && (forall p :: p in g.lags ==> g.lags[p] >= 0.0 && (p != s ==> g.lags[p] <= w))
    && (s in g.lags ==> if faulty then g.lags[s] >= d else g.lags[s] <= w)
  }

  lemma {:induction false} FaultStraggles(groups: Groups, keys: set<GroupKey>, ks: seq<GroupKey>, gs: seq<GInfo>, bs: nat, m: nat,
                       s: Rank, from: nat, to: nat, w: real, d: real)
    requires IsListing(groups, keys, ks, gs) && FaultIn(groups, ks, bs, m, s, from, to, w, d)
    requires w >= 0.0 && d >= 0.0 && bs > 0
    ensures Straggles(gs, bs, m, s, from, to, w, d)
  {
    FaultBasics(groups, keys, ks, gs, bs, m, s, from, to, w, d);
    hide IsListing, FaultIn, LagsAt, Straggles, Recorded, Blocks, Inside;
    forall i | 0 <= i < |gs| ensures LagsAt(gs[i], s, from <= i < to, w, d) {
      FaultAt(groups, keys, ks, gs, bs, m, s, from, to, w, d, i);
    }
    forall b | 0 <= b < |Blocks(gs, bs)| && Inside(bs, b, from, to) ensures Recorded(Blocks(gs, bs)[b], s, m) {
      FaultRecorded(groups, keys, ks, gs, bs, m, s, from, to, w, d, b);
    }
    StragglesFrom(gs, bs, m, s, from, to, w, d);
  }

  lemma {:induction false} FaultBasics(groups: Groups, keys: set<GroupKey>, ks: seq<GroupKey>, gs: seq<GInfo>, bs: nat, m: nat,
                                       s: Rank, from: nat, to: nat, w: real, d: real)
    requires IsListing(groups, keys, ks, gs) && FaultIn(groups, ks, bs, m, s, from, to, w, d)
    ensures from <= to <= |gs| == |ks|
  {
    hide InOrder, Lagging, Agrees, Describes, Distinct, RecordedIn, Inside;
  }

  lemma {:induction false} ListedAt(groups: Groups, keys: set<GroupKey>, ks: seq<GroupKey>, gs: seq<GInfo>, i: nat)
    requires IsListing(groups, keys, ks, gs) && i < |gs|
    ensures |ks| == |gs| && ks[i] in groups && Describes(gs[i], ks[i], groups[ks[i]]) && gs[i].lags.Keys == groups[ks[i]].Keys
  {
    hide InOrder, Distinct;
    assert ks[i] in ks;
  }

  /** Presence in the blocks of the list is presence in the groups. */
  lemma {:induction false} BlockPresence(groups: Groups, keys: set<GroupKey>, ks: seq<GroupKey>, gs: seq<GInfo>, lo: nat, hi: nat, r: Rank)
    requires IsListing(groups, keys, ks, gs) && lo <= hi <= |gs|
    ensures Present(gs[lo..hi], r) == PresentIn(groups, ks, lo, hi, r)
  {
    hide IsListing, Describes;
    assert |ks| == |gs| by {
      if |gs| > 0 {
        ListedAt(groups, keys, ks, gs, 0);
      } else {
        ListingLength(groups, keys, ks, gs);
      }
    }
    var a := set i: nat | i < |gs[lo..hi]| && r in gs[lo..hi][i].lags;
    var b := set i: nat | lo <= i < hi && i < |ks| && ks[i] in groups && r in groups[ks[i]];
    forall i | lo <= i < hi ensures i - lo in a <==> i in b {
      ListedAt(groups, keys, ks, gs, i);
      assert gs[lo..hi][i - lo] == gs[i];
    }
    Shifted(a, b, lo, hi);
  }

  lemma {:induction false} ListingLength(groups: Groups, keys: set<GroupKey>, ks: seq<GroupKey>, gs: seq<GInfo>)
    requires IsListing(groups, keys, ks, gs)
    ensures |ks| == |gs|
  {
  }

  lemma {:induction false} Shifted(a: set<nat>, b: set<nat>, lo: nat, hi: nat)
    requires (forall i: nat :: i in a ==> i < hi - lo) && (forall i: nat :: i in b ==> lo <= i < hi)
    requires forall i: nat :: lo <= i < hi ==> (i - lo in a <==> i in b)
    ensures |a| == |b|
    decreases |a|
  {
    if a != {} {
      var x :| x in a;
      var y := x + lo;
      assert lo <= y < hi && y - lo in a;
      Shifted(a - {x}, b - {y}, lo, hi);
    } else {
      forall y: nat ensures y !in b {
        assert lo <= y < hi ==> y - lo !in a;
      }
      assert b == {};
    }
  }

  lemma {:induction false} FaultRecorded(groups: Groups, keys: set<GroupKey>, ks: seq<GroupKey>, gs: seq<GInfo>, bs: nat, m: nat,
                                         s: Rank, from: nat, to: nat, w: real, d: real, b: nat)
    requires IsListing(groups, keys, ks, gs) && FaultIn(groups, ks, bs, m, s, from, to, w, d) && bs > 0
    requires b < |Blocks(gs, bs)| && Inside(bs, b, from, to)
    ensures Recorded(Blocks(gs, bs)[b], s, m)
  {
    hide *;
    FaultInBlock(groups, ks, bs, m, s, from, to, w, d, b);
    BlockAt(gs, bs, b);
    NextBlock(b, bs);
    SliceRecorded(groups, keys, ks, gs, b * bs, (b + 1) * bs, s, m);
  }

  lemma {:induction false} NextBlock(b: nat, bs: nat)
    ensures (b + 1) * bs == b * bs + bs && b * bs >= 0
  {
  }

  lemma {:induction false} SliceRecorded(groups: Groups, keys: set<GroupKey>, ks: seq<GroupKey>, gs: seq<GInfo>, lo: nat, hi: nat,
                                         s: Rank, m: nat)
    requires IsListing(groups, keys, ks, gs) && lo <= hi <= |gs| && RecordedIn(groups, ks, lo, hi, s, m)
    ensures Recorded(gs[lo..hi], s, m)
  {
    hide IsListing, PresentIn, Present, Recorded, RecordedIn;
    forall r ensures Present(gs[lo..hi], r) == PresentIn(groups, ks, lo, hi, r) {
      BlockPresence(groups, keys, ks, gs, lo, hi, r);
    }
    SameRecord(groups, ks, lo, hi, gs[lo..hi], s, m);
  }

  lemma {:induction false} SameRecord(groups: Groups, ks: seq<GroupKey>, lo: nat, hi: nat, blk: Block, s: Rank, m: nat)
    requires lo <= hi && |blk| == hi - lo && RecordedIn(groups, ks, lo, hi, s, m)
    requires forall r :: Present(blk, r) == PresentIn(groups, ks, lo, hi, r)
    ensures Recorded(blk, s, m)
  {
    hide Present, PresentIn;
    var p :| p != s && PresentIn(groups, ks, lo, hi, p) >= (hi - lo) / 2;
    assert Present(blk, p) >= |blk| / 2;
  }

  lemma {:induction false} FaultInBlock(groups: Groups, ks: seq<GroupKey>, bs: nat, m: nat, s: Rank, from: nat, to: nat, w: real, d: real,
                                        b: nat)
    requires FaultIn(groups, ks, bs, m, s, from, to, w, d) && Inside(bs, b, from, to)
    ensures RecordedIn(groups, ks, b * bs, b * bs + bs, s, m)
  {
    hide Inside, RecordedIn, Lagging, Agrees;
  }

  lemma {:induction false} StragglesFrom(gs: seq<GInfo>, bs: nat, m: nat, s: Rank, from: nat, to: nat, w: real, d: real)
    requires bs > 0 && from <= to <= |gs|
    requires forall i :: 0 <= i < |gs| ==> LagsAt(gs[i], s, from <= i < to, w, d)
    requires forall b :: 0 <= b < |Blocks(gs, bs)| && Inside(bs, b, from, to) ==> Recorded(Blocks(gs, bs)[b], s, m)
    ensures Straggles(gs, bs, m, s, from, to, w, d)
  {
    hide Recorded, Blocks, Inside;
    forall g, p | g in gs && p in g.lags ensures g.lags[p] >= 0.0 && (p != s ==> g.lags[p] <= w) {
      var i :| 0 <= i < |gs| && gs[i] == g;
      assert LagsAt(gs[i], s, from <= i < to, w, d);
    }
  }

  lemma {:induction false} FaultAt(groups: Groups, keys: set<GroupKey>, ks: seq<GroupKey>, gs: seq<GInfo>, bs: nat, m: nat,
                s: Rank, from: nat, to: nat, w: real, d: real, i: nat)
    requires IsListing(groups, keys, ks, gs) && FaultIn(groups, ks, bs, m, s, from, to, w, d)
    requires w >= 0.0 && d >= 0.0 && i < |gs|
    ensures LagsAt(gs[i], s, from <= i < to, w, d)
  {
    hide IsListing, Lagging, Agrees, LagsOf, Describes, RecordedIn, Inside;
    ListedAt(groups, keys, ks, gs, i);
    var k := ks[i];
    if from <= i < to {
      LaggingLags(gs[i], k, groups[k], s, w, d);
    } else {
      AgreesIsQuiet(gs[i], k, groups[k], w);
    }
  }

  /** Exact detection, on the stored durations and for whatever DetectAnomalies returns with the groups
      listed as ks. */
  lemma {:induction false} ExactDetectionOfFault(cfg: Config, groups: Groups, cutoff: int, out: seq<Anomaly>,
                              ks: seq<GroupKey>, gs: seq<GInfo>, m: nat, s: Rank,
                              from: nat, to: nat, w: real, d: real, a: nat, h: nat) returns (first: nat, last: nat)
    requires IsListing(groups, WindowKeys(cfg, groups, cutoff), ks, gs)
    requires cfg.blockSize >= 2 && IsReport(cfg, gs, JitterFloor(cfg, groups), out)
    requires FaultIn(groups, ks, cfg.blockSize, m, s, from, to, w, d) && Assumptions(cfg, JitterFloor(cfg, groups), w, d, m)
    requires h >= 1 && h >= cfg.minHits && cfg.minHitFraction <= 1.0
    requires from <= a * cfg.blockSize && (a + h) * cfg.blockSize <= to
    ensures ReportsOnly(cfg, gs, out, s, first, last)
    ensures FlaggedRange(cfg, Blocks(gs, cfg.blockSize), JitterFloor(cfg, groups), s, first, last)
    ensures from - cfg.blockSize < first * cfg.blockSize < from + cfg.blockSize
    ensures to - cfg.blockSize < (last + 1) * cfg.blockSize < to + cfg.blockSize
  {
    hide *;
    WholeBlocks(cfg.blockSize, a, h, from, to);
    DecisivePositive(cfg, JitterFloor(cfg, groups), w, d, m);
    FaultStraggles(groups, WindowKeys(cfg, groups, cutoff), ks, gs, cfg.blockSize, m, s, from, to, w, d);
    ListingOrder(groups, WindowKeys(cfg, groups, cutoff), ks, gs);
    first, last := ExactDetection(cfg, gs, JitterFloor(cfg, groups), out, m, s, from, to, w, d, a, h);
    LocatesMeans(cfg.blockSize, first, last, from, to);
  }

  lemma {:induction false} WholeBlocks(bs: nat, a: nat, h: nat, from: nat, to: nat)
    requires h >= 1 && from <= a * bs && (a + h) * bs <= to
    ensures Inside(bs, a, from, to) && Inside(bs, a + h - 1, from, to)
  {
    MulAtMost(a + 1, a + h, bs);
    MulAtMost(a, a + h - 1, bs);
  }

  lemma {:induction false} LocatesMeans(bs: nat, first: nat, last: nat, from: nat, to: nat)
    requires Locates(bs, first, last, from, to)
    ensures from - bs < first * bs < from + bs && to - bs < (last + 1) * bs < to + bs
  {
  }

  lemma {:induction false} ListingOrder(groups: Groups, keys: set<GroupKey>, ks: seq<GroupKey>, gs: seq<GInfo>)
    requires IsListing(groups, keys, ks, gs)
    ensures InOrder(gs)
  {
  }

  lemma {:induction false} DecisivePositive(cfg: Config, floor: real, w: real, d: real, m: nat)
    requires cfg.blockSize >= 2 && Assumptions(cfg, floor, w, d, m)
    ensures w >= 0.0 && d >= 0.0
  {
    hide UnderFloor, Decisive;
    DecisiveMore(cfg, d, w, floor, m, m);
  }
}
