/** The loops of DetectAnomalies over blocks, ranks and flags. */
module Judge {
  import opened Events
  import opened Stats
  import opened Bags
  import opened Detection
  import opened Scores
  import opened Statistics
  import opened ModeKeys

  // ---------------------------------------------------------------- columns of a block

  ghost function ColumnsOf(blk: Block): (m: map<Rank, seq<real>>)
    ensures m.Keys == RanksOf(blk)
  {
    map r | r in RanksOf(blk) :: Column(blk, r)
  }

  function Get<T>(m: map<Rank, seq<T>>, r: Rank): seq<T> {
    if r in m then m[r] else []
  }

  /** next is perRank with the lags of the ranks in `done` appended. */
  ghost predicate Appended(perRank: map<Rank, seq<real>>, lags: map<Rank, real>, done: set<Rank>, next: map<Rank, seq<real>>) {
    && done <= lags.Keys && next.Keys == perRank.Keys + done
    && forall r :: r in next ==> next[r] == Get(perRank, r) + if r in done then [lags[r]] else []
  }

  lemma {:induction false} AppendedStep(perRank: map<Rank, seq<real>>, lags: map<Rank, real>, done: set<Rank>,
                                        next: map<Rank, seq<real>>, r: Rank)
    requires Appended(perRank, lags, done, next) && r in lags && r !in done
    ensures Appended(perRank, lags, done + {r}, next[r := Get(next, r) + [lags[r]]])
  {
    assert Get(next, r) == Get(perRank, r);
  }

  /** for r, l := range g.lags { perRank[r] = append(perRank[r], l) } */
  method AppendLags(perRank: map<Rank, seq<real>>, lags: map<Rank, real>) returns (next: map<Rank, seq<real>>)
    ensures Appended(perRank, lags, lags.Keys, next)
  {
    hide *;
    next := perRank;
    var remaining := lags.Keys;
    NothingAppended(perRank, lags);
    while remaining != {}
      invariant remaining <= lags.Keys
      invariant Appended(perRank, lags, lags.Keys - remaining, next)
      decreases |remaining|
    {
      var r :| r in remaining;
      AppendedStep(perRank, lags, lags.Keys - remaining, next, r);
      Visited(lags.Keys, remaining, r);
      next := next[r := Get(next, r) + [lags[r]]];
      remaining := remaining - {r};
    }
    AllVisited(lags.Keys);
  }

  /** Bookkeeping of a loop over a set in any order. */
  lemma {:induction false} Visited<T>(all: set<T>, remaining: set<T>, x: T)
    requires remaining <= all && x in remaining
    ensures all - remaining + {x} == all - (remaining - {x})
  {
  }

  lemma {:induction false} AllVisited<T>(all: set<T>)
    ensures all - {} == all
  {
  }

  lemma {:induction false} NothingAppended(perRank: map<Rank, seq<real>>, lags: map<Rank, real>)
    ensures Appended(perRank, lags, lags.Keys - lags.Keys, perRank)
  {
  }

  lemma {:induction false} AbsentColumn(blk: Block, r: Rank)
    requires r !in RanksOf(blk)
    ensures Column(blk, r) == []
  {
    if Column(blk, r) != [] {
      ColumnMember(blk, r, Column(blk, r)[0]);
    }
  }

  lemma {:induction false} ColumnStep(blk: Block, n: nat, r: Rank)
    requires n < |blk|
    ensures Column(blk[..n + 1], r) == Column(blk[..n], r) + if r in blk[n].lags then [blk[n].lags[r]] else []
    ensures r in RanksOf(blk[..n + 1]) <==> r in RanksOf(blk[..n]) || r in blk[n].lags
  {
    assert blk[..n + 1][..n] == blk[..n];
    assert blk[..n + 1][n] == blk[n];
    RanksStep(blk, n, r);
  }

  lemma {:induction false} RanksStep(blk: Block, n: nat, r: Rank)
    requires n < |blk|
    ensures r in RanksOf(blk[..n + 1]) <==> r in RanksOf(blk[..n]) || r in blk[n].lags
  {
    if r in RanksOf(blk[..n]) {
      var i :| 0 <= i < n && r in blk[..n][i].lags;
      assert blk[..n + 1][i] == blk[..n][i];
    }
    if r in blk[n].lags {
      assert blk[..n + 1][n] == blk[n];
    }
    if r in RanksOf(blk[..n + 1]) {
      var i :| 0 <= i < n + 1 && r in blk[..n + 1][i].lags;
      if i < n {
        assert blk[..n + 1][i] == blk[..n][i];
      }
    }
  }

  method BlockColumns(blk: Block) returns (perRank: map<Rank, seq<real>>)
    ensures perRank == ColumnsOf(blk)
  {
    hide Column, RanksOf;
    perRank := map[];
    EmptyColumns();
    for n := 0 to |blk|
      invariant perRank == ColumnsOf(blk[..n])
    {
      var next := AppendLags(perRank, blk[n].lags);
      assert Appended(perRank, blk[n].lags, blk[n].lags.Keys, next);
      forall r ensures r in next <==> r in RanksOf(blk[..n + 1]) {
        ColumnStep(blk, n, r);
      }
      forall r | r in next ensures next[r] == Column(blk[..n + 1], r) {
        ColumnStep(blk, n, r);
        if r !in perRank {
          AbsentColumn(blk[..n], r);
        }
      }
      perRank := next;
      assert perRank == ColumnsOf(blk[..n + 1]);
    }
    assert blk[..|blk|] == blk;
  }

  lemma {:induction false} EmptyColumns()
    ensures ColumnsOf([]) == map[]
  {
  }

  // ---------------------------------------------------------------- medians of a block

  ghost function MediansOf(blk: Block): (m: map<Rank, real>)
    ensures m.Keys == Eligible(blk)
  {
    map r | r in Eligible(blk) :: MedianLag(blk, r)
  }

  /** med[r], for the ranks present in at least half of the block. */
  method BlockMedians(blk: Block, perRank: map<Rank, seq<real>>) returns (med: map<Rank, real>)
    requires perRank == ColumnsOf(blk)
    ensures med == MediansOf(blk)
  {
    hide Column, Median, RanksOf;
    med := map[];
    var remaining := perRank.Keys;
    while remaining != {}
      invariant remaining <= perRank.Keys
      invariant forall r :: r in med <==> r in perRank && r !in remaining && |perRank[r]| >= |blk| / 2
      invariant forall r :: r in med ==> med[r] == Median(perRank[r])
      decreases |remaining|
    {
      var r :| r in remaining;
      remaining := remaining - {r};
      if |perRank[r]| >= |blk| / 2 {
        var st := ComputeStats(perRank[r]);
        med := med[r := st.median];
      }
    }
    forall r ensures r in med <==> r in Eligible(blk) {
    }
  }

  // ---------------------------------------------------------------- one rank against the others

  lemma {:induction false} MedianBagsExtend(blk: Block, ranks: set<Rank>, p: Rank)
    requires p !in ranks
    ensures Pool(MedianBags(blk, ranks + {p})) == Pool(MedianBags(blk, ranks)) + multiset{MedianLag(blk, p)}
  {
    hide MedianLag, Pool;
    PoolInsert(MedianBags(blk, ranks), p, multiset{MedianLag(blk, p)});
    assert MedianBags(blk, ranks + {p}) == MedianBags(blk, ranks)[p := multiset{MedianLag(blk, p)}];
  }

  lemma {:induction false} ColumnBagsExtend(blk: Block, ranks: set<Rank>, p: Rank)
    requires p !in ranks
    ensures Pool(ColumnBags(blk, ranks + {p})) == Pool(ColumnBags(blk, ranks)) + multiset(Column(blk, p))
  {
    hide Column, Pool;
    PoolInsert(ColumnBags(blk, ranks), p, multiset(Column(blk, p)));
    assert ColumnBags(blk, ranks + {p}) == ColumnBags(blk, ranks)[p := multiset(Column(blk, p))];
  }

  lemma {:induction false} NoPeers(blk: Block)
    ensures Pool(MedianBags(blk, {})) == multiset{} && Pool(ColumnBags(blk, {})) == multiset{}
  {
    assert MedianBags(blk, {}) == map[] && ColumnBags(blk, {}) == map[];
  }

  lemma {:induction false} ColumnsAt(blk: Block, p: Rank)
    requires p in Eligible(blk)
    ensures p in ColumnsOf(blk) && ColumnsOf(blk)[p] == Column(blk, p)
    ensures MediansOf(blk)[p] == MedianLag(blk, p)
  {
    hide Column, MedianLag, RanksOf;
  }

  ghost predicate Gathered(blk: Block, seen: set<Rank>, others: seq<real>, pooled: seq<real>) {
    && multiset(others) == Pool(MedianBags(blk, seen))
    && multiset(pooled) == Pool(ColumnBags(blk, seen))
    && (others == [] <==> seen == {})
  }

  lemma {:induction false} GatherStep(blk: Block, seen: set<Rank>, others: seq<real>, pooled: seq<real>, p: Rank)
    requires Gathered(blk, seen, others, pooled) && p !in seen
    ensures Gathered(blk, seen + {p}, others + [MedianLag(blk, p)], pooled + Column(blk, p))
  {
    hide Pool, MedianBags, ColumnBags, MedianLag, Column;
    MedianBagsExtend(blk, seen, p);
    ColumnBagsExtend(blk, seen, p);
  }

  lemma {:induction false} GatheredAll(blk: Block, r: Rank, others: seq<real>, pooled: seq<real>)
    requires Gathered(blk, Peers(blk, r), others, pooled)
    ensures multiset(others) == PeerMedians(blk, r) && multiset(pooled) == PeerLags(blk, r)
    ensures others == [] <==> Peers(blk, r) == {}
  {
    hide Peers, Pool, MedianBags, ColumnBags;
  }

  lemma {:induction false} GatheredNone(blk: Block)
    ensures Gathered(blk, {}, [], [])
  {
    hide Pool, MedianBags, ColumnBags;
    NoPeers(blk);
  }

  /** others and pooled: what the other ranks of med contribute. */
  method GatherPeers(blk: Block, perRank: map<Rank, seq<real>>, med: map<Rank, real>, r: Rank)
    returns (others: seq<real>, pooled: seq<real>)
    requires perRank == ColumnsOf(blk) && med == MediansOf(blk)
    ensures multiset(others) == PeerMedians(blk, r) && multiset(pooled) == PeerLags(blk, r)
    ensures others == [] <==> Peers(blk, r) == {}
  {
    hide *;
    others, pooled := [], [];
    var remaining := med.Keys;
    GatheredNone(blk);
    NoneVisited(med.Keys, r);
    while remaining != {}
      invariant remaining <= med.Keys
      invariant Gathered(blk, med.Keys - remaining - {r}, others, pooled)
      decreases |remaining|
    {
      var p :| p in remaining;
      VisitedPeer(med.Keys, remaining, p, r);
      if p != r {
        ColumnsAt(blk, p);
        GatherStep(blk, med.Keys - remaining - {r}, others, pooled, p);
        others, pooled := others + [med[p]], pooled + perRank[p];
      }
      remaining := remaining - {p};
    }
    AllVisited(med.Keys);
    PeersAre(blk, r);
    GatheredAll(blk, r, others, pooled);
  }

  lemma {:induction false} NoneVisited(all: set<Rank>, r: Rank)
    ensures all - all - {r} == {}
  {
  }

  lemma {:induction false} VisitedPeer(all: set<Rank>, remaining: set<Rank>, p: Rank, r: Rank)
    requires remaining <= all && p in remaining
    ensures p !in all - remaining - {r}
    ensures all - (remaining - {p}) - {r} == all - remaining - {r} + if p == r then {} else {p}
  {
  }

  lemma {:induction false} PeersAre(blk: Block, r: Rank)
    ensures Peers(blk, r) == Eligible(blk) - {r}
  {
  }

  /** The z score of rank r, when it is judged, and its excess lag. */
  method JudgeRank(cfg: Config, blk: Block, floor: real, perRank: map<Rank, seq<real>>, med: map<Rank, real>, r: Rank)
    returns (z: Option<Sigma>, excess: real)
    requires |blk| >= 2 && perRank == ColumnsOf(blk) && med == MediansOf(blk) && r in med
    ensures z == Score(cfg, blk, floor, r)
    ensures z.Some? ==> excess == Excess(blk, r)
  {
    hide ColumnsOf, MediansOf, Score, Excess, PeerMedians, PeerLags, Eligible, Column, Median, Mad, BagMedian, BagMad, Peers,
         ZScore, StdErr, MedianLag, Max, RootLike;
    ColumnsAt(blk, r);
    EligibleColumn(blk, r);
    var others, pooled := GatherPeers(blk, perRank, med, r);
    if others == [] {
      NoScore(cfg, blk, floor, r);
      z, excess := None, 0.0;
      return;
    }
    var base := ComputeStats(others);
    var noise := ComputeStats(pooled);
    BagStatistics(others);
    BagStatistics(pooled);
    var sigma := Max(noise.mad * MAD_TO_SIGMA, floor);
    excess := med[r] - base.median;
    z := ZScore(excess, StdErr(cfg.root, sigma, |perRank[r]|));
    ScoreIs(cfg, blk, floor, r);
  }

  lemma {:induction false} NoScore(cfg: Config, blk: Block, floor: real, r: Rank)
    requires Peers(blk, r) == {}
    ensures Score(cfg, blk, floor, r) == None
  {
    hide Excess, StdErr, Spread, ZScore, Peers;
  }

  lemma {:induction false} ScoreIs(cfg: Config, blk: Block, floor: real, r: Rank)
    requires |blk| >= 2 && r in Eligible(blk) && Peers(blk, r) != {}
    ensures Excess(blk, r) == MedianLag(blk, r) - BagMedian(PeerMedians(blk, r))
    ensures Column(blk, r) != []
    ensures Score(cfg, blk, floor, r) ==
      ZScore(Excess(blk, r), StdErr(cfg.root, Max(BagMad(PeerLags(blk, r)) * MAD_TO_SIGMA, floor), |Column(blk, r)|))
  {
    hide StdErr, ZScore, Eligible, Peers, BagMad, BagMedian, MedianLag, PeerMedians, PeerLags, RootLike, Column;
    EligibleColumn(blk, r);
  }

  // ---------------------------------------------------------------- flags

  ghost predicate NoEmptyLists(flags: map<Rank, seq<Flag>>) {
    forall r :: r in flags ==> flags[r] != []
  }

  /** One block's flags are added to those of the earlier blocks. */
  ghost predicate BlockJudged(cfg: Config, blk: Block, b: nat, floor: real, flags: map<Rank, seq<Flag>>, next: map<Rank, seq<Flag>>,
                              r: Rank) {
    Get(next, r) == Get(flags, r) + if Flagged(cfg, blk, floor, r) then [FlagOf(cfg, blk, b, floor, r)] else []
  }

  /** Flags rank r for the block when its z score passes the threshold. */
  method AddFlag(cfg: Config, blk: Block, b: nat, floor: real, perRank: map<Rank, seq<real>>, med: map<Rank, real>, r: Rank,
                 flags: map<Rank, seq<Flag>>) returns (next: map<Rank, seq<Flag>>)
    requires |blk| >= 2 && perRank == ColumnsOf(blk) && med == MediansOf(blk) && r in med && NoEmptyLists(flags)
    ensures NoEmptyLists(next)
    ensures BlockJudged(cfg, blk, b, floor, flags, next, r)
    ensures forall q :: q != r ==> Get(next, q) == Get(flags, q)
  {
    hide Score, Excess, ColumnsOf, MediansOf, Eligible, RootLike;
    next := flags;
    var z, excess := JudgeRank(cfg, blk, floor, perRank, med, r);
    if z.Some? && Above(z.value, cfg.thresholdSigma) {
      next := next[r := Get(next, r) + [Flag(b, z.value, excess, blk[|blk| / 2].op)]];
    }
  }

  lemma {:induction false} JudgedSame(cfg: Config, blk: Block, b: nat, floor: real, flags: map<Rank, seq<Flag>>,
                                      mid: map<Rank, seq<Flag>>, next: map<Rank, seq<Flag>>, r: Rank)
    requires Get(mid, r) == Get(next, r) && BlockJudged(cfg, blk, b, floor, flags, mid, r)
    ensures BlockJudged(cfg, blk, b, floor, flags, next, r)
  {
    hide Flagged, FlagOf, Get;
  }

  lemma {:induction false} JudgedFrom(cfg: Config, blk: Block, b: nat, floor: real, flags: map<Rank, seq<Flag>>,
                                      mid: map<Rank, seq<Flag>>, next: map<Rank, seq<Flag>>, r: Rank)
    requires Get(mid, r) == Get(flags, r) && BlockJudged(cfg, blk, b, floor, mid, next, r)
    ensures BlockJudged(cfg, blk, b, floor, flags, next, r)
  {
    hide Flagged, FlagOf, Get;
  }

  method JudgeBlock(cfg: Config, blk: Block, b: nat, floor: real, flags: map<Rank, seq<Flag>>)
    returns (next: map<Rank, seq<Flag>>)
    requires |blk| >= 2 && NoEmptyLists(flags)
    ensures NoEmptyLists(next)
    ensures forall r :: BlockJudged(cfg, blk, b, floor, flags, next, r)
  {
    hide Flagged, FlagOf, ColumnsOf, MediansOf, Eligible, BlockJudged, NoEmptyLists, Get, RootLike;
    var perRank := BlockColumns(blk);
    var med := BlockMedians(blk, perRank);
    next := flags;
    var remaining := med.Keys;
    while remaining != {}
      invariant remaining <= med.Keys
      invariant NoEmptyLists(next)
      invariant forall r :: r in med && r !in remaining ==> BlockJudged(cfg, blk, b, floor, flags, next, r)
      invariant forall r :: r !in med || r in remaining ==> Get(next, r) == Get(flags, r)
      decreases |remaining|
    {
      var r :| r in remaining;
      var mid := next;
      next := AddFlag(cfg, blk, b, floor, perRank, med, r, mid);
      JudgedFrom(cfg, blk, b, floor, flags, mid, next, r);
      forall q | q in med && q !in remaining ensures BlockJudged(cfg, blk, b, floor, flags, next, q) {
        JudgedSame(cfg, blk, b, floor, flags, mid, next, q);
      }
      remaining := remaining - {r};
    }
    forall r ensures BlockJudged(cfg, blk, b, floor, flags, next, r) {
      if r !in med {
        Unjudged(cfg, blk, floor, r);
        NoFlagAdded(cfg, blk, b, floor, flags, next, r);
      }
    }
  }

  lemma {:induction false} NoFlagAdded(cfg: Config, blk: Block, b: nat, floor: real, flags: map<Rank, seq<Flag>>,
                                       next: map<Rank, seq<Flag>>, r: Rank)
    requires !Flagged(cfg, blk, floor, r) && Get(next, r) == Get(flags, r)
    ensures BlockJudged(cfg, blk, b, floor, flags, next, r)
  {
    hide Flagged, Get;
  }

  lemma {:induction false} Unjudged(cfg: Config, blk: Block, floor: real, r: Rank)
    requires r !in Eligible(blk)
    ensures !Flagged(cfg, blk, floor, r)
  {
    hide Eligible;
    if Flagged(cfg, blk, floor, r) {
      FlaggedJudged(cfg, blk, floor, r);
    }
  }

  /** flags[r] is the list of r's flags, for every rank. */
  ghost predicate AllFlags(cfg: Config, blocks: seq<Block>, floor: real, flags: map<Rank, seq<Flag>>) {
    NoEmptyLists(flags) && forall r :: Get(flags, r) == Flags(cfg, blocks, floor, r)
  }

  lemma {:induction false} AllFlagsStep(cfg: Config, blocks: seq<Block>, n: nat, floor: real,
                                        flags: map<Rank, seq<Flag>>, next: map<Rank, seq<Flag>>)
    requires n < |blocks| && AllFlags(cfg, blocks[..n], floor, flags) && NoEmptyLists(next)
    requires forall r :: BlockJudged(cfg, blocks[n], n, floor, flags, next, r)
    ensures AllFlags(cfg, blocks[..n + 1], floor, next)
  {
    hide Flags, Flagged, FlagOf;
    forall r ensures Get(next, r) == Flags(cfg, blocks[..n + 1], floor, r) {
      assert BlockJudged(cfg, blocks[n], n, floor, flags, next, r);
      assert blocks[..n + 1][..n] == blocks[..n];
      FlagsStep(cfg, blocks[..n + 1], floor, r);
    }
  }

  /** The loop over the blocks gs[b*bs : (b+1)*bs]. */
  method CollectFlags(cfg: Config, gs: seq<GInfo>, floor: real) returns (flags: map<Rank, seq<Flag>>)
    requires cfg.blockSize >= 2
    ensures AllFlags(cfg, Blocks(gs, cfg.blockSize), floor, flags)
  {
    hide Blocks, AllFlags, NoEmptyLists, BlockJudged, RootLike;
    var bs := cfg.blockSize;
    var nBlocks := |gs| / bs;
    BlockCount(gs, bs);
    ghost var blocks := Blocks(gs, bs);
    flags := map[];
    NoFlagsYet(cfg, blocks, floor);
    for b := 0 to nBlocks
      invariant NoEmptyLists(flags) && AllFlags(cfg, blocks[..b], floor, flags)
    {
      BlockAt(gs, bs, b);
      var blk := gs[b * bs..(b + 1) * bs];
      var next := JudgeBlock(cfg, blk, b, floor, flags);
      AllFlagsStep(cfg, blocks, b, floor, flags, next);
      flags := next;
    }
    assert blocks[..nBlocks] == blocks;
  }

  lemma {:induction false} NoFlagsYet(cfg: Config, blocks: seq<Block>, floor: real)
    ensures NoEmptyLists(map[]) && AllFlags(cfg, blocks[..0], floor, map[])
  {
  }

  // ---------------------------------------------------------------- the report

  method LagsOfFlags(fl: seq<Flag>) returns (lags: seq<real>, zs: seq<Sigma>, ops: seq<string>)
    ensures lags == Lags(fl) && zs == ZScores(fl) && ops == Ops(fl)
  {
    lags, zs, ops := [], [], [];
    for i := 0 to |fl|
      invariant lags == Lags(fl[..i]) && zs == ZScores(fl[..i]) && ops == Ops(fl[..i])
    {
      assert fl[..i + 1][..i] == fl[..i];
      lags, zs, ops := lags + [fl[i].lag], zs + [fl[i].z], ops + [fl[i].op];
    }
    assert fl[..|fl|] == fl;
  }

  /** The anomaly of one persistent rank, its times read off gs. */
  method ReportRank(cfg: Config, gs: seq<GInfo>, r: Rank, fl: seq<Flag>) returns (a: Anomaly)
    requires cfg.blockSize >= 2 && fl != [] && Ordered(fl, |Blocks(gs, cfg.blockSize)|)
    ensures a == MakeAnomaly(Blocks(gs, cfg.blockSize), r, fl)
  {
    hide Blocks, Lags, ZScores, Ops, Mode, Median, MedianSigma, Trunc, RootLike;
    var bs := cfg.blockSize;
    var first, last := fl[0].block, fl[|fl| - 1].block;
    BlockAt(gs, bs, first);
    BlockAt(gs, bs, last);
    BlockWidth(first, bs);
    BlockWidth(last, bs);
    var lags, zs, ops := LagsOfFlags(fl);
    var lag := ComputeStats(lags);
    var op := Commonest(ops);
    var endTs := gs[(last + 1) * bs - 1].ts;
    a := Anomaly(endTs, r, op, Trunc(lag.median), MedianSigma(zs), |fl| * bs, (last - first + 1) * bs, gs[first * bs].ts, endTs);
  }

  lemma {:induction false} BlockWidth(b: nat, bs: nat)
    ensures (b + 1) * bs == b * bs + bs
  {
  }

  ghost predicate Collected(cfg: Config, blocks: seq<Block>, floor: real, seen: set<Rank>, out: seq<Anomaly>)
    requires forall blk :: blk in blocks ==> |blk| >= 2
  {
    && (forall i :: 0 <= i < |out| ==> Reported(cfg, blocks, floor, out[i].rank) && out[i].rank in seen)
    && (forall i :: 0 <= i < |out| ==> out[i] == AnomalyOf(cfg, blocks, floor, out[i].rank))
    && (forall r :: r in seen && Reported(cfg, blocks, floor, r) ==> exists i :: 0 <= i < |out| && out[i].rank == r)
    && (forall i, j :: 0 <= i < j < |out| ==> out[i].rank != out[j].rank)
  }

  lemma {:induction false} CollectMore(cfg: Config, blocks: seq<Block>, floor: real, seen: set<Rank>, out: seq<Anomaly>,
                                       r: Rank, more: seq<Anomaly>)
    requires forall blk :: blk in blocks ==> |blk| >= 2
    requires Collected(cfg, blocks, floor, seen, out) && r !in seen
    requires if Reported(cfg, blocks, floor, r) then more == [AnomalyOf(cfg, blocks, floor, r)] && more[0].rank == r else more == []
    ensures Collected(cfg, blocks, floor, seen + {r}, out + more)
  {
    hide Reported, AnomalyOf;
    var next := out + more;
    forall q | q in seen + {r} && Reported(cfg, blocks, floor, q) ensures exists i :: 0 <= i < |next| && next[i].rank == q {
      if q == r {
        assert next[|out|].rank == q;
      } else {
        var i :| 0 <= i < |out| && out[i].rank == q;
        assert next[i].rank == q;
      }
    }
  }

  /** The loop over flags: the persistence rule and one anomaly per rank that passes it. */
  method CollectReports(cfg: Config, gs: seq<GInfo>, floor: real, flags: map<Rank, seq<Flag>>) returns (out: seq<Anomaly>)
    requires cfg.blockSize >= 2 && AllFlags(cfg, Blocks(gs, cfg.blockSize), floor, flags)
    ensures Collected(cfg, Blocks(gs, cfg.blockSize), floor, flags.Keys, out)
  {
    hide Blocks, Flags, MakeAnomaly, Collected, Persistent, RootLike;
    ghost var blocks := Blocks(gs, cfg.blockSize);
    out := [];
    var remaining := flags.Keys;
    NoneCollected(cfg, blocks, floor);
    assert flags.Keys - remaining == {};
    while remaining != {}
      invariant remaining <= flags.Keys
      invariant Collected(cfg, blocks, floor, flags.Keys - remaining, out)
      decreases |remaining|
    {
      var r :| r in remaining;
      var fl := flags[r];
      assert fl == Get(flags, r) == Flags(cfg, blocks, floor, r);
      ghost var seen := flags.Keys - remaining;
      remaining := remaining - {r};
      var more := [];
      if Persistent(cfg, fl) {
        var a := ReportRank(cfg, gs, r, fl);
        AnomalyRank(blocks, r, fl);
        more := [a];
      }
      CollectMore(cfg, blocks, floor, seen, out, r, more);
      assert seen + {r} == flags.Keys - remaining;
      out := out + more;
    }
    assert flags.Keys - remaining == flags.Keys;
  }

  lemma {:induction false} NoneCollected(cfg: Config, blocks: seq<Block>, floor: real)
    requires forall blk :: blk in blocks ==> |blk| >= 2
    ensures Collected(cfg, blocks, floor, {}, [])
  {
  }

  lemma {:induction false} AnomalyRank(blocks: seq<Block>, r: Rank, fl: seq<Flag>)
    requires forall blk :: blk in blocks ==> |blk| >= 2
    requires fl != [] && Ordered(fl, |blocks|)
    ensures MakeAnomaly(blocks, r, fl).rank == r
  {
  }

  // ---------------------------------------------------------------- sorting the report

  predicate Descending(out: seq<Anomaly>) {
    forall i, j :: 0 <= i < j < |out| ==> NotBelow(out[i].sigma, out[j].sigma)
  }

  /** sort.Slice by descending sigma. */
  method SortReports(out: seq<Anomaly>) returns (sorted: seq<Anomaly>)
    ensures Descending(sorted) && multiset(sorted) == multiset(out)
  {
    sorted := [];
    for n := 0 to |out|
      invariant Descending(sorted) && multiset(sorted) == multiset(out[..n])
    {
      hide Descending, NotBelow;
      var i := Place(sorted, out[n]);
      InsertDescending(sorted, i, out[n]);
      PlacedBag(out, n, sorted, i);
      sorted := sorted[..i] + [out[n]] + sorted[i..];
    }
    assert out[..|out|] == out;
  }

  lemma {:induction false} PlacedBag(out: seq<Anomaly>, n: nat, sorted: seq<Anomaly>, i: nat)
    requires n < |out| && i <= |sorted| && multiset(sorted) == multiset(out[..n])
    ensures multiset(sorted[..i] + [out[n]] + sorted[i..]) == multiset(out[..n + 1])
  {
    assert out[..n + 1] == out[..n] + [out[n]];
    assert sorted == sorted[..i] + sorted[i..];
  }

  method Place(s: seq<Anomaly>, a: Anomaly) returns (i: nat)
    ensures i <= |s| && (i > 0 ==> NotBelow(s[i - 1].sigma, a.sigma))
    ensures forall j :: i <= j < |s| ==> NotBelow(a.sigma, s[j].sigma)
  {
    i := |s|;
    while i > 0 && !NotBelow(s[i - 1].sigma, a.sigma)
      invariant i <= |s|
      invariant forall j :: i <= j < |s| ==> NotBelow(a.sigma, s[j].sigma)
    {
      i := i - 1;
    }
  }

  lemma {:induction false} InsertDescending(s: seq<Anomaly>, i: nat, a: Anomaly)
    requires Descending(s) && i <= |s|
    requires i > 0 ==> NotBelow(s[i - 1].sigma, a.sigma)
    requires forall j :: i <= j < |s| ==> NotBelow(a.sigma, s[j].sigma)
    ensures Descending(s[..i] + [a] + s[i..])
  {
    var t := s[..i] + [a] + s[i..];
    assert forall j :: 0 <= j < i ==> t[j] == s[j];
    assert t[i] == a;
    assert forall j :: i < j < |t| ==> t[j] == s[j - 1];
    assert forall j :: 0 <= j < i - 1 ==> NotBelow(s[j].sigma, s[i - 1].sigma);
  }
}
