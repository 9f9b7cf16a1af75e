/** Who is reported, and what a report says, in terms of the blocks that flag the rank. */
module Evidence {
  import opened Events
  import opened Stats
  import opened Bags
  import opened Detection
  import opened Grouping
  import opened Scores
  import opened WellFormed
  import opened ModeKeys

  // ---------------------------------------------------------------- blocks and their flags

  /** Block b: collectives b * bs up to (b + 1) * bs. */
  function Slice(gs: seq<GInfo>, bs: nat, b: nat): Block {
    if (b + 1) * bs <= |gs| && 0 <= b * bs <= (b + 1) * bs then gs[b * bs..(b + 1) * bs] else []
  }

  /** The whole blocks that flag rank r. */
  ghost function FlaggedIn(cfg: Config, gs: seq<GInfo>, floor: real, r: Rank): set<nat>
    requires cfg.blockSize >= 2
  {
    set b: nat | b < |gs| / cfg.blockSize && Flagged(cfg, Slice(gs, cfg.blockSize, b), floor, r)
  }

  lemma {:induction false} SliceIsBlock(gs: seq<GInfo>, bs: nat, b: nat)
    requires bs >= 2 && b < |gs| / bs
    ensures b < |Blocks(gs, bs)| == |gs| / bs && Blocks(gs, bs)[b] == Slice(gs, bs, b)
    ensures 0 <= b * bs < (b + 1) * bs <= |gs| && (b + 1) * bs == b * bs + bs
  {
    hide Blocks;
    BlockCount(gs, bs);
    BlockAt(gs, bs, b);
    StepBack(b, bs);
  }

  /** The blocks that carry a flag. */
  function Marked(fl: seq<Flag>): set<nat> {
    set i | 0 <= i < |fl| :: fl[i].block
  }

  lemma {:induction false} MarkedAre(cfg: Config, gs: seq<GInfo>, floor: real, r: Rank)
    requires cfg.blockSize >= 2
    ensures Marked(Flags(cfg, Blocks(gs, cfg.blockSize), floor, r)) == FlaggedIn(cfg, gs, floor, r)
  {
    hide Flags, Flagged, Blocks, FlagOf, Slice, Ordered;
    var bs := cfg.blockSize;
    var fl := Flags(cfg, Blocks(gs, bs), floor, r);
    BlockCount(gs, bs);
    forall b: nat ensures b in Marked(fl) <==> b in FlaggedIn(cfg, gs, floor, r) {
      if b < |gs| / bs {
        SliceIsBlock(gs, bs, b);
        if Flagged(cfg, Slice(gs, bs, b), floor, r) {
          var i := FlagFor(cfg, Blocks(gs, bs), floor, r, b);
        }
      }
      if b in Marked(fl) {
        var i :| 0 <= i < |fl| && fl[i].block == b;
        FlagsContent(cfg, Blocks(gs, bs), floor, r, i);
      }
    }
  }

  // ---------------------------------------------------------------- counting flags

  function Tally(fl: seq<Flag>, p: Flag -> bool): nat {
    if fl == [] then 0 else Tally(fl[..|fl| - 1], p) + if p(fl[|fl| - 1]) then 1 else 0
  }

  /** The marked blocks with property q. */
  ghost function Where(blocks: set<nat>, q: nat -> bool): set<nat> {
    set b | b in blocks && q(b)
  }

  lemma {:induction false} MarkedStep(fl: seq<Flag>, n: nat)
    requires Ordered(fl, n) && fl != []
    ensures var front, b := fl[..|fl| - 1], fl[|fl| - 1].block; Marked(fl) == Marked(front) + {b} && b !in Marked(front)
  {
    var k := |fl| - 1;
    forall b: nat ensures b in Marked(fl) <==> b in Marked(fl[..k]) || b == fl[k].block {
      if b in Marked(fl[..k]) {
        var i :| 0 <= i < k && fl[..k][i].block == b;
        assert fl[i].block == b;
      }
      if b in Marked(fl) {
        var i :| 0 <= i < |fl| && fl[i].block == b;
        if i < k {
          assert fl[..k][i].block == b;
        }
      }
    }
  }

  lemma {:induction false} OrderedFront(fl: seq<Flag>, n: nat)
    requires Ordered(fl, n) && fl != []
    ensures Ordered(fl[..|fl| - 1], n)
  {
  }

  /** A property of flags that is one of their blocks is counted on the blocks. */
  lemma {:induction false} TallyBlocks(fl: seq<Flag>, n: nat, p: Flag -> bool, q: nat -> bool)
    requires Ordered(fl, n) && forall i :: 0 <= i < |fl| ==> (p(fl[i]) <==> q(fl[i].block))
    ensures |Where(Marked(fl), q)| == Tally(fl, p)
  {
    if fl == [] {
      assert Where(Marked(fl), q) == {};
    } else {
      var k := |fl| - 1;
      var front, b := fl[..k], fl[k].block;
      MarkedStep(fl, n);
      OrderedFront(fl, n);
      forall i | 0 <= i < |front| ensures p(front[i]) <==> q(front[i].block) {
        assert front[i] == fl[i];
      }
      TallyBlocks(front, n, p, q);
      hide Marked, Ordered;
      assert p(fl[k]) <==> q(b);
      assert Where(Marked(fl), q) == if q(b) then Where(Marked(front), q) + {b} else Where(Marked(front), q);
    }
  }

  predicate AnyFlag(f: Flag) { true }

  lemma {:induction false} TallyAll(fl: seq<Flag>)
    ensures Tally(fl, AnyFlag) == |fl|
  {
    if fl != [] {
      TallyAll(fl[..|fl| - 1]);
    }
  }

  lemma {:induction false} MarkedSize(fl: seq<Flag>, n: nat)
    requires Ordered(fl, n)
    ensures |Marked(fl)| == |fl|
  {
    var q := (b: nat) => true;
    TallyBlocks(fl, n, AnyFlag, q);
    TallyAll(fl);
    hide Marked;
    assert Where(Marked(fl), q) == Marked(fl);
  }

  function LagBelow(w: real, strict: bool): Flag -> bool {
    (f: Flag) => Below(f.lag, w, strict)
  }

  function OpIs(o: string): Flag -> bool {
    (f: Flag) => f.op == o
  }

  function ScoreAbove(t: real): Flag -> bool {
    (f: Flag) => Above(f.z, t)
  }

  lemma {:induction false} TallyLags(fl: seq<Flag>, w: real, strict: bool)
    ensures Tally(fl, LagBelow(w, strict)) == Count(Lags(fl), w, strict)
  {
    if fl != [] {
      var v := Lags(fl[..|fl| - 1]);
      TallyLags(fl[..|fl| - 1], w, strict);
      assert Lags(fl)[..|v|] == v;
    }
  }

  lemma {:induction false} TallyOps(fl: seq<Flag>, o: string)
    ensures Tally(fl, OpIs(o)) == multiset(Ops(fl))[o]
  {
    if fl != [] {
      TallyOps(fl[..|fl| - 1], o);
    }
  }

  // ---------------------------------------------------------------- the median of the scores

  /** How many scores exceed t. */
  function CountAbove(zs: seq<Sigma>, t: real): (n: nat)
    ensures n <= |zs|
  {
    if zs == [] then 0 else CountAbove(zs[..|zs| - 1], t) + if Above(zs[|zs| - 1], t) then 1 else 0
  }

  lemma {:induction false} TallyScores(fl: seq<Flag>, t: real)
    ensures Tally(fl, ScoreAbove(t)) == CountAbove(ZScores(fl), t)
  {
    if fl != [] {
      var v := ZScores(fl[..|fl| - 1]);
      TallyScores(fl[..|fl| - 1], t);
      assert ZScores(fl)[..|v|] == v;
    }
  }

  lemma {:induction false} FinitesCount(zs: seq<Sigma>, t: real)
    ensures Count(Finites(zs), t, false) + CountAbove(zs, t) == |zs|
  {
    if zs != [] {
      var n := |zs| - 1;
      FinitesCount(zs[..n], t);
      var f := Finites(zs[..n]);
      if zs[n].Finite? {
        assert (f + [zs[n].v])[..|f|] == f;
      }
    }
  }

  /** The k-th smallest score exceeds t exactly when at most k do not. */
  lemma {:induction false} KthSigmaByCount(zs: seq<Sigma>, k: nat, t: real)
    requires k < |zs|
    ensures Above(KthSigma(zs, k), t) <==> |zs| - CountAbove(zs, t) <= k
  {
    FinitesCount(zs, t);
    hide CountAbove, Finites, Count;
    var f := Finites(zs);
    if k < |f| {
      KthBelow(f, k, t, false);
    }
  }

  /** Of scores, some of them infinite, the median exceeds t if more than half of them do, and only if at least
      half do. */
  lemma {:induction false} MedianSigmaByCount(zs: seq<Sigma>, t: real)
    requires zs != []
    ensures 2 * CountAbove(zs, t) > |zs| ==> Above(MedianSigma(zs), t)
    ensures Above(MedianSigma(zs), t) ==> 2 * CountAbove(zs, t) >= |zs|
  {
    hide KthSigma, CountAbove;
    var n := |zs|;
    KthSigmaByCount(zs, n / 2, t);
    if n % 2 == 0 {
      KthSigmaByCount(zs, n / 2 - 1, t);
    }
  }

  // ---------------------------------------------------------------- who is reported

  ghost predicate Bounds(blocks: set<nat>, first: nat, last: nat) {
    first in blocks && last in blocks && forall b :: b in blocks ==> first <= b <= last
  }

  lemma {:induction false} MarkedBounds(fl: seq<Flag>, n: nat, first: nat, last: nat)
    requires Ordered(fl, n) && fl != [] && Bounds(Marked(fl), first, last)
    ensures fl[0].block == first && fl[|fl| - 1].block == last
  {
    var i :| 0 <= i < |fl| && fl[i].block == first;
    var j :| 0 <= j < |fl| && fl[j].block == last;
    assert fl[0].block in Marked(fl) && fl[|fl| - 1].block in Marked(fl);
  }

  lemma {:induction false} MarkedEmpty(fl: seq<Flag>)
    ensures fl == [] <==> Marked(fl) == {}
  {
    if fl != [] {
      assert fl[0].block in Marked(fl);
    }
  }

  lemma {:induction false} Fraction(n: nat, span: nat, share: real)
    requires span > 0
    ensures n as real / span as real >= share <==> n as real >= share * span as real
  {
    var q, d := n as real / span as real, span as real;
    assert q * d == n as real;
    MulOrder(share, q, d);
  }

  /** The persistence rule on the flagged blocks. */
  lemma {:induction false} PersistentExactly(cfg: Config, fl: seq<Flag>, n: nat, first: nat, last: nat)
    requires Ordered(fl, n) && (fl != [] ==> Bounds(Marked(fl), first, last))
    ensures Persistent(cfg, fl) <==>
      fl != [] && |fl| >= cfg.minHits && |fl| as real >= cfg.minHitFraction * (last - first + 1) as real
    ensures fl != [] ==> first <= last && Span(fl) == last - first + 1
  {
    if fl != [] {
      MarkedBounds(fl, n, first, last);
      SpanBound(fl, n);
      hide Marked, Ordered;
      Fraction(|fl|, last - first + 1, cfg.minHitFraction);
    }
  }

  /** A rank is reported if and only if some block flags it, at least MinHits blocks do, and they are at least
      the MinHitFraction of those from the first to the last of them. The report then counts the collectives of
      the flagged blocks and those they span, and its times are those of the span. */
  lemma {:induction false} ReportedExactly(cfg: Config, gs: seq<GInfo>, floor: real, out: seq<Anomaly>, r: Rank, first: nat, last: nat)
    requires cfg.blockSize >= 2 && IsReport(cfg, gs, floor, out)
    requires FlaggedIn(cfg, gs, floor, r) != {} ==> Bounds(FlaggedIn(cfg, gs, floor, r), first, last)
    ensures var hits := |FlaggedIn(cfg, gs, floor, r)|;
            (exists i :: 0 <= i < |out| && out[i].rank == r) <==>
              hits > 0 && hits >= cfg.minHits && hits as real >= cfg.minHitFraction * (last - first + 1) as real
    ensures forall i :: 0 <= i < |out| && out[i].rank == r ==>
      SpansBlocks(out[i], gs, cfg.blockSize, |FlaggedIn(cfg, gs, floor, r)|, first, last)
  {
    var bs := cfg.blockSize;
    var blocks := Blocks(gs, bs);
    var fl := Flags(cfg, blocks, floor, r);
    MarkedAre(cfg, gs, floor, r);
    MarkedSize(fl, |blocks|);
    MarkedEmpty(fl);
    hide FlaggedIn, Flags, Blocks, Marked, Ordered, Bounds, Persistent, AnomalyOf, SpansBlocks, IsReport;
    ReportMembers(cfg, gs, floor, out, r);
    PersistentExactly(cfg, fl, |blocks|, first, last);
    forall i | 0 <= i < |out| && out[i].rank == r ensures SpansBlocks(out[i], gs, bs, |fl|, first, last) {
      ReportMember(cfg, gs, floor, out, i);
      ReportSpan(cfg, gs, floor, r, first, last);
    }
  }

  /** hits flagged blocks of bs, from block first to block last. */
  ghost predicate SpansBlocks(a: Anomaly, gs: seq<GInfo>, bs: nat, hits: nat, first: nat, last: nat) {
    && 0 <= first * bs < (last + 1) * bs <= |gs|
    && a.hits == hits * bs && a.groups == (last - first + 1) * bs
    && a.startNs == gs[first * bs].ts && a.endNs == a.detectedAt == gs[(last + 1) * bs - 1].ts
  }

  lemma {:induction false} ReportMembers(cfg: Config, gs: seq<GInfo>, floor: real, out: seq<Anomaly>, r: Rank)
    requires cfg.blockSize >= 2 && IsReport(cfg, gs, floor, out)
    ensures (exists i :: 0 <= i < |out| && out[i].rank == r) <==> Persistent(cfg, Flags(cfg, Blocks(gs, cfg.blockSize), floor, r))
  {
    hide Blocks, Flags, Persistent, AnomalyOf;
    var blocks := Blocks(gs, cfg.blockSize);
    assert Reported(cfg, blocks, floor, r) <==> Persistent(cfg, Flags(cfg, blocks, floor, r));
  }

  lemma {:induction false} ReportMember(cfg: Config, gs: seq<GInfo>, floor: real, out: seq<Anomaly>, i: nat)
    requires cfg.blockSize >= 2 && IsReport(cfg, gs, floor, out) && i < |out|
    ensures Reported(cfg, Blocks(gs, cfg.blockSize), floor, out[i].rank)
    ensures out[i] == AnomalyOf(cfg, Blocks(gs, cfg.blockSize), floor, out[i].rank)
  {
    hide Blocks, Reported, AnomalyOf;
  }

  lemma {:induction false} ReportSpan(cfg: Config, gs: seq<GInfo>, floor: real, r: Rank, first: nat, last: nat)
    requires cfg.blockSize >= 2 && Reported(cfg, Blocks(gs, cfg.blockSize), floor, r)
    requires Bounds(Marked(Flags(cfg, Blocks(gs, cfg.blockSize), floor, r)), first, last)
    ensures SpansBlocks(AnomalyOf(cfg, Blocks(gs, cfg.blockSize), floor, r), gs, cfg.blockSize,
                        |Flags(cfg, Blocks(gs, cfg.blockSize), floor, r)|, first, last)
  {
    hide Blocks, Flags, Lags, ZScores, Ops, Median, MedianSigma, Mode, Marked, Slice, Bounds, Ordered;
    var bs := cfg.blockSize;
    var blocks := Blocks(gs, bs);
    var fl := Flags(cfg, blocks, floor, r);
    MarkedBounds(fl, |blocks|, first, last);
    EndsOf(fl, |blocks|);
    BlockCount(gs, bs);
    SliceEnds(gs, bs, first);
    SliceEnds(gs, bs, last);
    MulAtMost(first, last, bs);
  }

  lemma {:induction false} EndsOf(fl: seq<Flag>, n: nat)
    requires Ordered(fl, n) && fl != []
    ensures fl[0].block <= fl[|fl| - 1].block < n
  {
  }

  lemma {:induction false} SliceEnds(gs: seq<GInfo>, bs: nat, b: nat)
    requires bs >= 2 && b < |gs| / bs
    ensures b < |Blocks(gs, bs)| && |Blocks(gs, bs)[b]| == bs
    ensures 0 <= b * bs < (b + 1) * bs <= |gs| && (b + 1) * bs == b * bs + bs
    ensures Blocks(gs, bs)[b][0] == gs[b * bs] && Blocks(gs, bs)[b][bs - 1] == gs[(b + 1) * bs - 1]
    ensures Blocks(gs, bs)[b][bs / 2] == gs[b * bs + bs / 2]
  {
    hide Blocks;
    SliceIsBlock(gs, bs, b);
  }

  // ---------------------------------------------------------------- what a report says

  /** Rank r lags below w in block b. */
  ghost function LagsBelow(cfg: Config, gs: seq<GInfo>, r: Rank, w: real, strict: bool): nat -> bool
    requires cfg.blockSize >= 2
  {
    (b: nat) => Below(Excess(Slice(gs, cfg.blockSize, b), r), w, strict)
  }

  /** Its score in block b exceeds t. */
  ghost function ScoresAbove(cfg: Config, gs: seq<GInfo>, floor: real, r: Rank, t: real): nat -> bool
    requires cfg.blockSize >= 2
  {
    (b: nat) => var z := Score(cfg, Slice(gs, cfg.blockSize, b), floor, r); z.Some? && Above(z.value, t)
  }

  /** The op of the middle collective of block b. */
  function MiddleOp(gs: seq<GInfo>, bs: nat, b: nat): string {
    if 0 <= b * bs + bs / 2 < |gs| then gs[b * bs + bs / 2].op else ""
  }

  function NamesOp(gs: seq<GInfo>, bs: nat, o: string): nat -> bool {
    (b: nat) => MiddleOp(gs, bs, b) == o
  }

  lemma {:induction false} FlagAt(cfg: Config, gs: seq<GInfo>, floor: real, r: Rank, i: nat)
    requires cfg.blockSize >= 2 && i < |Flags(cfg, Blocks(gs, cfg.blockSize), floor, r)|
    ensures var f := Flags(cfg, Blocks(gs, cfg.blockSize), floor, r)[i];
            && Score(cfg, Slice(gs, cfg.blockSize, f.block), floor, r) == Some(f.z)
            && f.lag == Excess(Slice(gs, cfg.blockSize, f.block), r)
            && f.op == MiddleOp(gs, cfg.blockSize, f.block)
  {
    hide Flags, Blocks, Score, Excess, Slice;
    var bs := cfg.blockSize;
    var f := Flags(cfg, Blocks(gs, bs), floor, r)[i];
    FlagsContent(cfg, Blocks(gs, bs), floor, r, i);
    BlockCount(gs, bs);
    SliceIsBlock(gs, bs, f.block);
    SliceEnds(gs, bs, f.block);
    HalfWithin(bs);
  }

  lemma {:induction false} HalfWithin(bs: nat)
    requires bs >= 2
    ensures 0 <= bs / 2 < bs
  {
  }

  /** lag is in the middle of the rank's excess lags in the blocks: it is below w if those of more than half of
      them are, and only if those of at least half are. */
  ghost predicate MiddleLag(cfg: Config, gs: seq<GInfo>, r: Rank, blocks: set<nat>, lag: real)
    requires cfg.blockSize >= 2
  {
    forall w, strict ::
      var below := |Where(blocks, LagsBelow(cfg, gs, r, w, strict))|;
      (2 * below > |blocks| ==> Below(lag, w, strict)) && (Below(lag, w, strict) ==> 2 * below >= |blocks|)
  }

  /** sigma is so in the middle of its scores. */
  ghost predicate MiddleScore(cfg: Config, gs: seq<GInfo>, floor: real, r: Rank, blocks: set<nat>, sigma: Sigma)
    requires cfg.blockSize >= 2
  {
    forall t ::
      var above := |Where(blocks, ScoresAbove(cfg, gs, floor, r, t))|;
      (2 * above > |blocks| ==> Above(sigma, t)) && (Above(sigma, t) ==> 2 * above >= |blocks|)
  }

  /** op is that of the middle collective of more of the blocks than any other, the smallest on a tie. */
  ghost predicate CommonestOp(gs: seq<GInfo>, bs: nat, blocks: set<nat>, op: string) {
    var m := |Where(blocks, NamesOp(gs, bs, op))|;
    && m > 0
    && forall o :: o != op && |Where(blocks, NamesOp(gs, bs, o))| > 0 ==>
      m > |Where(blocks, NamesOp(gs, bs, o))| || (m == |Where(blocks, NamesOp(gs, bs, o))| && StringLess(op, o))
  }

  lemma {:induction false} LagEvidence(cfg: Config, gs: seq<GInfo>, floor: real, r: Rank, w: real, strict: bool)
    requires cfg.blockSize >= 2
    ensures var fl := Flags(cfg, Blocks(gs, cfg.blockSize), floor, r);
            |Where(Marked(fl), LagsBelow(cfg, gs, r, w, strict))| == Count(Lags(fl), w, strict)
  {
    hide Flags, Blocks, Score, Excess, Slice, Marked, Where, Tally, Count, Lags, Ordered;
    var fl := Flags(cfg, Blocks(gs, cfg.blockSize), floor, r);
    forall i | 0 <= i < |fl| ensures LagBelow(w, strict)(fl[i]) <==> LagsBelow(cfg, gs, r, w, strict)(fl[i].block) {
      FlagAt(cfg, gs, floor, r, i);
    }
    TallyBlocks(fl, |Blocks(gs, cfg.blockSize)|, LagBelow(w, strict), LagsBelow(cfg, gs, r, w, strict));
    TallyLags(fl, w, strict);
  }

  lemma {:induction false} ScoreEvidence(cfg: Config, gs: seq<GInfo>, floor: real, r: Rank, t: real)
    requires cfg.blockSize >= 2
    ensures var fl := Flags(cfg, Blocks(gs, cfg.blockSize), floor, r);
            |Where(Marked(fl), ScoresAbove(cfg, gs, floor, r, t))| == CountAbove(ZScores(fl), t)
  {
    hide Flags, Blocks, Score, Excess, Slice, Marked, Where, Tally, CountAbove, ZScores, Ordered;
    var fl := Flags(cfg, Blocks(gs, cfg.blockSize), floor, r);
    forall i | 0 <= i < |fl| ensures ScoreAbove(t)(fl[i]) <==> ScoresAbove(cfg, gs, floor, r, t)(fl[i].block) {
      FlagAt(cfg, gs, floor, r, i);
    }
    TallyBlocks(fl, |Blocks(gs, cfg.blockSize)|, ScoreAbove(t), ScoresAbove(cfg, gs, floor, r, t));
    TallyScores(fl, t);
  }

  lemma {:induction false} OpEvidence(cfg: Config, gs: seq<GInfo>, floor: real, r: Rank, o: string)
    requires cfg.blockSize >= 2
    ensures var fl := Flags(cfg, Blocks(gs, cfg.blockSize), floor, r);
            |Where(Marked(fl), NamesOp(gs, cfg.blockSize, o))| == multiset(Ops(fl))[o]
  {
    hide Flags, Blocks, Score, Excess, Slice, Marked, Where, Tally, Ops, Ordered, MiddleOp;
    var fl := Flags(cfg, Blocks(gs, cfg.blockSize), floor, r);
    forall i | 0 <= i < |fl| ensures OpIs(o)(fl[i]) <==> NamesOp(gs, cfg.blockSize, o)(fl[i].block) {
      FlagAt(cfg, gs, floor, r, i);
    }
    TallyBlocks(fl, |Blocks(gs, cfg.blockSize)|, OpIs(o), NamesOp(gs, cfg.blockSize, o));
    TallyOps(fl, o);
  }

  lemma {:induction false} FlagLag(cfg: Config, gs: seq<GInfo>, floor: real, r: Rank)
    requires cfg.blockSize >= 2 && Flags(cfg, Blocks(gs, cfg.blockSize), floor, r) != []
    ensures var fl := Flags(cfg, Blocks(gs, cfg.blockSize), floor, r); MiddleLag(cfg, gs, r, Marked(fl), Median(Lags(fl)))
  {
    hide Flags, Blocks, Marked, Where, Count, Lags, Median, Below, LagsBelow, Ordered;
    var fl := Flags(cfg, Blocks(gs, cfg.blockSize), floor, r);
    MarkedSize(fl, |Blocks(gs, cfg.blockSize)|);
    forall w, strict ensures
      var below := |Where(Marked(fl), LagsBelow(cfg, gs, r, w, strict))|;
      (2 * below > |fl| ==> Below(Median(Lags(fl)), w, strict)) && (Below(Median(Lags(fl)), w, strict) ==> 2 * below >= |fl|)
    {
      LagEvidence(cfg, gs, floor, r, w, strict);
      MedianByCount(Lags(fl), w, strict);
    }
  }

  lemma {:induction false} FlagScore(cfg: Config, gs: seq<GInfo>, floor: real, r: Rank)
    requires cfg.blockSize >= 2 && Flags(cfg, Blocks(gs, cfg.blockSize), floor, r) != []
    ensures var fl := Flags(cfg, Blocks(gs, cfg.blockSize), floor, r);
            MiddleScore(cfg, gs, floor, r, Marked(fl), MedianSigma(ZScores(fl)))
  {
    hide Flags, Blocks, Marked, Where, CountAbove, ZScores, MedianSigma, Above, ScoresAbove, Ordered;
    var fl := Flags(cfg, Blocks(gs, cfg.blockSize), floor, r);
    MarkedSize(fl, |Blocks(gs, cfg.blockSize)|);
    forall t ensures
      var above := |Where(Marked(fl), ScoresAbove(cfg, gs, floor, r, t))|;
      (2 * above > |fl| ==> Above(MedianSigma(ZScores(fl)), t)) && (Above(MedianSigma(ZScores(fl)), t) ==> 2 * above >= |fl|)
    {
      ScoreEvidence(cfg, gs, floor, r, t);
      MedianSigmaByCount(ZScores(fl), t);
    }
  }

  lemma {:induction false} FlagOp(cfg: Config, gs: seq<GInfo>, floor: real, r: Rank)
    requires cfg.blockSize >= 2 && Flags(cfg, Blocks(gs, cfg.blockSize), floor, r) != []
    ensures var fl := Flags(cfg, Blocks(gs, cfg.blockSize), floor, r); CommonestOp(gs, cfg.blockSize, Marked(fl), Mode(Ops(fl), |fl|))
  {
    hide Flags, Blocks, Marked, Where, Ops, Mode, NamesOp, StringLess, Ordered;
    var fl := Flags(cfg, Blocks(gs, cfg.blockSize), floor, r);
    var ops, best := Ops(fl), Mode(Ops(fl), |fl|);
    ModeIs(ops);
    OpEvidence(cfg, gs, floor, r, best);
    assert multiset(ops)[best] > 0;
    forall o | o != best && |Where(Marked(fl), NamesOp(gs, cfg.blockSize, o))| > 0 ensures
      var m, n := |Where(Marked(fl), NamesOp(gs, cfg.blockSize, best))|, |Where(Marked(fl), NamesOp(gs, cfg.blockSize, o))|;
      m > n || (m == n && StringLess(best, o))
    {
      OpEvidence(cfg, gs, floor, r, o);
      assert o in multiset(ops);
      assert o in ops;
    }
  }

  /** The reported lag is the nearest integer not further from zero. */
  lemma {:induction false} TruncExactly(lag: real)
    ensures lag >= 0.0 ==> 0.0 <= Trunc(lag) as real <= lag < Trunc(lag) as real + 1.0
    ensures lag <= 0.0 ==> Trunc(lag) as real - 1.0 < lag <= Trunc(lag) as real <= 0.0
  {
  }

  /** What a report says of its rank: the lag, truncated, and the score are in the middle of those of the blocks
      that flag it, and the op is the commonest of their middle collectives. */
  lemma {:induction false} ReportEvidence(cfg: Config, gs: seq<GInfo>, floor: real, out: seq<Anomaly>, i: nat) returns (lag: real)
    requires cfg.blockSize >= 2 && IsReport(cfg, gs, floor, out) && i < |out|
    ensures var blocks := FlaggedIn(cfg, gs, floor, out[i].rank);
            && out[i].lagNs == Trunc(lag) && MiddleLag(cfg, gs, out[i].rank, blocks, lag)
            && MiddleScore(cfg, gs, floor, out[i].rank, blocks, out[i].sigma)
            && CommonestOp(gs, cfg.blockSize, blocks, out[i].op)
  {
    hide FlaggedIn, Flags, Blocks, Marked, MiddleLag, MiddleScore, CommonestOp, Trunc, Span, IsReport, Median, MedianSigma, Lags,
         ZScores, Ops, Mode, Ordered;
    var r := out[i].rank;
    ReportMember(cfg, gs, floor, out, i);
    MarkedAre(cfg, gs, floor, r);
    FlagLag(cfg, gs, floor, r);
    FlagScore(cfg, gs, floor, r);
    FlagOp(cfg, gs, floor, r);
    lag := Median(Lags(Flags(cfg, Blocks(gs, cfg.blockSize), floor, r)));
  }
}
