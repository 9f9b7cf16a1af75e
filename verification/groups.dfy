/** From the stored groups to the list the detector works on: which groups are scored, their lags, the
    jitter floor, and the orders the sort may leave them in. */
module Grouping {
  import opened Events
  import opened Stats
  import opened Bags
  import opened Detection

  /** The largest member, starting from 0 as the source's `var newest, maxDur int64` do. */
  ghost function MaxFromZero(s: set<int>): (m: int)
    ensures 0 <= m && (m == 0 || m in s)
    ensures forall x :: x in s ==> x <= m
  {
    if exists x :: x in s then
      var x :| x in s;
      var rest := s - {x};
      assert forall y :: y in s ==> y == x || y in rest;
      var m := MaxFromZero(rest);
      if x > m then x else m
    else 0
  }

  ghost function Newest(g: Group): int {
    MaxFromZero(set r | r in g :: g[r].ts)
  }

  ghost function MaxDur(g: Group): int {
    MaxFromZero(set r | r in g :: g[r].dur)
  }

  /** lag = max(duration in group) - own duration */
  ghost function LagsOf(g: Group): map<Rank, real> {
    map r | r in g :: (MaxDur(g) - g[r].dur) as real
  }

  /** gi describes group g. The op is that of whichever member the map iteration visits last. */
  ghost predicate Describes(gi: GInfo, k: GroupKey, g: Group) {
    && gi.ts == Newest(g)
    && gi.seqId == k.seqId
    && gi.lags == LagsOf(g)
    && (if g == map[] then gi.op == "" else exists r :: r in g && gi.op == g[r].op)
  }

  function ScoredKeys(cfg: Config, groups: Groups): set<GroupKey> {
    set k | k in groups && |groups[k]| >= cfg.minRanks
  }

  lemma {:induction false} InScored(cfg: Config, groups: Groups, k: GroupKey)
    requires k in ScoredKeys(cfg, groups)
    ensures k in groups
  {
  }

  ghost function WindowKeys(cfg: Config, groups: Groups, cutoff: int): set<GroupKey> {
    set k | k in ScoredKeys(cfg, groups) && Newest(groups[k]) >= cutoff
  }

  lemma {:induction false} WholeWindow(cfg: Config, groups: Groups, cutoff: int)
    requires cutoff <= 0
    ensures WindowKeys(cfg, groups, cutoff) == ScoredKeys(cfg, groups)
  {
  }

  ghost function DurationBags(g: Group): (m: map<Rank, multiset<real>>)
    ensures m.Keys == g.Keys
  {
    map r | r in g :: multiset{g[r].dur as real}
  }

  ghost function Durations(g: Group): multiset<real> {
    Pool(DurationBags(g))
  }

  ghost function ScoredDurations(cfg: Config, groups: Groups): (m: map<GroupKey, multiset<real>>)
    ensures m.Keys == ScoredKeys(cfg, groups)
  {
    map k | k in ScoredKeys(cfg, groups) :: Durations(groups[k])
  }

  /** durs: the durations of every scored group, inside the window or not. */
  ghost function AllDurations(cfg: Config, groups: Groups): multiset<real> {
    Pool(ScoredDurations(cfg, groups))
  }

  ghost function JitterFloor(cfg: Config, groups: Groups): real {
    cfg.jitterFloor * BagMedian(AllDurations(cfg, groups))
  }

  predicate Before(a: GInfo, b: GInfo) {
    a.ts < b.ts || (a.ts == b.ts && a.seqId < b.seqId)
  }

  predicate InOrder(gs: seq<GInfo>) {
    forall i, j :: 0 <= i < j < |gs| ==> !Before(gs[j], gs[i])
  }

  ghost predicate Distinct<T>(s: seq<T>) {
    forall i, j :: 0 <= i < j < |s| ==> s[i] != s[j]
  }

  /** gs lists the groups named by ks: each key of `keys` once, in (newest ts, seq) order. */
  ghost predicate IsListing(groups: Groups, keys: set<GroupKey>, ks: seq<GroupKey>, gs: seq<GInfo>) {
    && |ks| == |gs|
    && Distinct(ks)
    && (forall k :: k in ks <==> k in keys)
    && keys <= groups.Keys
    && (forall i :: 0 <= i < |ks| ==> Describes(gs[i], ks[i], groups[ks[i]]))
    && InOrder(gs)
  }

  /** What DetectAnomalies may return, whatever order it visits its maps in. */
  ghost predicate IsDetection(cfg: Config, groups: Groups, cutoff: int, out: seq<Anomaly>) {
    exists ks, gs :: IsListing(groups, WindowKeys(cfg, groups, cutoff), ks, gs)
                     && IsReport(cfg, gs, JitterFloor(cfg, groups), out)
  }
}
