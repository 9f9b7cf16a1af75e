/** Clock skew between ranks does not matter. */
module Skew {
  import opened Events
  import opened Stats
  import opened Bags
  import opened Detection
  import opened Grouping
  import opened Order
  import opened Units

  /** g' is g as clocks with other offsets would have stamped it. */
  ghost predicate Restamped(g: Group, g': Group, offset: map<Rank, int>) {
    && g.Keys == g'.Keys && g.Keys <= offset.Keys
    && forall r :: r in g ==> g'[r].ts == g[r].ts + offset[r] && g'[r].dur == g[r].dur && g'[r].op == g[r].op
  }

  ghost predicate RestampedGroups(groups: Groups, groups': Groups, offset: map<Rank, int>) {
    groups.Keys == groups'.Keys && forall k :: k in groups ==> Restamped(groups[k], groups'[k], offset)
  }

  /** The collectives ran in the order `run`, every rank taking part in each, and each rank's own clock
      shows them in that order, never at a negative time. */
  ghost predicate InRunOrder(groups: Groups, keys: set<GroupKey>, run: seq<GroupKey>, ranks: set<Rank>) {
    && ranks != {} && keys <= groups.Keys
    && (forall k :: k in run <==> k in keys)
    && (forall k :: k in keys ==> groups[k].Keys == ranks && forall r :: r in ranks ==> groups[k][r].ts >= 0)
    && (forall i, j, r :: 0 <= i < j < |run| && r in ranks ==> groups[run[i]][r].ts < groups[run[j]][r].ts)
  }

  lemma {:induction false} NewestOf(g: Group)
    requires g != map[] && forall r :: r in g ==> g[r].ts >= 0
    ensures exists r :: r in g && g[r].ts == Newest(g)
    ensures forall r :: r in g ==> g[r].ts <= Newest(g)
  {
    var s := set r | r in g :: g[r].ts;
    var r :| r in g;
    assert g[r].ts in s;
    var m := MaxFromZero(s);
    if m == 0 {
      assert g[r].ts == m;
    }
    forall r | r in g ensures g[r].ts <= Newest(g) {
      assert g[r].ts in s;
    }
  }

  /** If every rank saw a before b, the newest timestamps agree. */
  lemma {:induction false} LaterIsNewer(a: Group, b: Group)
    requires a.Keys == b.Keys && a != map[]
    requires forall r :: r in a ==> 0 <= a[r].ts < b[r].ts
    ensures Newest(a) < Newest(b)
  {
    NewestOf(a);
    assert forall r :: r in b ==> r in a && b[r].ts >= 0;
    assert b != map[];
    NewestOf(b);
    var r :| r in a && a[r].ts == Newest(a);
    assert b[r].ts <= Newest(b);
  }

  /** The run order is the order of the newest timestamps. */
  lemma {:induction false} RunAscending(groups: Groups, keys: set<GroupKey>, run: seq<GroupKey>, ranks: set<Rank>)
    requires InRunOrder(groups, keys, run, ranks)
    ensures Ascending(groups, keys, run)
  {
    hide Newest;
    forall i, j | 0 <= i < j < |run|
      ensures run[i] in groups && run[j] in groups && KeyBefore(groups, run[i], run[j])
    {
      assert run[i] in run && run[j] in run;
      var a, b := groups[run[i]], groups[run[j]];
      var r :| r in ranks;
      assert r in a;
      LaterIsNewer(a, b);
    }
  }

  lemma {:induction false} AscendingOrdered(groups: Groups, keys: set<GroupKey>, run: seq<GroupKey>, i: nat, j: nat)
    requires Ascending(groups, keys, run) && i < |run| && j < |run| && i != j
    ensures run[i] in groups && run[j] in groups
    ensures KeyBefore(groups, run[i], run[j]) || KeyBefore(groups, run[j], run[i])
  {
    hide KeyBefore;
    assert run[i] in run && run[j] in run;
  }

  lemma {:induction false} AscendingNoTies(groups: Groups, keys: set<GroupKey>, run: seq<GroupKey>)
    requires Ascending(groups, keys, run)
    ensures NoTies(groups, keys)
  {
    hide KeyBefore;
    forall a, b | a in keys && b in keys && a != b && a in groups && b in groups
      ensures KeyBefore(groups, a, b) || KeyBefore(groups, b, a)
    {
      assert a in run && b in run;
      var i :| 0 <= i < |run| && run[i] == a;
      var j :| 0 <= j < |run| && run[j] == b;
      AscendingOrdered(groups, keys, run, i, j);
    }
  }

  lemma {:induction false} OnlyOrder(groups: Groups, keys: set<GroupKey>, run: seq<GroupKey>, ranks: set<Rank>,
                                     ks: seq<GroupKey>, gs: seq<GInfo>)
    requires InRunOrder(groups, keys, run, ranks) && IsListing(groups, keys, ks, gs)
    ensures ks == run
  {
    hide InRunOrder, IsListing, NoTies, Ascending;
    RunAscending(groups, keys, run, ranks);
    AscendingNoTies(groups, keys, run);
    ListingAscending(groups, keys, ks, gs);
    AscendingUnique(groups, keys, ks, run);
  }

  lemma {:induction false} RestampedInOrder(groups: Groups, groups': Groups, offset: map<Rank, int>, keys: set<GroupKey>,
                                            run: seq<GroupKey>, ranks: set<Rank>)
    requires RestampedGroups(groups, groups', offset) && InRunOrder(groups, keys, run, ranks)
    requires forall k, r :: k in keys && k in groups' && r in groups'[k] ==> groups'[k][r].ts >= 0
    ensures InRunOrder(groups', keys, run, ranks)
  {
    forall i, j, r | 0 <= i < j < |run| && r in ranks
      ensures run[i] in groups' && run[j] in groups' && r in groups'[run[i]] && r in groups'[run[j]]
      ensures groups'[run[i]][r].ts < groups'[run[j]][r].ts
    {
      assert run[i] in run && run[j] in run;
      assert Restamped(groups[run[i]], groups'[run[i]], offset) && Restamped(groups[run[j]], groups'[run[j]], offset);
      assert groups[run[i]][r].ts < groups[run[j]][r].ts;
    }
    forall k | k in keys
      ensures k in groups' && groups'[k].Keys == ranks && forall r :: r in ranks ==> groups'[k][r].ts >= 0
    {
      assert Restamped(groups[k], groups'[k], offset);
    }
  }

  lemma {:induction false} SameMax(g: Group, g': Group, offset: map<Rank, int>)
    requires Restamped(g, g', offset)
    ensures MaxDur(g) == MaxDur(g')
  {
    hide MaxFromZero;
    assert (set r | r in g :: g[r].dur) == (set r | r in g' :: g'[r].dur);
  }

  lemma {:induction false} SameDurations(g: Group, g': Group, offset: map<Rank, int>)
    requires Restamped(g, g', offset)
    ensures Durations(g) == Durations(g')
  {
    hide Pool;
    assert DurationBags(g) == DurationBags(g');
  }

  lemma {:induction false} SameScored(cfg: Config, groups: Groups, groups': Groups, offset: map<Rank, int>)
    requires RestampedGroups(groups, groups', offset)
    ensures ScoredKeys(cfg, groups) == ScoredKeys(cfg, groups')
  {
    hide ScoredKeys;
    assert forall k :: k in groups ==> groups[k].Keys == groups'[k].Keys;
    ScoredScaled(cfg, groups, groups');
  }

  lemma {:induction false} SameDurationsAt(cfg: Config, groups: Groups, groups': Groups, offset: map<Rank, int>, k: GroupKey)
    requires RestampedGroups(groups, groups', offset) && k in ScoredKeys(cfg, groups)
    ensures k in groups && k in groups' && Durations(groups[k]) == Durations(groups'[k])
  {
    hide Durations, Restamped;
    SameDurations(groups[k], groups'[k], offset);
  }

  lemma {:induction false} SameScoredDurations(cfg: Config, groups: Groups, groups': Groups, offset: map<Rank, int>)
    requires RestampedGroups(groups, groups', offset)
    ensures ScoredDurations(cfg, groups) == ScoredDurations(cfg, groups')
  {
    hide Durations, RestampedGroups, ScoredKeys;
    SameScored(cfg, groups, groups', offset);
    forall k | k in ScoredKeys(cfg, groups) ensures k in groups && k in groups' && Durations(groups[k]) == Durations(groups'[k]) {
      SameDurationsAt(cfg, groups, groups', offset, k);
    }
  }

  lemma {:induction false} SameFloor(cfg: Config, groups: Groups, groups': Groups, offset: map<Rank, int>)
    requires RestampedGroups(groups, groups', offset)
    ensures JitterFloor(cfg, groups) == JitterFloor(cfg, groups')
    ensures ScoredKeys(cfg, groups) == ScoredKeys(cfg, groups')
  {
    hide ScoredDurations, RestampedGroups, ScoredKeys, Pool, BagMedian;
    SameScored(cfg, groups, groups', offset);
    SameScoredDurations(cfg, groups, groups', offset);
  }

  lemma {:induction false} SameLags(gi: GInfo, gi': GInfo, k: GroupKey, g: Group, g': Group, offset: map<Rank, int>)
    requires Describes(gi, k, g) && Describes(gi', k, g') && Restamped(g, g', offset)
    ensures LagsScaled(gi, gi', 1.0)
  {
    hide MaxDur, Newest;
    SameMax(g, g', offset);
  }

  lemma {:induction false} SameList(groups: Groups, groups': Groups, offset: map<Rank, int>, keys: set<GroupKey>,
                                    ks: seq<GroupKey>, gs: seq<GInfo>, gs': seq<GInfo>)
    requires RestampedGroups(groups, groups', offset)
    requires IsListing(groups, keys, ks, gs) && IsListing(groups', keys, ks, gs')
    ensures BlockScaled(gs, gs', 1.0)
  {
    hide InOrder, Restamped, LagsScaled, Distinct, Newest, LagsOf;
    forall i | 0 <= i < |gs| ensures LagsScaled(gs[i], gs'[i], 1.0) {
      assert ks[i] in ks;
      SameLags(gs[i], gs'[i], ks[i], groups[ks[i]], groups'[ks[i]], offset);
    }
  }

  /** Same rank, sigma, lag, Hits and Groups. */
  ghost predicate SameEvidence(a: Anomaly, b: Anomaly) {
    a.rank == b.rank && a.sigma == b.sigma && a.lagNs == b.lagNs && a.hits == b.hits && a.groups == b.groups
  }

  ghost predicate FoundIn(a: Anomaly, out: seq<Anomaly>) {
    exists j :: 0 <= j < |out| && SameEvidence(a, out[j])
  }

  ghost predicate SameFindings(out: seq<Anomaly>, out': seq<Anomaly>) {
    forall i :: 0 <= i < |out| ==> FoundIn(out[i], out')
  }

  lemma {:induction false} UnitLag(cfg: Config, gs: seq<GInfo>, floor: real, out: seq<Anomaly>, out': seq<Anomaly>, c: real)
    requires c == 1.0 && Included(cfg, gs, floor, out, out', c, false)
    ensures SameFindings(out, out')
  {
    hide SameVerdict, SameEvidence, LagIn;
    forall i | 0 <= i < |out| ensures FoundIn(out[i], out') {
      var lag := LagIn(cfg, gs, floor, out[i].rank);
      assert HasCounterpart(out[i], out', lag, c, false);
      var j :| 0 <= j < |out'| && SameVerdict(out[i], out'[j], lag, c, false);
      UnitVerdict(out[i], out'[j], lag, c);
    }
  }

  lemma {:induction false} UnitVerdict(a: Anomaly, b: Anomaly, lag: real, c: real)
    requires c == 1.0 && SameVerdict(a, b, lag, c, false)
    ensures SameEvidence(a, b)
  {
    assert Times(c)(lag) == lag;
  }

  /** Clock-skew invariance. With complete groups whose collectives every rank saw in the same order, and
      with the whole history in the window, adding any constant to each rank's timestamps changes no
      finding: the same ranks are reported with the same sigma, lag, Hits and Groups. */
  lemma {:induction false} SkewInvariance(cfg: Config, groups: Groups, groups': Groups, offset: map<Rank, int>,
                                          cutoff: int, cutoff': int, run: seq<GroupKey>, ranks: set<Rank>,
                                          out: seq<Anomaly>, out': seq<Anomaly>)
    requires IsDetection(cfg, groups, cutoff, out) && IsDetection(cfg, groups', cutoff', out')
    requires cutoff <= 0 && cutoff' <= 0
    requires RestampedGroups(groups, groups', offset)
    requires InRunOrder(groups, ScoredKeys(cfg, groups), run, ranks)
    requires forall k, r :: k in ScoredKeys(cfg, groups) && k in groups' && r in groups'[k] ==> groups'[k][r].ts >= 0
    ensures SameFindings(out, out') && SameFindings(out', out)
  {
    var keys := ScoredKeys(cfg, groups);
    RestampedInOrder(groups, groups', offset, keys, run, ranks);
    hide *;
    SameFloor(cfg, groups, groups', offset);
    WholeWindow(cfg, groups, cutoff);
    WholeWindow(cfg, groups', cutoff');
    var ks, gs := DetectionListing(cfg, groups, cutoff, out);
    var ls, gs' := DetectionListing(cfg, groups', cutoff', out');
    OnlyOrder(groups, keys, run, ranks, ks, gs);
    OnlyOrder(groups', keys, run, ranks, ls, gs');
    SameList(groups, groups', offset, keys, ks, gs, gs');
    UnitFloor(JitterFloor(cfg, groups));
    ReportsScaled(cfg, gs, gs', JitterFloor(cfg, groups), 1.0, false, out, out');
    assert 1.0 / 1.0 == 1.0;
    UnitLag(cfg, gs, JitterFloor(cfg, groups), out, out', 1.0);
    UnitLag(cfg, gs', JitterFloor(cfg, groups'), out', out, 1.0);
  }

  /** Same blocks, z scores and excess lags; ops are free. */
  ghost predicate SameFlags(fl: seq<Flag>, fl': seq<Flag>) {
    |fl| == |fl'| && forall i :: 0 <= i < |fl| ==> fl[i].block == fl'[i].block && fl[i].z == fl'[i].z && fl[i].lag == fl'[i].lag
  }

  /** Under the same assumptions the blocks hold the same collectives, and every rank, reported or not, is
      flagged in the same blocks with the same score and lag. */
  lemma {:induction false} SkewKeepsFlags(cfg: Config, groups: Groups, groups': Groups, offset: map<Rank, int>,
                                          cutoff: int, cutoff': int, run: seq<GroupKey>, ranks: set<Rank>,
                                          ks: seq<GroupKey>, gs: seq<GInfo>, ls: seq<GroupKey>, gs': seq<GInfo>, r: Rank)
    requires IsListing(groups, WindowKeys(cfg, groups, cutoff), ks, gs)
    requires IsListing(groups', WindowKeys(cfg, groups', cutoff'), ls, gs')
    requires cutoff <= 0 && cutoff' <= 0 && cfg.blockSize >= 2
    requires RestampedGroups(groups, groups', offset)
    requires InRunOrder(groups, ScoredKeys(cfg, groups), run, ranks)
    requires forall k, r :: k in ScoredKeys(cfg, groups) && k in groups' && r in groups'[k] ==> groups'[k][r].ts >= 0
    ensures ks == ls == run
    ensures SameFlags(Flags(cfg, Blocks(gs, cfg.blockSize), JitterFloor(cfg, groups), r),
                      Flags(cfg, Blocks(gs', cfg.blockSize), JitterFloor(cfg, groups'), r))
  {
    var keys, floor := ScoredKeys(cfg, groups), JitterFloor(cfg, groups);
    RestampedInOrder(groups, groups', offset, keys, run, ranks);
    hide *;
    SameFloor(cfg, groups, groups', offset);
    WholeWindow(cfg, groups, cutoff);
    WholeWindow(cfg, groups', cutoff');
    OnlyOrder(groups, keys, run, ranks, ks, gs);
    OnlyOrder(groups', keys, run, ranks, ls, gs');
    SameList(groups, groups', offset, keys, ks, gs, gs');
    UnitFloor(floor);
    BlocksOfScaled(gs, gs', cfg.blockSize, 1.0);
    AllFlagsScaled(cfg, Blocks(gs, cfg.blockSize), Blocks(gs', cfg.blockSize), floor, 1.0, r);
    UnitFlags(Flags(cfg, Blocks(gs, cfg.blockSize), floor, r), Flags(cfg, Blocks(gs', cfg.blockSize), Times(1.0)(floor), r));
  }

  lemma {:induction false} UnitFlags(fl: seq<Flag>, fl': seq<Flag>)
    requires FlagsScaled(fl, fl', 1.0)
    ensures SameFlags(fl, fl')
  {
  }

  lemma {:induction false} UnitFloor(x: real)
    ensures Times(1.0)(x) == x
  {
  }

  lemma {:induction false} DetectionListing(cfg: Config, groups: Groups, cutoff: int, out: seq<Anomaly>)
    returns (ks: seq<GroupKey>, gs: seq<GInfo>)
    requires IsDetection(cfg, groups, cutoff, out)
    ensures IsListing(groups, WindowKeys(cfg, groups, cutoff), ks, gs)
    ensures IsReport(cfg, gs, JitterFloor(cfg, groups), out)
  {
    hide IsListing, IsReport, WindowKeys, JitterFloor;
    ks, gs :| IsListing(groups, WindowKeys(cfg, groups, cutoff), ks, gs) && IsReport(cfg, gs, JitterFloor(cfg, groups), out);
  }
}
