/** The order in which maps are visited does not matter. */
module Order {
  import opened Events
  import opened Detection
  import opened Grouping

  /** The (newest ts, seq) key that groups are sorted by. */
  ghost predicate KeyBefore(groups: Groups, a: GroupKey, b: GroupKey)
    requires a in groups && b in groups
  {
    var x, y := Newest(groups[a]), Newest(groups[b]);
    x < y || (x == y && a.seqId < b.seqId)
  }

  /** Each of the keys once, in strictly ascending order. */
  ghost predicate Ascending(groups: Groups, keys: set<GroupKey>, ks: seq<GroupKey>) {
    && keys <= groups.Keys
    && (forall k :: k in ks <==> k in keys)
    && (forall i, j :: 0 <= i < j < |ks| ==> KeyBefore(groups, ks[i], ks[j]))
  }

  lemma {:induction false} AscendingDistinct(groups: Groups, keys: set<GroupKey>, ks: seq<GroupKey>, i: nat)
    requires Ascending(groups, keys, ks) && i < |ks|
    ensures i > 0 ==> ks[0] != ks[i] && KeyBefore(groups, ks[0], ks[i])
  {
  }

  lemma {:induction false} SameFirst(groups: Groups, keys: set<GroupKey>, ks: seq<GroupKey>, ls: seq<GroupKey>)
    requires Ascending(groups, keys, ks) && Ascending(groups, keys, ls) && ks != []
    ensures ls != [] && ks[0] == ls[0]
  {
    assert ks[0] in keys;
    assert ks[0] in ls;
    assert ls[0] in ks;
    var i :| 0 <= i < |ls| && ls[i] == ks[0];
    var j :| 0 <= j < |ks| && ks[j] == ls[0];
    AscendingDistinct(groups, keys, ls, i);
    AscendingDistinct(groups, keys, ks, j);
  }

  lemma {:induction false} AscendingTail(groups: Groups, keys: set<GroupKey>, ks: seq<GroupKey>)
    requires Ascending(groups, keys, ks) && ks != []
    ensures Ascending(groups, keys - {ks[0]}, ks[1..])
  {
    forall i | 0 <= i < |ks| - 1 ensures ks[1..][i] != ks[0] {
      AscendingDistinct(groups, keys, ks, i + 1);
    }
    forall k ensures k in ks[1..] <==> k in keys - {ks[0]} {
      assert k in ks <==> k == ks[0] || k in ks[1..];
    }
  }

  lemma {:induction false} EmptyListing(groups: Groups, keys: set<GroupKey>, ks: seq<GroupKey>)
    requires Ascending(groups, keys, ks)
    ensures ks == [] <==> keys == {}
  {
    if ks != [] {
      assert ks[0] in keys;
    }
  }

  /** A set is listed in strictly ascending order in one way only. */
  lemma {:induction false} AscendingUnique(groups: Groups, keys: set<GroupKey>, ks: seq<GroupKey>, ls: seq<GroupKey>)
    requires Ascending(groups, keys, ks) && Ascending(groups, keys, ls)
    ensures ks == ls
    decreases |ks|
  {
    if ks == [] {
      EmptyListing(groups, keys, ks);
      EmptyListing(groups, keys, ls);
    } else {
      SameFirst(groups, keys, ks, ls);
      AscendingTail(groups, keys, ks);
      AscendingTail(groups, keys, ls);
      AscendingUnique(groups, keys - {ks[0]}, ks[1..], ls[1..]);
    }
  }

  /** No two groups share both the newest timestamp and the sequence number. */
  ghost predicate NoTies(groups: Groups, keys: set<GroupKey>) {
    forall a, b :: a in keys && b in keys && a != b && a in groups && b in groups ==>
      KeyBefore(groups, a, b) || KeyBefore(groups, b, a)
  }

  /** All members of a group name the same op. */
  ghost predicate SameOp(g: Group) {
    forall r, q :: r in g && q in g ==> g[r].op == g[q].op
  }

  lemma {:induction false} ListingAscending(groups: Groups, keys: set<GroupKey>, ks: seq<GroupKey>, gs: seq<GInfo>)
    requires IsListing(groups, keys, ks, gs) && NoTies(groups, keys)
    ensures Ascending(groups, keys, ks)
  {
    forall i, j | 0 <= i < j < |ks| ensures ks[i] in groups && ks[j] in groups && KeyBefore(groups, ks[i], ks[j]) {
      assert ks[i] in ks && ks[j] in ks;
      assert !Before(gs[j], gs[i]);
      assert Describes(gs[i], ks[i], groups[ks[i]]) && Describes(gs[j], ks[j], groups[ks[j]]);
      assert KeyBefore(groups, ks[i], ks[j]) || KeyBefore(groups, ks[j], ks[i]);
    }
  }

  lemma {:induction false} DescribedOnce(a: GInfo, b: GInfo, k: GroupKey, g: Group)
    requires Describes(a, k, g) && Describes(b, k, g) && SameOp(g)
    ensures a == b
  {
  }

  /** Without ties and with agreeing ops, the sorted list is the same whatever order the maps were visited in. */
  lemma {:induction false} ListingUnique(groups: Groups, keys: set<GroupKey>,
                                         ks: seq<GroupKey>, gs: seq<GInfo>, ls: seq<GroupKey>, hs: seq<GInfo>)
    requires IsListing(groups, keys, ks, gs) && IsListing(groups, keys, ls, hs)
    requires NoTies(groups, keys) && forall k :: k in keys && k in groups ==> SameOp(groups[k])
    ensures ks == ls && gs == hs
  {
    ListingAscending(groups, keys, ks, gs);
    ListingAscending(groups, keys, ls, hs);
    AscendingUnique(groups, keys, ks, ls);
    hide NoTies, SameOp, InOrder, Describes, Distinct, Ascending;
    forall i | 0 <= i < |gs| ensures gs[i] == hs[i] {
      assert ks[i] in ks;
      DescribedOnce(gs[i], hs[i], ks[i], groups[ks[i]]);
    }
  }

  // ---------------------------------------------------------------- tables with the same times

  /** Corresponding groups have the same newest timestamp. */
  ghost predicate SameNewest(groups: Groups, groups': Groups) {
    groups.Keys == groups'.Keys && forall k :: k in groups ==> Newest(groups[k]) == Newest(groups'[k])
  }

  lemma {:induction false} SameTs(g: Group, g': Group)
    requires g.Keys == g'.Keys && forall r :: r in g ==> g'[r].ts == g[r].ts
    ensures Newest(g) == Newest(g')
  {
    assert (set r | r in g :: g[r].ts) == (set r | r in g' :: g'[r].ts);
  }

  lemma {:induction false} SameWindow(cfg: Config, groups: Groups, groups': Groups, cutoff: int)
    requires SameNewest(groups, groups') && ScoredKeys(cfg, groups) == ScoredKeys(cfg, groups')
    ensures WindowKeys(cfg, groups, cutoff) == WindowKeys(cfg, groups', cutoff)
  {
    hide Newest;
  }

  lemma {:induction false} SameAscending(groups: Groups, groups': Groups, keys: set<GroupKey>, ks: seq<GroupKey>)
    requires SameNewest(groups, groups') && Ascending(groups', keys, ks)
    ensures Ascending(groups, keys, ks)
  {
    hide Newest;
    forall k | k in ks ensures k in groups {
    }
  }

  lemma {:induction false} SameNoTies(groups: Groups, groups': Groups, keys: set<GroupKey>)
    requires SameNewest(groups, groups') && NoTies(groups, keys)
    ensures NoTies(groups', keys)
  {
    hide Newest;
    forall a, b | a in keys && b in keys && a != b && a in groups' && b in groups'
      ensures KeyBefore(groups', a, b) || KeyBefore(groups', b, a)
    {
      assert KeyBefore(groups, a, b) || KeyBefore(groups, b, a);
    }
  }

  lemma {:induction false} SameOrder(groups: Groups, groups': Groups, keys: set<GroupKey>, ks: seq<GroupKey>, gs: seq<GInfo>,
                                     ls: seq<GroupKey>, gs': seq<GInfo>)
    requires IsListing(groups, keys, ks, gs) && IsListing(groups', keys, ls, gs')
    requires SameNewest(groups, groups') && NoTies(groups, keys)
    ensures ks == ls
  {
    hide IsListing, NoTies, SameNewest, Ascending;
    SameNoTies(groups, groups', keys);
    ListingAscending(groups, keys, ks, gs);
    ListingAscending(groups', keys, ls, gs');
    SameAscending(groups, groups', keys, ls);
    AscendingUnique(groups, keys, ks, ls);
  }

  // ---------------------------------------------------------------- reports

  lemma {:induction false} ReportsAgree(cfg: Config, gs: seq<GInfo>, floor: real, out: seq<Anomaly>, out': seq<Anomaly>)
    requires IsReport(cfg, gs, floor, out) && IsReport(cfg, gs, floor, out')
    ensures forall a :: a in out ==> a in out'
  {
    hide Blocks, Reported, AnomalyOf;
    forall i | 0 <= i < |out| ensures out[i] in out' {
      var r := out[i].rank;
      assert Reported(cfg, Blocks(gs, cfg.blockSize), floor, r);
      var j :| 0 <= j < |out'| && out'[j].rank == r;
      assert out'[j] == AnomalyOf(cfg, Blocks(gs, cfg.blockSize), floor, r);
    }
  }

  /** Map-order independence: two runs of DetectAnomalies on the same groups return the same anomalies. */
  lemma {:induction false} MapOrderIndependence(cfg: Config, groups: Groups, cutoff: int,
                                                out: seq<Anomaly>, out': seq<Anomaly>)
    requires IsDetection(cfg, groups, cutoff, out) && IsDetection(cfg, groups, cutoff, out')
    requires NoTies(groups, WindowKeys(cfg, groups, cutoff))
    requires forall k :: k in groups ==> SameOp(groups[k])
    ensures forall a :: a in out <==> a in out'
  {
    hide IsReport, IsListing, JitterFloor, NoTies, SameOp, WindowKeys;
    var keys, floor := WindowKeys(cfg, groups, cutoff), JitterFloor(cfg, groups);
    var ks, gs :| IsListing(groups, keys, ks, gs) && IsReport(cfg, gs, floor, out);
    var ls, hs :| IsListing(groups, keys, ls, hs) && IsReport(cfg, hs, floor, out');
    ListingUnique(groups, keys, ks, gs, ls, hs);
    ReportsAgree(cfg, gs, floor, out, out');
    ReportsAgree(cfg, gs, floor, out', out);
  }
}
