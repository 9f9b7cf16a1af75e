/** What the jitter floor is a fraction of: the median duration of every record of every collective with enough
    ranks. */
module Floors {
  import opened Events
  import opened Stats
  import opened Bags
  import opened Detection
  import opened Grouping
  import opened Scan

  /** The ranks of g that took less than w, or no more when not strict. */
  function Shorter(g: Group, w: real, strict: bool): set<Rank> {
    set r | r in g && Below(g[r].dur as real, w, strict)
  }

  lemma {:induction false} GroupCount(g: Group, w: real, strict: bool)
    ensures BagCount(Durations(g), w, strict) == |Shorter(g, w, strict)| && |Durations(g)| == |g|
    decreases |g|
  {
    hide BagCount, Pool, Below;
    if g == map[] {
      NoDurations(w, strict);
      assert Shorter(g, w, strict) == {};
    } else {
      hide Durations, Shorter;
      var r :| r in g;
      var rest := g - {r};
      GroupCount(rest, w, strict);
      assert g == rest[r := g[r]];
      CountGrows(rest, r, g[r], w, strict);
    }
  }

  lemma {:induction false} CountGrows(rest: Group, r: Rank, e: Collective, w: real, strict: bool)
    requires r !in rest && BagCount(Durations(rest), w, strict) == |Shorter(rest, w, strict)| && |Durations(rest)| == |rest|
    ensures BagCount(Durations(rest[r := e]), w, strict) == |Shorter(rest[r := e], w, strict)|
    ensures |Durations(rest[r := e])| == |rest[r := e]|
  {
    hide BagCount, Below, Durations, Shorter;
    ShorterExtend(rest, r, e, w, strict);
    GroupGrows(rest, r, e);
    DurationsExtend(rest, r, e);
    var x := e.dur as real;
    BagCountAdd(Durations(rest), multiset{x}, w, strict);
    OneCount(x, w, strict);
  }

  lemma {:induction false} ShorterExtend(rest: Group, r: Rank, e: Collective, w: real, strict: bool)
    requires r !in rest
    ensures |Shorter(rest[r := e], w, strict)| == |Shorter(rest, w, strict)| + if Below(e.dur as real, w, strict) then 1 else 0
  {
    hide Below;
    var g := rest[r := e];
    var all, before := Shorter(g, w, strict), Shorter(rest, w, strict);
    forall q ensures q in all <==> q in before || (q == r && Below(e.dur as real, w, strict)) {
      assert q != r && q in g ==> g[q] == rest[q];
    }
    hide Shorter;
    if Below(e.dur as real, w, strict) {
      assert all == before + {r};
    } else {
      assert all == before;
    }
  }

  lemma {:induction false} GroupGrows(rest: Group, r: Rank, e: Collective)
    requires r !in rest
    ensures |rest[r := e]| == |rest| + 1
  {
  }

  lemma {:induction false} NoDurations(w: real, strict: bool)
    ensures Durations(map[]) == multiset{} && BagCount(multiset{}, w, strict) == 0
  {
    assert DurationBags(map[]) == map[];
    var none: seq<real> := [];
    BagCountOf(none, w, strict);
    assert multiset(none) == multiset{};
  }

  lemma {:induction false} OneCount(x: real, w: real, strict: bool)
    ensures BagCount(multiset{x}, w, strict) == if Below(x, w, strict) then 1 else 0
  {
    BagCountOf([x], w, strict);
    assert multiset([x]) == multiset{x};
    assert [x][..0] == [];
  }

  /** Rank's record of the collective of that key. */
  datatype Record = Record(key: GroupKey, rank: Rank)

  /** The records of the groups named by keys that took less than w. */
  function ShorterIn(groups: Groups, keys: set<GroupKey>, w: real, strict: bool): set<Record> {
    set k, r | k in keys && k in groups && r in groups[k] && Below(groups[k][r].dur as real, w, strict) :: Record(k, r)
  }

  function RecordsIn(groups: Groups, keys: set<GroupKey>): set<Record> {
    set k, r | k in keys && k in groups && r in groups[k] :: Record(k, r)
  }

  ghost function DurationsAt(groups: Groups, keys: set<GroupKey>): (m: map<GroupKey, multiset<real>>)
    requires keys <= groups.Keys
    ensures m.Keys == keys
  {
    map k | k in keys :: Durations(groups[k])
  }

  function Own(k: GroupKey, rs: set<Rank>): set<Record> {
    set r | r in rs :: Record(k, r)
  }

  lemma {:induction false} OwnSize(k: GroupKey, rs: set<Rank>)
    ensures |Own(k, rs)| == |rs|
  {
    if rs != {} {
      var r :| r in rs;
      OwnSize(k, rs - {r});
      forall p ensures p in Own(k, rs) <==> p in Own(k, rs - {r}) || p == Record(k, r) {
      }
      assert Own(k, rs) == Own(k, rs - {r}) + {Record(k, r)};
    } else {
      assert Own(k, rs) == {};
    }
  }

  lemma {:induction false} AddGroup(all: set<Record>, rest: set<Record>, k: GroupKey, rs: set<Rank>)
    requires forall p :: p in all <==> p in rest || (p.key == k && p.rank in rs)
    requires forall p :: p in rest ==> p.key != k
    ensures |all| == |rest| + |rs|
  {
    OwnSize(k, rs);
    forall p ensures p in Own(k, rs) <==> p.key == k && p.rank in rs {
      assert p == Record(p.key, p.rank);
    }
    hide Own;
    assert all == rest + Own(k, rs);
    assert rest !! Own(k, rs);
  }

  lemma {:induction false} KeysCount(groups: Groups, keys: set<GroupKey>, w: real, strict: bool)
    requires keys <= groups.Keys
    ensures BagCount(Pool(DurationsAt(groups, keys)), w, strict) == |ShorterIn(groups, keys, w, strict)|
    ensures |Pool(DurationsAt(groups, keys))| == |RecordsIn(groups, keys)|
    decreases |keys|
  {
    hide BagCount, Pool, Below, Durations, Shorter;
    if keys == {} {
      assert DurationsAt(groups, keys) == map[];
      NoRecords(w, strict);
      assert ShorterIn(groups, keys, w, strict) == {} && RecordsIn(groups, keys) == {};
    } else {
      var k :| k in keys;
      var rest := keys - {k};
      KeysCount(groups, rest, w, strict);
      PoolRemove(DurationsAt(groups, keys), k);
      assert DurationsAt(groups, rest) == DurationsAt(groups, keys) - {k};
      BagCountAdd(Pool(DurationsAt(groups, rest)), Durations(groups[k]), w, strict);
      GroupCount(groups[k], w, strict);
      ShorterStep(groups, keys, k, w, strict);
    }
  }

  lemma {:induction false} NoRecords(w: real, strict: bool)
    ensures Pool<GroupKey>(map[]) == multiset{} && BagCount(multiset{}, w, strict) == 0
  {
    NoDurations(w, strict);
  }

  lemma {:induction false} ShorterStep(groups: Groups, keys: set<GroupKey>, k: GroupKey, w: real, strict: bool)
    requires keys <= groups.Keys && k in keys
    ensures |ShorterIn(groups, keys, w, strict)| == |ShorterIn(groups, keys - {k}, w, strict)| + |Shorter(groups[k], w, strict)|
    ensures |RecordsIn(groups, keys)| == |RecordsIn(groups, keys - {k})| + |groups[k]|
  {
    hide Below;
    forall p, js ensures p in ShorterIn(groups, js, w, strict) <==>
        p.key in js && p.key in groups && p.rank in groups[p.key] && Below(groups[p.key][p.rank].dur as real, w, strict) {
      assert p == Record(p.key, p.rank);
    }
    forall p, js ensures p in RecordsIn(groups, js) <==> p.key in js && p.key in groups && p.rank in groups[p.key] {
      assert p == Record(p.key, p.rank);
    }
    hide ShorterIn, RecordsIn;
    AddGroup(ShorterIn(groups, keys, w, strict), ShorterIn(groups, keys - {k}, w, strict), k, Shorter(groups[k], w, strict));
    AddGroup(RecordsIn(groups, keys), RecordsIn(groups, keys - {k}), k, groups[k].Keys);
    assert |groups[k].Keys| == |groups[k]|;
  }

  /** The jitter floor is JitterFloor times a duration that is in the middle of those of all records of all groups
      with at least MinRanks ranks, inside the window or not: below w if more than half of them are, and only if at
      least half are. */
  lemma {:induction false} FloorExactly(cfg: Config, groups: Groups) returns (med: real)
    ensures JitterFloor(cfg, groups) == cfg.jitterFloor * med
    ensures RecordsIn(groups, ScoredKeys(cfg, groups)) == {} ==> med == 0.0
    ensures MiddleDuration(groups, ScoredKeys(cfg, groups), med)
  {
    hide ShorterIn, RecordsIn, BagMedian, Pool, Below, ScoredKeys, ScoredDurations, BagCount, MiddleDuration;
    var keys := ScoredKeys(cfg, groups);
    med := BagMedian(AllDurations(cfg, groups));
    ScoredPool(cfg, groups);
    KeysCount(groups, keys, 0.0, false);
    EmptyMedian(AllDurations(cfg, groups));
    MiddleOfKeys(groups, keys);
  }

  /** med is in the middle of the durations of the groups named by keys. */
  ghost predicate MiddleDuration(groups: Groups, keys: set<GroupKey>, med: real) {
    forall w, strict ::
      var below, all := |ShorterIn(groups, keys, w, strict)|, |RecordsIn(groups, keys)|;
      (2 * below > all ==> Below(med, w, strict)) && (all > 0 && Below(med, w, strict) ==> 2 * below >= all)
  }

  lemma {:induction false} ScoredPool(cfg: Config, groups: Groups)
    ensures ScoredKeys(cfg, groups) <= groups.Keys && AllDurations(cfg, groups) == Pool(DurationsAt(groups, ScoredKeys(cfg, groups)))
  {
    hide Durations;
    assert ScoredDurations(cfg, groups) == DurationsAt(groups, ScoredKeys(cfg, groups));
    hide Pool;
  }

  lemma {:induction false} MiddleOfKeys(groups: Groups, keys: set<GroupKey>)
    requires keys <= groups.Keys
    ensures MiddleDuration(groups, keys, BagMedian(Pool(DurationsAt(groups, keys))))
  {
    hide ShorterIn, RecordsIn, BagMedian, Pool, Below, DurationsAt, BagCount;
    var bag := Pool(DurationsAt(groups, keys));
    forall w, strict ensures
      var below, all := |ShorterIn(groups, keys, w, strict)|, |RecordsIn(groups, keys)|;
      (2 * below > all ==> Below(BagMedian(bag), w, strict)) && (all > 0 && Below(BagMedian(bag), w, strict) ==> 2 * below >= all)
    {
      KeysCount(groups, keys, w, strict);
      BagMedianByCount(bag, w, strict);
    }
  }

  lemma {:induction false} EmptyMedian(b: multiset<real>)
    ensures |b| == 0 ==> BagMedian(b) == 0.0
  {
  }

  lemma {:induction false} BagMedianByCount(b: multiset<real>, w: real, strict: bool)
    ensures 2 * BagCount(b, w, strict) > |b| ==> Below(BagMedian(b), w, strict)
    ensures |b| > 0 && Below(BagMedian(b), w, strict) ==> 2 * BagCount(b, w, strict) >= |b|
  {
    hide Count, Median;
    if |b| > 0 {
      MedianByCount(Arrange(b), w, strict);
    }
  }

  // ---------------------------------------------------------------- collectives with too few ranks

  lemma {:induction false} SameScored(cfg: Config, groups: Groups, k: GroupKey, cutoff: int)
    requires k in groups && |groups[k]| < cfg.minRanks
    ensures ScoredKeys(cfg, groups - {k}) == ScoredKeys(cfg, groups)
    ensures WindowKeys(cfg, groups - {k}, cutoff) == WindowKeys(cfg, groups, cutoff)
    ensures k !in WindowKeys(cfg, groups, cutoff)
  {
    hide Newest;
  }

  lemma {:induction false} SameJitter(cfg: Config, groups: Groups, k: GroupKey)
    requires k in groups && |groups[k]| < cfg.minRanks
    ensures JitterFloor(cfg, groups - {k}) == JitterFloor(cfg, groups)
  {
    hide AllDurations, ScoredKeys, DurationsAt, Pool, BagMedian;
    SameScored(cfg, groups, k, 0);
    ScoredPool(cfg, groups);
    ScoredPool(cfg, groups - {k});
    SameDurations(groups, ScoredKeys(cfg, groups), k);
  }

  lemma {:induction false} SameDurations(groups: Groups, keys: set<GroupKey>, k: GroupKey)
    requires keys <= groups.Keys && keys <= (groups - {k}).Keys
    ensures DurationsAt(groups - {k}, keys) == DurationsAt(groups, keys)
  {
    hide Durations;
  }

  lemma {:induction false} SameListing(groups: Groups, keys: set<GroupKey>, k: GroupKey, ks: seq<GroupKey>, gs: seq<GInfo>)
    requires k in groups && k !in keys
    ensures IsListing(groups, keys, ks, gs) <==> IsListing(groups - {k}, keys, ks, gs)
  {
    hide Describes, InOrder, Distinct;
    if keys <= groups.Keys && forall j :: j in ks <==> j in keys {
      forall i | 0 <= i < |ks| ensures ks[i] in groups && ks[i] != k {
        assert ks[i] in ks;
      }
    }
  }

  /** A collective that fewer than MinRanks ranks have recorded changes nothing the detector may return. */
  lemma {:induction false} FewRanksIgnored(cfg: Config, groups: Groups, k: GroupKey, cutoff: int, out: seq<Anomaly>)
    requires k in groups && |groups[k]| < cfg.minRanks
    ensures IsDetection(cfg, groups - {k}, cutoff, out) <==> IsDetection(cfg, groups, cutoff, out)
  {
    hide IsListing, IsReport, JitterFloor, WindowKeys;
    SameScored(cfg, groups, k, cutoff);
    SameJitter(cfg, groups, k);
    forall ks, gs ensures IsListing(groups, WindowKeys(cfg, groups, cutoff), ks, gs) <==>
                          IsListing(groups - {k}, WindowKeys(cfg, groups, cutoff), ks, gs) {
      SameListing(groups, WindowKeys(cfg, groups, cutoff), k, ks, gs);
    }
  }
}
