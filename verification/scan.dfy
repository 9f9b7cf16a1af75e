/** The loops of DetectAnomalies over the stored groups: scoring, collecting and sorting them. */
module Scan {
  import opened Events
  import opened Stats
  import opened Bags
  import opened Detection
  import opened Grouping

  /** IsListing without the order. */
  ghost predicate IsEnumeration(groups: Groups, keys: set<GroupKey>, ks: seq<GroupKey>, gs: seq<GInfo>) {
    && |ks| == |gs|
    && Distinct(ks)
    && (forall k :: k in ks <==> k in keys)
    && keys <= groups.Keys
    && (forall i :: 0 <= i < |ks| ==> Describes(gs[i], ks[i], groups[ks[i]]))
  }

  // ---------------------------------------------------------------- one group

  lemma {:induction false} MaxFromZeroUnique(s: set<int>, m: int)
    requires 0 <= m && (m == 0 || m in s)
    requires forall x :: x in s ==> x <= m
    ensures m == MaxFromZero(s)
  {
  }

  ghost predicate ScansTs(seen: set<Rank>, g: Group, newest: int) {
    && seen <= g.Keys && 0 <= newest && (newest == 0 || exists r :: r in seen && g[r].ts == newest)
    && forall r :: r in seen ==> g[r].ts <= newest
  }

  ghost predicate ScansDur(seen: set<Rank>, g: Group, maxDur: int) {
    && seen <= g.Keys && 0 <= maxDur && (maxDur == 0 || exists r :: r in seen && g[r].dur == maxDur)
    && forall r :: r in seen ==> g[r].dur <= maxDur
  }

  ghost predicate ScansOp(seen: set<Rank>, g: Group, op: string) {
    seen <= g.Keys && if seen == {} then op == "" else exists r :: r in seen && op == g[r].op
  }

  lemma {:induction false} ScannedTs(g: Group, newest: int)
    requires ScansTs(g.Keys, g, newest)
    ensures newest == Newest(g)
  {
    var s := set r | r in g :: g[r].ts;
    forall x | x in s ensures x <= newest {
      var r :| r in g && g[r].ts == x;
    }
    MaxFromZeroUnique(s, newest);
  }

  lemma {:induction false} ScannedDur(g: Group, maxDur: int)
    requires ScansDur(g.Keys, g, maxDur)
    ensures maxDur == MaxDur(g)
  {
    var s := set r | r in g :: g[r].dur;
    forall x | x in s ensures x <= maxDur {
      var r :| r in g && g[r].dur == x;
    }
    MaxFromZeroUnique(s, maxDur);
  }

  lemma {:induction false} DurationsExtend(seen: Group, r: Rank, e: Collective)
    requires r !in seen
    ensures Durations(seen[r := e]) == Durations(seen) + multiset{e.dur as real}
  {
    hide Pool;
    PoolInsert(DurationBags(seen), r, multiset{e.dur as real});
    assert DurationBags(seen[r := e]) == DurationBags(seen)[r := multiset{e.dur as real}];
  }

  /** What the loop over the group has computed once it has visited `seen`. */
  ghost predicate Scanned(g: Group, seen: Group, newest: int, maxDur: int, op: string, durs: seq<real>) {
    && ScansTs(seen.Keys, g, newest) && ScansDur(seen.Keys, g, maxDur) && ScansOp(seen.Keys, g, op)
    && multiset(durs) == Durations(seen)
  }

  lemma {:induction false} ScanStep(g: Group, seen: Group, newest: int, maxDur: int, op: string, durs: seq<real>, r: Rank)
    requires Scanned(g, seen, newest, maxDur, op, durs) && r in g && r !in seen
    ensures Scanned(g, seen[r := g[r]], if g[r].ts > newest then g[r].ts else newest,
                    if g[r].dur > maxDur then g[r].dur else maxDur, g[r].op, durs + [g[r].dur as real])
  {
    ScanTimes(seen.Keys, g, newest, maxDur, r);
    ScanOp(seen.Keys, g, op, r);
    DurationsExtend(seen, r, g[r]);
    assert seen[r := g[r]].Keys == seen.Keys + {r};
    hide Durations, ScansTs, ScansDur, ScansOp;
  }

  lemma {:induction false} ScanTimes(seen: set<Rank>, g: Group, newest: int, maxDur: int, r: Rank)
    requires ScansTs(seen, g, newest) && ScansDur(seen, g, maxDur) && r in g
    ensures ScansTs(seen + {r}, g, if g[r].ts > newest then g[r].ts else newest)
    ensures ScansDur(seen + {r}, g, if g[r].dur > maxDur then g[r].dur else maxDur)
  {
    assert r in seen + {r};
  }

  lemma {:induction false} ScanOp(seen: set<Rank>, g: Group, op: string, r: Rank)
    requires ScansOp(seen, g, op) && r in g
    ensures ScansOp(seen + {r}, g, g[r].op)
  {
    assert r in seen + {r};
  }

  lemma {:induction false} ScanDone(g: Group, newest: int, maxDur: int, op: string, durs: seq<real>)
    requires Scanned(g, g, newest, maxDur, op, durs)
    ensures newest == Newest(g) && maxDur == MaxDur(g) && multiset(durs) == Durations(g)
    ensures if g == map[] then op == "" else exists r :: r in g && op == g[r].op
  {
    hide Durations, Newest, MaxDur;
    ScannedTs(g, newest);
    ScannedDur(g, maxDur);
  }

  lemma {:induction false} ScanNothing(g: Group)
    ensures Scanned(g, map[], 0, 0, "", [])
  {
    hide Durations;
    EmptyDurations();
  }

  /** for _, e := range g: the newest timestamp, the longest duration, the op and the durations. */
  method ScanGroup(g: Group) returns (newest: int, maxDur: int, op: string, durs: seq<real>)
    ensures newest == Newest(g) && maxDur == MaxDur(g)
    ensures if g == map[] then op == "" else exists r :: r in g && op == g[r].op
    ensures multiset(durs) == Durations(g)
  {
    hide *;
    newest, maxDur, op, durs := 0, 0, "", [];
    var remaining := g.Keys;
    ghost var seen: Group := map[];
    ScanNothing(g);
    while remaining != {}
      invariant remaining <= g.Keys
      invariant seen == map r | r in g && r !in remaining :: g[r]
      invariant Scanned(g, seen, newest, maxDur, op, durs)
      decreases |remaining|
    {
      var r :| r in remaining;
      var e := g[r];
      ScanStep(g, seen, newest, maxDur, op, durs, r);
      if e.ts > newest {
        newest := e.ts;
      }
      if e.dur > maxDur {
        maxDur := e.dur;
      }
      op := e.op;
      durs := durs + [e.dur as real];
      remaining := remaining - {r};
      seen := seen[r := e];
    }
    assert seen == g;
    ScanDone(g, newest, maxDur, op, durs);
  }

  lemma {:induction false} EmptyDurations()
    ensures Durations(map[]) == multiset{}
  {
    assert DurationBags(map[]) == map[];
  }

  /** lags[r] = maxDur - own duration, for every member. */
  method LagsOfGroup(g: Group, maxDur: int) returns (lags: map<Rank, real>)
    requires maxDur == MaxDur(g)
    ensures lags == LagsOf(g)
  {
    hide MaxDur;
    lags := map[];
    var remaining := g.Keys;
    while remaining != {}
      invariant remaining <= g.Keys
      invariant lags == map r | r in g.Keys - remaining :: (maxDur - g[r].dur) as real
      decreases |remaining|
    {
      var r :| r in remaining;
      lags := lags[r := (maxDur - g[r].dur) as real];
      remaining := remaining - {r};
    }
  }

  // ---------------------------------------------------------------- all groups

  /** s with x put in at position i. */
  function InsertAt<T>(s: seq<T>, i: nat, x: T): (t: seq<T>)
    requires i <= |s|
    ensures |t| == |s| + 1 && t[i] == x
    ensures forall j :: 0 <= j < i ==> t[j] == s[j]
    ensures forall j :: i < j < |t| ==> t[j] == s[j - 1]
  {
    s[..i] + [x] + s[i..]
  }

  lemma {:induction false} InsertMember<T>(s: seq<T>, i: nat, x: T, y: T)
    requires i <= |s|
    ensures y in InsertAt(s, i, x) <==> y in s || y == x
  {
    assert s == s[..i] + s[i..];
    assert y in s <==> y in s[..i] || y in s[i..];
  }

  lemma {:induction false} InsertDistinct<T>(s: seq<T>, i: nat, x: T)
    requires i <= |s| && Distinct(s) && x !in s
    ensures Distinct(InsertAt(s, i, x))
  {
    assert forall j :: 0 <= j < |s| ==> s[j] in s;
  }

  lemma {:induction false} EnumerationExtend(groups: Groups, keys: set<GroupKey>, ks: seq<GroupKey>, gs: seq<GInfo>,
                                             i: nat, k: GroupKey, gi: GInfo)
    requires IsEnumeration(groups, keys, ks, gs) && i <= |ks| == |gs|
    requires k in groups && k !in keys && Describes(gi, k, groups[k])
    ensures IsEnumeration(groups, keys + {k}, InsertAt(ks, i, k), InsertAt(gs, i, gi))
  {
    hide Describes, Distinct, InsertAt;
    InsertDistinct(ks, i, k);
    forall x ensures x in InsertAt(ks, i, k) <==> x in keys + {k} {
      InsertMember(ks, i, k, x);
    }
    var ks', gs' := InsertAt(ks, i, k), InsertAt(gs, i, gi);
    forall j | 0 <= j < |ks'| ensures ks'[j] in groups && Describes(gs'[j], ks'[j], groups[ks'[j]]) {
      if j < i {
        assert ks'[j] == ks[j];
      } else if j > i {
        assert ks'[j] == ks[j - 1];
      }
    }
  }

  lemma {:induction false} ScoredExtend(cfg: Config, seen: Groups, k: GroupKey, g: Group)
    requires k !in seen
    ensures ScoredKeys(cfg, seen[k := g]) == ScoredKeys(cfg, seen) + if |g| >= cfg.minRanks then {k} else {}
  {
  }

  lemma {:induction false} ScoredDurationsAt(cfg: Config, seen: Groups, k: GroupKey, g: Group, j: GroupKey)
    requires k !in seen && j in ScoredKeys(cfg, seen)
    ensures j != k && j in ScoredKeys(cfg, seen[k := g])
    ensures ScoredDurations(cfg, seen[k := g])[j] == ScoredDurations(cfg, seen)[j]
  {
    hide Durations;
    ScoredExtend(cfg, seen, k, g);
    InSeen(cfg, seen, j);
  }

  lemma {:induction false} SameMap<K, V>(a: map<K, V>, b: map<K, V>)
    requires a.Keys == b.Keys && forall k :: k in a ==> a[k] == b[k]
    ensures a == b
  {
  }

  lemma {:induction false} ScoredDurationsExtend(cfg: Config, seen: Groups, k: GroupKey, g: Group)
    requires k !in seen
    ensures ScoredDurations(cfg, seen[k := g]) ==
      if |g| >= cfg.minRanks then ScoredDurations(cfg, seen)[k := Durations(g)] else ScoredDurations(cfg, seen)
  {
    hide *;
    ScoredExtend(cfg, seen, k, g);
    forall j | j in ScoredKeys(cfg, seen)
      ensures j != k && ScoredDurations(cfg, seen[k := g])[j] == ScoredDurations(cfg, seen)[j]
    {
      ScoredDurationsAt(cfg, seen, k, g, j);
    }
    if |g| >= cfg.minRanks {
      ScoredDurationsNew(cfg, seen, k, g);
      SameMap(ScoredDurations(cfg, seen[k := g]), ScoredDurations(cfg, seen)[k := Durations(g)]);
    } else {
      SameMap(ScoredDurations(cfg, seen[k := g]), ScoredDurations(cfg, seen));
    }
  }

  lemma {:induction false} ScoredDurationsNew(cfg: Config, seen: Groups, k: GroupKey, g: Group)
    requires |g| >= cfg.minRanks
    ensures k in ScoredKeys(cfg, seen[k := g]) && ScoredDurations(cfg, seen[k := g])[k] == Durations(g)
  {
    hide Durations;
  }

  lemma {:induction false} AllDurationsExtend(cfg: Config, seen: Groups, k: GroupKey, g: Group)
    requires k !in seen
    ensures AllDurations(cfg, seen[k := g]) == AllDurations(cfg, seen) + if |g| >= cfg.minRanks then Durations(g) else multiset{}
  {
    hide Durations, Pool, ScoredKeys, ScoredDurations;
    ScoredDurationsExtend(cfg, seen, k, g);
    if |g| >= cfg.minRanks {
      NotScored(cfg, seen, k);
      PoolInsert(ScoredDurations(cfg, seen), k, Durations(g));
    }
  }

  lemma {:induction false} NotScored(cfg: Config, seen: Groups, k: GroupKey)
    requires k !in seen
    ensures k !in ScoredKeys(cfg, seen)
  {
  }

  lemma {:induction false} InSeen(cfg: Config, seen: Groups, k: GroupKey)
    requires k in ScoredKeys(cfg, seen)
    ensures k in seen
  {
  }

  lemma {:induction false} WindowExtend(cfg: Config, seen: Groups, k: GroupKey, g: Group, cutoff: int)
    requires k !in seen
    ensures WindowKeys(cfg, seen[k := g], cutoff)
         == WindowKeys(cfg, seen, cutoff) + if |g| >= cfg.minRanks && Newest(g) >= cutoff then {k} else {}
  {
    hide Newest;
  }

  lemma {:induction false} EnumerationWeaken(seen: Groups, k: GroupKey, g: Group, keys: set<GroupKey>, ks: seq<GroupKey>, gs: seq<GInfo>)
    requires IsEnumeration(seen, keys, ks, gs) && k !in seen
    ensures IsEnumeration(seen[k := g], keys, ks, gs)
  {
    hide Describes;
    assert forall i :: 0 <= i < |ks| ==> ks[i] in ks;
  }

  /** for k, g := range c.groups: the scored groups of the window, unsorted, and the durations of all scored groups. */
  method CollectGroups(cfg: Config, groups: Groups, cutoff: int)
    returns (gs: seq<GInfo>, durs: seq<real>, ghost ks: seq<GroupKey>)
    ensures IsEnumeration(groups, WindowKeys(cfg, groups, cutoff), ks, gs)
    ensures multiset(durs) == AllDurations(cfg, groups)
  {
    hide AllDurations, WindowKeys, IsEnumeration, Describes, Durations, LagsOf, Newest, MaxDur;
    gs, durs, ks := [], [], [];
    var remaining := groups.Keys;
    ghost var seen: Groups := map[];
    NothingCollected(cfg, cutoff);
    while remaining != {}
      invariant remaining <= groups.Keys
      invariant seen == map k | k in groups.Keys - remaining :: groups[k]
      invariant IsEnumeration(seen, WindowKeys(cfg, seen, cutoff), ks, gs)
      invariant multiset(durs) == AllDurations(cfg, seen)
      decreases |remaining|
    {
      var k :| k in remaining;
      var g := groups[k];
      remaining := remaining - {k};
      AllDurationsExtend(cfg, seen, k, g);
      WindowExtend(cfg, seen, k, g, cutoff);
      EnumerationWeaken(seen, k, g, WindowKeys(cfg, seen, cutoff), ks, gs);
      ghost var before := seen;
      seen := seen[k := g];
      assert seen == map k | k in groups.Keys - remaining :: groups[k];
      if |g| >= cfg.minRanks {
        var newest, maxDur, op, ds := ScanGroup(g);
        durs := durs + ds;
        if newest >= cutoff {
          var lags := LagsOfGroup(g, maxDur);
          var gi := GInfo(newest, k.seqId, op, lags);
          NotYet(cfg, before, cutoff, k);
          EnumerationAppend(seen, WindowKeys(cfg, before, cutoff), ks, gs, k, gi, g);
          gs, ks := gs + [gi], ks + [k];
        }
      }
    }
    assert seen == groups;
  }

  lemma {:induction false} NothingCollected(cfg: Config, cutoff: int)
    ensures IsEnumeration(map[], WindowKeys(cfg, map[], cutoff), [], []) && AllDurations(cfg, map[]) == multiset{}
  {
    assert ScoredDurations(cfg, map[]) == map[];
  }

  lemma {:induction false} NotYet(cfg: Config, seen: Groups, cutoff: int, k: GroupKey)
    requires k !in seen
    ensures k !in WindowKeys(cfg, seen, cutoff)
  {
  }

  lemma {:induction false} EnumerationAppend(groups: Groups, keys: set<GroupKey>, ks: seq<GroupKey>, gs: seq<GInfo>,
                                             k: GroupKey, gi: GInfo, g: Group)
    requires IsEnumeration(groups, keys, ks, gs) && k in groups && k !in keys && groups[k] == g
    requires gi.ts == Newest(g) && gi.seqId == k.seqId && gi.lags == LagsOf(g)
    requires if g == map[] then gi.op == "" else exists r :: r in g && gi.op == g[r].op
    ensures IsEnumeration(groups, keys + {k}, ks + [k], gs + [gi])
  {
    assert Describes(gi, k, g);
    hide Describes, IsEnumeration;
    EnumerationLength(groups, keys, ks, gs);
    EnumerationExtend(groups, keys, ks, gs, |ks|, k, gi);
    assert InsertAt(ks, |ks|, k) == ks + [k];
    assert InsertAt(gs, |gs|, gi) == gs + [gi];
  }

  lemma {:induction false} EnumerationLength(groups: Groups, keys: set<GroupKey>, ks: seq<GroupKey>, gs: seq<GInfo>)
    requires IsEnumeration(groups, keys, ks, gs)
    ensures |ks| == |gs|
  {
  }

  // ---------------------------------------------------------------- sorting

  lemma {:induction false} BeforeTransitive(a: GInfo, b: GInfo, c: GInfo)
    ensures !Before(b, a) && !Before(c, b) ==> !Before(c, a)
    ensures Before(a, b) ==> !Before(b, a)
  {
  }

  lemma {:induction false} InsertInOrder(gs: seq<GInfo>, i: nat, g: GInfo)
    requires InOrder(gs) && i <= |gs|
    requires forall j :: 0 <= j < i ==> !Before(g, gs[j])
    requires forall j :: i <= j < |gs| ==> !Before(gs[j], g)
    ensures InOrder(InsertAt(gs, i, g))
  {
    hide Before, InsertAt;
  }

  /** sort.Slice by (ts, seq). The order of ties is the sort's own; here they keep that of the input. */
  method SortGroups(groups: Groups, ghost keys: set<GroupKey>, ghost ks: seq<GroupKey>, gs: seq<GInfo>)
    returns (sorted: seq<GInfo>, ghost ls: seq<GroupKey>)
    requires IsEnumeration(groups, keys, ks, gs)
    ensures IsListing(groups, keys, ls, sorted)
    ensures InOrder(sorted) && multiset(sorted) == multiset(gs)
  {
    hide *;
    sorted, ls := [], [];
    EnumerationStart(groups, ks);
    for n := 0 to |gs|
      invariant IsEnumeration(groups, Named(ks, n), ls, sorted) && InOrder(sorted)
      invariant multiset(sorted) == multiset(gs[..n])
    {
      EnumerationAt(groups, keys, ks, gs, n);
      EnumerationLength(groups, Named(ks, n), ls, sorted);
      var i := Position(sorted, gs[n]);
      InsertInOrder(sorted, i, gs[n]);
      EnumerationExtend(groups, Named(ks, n), ls, sorted, i, ks[n], gs[n]);
      InsertedBag(gs, n, sorted, i);
      sorted, ls := InsertAt(sorted, i, gs[n]), InsertAt(ls, i, ks[n]);
    }
    EnumerationEnd(groups, keys, ks, gs, ls, sorted);
  }

  /** The first n keys. */
  ghost function Named(ks: seq<GroupKey>, n: nat): set<GroupKey> {
    set j | 0 <= j < n && j < |ks| :: ks[j]
  }

  lemma {:induction false} EnumerationStart(groups: Groups, ks: seq<GroupKey>)
    ensures IsEnumeration(groups, Named(ks, 0), [], []) && InOrder([])
  {
  }

  lemma {:induction false} EnumerationAt(groups: Groups, keys: set<GroupKey>, ks: seq<GroupKey>, gs: seq<GInfo>, n: nat)
    requires IsEnumeration(groups, keys, ks, gs) && n < |gs|
    ensures n < |ks| && ks[n] in groups && Describes(gs[n], ks[n], groups[ks[n]])
    ensures ks[n] !in Named(ks, n) && Named(ks, n + 1) == Named(ks, n) + {ks[n]}
  {
    hide Describes;
    assert ks[n] in ks;
  }

  lemma {:induction false} EnumerationEnd(groups: Groups, keys: set<GroupKey>, ks: seq<GroupKey>, gs: seq<GInfo>,
                                          ls: seq<GroupKey>, sorted: seq<GInfo>)
    requires IsEnumeration(groups, keys, ks, gs) && InOrder(sorted) && IsEnumeration(groups, Named(ks, |gs|), ls, sorted)
    ensures IsListing(groups, keys, ls, sorted) && gs[..|gs|] == gs
  {
    hide Describes;
    assert Named(ks, |gs|) == keys;
  }

  lemma {:induction false} InsertedBag(gs: seq<GInfo>, n: nat, sorted: seq<GInfo>, i: nat)
    requires n < |gs| && i <= |sorted| && multiset(sorted) == multiset(gs[..n])
    ensures multiset(InsertAt(sorted, i, gs[n])) == multiset(gs[..n + 1])
  {
    assert gs[..n + 1] == gs[..n] + [gs[n]];
    assert sorted == sorted[..i] + sorted[i..];
  }

  /** The place of g among the sorted list, behind its equals. */
  method Position(gs: seq<GInfo>, g: GInfo) returns (i: nat)
    requires InOrder(gs)
    ensures i <= |gs|
    ensures forall j :: 0 <= j < i ==> !Before(g, gs[j])
    ensures forall j :: i <= j < |gs| ==> !Before(gs[j], g)
  {
    i := |gs|;
    while i > 0 && Before(g, gs[i - 1])
      invariant i <= |gs|
      invariant forall j :: i <= j < |gs| ==> !Before(gs[j], g)
    {
      i := i - 1;
    }
    if i > 0 {
      forall j | 0 <= j < i ensures !Before(g, gs[j]) {
        if j < i - 1 {
          BeforeTransitive(gs[j], gs[i - 1], g);
        }
      }
    }
  }
}
