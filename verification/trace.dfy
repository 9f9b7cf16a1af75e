/** A fault in a recorded trace, followed from the events to the attribution. */
module Traces {
  import opened Events
  import opened Stats
  import opened Detection
  import opened Grouping
  import opened Store
  import opened Scores
  import opened Order
  import opened Noise
  import opened Exact
  import opened Blame
  import opened Floors
  import opened Attributions
  import opened Correlators
  import opened Coordinators

  // ---------------------------------------------------------------- the window of an analysis

  /** Of a trace whose timestamps are below 2^62 an analysis looks at every collective with enough ranks, however
      long before the last event. */
  lemma {:induction false} WholeTrace(events: seq<Event>, o: Options, root: Root)
    requires forall e :: e in events ==> e.ts < 0x4000_0000_0000_0000
    ensures var groups := GroupsAfter(Replay(events), 0);
            WindowKeys(AnalysisConfig(o, root), groups, Latest(Replay(events)) - SPAN) == ScoredKeys(AnalysisConfig(o, root), groups)
  {
    var log := Replay(events);
    hide GroupsAfter, Replay, Latest, RootLike, WindowKeys, ScoredKeys;
    LatestIs(log);
    ReplayMembers(events);
    if Latest(log) != 0 {
      var i :| 0 <= i < |log| && log[i].event.ts == Latest(log);
      assert events[i] in events;
    }
    WholeWindow(AnalysisConfig(o, root), GroupsAfter(log, 0), Latest(log) - SPAN);
  }

  lemma {:induction false} ReplayMembers(events: seq<Event>)
    ensures forall i :: 0 <= i < |events| ==> Replay(events)[i] == Entry(events[i].rank, events[i])
  {
    if events != [] {
      ReplayMembers(events[..|events| - 1]);
    }
  }

  // ---------------------------------------------------------------- what a trace records

  /** The record that rank r's last event of the collective leaves. */
  function RecordOf(events: seq<Event>, k: GroupKey, r: Rank): (e: Option<Event>)
    ensures e.Some? ==> e.value.NCCL?
  {
    LastWith(OfRank(events, r), k)
  }

  function Ts(events: seq<Event>, k: GroupKey, r: Rank): int {
    var e := RecordOf(events, k, r);
    if e.Some? then e.value.ts else 0
  }

  function Dur(events: seq<Event>, k: GroupKey, r: Rank): int {
    var e := RecordOf(events, k, r);
    if e.Some? then e.value.dur else 0
  }

  /** The trace records the collectives of run, one after another, each of the ranks taking part in each. */
  ghost predicate Traced(events: seq<Event>, run: seq<GroupKey>, ranks: set<Rank>) {
    && (forall e :: e in events && e.NCCL? ==> KeyOf(e) in run && e.rank in ranks)
    && (forall k, r :: k in run && r in ranks ==> RecordOf(events, k, r).Some? && Ts(events, k, r) >= 0 && Dur(events, k, r) >= 0)
    && (forall i, j :: 0 <= i < j < |run| ==> EndsBefore(events, run[i], run[j], ranks))
  }

  /** Some record of l is later than every record of k. */
  ghost predicate EndsBefore(events: seq<Event>, k: GroupKey, l: GroupKey, ranks: set<Rank>) {
    exists r :: r in ranks && forall q :: q in ranks ==> Ts(events, k, q) < Ts(events, l, r)
  }

  /** Is the record of rank p in collective i one of s in the fault? */
  predicate Faulty(s: Rank, from: nat, to: nat, i: int, p: Rank) {
    p == s && from <= i < to
  }

  /** But for s in the fault, the durations of a collective are within w of one another. */
  ghost predicate Jitters(events: seq<Event>, run: seq<GroupKey>, ranks: set<Rank>, s: Rank, from: nat, to: nat, w: real) {
    forall i, p, q :: 0 <= i < |run| && p in ranks && q in ranks && !Faulty(s, from, to, i, p) && !Faulty(s, from, to, i, q) ==>
      (Dur(events, run[i], q) - Dur(events, run[i], p)) as real <= w
  }

  /** In the fault s takes at least d less than each of its peers. */
  ghost predicate Leads(events: seq<Event>, run: seq<GroupKey>, ranks: set<Rank>, s: Rank, from: nat, to: nat, d: real) {
    forall i, p :: from <= i < to && i < |run| && p in ranks && p != s ==>
      Dur(events, run[i], s) as real + d <= Dur(events, run[i], p) as real
  }

  /** Durations are at most hi and, but for s in the fault, at least lo. */
  ghost predicate Lasts(events: seq<Event>, run: seq<GroupKey>, ranks: set<Rank>, s: Rank, from: nat, to: nat, lo: real, hi: real) {
    forall i, p :: 0 <= i < |run| && p in ranks ==>
      Dur(events, run[i], p) as real <= hi && (!Faulty(s, from, to, i, p) ==> lo <= Dur(events, run[i], p) as real)
  }

  /** The fault of rank s on the collectives [from, to), whose records of s are less than half of all. */
  ghost predicate TraceFault(events: seq<Event>, run: seq<GroupKey>, ranks: set<Rank>, s: Rank, from: nat, to: nat,
                             w: real, d: real, lo: real, hi: real) {
    && |ranks| >= 2 && s in ranks && from <= to <= |run| && 2 * (to - from) < |run| * |ranks|
    && Jitters(events, run, ranks, s, from, to, w) && Leads(events, run, ranks, s, from, to, d)
    && Lasts(events, run, ranks, s, from, to, lo, hi)
  }

  // ---------------------------------------------------------------- the table it leaves

  lemma {:induction false} OfRankMember(events: seq<Event>, r: Rank, e: Event)
    requires e in OfRank(events, r)
    ensures e in events && e.rank == r
  {
    var n := |events| - 1;
    assert events == events[..n] + [events[n]];
    if e in OfRank(events[..n], r) {
      OfRankMember(events[..n], r, e);
    }
  }

  lemma {:induction false} LookupTrace(events: seq<Event>, k: GroupKey, r: Rank)
    ensures Lookup(GroupsAfter(Replay(events), 0), k, r) == RecordOf(events, k, r)
  {
    hide Lookup, GroupsAfter, Replay, LastWith, OfRank, RankLog;
    TableExactly(Replay(events), k, r);
    ReplayOfRank(events, r);
  }

  lemma {:induction false} NoStranger(events: seq<Event>, run: seq<GroupKey>, ranks: set<Rank>, k: GroupKey, r: Rank)
    requires Traced(events, run, ranks) && RecordOf(events, k, r).Some?
    ensures k in run && r in ranks
  {
    var e := RecordOf(events, k, r).value;
    OfRankMember(events, r, e);
    hide OfRank, EndsBefore;
  }

  /** The table holds exactly the collectives of the run, each with its ranks' records. */
  ghost predicate Holds(groups: Groups, events: seq<Event>, run: seq<GroupKey>, ranks: set<Rank>) {
    && (forall k :: k in groups <==> k in run)
    && (forall k :: k in run && k in groups ==> groups[k].Keys == ranks)
    && (forall k, r :: k in run && k in groups && r in ranks && r in groups[k] ==>
         groups[k][r].ts == Ts(events, k, r) && groups[k][r].dur == Dur(events, k, r))
  }

  lemma {:induction false} TableHolds(events: seq<Event>, run: seq<GroupKey>, ranks: set<Rank>)
    requires Traced(events, run, ranks) && ranks != {}
    ensures Holds(GroupsAfter(Replay(events), 0), events, run, ranks)
  {
    var groups := GroupsAfter(Replay(events), 0);
    hide GroupsAfter, Replay, RecordOf, EndsBefore;
    forall k ensures k in groups <==> k in run {
      KeyHeld(events, run, ranks, k);
    }
    forall k, r ensures Lookup(groups, k, r) == RecordOf(events, k, r) {
      LookupTrace(events, k, r);
    }
    forall k | k in run && k in groups ensures groups[k].Keys == ranks {
      forall r ensures r in groups[k] <==> r in ranks {
        if r in groups[k] {
          NoStranger(events, run, ranks, k, r);
        }
      }
    }
  }

  lemma {:induction false} KeyHeld(events: seq<Event>, run: seq<GroupKey>, ranks: set<Rank>, k: GroupKey)
    requires Traced(events, run, ranks) && ranks != {}
    ensures k in GroupsAfter(Replay(events), 0) <==> k in run
  {
    var groups := GroupsAfter(Replay(events), 0);
    hide GroupsAfter, Replay, RecordOf, EndsBefore;
    if k in groups {
      GroupsInvariant(Replay(events), 0, k);
      var r :| r in groups[k];
      LookupTrace(events, k, r);
      NoStranger(events, run, ranks, k, r);
    }
    if k in run {
      var r :| r in ranks;
      LookupTrace(events, k, r);
    }
  }

  // ---------------------------------------------------------------- its order

  lemma {:induction false} NewestHeld(groups: Groups, events: seq<Event>, run: seq<GroupKey>, ranks: set<Rank>, k: GroupKey, l: GroupKey)
    requires Holds(groups, events, run, ranks) && k in run && l in run && EndsBefore(events, k, l, ranks)
    requires forall r :: r in ranks ==> Ts(events, k, r) >= 0
    ensures k in groups && l in groups && Newest(groups[k]) < Newest(groups[l])
  {
    hide Ts, Dur;
    var r :| r in ranks && forall q :: q in ranks ==> Ts(events, k, q) < Ts(events, l, r);
    NewestAtLeast(groups[l], r);
    assert Ts(events, k, r) < Ts(events, l, r);
    NewestIs(groups[k]);
    hide Newest;
  }

  lemma {:induction false} NewestIs(g: Group)
    ensures Newest(g) == 0 || exists q :: q in g && g[q].ts == Newest(g)
  {
    var s := set q | q in g :: g[q].ts;
    assert Newest(g) == MaxFromZero(s);
  }

  lemma {:induction false} RunOrdered(groups: Groups, events: seq<Event>, run: seq<GroupKey>, ranks: set<Rank>)
    requires Holds(groups, events, run, ranks) && Traced(events, run, ranks)
    ensures Ascending(groups, groups.Keys, run) && NoTies(groups, groups.Keys)
  {
    hide Newest, RecordOf, Ts, Dur, EndsBefore;
    forall i, j | 0 <= i < j < |run| ensures run[i] in groups && run[j] in groups && Newest(groups[run[i]]) < Newest(groups[run[j]]) {
      assert run[i] in run && run[j] in run;
      assert EndsBefore(events, run[i], run[j], ranks);
      NewestHeld(groups, events, run, ranks, run[i], run[j]);
    }
    forall a, b | a in groups && b in groups && a != b ensures KeyBefore(groups, a, b) || KeyBefore(groups, b, a) {
      var i :| 0 <= i < |run| && run[i] == a;
      var j :| 0 <= j < |run| && run[j] == b;
      assert i < j || j < i;
    }
  }

  // ---------------------------------------------------------------- the fault in the table

  lemma {:induction false} Interval(lo: nat, hi: nat, s: set<nat>)
    requires lo <= hi && forall i: nat :: i in s <==> lo <= i < hi
    ensures |s| == hi - lo
  {
    if lo < hi {
      Interval(lo, hi - 1, s - {hi - 1});
    } else {
      assert s == {};
    }
  }

  lemma {:induction false} AllPresent(groups: Groups, ks: seq<GroupKey>, lo: nat, hi: nat, r: Rank)
    requires lo <= hi <= |ks| && forall i :: lo <= i < hi ==> ks[i] in groups && r in groups[ks[i]]
    ensures PresentIn(groups, ks, lo, hi, r) == hi - lo
  {
    Interval(lo, hi, set i: nat | lo <= i < hi && i < |ks| && ks[i] in groups && r in groups[ks[i]]);
  }

  lemma {:induction false} TableFault(groups: Groups, events: seq<Event>, run: seq<GroupKey>, ranks: set<Rank>, s: Rank,
                                      from: nat, to: nat, w: real, d: real, lo: real, hi: real)
    requires Holds(groups, events, run, ranks) && Traced(events, run, ranks)
    requires TraceFault(events, run, ranks, s, from, to, w, d, lo, hi)
    ensures FaultIn(groups, run, 30, 30, s, from, to, w, d)
  {
    hide Holds, Traced, TraceFault, FaultIn, Lagging, Agrees, RecordedIn, Inside;
    FaultRange(events, run, ranks, s, from, to, w, d, lo, hi);
    forall k | k in run ensures k in groups {
      KeyIn(groups, events, run, ranks, k);
    }
    forall i | from <= i < to ensures run[i] in groups && Lagging(groups[run[i]], s, w, d) {
      FaultyGroup(groups, events, run, ranks, s, from, to, w, d, lo, hi, i);
    }
    forall i | 0 <= i < |run| && !(from <= i < to) ensures run[i] in groups && Agrees(groups[run[i]], w) {
      HealthyGroup(groups, events, run, ranks, s, from, to, w, d, lo, hi, i);
    }
    forall b: nat | Inside(30, b, from, to) ensures RecordedIn(groups, run, b * 30, b * 30 + 30, s, 30) {
      InsideRun(b, from, to, |run|);
      BlockRecorded(groups, events, run, ranks, s, b * 30);
    }
    FaultFrom(groups, run, s, from, to, w, d);
  }

  lemma {:induction false} InsideRun(b: nat, from: nat, to: nat, n: nat)
    requires Inside(30, b, from, to) && to <= n
    ensures b * 30 + 30 <= n
  {
  }

  lemma {:induction false} FaultFrom(groups: Groups, run: seq<GroupKey>, s: Rank, from: nat, to: nat, w: real, d: real)
    requires from <= to <= |run| && forall k :: k in run ==> k in groups
    requires forall i :: from <= i < to ==> run[i] in groups && Lagging(groups[run[i]], s, w, d)
    requires forall i :: 0 <= i < |run| && !(from <= i < to) ==> run[i] in groups && Agrees(groups[run[i]], w)
    requires forall b: nat :: Inside(30, b, from, to) ==> RecordedIn(groups, run, b * 30, b * 30 + 30, s, 30)
    ensures FaultIn(groups, run, 30, 30, s, from, to, w, d)
  {
    hide Lagging, Agrees, RecordedIn, Inside;
  }

  lemma {:induction false} FaultRange(events: seq<Event>, run: seq<GroupKey>, ranks: set<Rank>, s: Rank, from: nat, to: nat,
                                      w: real, d: real, lo: real, hi: real)
    requires TraceFault(events, run, ranks, s, from, to, w, d, lo, hi)
    ensures from <= to <= |run| && s in ranks && |ranks| >= 2
  {
    hide Jitters, Leads, Lasts;
  }

  lemma {:induction false} KeyIn(groups: Groups, events: seq<Event>, run: seq<GroupKey>, ranks: set<Rank>, k: GroupKey)
    requires Holds(groups, events, run, ranks) && k in run
    ensures k in groups
  {
    hide Ts, Dur;
  }

  lemma {:induction false} FaultyGroup(groups: Groups, events: seq<Event>, run: seq<GroupKey>, ranks: set<Rank>, s: Rank,
                                       from: nat, to: nat, w: real, d: real, lo: real, hi: real, i: nat)
    requires Holds(groups, events, run, ranks) && Traced(events, run, ranks) && from <= i < to
    requires TraceFault(events, run, ranks, s, from, to, w, d, lo, hi)
    ensures run[i] in groups && Lagging(groups[run[i]], s, w, d)
  {
    hide Lagging, Holds, Traced, Lasts;
    HeldGroup(groups, events, run, ranks, i);
    LaggingFrom(groups[run[i]], events, run, ranks, s, from, to, w, d, i);
  }

  /** Group g holds the records of collective i. */
  ghost predicate HoldsAt(g: Group, events: seq<Event>, run: seq<GroupKey>, ranks: set<Rank>, i: nat)
    requires i < |run|
  {
    g.Keys == ranks && forall r :: r in g ==> g[r].dur == Dur(events, run[i], r) >= 0
  }

  lemma {:induction false} HeldGroup(groups: Groups, events: seq<Event>, run: seq<GroupKey>, ranks: set<Rank>, i: nat)
    requires Holds(groups, events, run, ranks) && Traced(events, run, ranks) && i < |run|
    ensures run[i] in groups && HoldsAt(groups[run[i]], events, run, ranks, i)
  {
    hide Ts, Dur, RecordOf, EndsBefore;
    assert run[i] in run;
  }

  lemma {:induction false} LaggingFrom(g: Group, events: seq<Event>, run: seq<GroupKey>, ranks: set<Rank>, s: Rank,
                                       from: nat, to: nat, w: real, d: real, i: nat)
    requires from <= i < to <= |run| && HoldsAt(g, events, run, ranks, i) && |ranks| >= 2
    requires Jitters(events, run, ranks, s, from, to, w) && Leads(events, run, ranks, s, from, to, d)
    ensures Lagging(g, s, w, d)
  {
    hide Dur;
    SomePeer(ranks, s);
    forall p, q | p in g && q in g && p != s && q != s ensures (g[q].dur - g[p].dur) as real <= w {
      assert !Faulty(s, from, to, i, p) && !Faulty(s, from, to, i, q);
      assert (Dur(events, run[i], q) - Dur(events, run[i], p)) as real <= w;
    }
    hide Jitters;
    forall p | p in g && p != s && s in g ensures g[s].dur as real + d <= g[p].dur as real {
      assert Dur(events, run[i], s) as real + d <= Dur(events, run[i], p) as real;
    }
  }

  lemma {:induction false} AgreesFrom(g: Group, events: seq<Event>, run: seq<GroupKey>, ranks: set<Rank>, s: Rank,
                                      from: nat, to: nat, w: real, i: nat)
    requires i < |run| && !(from <= i < to) && HoldsAt(g, events, run, ranks, i) && Jitters(events, run, ranks, s, from, to, w)
    ensures Agrees(g, w)
  {
    hide Dur;
    forall r, q | r in g && q in g ensures (g[q].dur - g[r].dur) as real <= w {
      assert !Faulty(s, from, to, i, r) && !Faulty(s, from, to, i, q);
      assert (Dur(events, run[i], q) - Dur(events, run[i], r)) as real <= w;
    }
  }

  lemma {:induction false} SomePeer(ranks: set<Rank>, s: Rank)
    requires |ranks| >= 2
    ensures exists p :: p in ranks && p != s
  {
    if s in ranks {
      assert |ranks - {s}| >= 1;
      var p :| p in ranks - {s};
    } else {
      var p :| p in ranks;
    }
  }

  lemma {:induction false} HealthyGroup(groups: Groups, events: seq<Event>, run: seq<GroupKey>, ranks: set<Rank>, s: Rank,
                                        from: nat, to: nat, w: real, d: real, lo: real, hi: real, i: nat)
    requires Holds(groups, events, run, ranks) && Traced(events, run, ranks) && i < |run| && !(from <= i < to)
    requires TraceFault(events, run, ranks, s, from, to, w, d, lo, hi)
    ensures run[i] in groups && Agrees(groups[run[i]], w)
  {
    hide Agrees, Holds, Traced, Lasts, Leads;
    HeldGroup(groups, events, run, ranks, i);
    AgreesFrom(groups[run[i]], events, run, ranks, s, from, to, w, i);
  }

  lemma {:induction false} BlockRecorded(groups: Groups, events: seq<Event>, run: seq<GroupKey>, ranks: set<Rank>, s: Rank, at: nat)
    requires Holds(groups, events, run, ranks) && |ranks| >= 2 && s in ranks && at + 30 <= |run|
    ensures RecordedIn(groups, run, at, at + 30, s, 30)
  {
    hide Ts, Dur, PresentIn;
    forall i | at <= i < at + 30 ensures run[i] in groups && groups[run[i]].Keys == ranks {
      assert run[i] in run;
    }
    AllPresent(groups, run, at, at + 30, s);
    SomePeer(ranks, s);
    var p :| p in ranks && p != s;
    AllPresent(groups, run, at, at + 30, p);
  }

  // ---------------------------------------------------------------- its floor

  lemma {:induction false} KeysOfRun(run: seq<GroupKey>, keys: set<GroupKey>)
    requires (forall k :: k in keys <==> k in run) && forall i, j :: 0 <= i < j < |run| ==> run[i] != run[j]
    ensures |keys| == |run|
  {
    if run != [] {
      var n := |run| - 1;
      assert run == run[..n] + [run[n]];
      KeysOfRun(run[..n], keys - {run[n]});
    } else {
      assert keys == {};
    }
  }

  lemma {:induction false} RecordsSize(groups: Groups, keys: set<GroupKey>, n: nat)
    requires keys <= groups.Keys && forall k :: k in keys ==> |groups[k]| == n
    ensures |RecordsIn(groups, keys)| == |keys| * n
  {
    hide RecordsIn;
    if k :| k in keys {
      RecordsSize(groups, keys - {k}, n);
      ShorterStep(groups, keys, k, 0.0, false);
      assert |keys| == |keys - {k}| + 1;
      assert (|keys - {k}| + 1) * n == |keys - {k}| * n + n;
    } else {
      NoneIn(groups, keys);
    }
  }

  lemma {:induction false} NoneIn(groups: Groups, keys: set<GroupKey>)
    requires forall k :: k !in keys
    ensures |RecordsIn(groups, keys)| == 0 && |keys| == 0
  {
    assert RecordsIn(groups, keys) == {} && keys == {};
  }

  /** The records of s in the fault. */
  function Slow(run: seq<GroupKey>, from: nat, to: nat, s: Rank): set<Record> {
    set i: nat | from <= i < to && i < |run| :: Record(run[i], s)
  }

  lemma {:induction false} SlowSize(run: seq<GroupKey>, from: nat, to: nat, s: Rank)
    requires from <= to <= |run|
    ensures |Slow(run, from, to, s)| <= to - from
  {
    if from < to {
      SlowSize(run, from, to - 1, s);
      forall x ensures x in Slow(run, from, to, s) <==> x in Slow(run, from, to - 1, s) || x == Record(run[to - 1], s) {
        if x == Record(run[to - 1], s) {
          assert x in Slow(run, from, to, s);
        }
      }
      hide Slow;
      assert Slow(run, from, to, s) == Slow(run, from, to - 1, s) + {Record(run[to - 1], s)};
    } else {
      assert Slow(run, from, to, s) == {};
    }
  }

  lemma {:induction false} HeldDuration(groups: Groups, events: seq<Event>, run: seq<GroupKey>, ranks: set<Rank>, x: Record) returns (i: nat)
    requires Holds(groups, events, run, ranks) && x.key in groups && x.rank in groups[x.key]
    ensures i < |run| && run[i] == x.key && x.rank in ranks && groups[x.key][x.rank].dur == Dur(events, run[i], x.rank)
  {
    hide Ts, Dur;
    assert x.key in run;
    i :| 0 <= i < |run| && run[i] == x.key;
  }

  lemma {:induction false} ShortIsSlow(groups: Groups, events: seq<Event>, run: seq<GroupKey>, ranks: set<Rank>, s: Rank,
                                       from: nat, to: nat, lo: real, hi: real, x: Record)
    requires Holds(groups, events, run, ranks) && Lasts(events, run, ranks, s, from, to, lo, hi)
    requires x.key in groups && x.rank in groups[x.key]
    ensures groups[x.key][x.rank].dur as real < lo ==> x in Slow(run, from, to, s)
    ensures groups[x.key][x.rank].dur as real <= hi
  {
    hide Holds, Dur;
    var i := HeldDuration(groups, events, run, ranks, x);
    assert Dur(events, run[i], x.rank) as real <= hi;
    if groups[x.key][x.rank].dur as real < lo {
      assert Faulty(s, from, to, i, x.rank);
      assert x == Record(run[i], s);
    }
  }

  lemma {:induction false} FewShort(groups: Groups, events: seq<Event>, run: seq<GroupKey>, ranks: set<Rank>, s: Rank,
                                    from: nat, to: nat, lo: real, hi: real)
    requires Holds(groups, events, run, ranks) && Lasts(events, run, ranks, s, from, to, lo, hi) && from <= to <= |run|
    ensures |ShorterIn(groups, groups.Keys, lo, true)| <= to - from
    ensures ShorterIn(groups, groups.Keys, hi, false) == RecordsIn(groups, groups.Keys)
  {
    hide Holds, Lasts, Slow, Dur;
    var short := ShorterIn(groups, groups.Keys, lo, true);
    forall x | x in short ensures x in Slow(run, from, to, s) {
      ShortIsSlow(groups, events, run, ranks, s, from, to, lo, hi, x);
    }
    forall x ensures x in ShorterIn(groups, groups.Keys, hi, false) <==> x in RecordsIn(groups, groups.Keys) {
      if x in RecordsIn(groups, groups.Keys) {
        ShortIsSlow(groups, events, run, ranks, s, from, to, lo, hi, x);
      }
    }
    hide ShorterIn, RecordsIn;
    SlowSize(run, from, to, s);
    SubsetSize(short, Slow(run, from, to, s));
  }

  lemma {:induction false} TraceFloor(cfg: Config, groups: Groups, events: seq<Event>, run: seq<GroupKey>, ranks: set<Rank>, s: Rank,
                                      from: nat, to: nat, w: real, d: real, lo: real, hi: real) returns (med: real)
    requires Holds(groups, events, run, ranks) && TraceFault(events, run, ranks, s, from, to, w, d, lo, hi)
    requires ScoredKeys(cfg, groups) == groups.Keys && |RecordsIn(groups, groups.Keys)| == |run| * |ranks|
    ensures JitterFloor(cfg, groups) == cfg.jitterFloor * med && lo <= med <= hi
  {
    hide Holds, ScoredKeys, JitterFloor, ShorterIn, RecordsIn, MiddleDuration, Jitters, Leads, Lasts;
    FewShort(groups, events, run, ranks, s, from, to, lo, hi);
    med := FloorExactly(cfg, groups);
    MiddleBetween(groups, groups.Keys, med, lo, hi);
  }

  lemma {:induction false} MiddleBetween(groups: Groups, keys: set<GroupKey>, med: real, lo: real, hi: real)
    requires MiddleDuration(groups, keys, med) && 2 * |ShorterIn(groups, keys, lo, true)| < |RecordsIn(groups, keys)|
    requires ShorterIn(groups, keys, hi, false) == RecordsIn(groups, keys)
    ensures lo <= med <= hi
  {
    hide ShorterIn, RecordsIn;
    assert !Below(med, lo, true);
    assert Below(med, hi, false);
  }

  // ---------------------------------------------------------------- the numbers

  lemma {:induction false} DecideThirty(w: real, d: real, q: real, med: real, hi: real)
    requires q > 0.0 && q * q == 30.0 && 0.0 <= w && med <= hi
    requires d > w + 0.9153 * Max(1.4826 * w, 0.05 * hi)
    ensures (d - w) * q > 4.0 * (SE_FACTOR * Max(w * MAD_TO_SIGMA, 0.05 * med))
  {
    var m := Max(w * MAD_TO_SIGMA, 0.05 * med);
    assert m >= 0.0 && d - w > 0.9153 * m;
    hide Max;
    RootOfThirty(q);
    ClearBound(d - w, m, q);
  }

  lemma {:induction false} ClearBound(x: real, m: real, q: real)
    requires m >= 0.0 && x > 0.9153 * m && q >= 5.4772
    ensures x * q > 4.0 * (SE_FACTOR * m)
  {
    MulMonotone(5.4772, q, x);
    assert q * x == x * q;
  }

  /** With the defaults, in numbers. */
  lemma {:induction false} DefaultAssumptions(cfg: Config, root: Root, floor: real, w: real, d: real, med: real, lo: real, hi: real)
    requires cfg.root == root && cfg.thresholdSigma == 4.0 && cfg.blockSize == 30 && floor == 0.05 * med && lo <= med <= hi
    requires root(30) * root(30) == 30.0 && 0.0 <= w <= 0.0457 * lo && d > w + 0.9153 * Max(1.4826 * w, 0.05 * hi)
    ensures Assumptions(cfg, floor, w, d, 30)
  {
    RootMonotone(root, 30, 30);
    hide Max, RootLike;
    FloorOfThirty(w, root(30), med);
    DecideThirty(w, d, root(30), med, hi);
  }

  // ---------------------------------------------------------------- from the trace to the attribution

  /** A decisive fault is found wherever in a trace it lies. With the default options, if rank s runs d below its
      peers on collectives that cover two whole blocks of thirty, whatever the analysis may return has exactly one
      attribution, for s, covering those blocks, and explains it from the rank's events of up to five seconds before. */
  lemma {:induction false} FaultFound(events: seq<Event>, o: Options, root: Root, rep: Report, run: seq<GroupKey>, ranks: set<Rank>,
                                      s: Rank, from: nat, to: nat, w: real, d: real, lo: real, hi: real, a: nat)
    requires IsAnalysis(events, o, root, rep) && o.thresholdSigma == 0.0 && root(30) * root(30) == 30.0
    requires forall e :: e in events ==> e.ts < 0x4000_0000_0000_0000
    requires Traced(events, run, ranks) && TraceFault(events, run, ranks, s, from, to, w, d, lo, hi)
    requires 0.0 <= w <= 0.0457 * lo && d > w + 0.9153 * Max(1.4826 * w, 0.05 * hi)
    requires from <= 30 * a && 30 * a + 60 <= to
    ensures |rep.attributions| == 1 && rep.attributions[0].anomaly.rank == s && rep.attributions[0].anomaly.hits >= 60
    ensures exists evs :: StableSorted(evs, Since(RankLog(Replay(events), s), 0))
              && rep.attributions[0] == Explain(rep.attributions[0].anomaly,
                   if o.attributionWindow == 0 then 5_000_000_000 else o.attributionWindow, evs)
  {
    hide *;
    AnalysisFound(events, o, root, run, ranks, s, from, to, w, d, lo, hi, a);
    OneAttribution(events, o, root, rep, s);
  }

  ghost predicate OnlyFinds(events: seq<Event>, o: Options, root: Root, s: Rank) {
    forall out: seq<Anomaly> :: Detects(events, o, root, out) ==> |out| == 1 && out[0].rank == s && out[0].hits >= 60
  }

  lemma {:induction false} OneAttribution(events: seq<Event>, o: Options, root: Root, rep: Report, s: Rank)
    requires IsAnalysis(events, o, root, rep) && OnlyFinds(events, o, root, s)
    ensures |rep.attributions| == 1 && rep.attributions[0].anomaly.rank == s && rep.attributions[0].anomaly.hits >= 60
    ensures exists evs :: StableSorted(evs, Since(RankLog(Replay(events), s), 0))
              && rep.attributions[0] == Explain(rep.attributions[0].anomaly,
                   if o.attributionWindow == 0 then 5_000_000_000 else o.attributionWindow, evs)
  {
    hide Detects, Since, StableSorted, RankLog, Replay, RanksIn, RootLike, Ranked, During, Earlier, FiredLinks, RuledOutCauses;
    var out :| Detects(events, o, root, out) && Explains(Replay(events), AnalysisWindow(o), out, rep.attributions);
    assert Explained(Replay(events), AnalysisWindow(o), out[0], rep.attributions[0]);
  }

  lemma {:induction false} AnalysisFound(events: seq<Event>, o: Options, root: Root, run: seq<GroupKey>, ranks: set<Rank>,
                                         s: Rank, from: nat, to: nat, w: real, d: real, lo: real, hi: real, a: nat)
    requires o.thresholdSigma == 0.0 && root(30) * root(30) == 30.0
    requires forall e :: e in events ==> e.ts < 0x4000_0000_0000_0000
    requires Traced(events, run, ranks) && TraceFault(events, run, ranks, s, from, to, w, d, lo, hi)
    requires 0.0 <= w <= 0.0457 * lo && d > w + 0.9153 * Max(1.4826 * w, 0.05 * hi)
    requires from <= 30 * a && 30 * a + 60 <= to
    ensures OnlyFinds(events, o, root, s)
  {
    var cfg := AnalysisConfig(o, root);
    var groups := GroupsAfter(Replay(events), 0);
    assert cfg.thresholdSigma == 4.0 && cfg.blockSize == 30 && cfg.minHits == 2 && cfg.minHitFraction == 0.5
        && cfg.jitterFloor == 0.05 && cfg.minRanks == 2 && cfg.root == root;
    hide *;
    WholeTrace(events, o, root);
    FaultBounds(events, run, ranks, s, from, to, w, d, lo, hi);
    TableHolds(events, run, ranks);
    RunOrdered(groups, events, run, ranks);
    AllScored(cfg, groups, events, run, ranks);
    var med := TraceFloor(cfg, groups, events, run, ranks, s, from, to, w, d, lo, hi);
    DefaultAssumptions(cfg, root, JitterFloor(cfg, groups), w, d, med, lo, hi);
    TableFault(groups, events, run, ranks, s, from, to, w, d, lo, hi);
    DetectsOnly(events, o, root, run, s, from, to, w, d, a);
  }

  lemma {:induction false} FaultBounds(events: seq<Event>, run: seq<GroupKey>, ranks: set<Rank>, s: Rank, from: nat, to: nat,
                                       w: real, d: real, lo: real, hi: real)
    requires TraceFault(events, run, ranks, s, from, to, w, d, lo, hi)
    ensures ranks != {} && |ranks| >= 2
  {
    hide Dur;
  }

  lemma {:induction false} AllScored(cfg: Config, groups: Groups, events: seq<Event>, run: seq<GroupKey>, ranks: set<Rank>)
    requires Holds(groups, events, run, ranks) && Ascending(groups, groups.Keys, run) && |ranks| >= 2 == cfg.minRanks
    ensures ScoredKeys(cfg, groups) == groups.Keys && |RecordsIn(groups, groups.Keys)| == |run| * |ranks|
  {
    hide Ts, Dur, Newest, RecordsIn;
    forall k | k in groups ensures |groups[k]| == |ranks| {
      assert |groups[k]| == |groups[k].Keys|;
    }
    RecordsSize(groups, groups.Keys, |ranks|);
    forall i, j | 0 <= i < j < |run| ensures run[i] != run[j] {
      assert KeyBefore(groups, run[i], run[j]);
    }
    KeysOfRun(run, groups.Keys);
  }

  lemma {:induction false} DetectsOnly(events: seq<Event>, o: Options, root: Root, run: seq<GroupKey>, s: Rank, from: nat, to: nat,
                                       w: real, d: real, a: nat)
    requires var cfg, groups := AnalysisConfig(o, root), GroupsAfter(Replay(events), 0);
             && cfg.blockSize == 30 && cfg.minHits == 2 && cfg.minHitFraction == 0.5
             && WindowKeys(cfg, groups, Latest(Replay(events)) - SPAN) == groups.Keys
             && Ascending(groups, groups.Keys, run) && NoTies(groups, groups.Keys)
             && FaultIn(groups, run, 30, 30, s, from, to, w, d) && Assumptions(cfg, JitterFloor(cfg, groups), w, d, 30)
    requires from <= 30 * a && 30 * a + 60 <= to
    ensures OnlyFinds(events, o, root, s)
  {
    var cfg, groups := AnalysisConfig(o, root), GroupsAfter(Replay(events), 0);
    var cutoff := Latest(Replay(events)) - SPAN;
    hide AnalysisConfig, GroupsAfter, Replay, Latest, RootLike, WindowKeys, Ascending, NoTies, FaultIn, Assumptions, JitterFloor,
         IsListing, IsReport, ReportsOnly;
    forall out: seq<Anomaly> | Detects(events, o, root, out) ensures |out| == 1 && out[0].rank == s && out[0].hits >= 60 {
      var ks, gs :| IsListing(groups, WindowKeys(cfg, groups, cutoff), ks, gs) && IsReport(cfg, gs, JitterFloor(cfg, groups), out);
      ListingAscending(groups, groups.Keys, ks, gs);
      AscendingUnique(groups, groups.Keys, ks, run);
      var first, last := ExactDetectionOfFault(cfg, groups, cutoff, out, ks, gs, 30, s, from, to, w, d, a, 2);
      TwoBlocks(cfg, gs, out, s, first, last, from, to, a);
    }
  }

  lemma {:induction false} TwoBlocks(cfg: Config, gs: seq<GInfo>, out: seq<Anomaly>, s: Rank, first: nat, last: nat,
                                     from: nat, to: nat, a: nat)
    requires ReportsOnly(cfg, gs, out, s, first, last) && cfg.blockSize == 30
    requires first * 30 < from + 30 && to - 30 < (last + 1) * 30 && from <= 30 * a && 30 * a + 60 <= to
    ensures |out| == 1 && out[0].rank == s && out[0].hits >= 60
  {
  }
}
