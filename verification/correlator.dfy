/** The Correlator: the incremental store and the detector that runs on it. */
module Correlators {
  import opened Events
  import opened Stats
  import opened Bags
  import opened Detection
  import opened Grouping
  import opened Store
  import opened Scan
  import opened Judge
  import opened Statistics

  /** sort.Search: the first event newer than ts. */
  method FirstNewer(evs: seq<Event>, ts: int) returns (i: nat)
    requires SortedByTs(evs)
    ensures i <= |evs|
    ensures forall j :: 0 <= j < i ==> evs[j].ts <= ts
    ensures forall j :: i <= j < |evs| ==> evs[j].ts > ts
  {
    i := 0;
    var hi := |evs|;
    while i < hi
      invariant 0 <= i <= hi <= |evs|
      invariant forall j :: 0 <= j < i ==> evs[j].ts <= ts
      invariant forall j :: hi <= j < |evs| ==> evs[j].ts > ts
    {
      var h := (i + hi) / 2;
      if evs[h].ts > ts {
        hi := h;
      } else {
        i := h + 1;
      }
    }
  }

  /** sort.Search: the first event not older than the cutoff. */
  method FirstSince(evs: seq<Event>, cutoff: int) returns (i: nat)
    requires SortedByTs(evs)
    ensures i <= |evs| && Since(evs, cutoff) == evs[i..]
  {
    i := 0;
    var hi := |evs|;
    while i < hi
      invariant 0 <= i <= hi <= |evs|
      invariant forall j :: 0 <= j < i ==> evs[j].ts < cutoff
      invariant forall j :: hi <= j < |evs| ==> evs[j].ts >= cutoff
    {
      var h := (i + hi) / 2;
      if evs[h].ts >= cutoff {
        hi := h;
      } else {
        i := h + 1;
      }
    }
    SinceSorted(evs, i, cutoff);
  }

  function EventsOf(rankEvents: map<Rank, seq<Event>>, r: Rank): seq<Event> {
    if r in rankEvents then rankEvents[r] else []
  }

  /** The list of every rank is the stable time order of the events the lookback keeps. */
  ghost predicate StoreOrdered(rankEvents: map<Rank, seq<Event>>, log: seq<Entry>, lookback: int) {
    forall r :: StableSorted(EventsOf(rankEvents, r), Retained(log, r, lookback))
  }

  ghost predicate AllSorted(rankEvents: map<Rank, seq<Event>>) {
    forall r :: r in rankEvents ==> SortedByTs(rankEvents[r])
  }

  function RanksIn(log: seq<Entry>): set<Rank> {
    set i | 0 <= i < |log| :: log[i].rank
  }

  ghost function TrimEvents(rankEvents: map<Rank, seq<Event>>, cutoff: int): (m: map<Rank, seq<Event>>)
    ensures m.Keys == rankEvents.Keys
  {
    map r | r in rankEvents :: Since(rankEvents[r], cutoff)
  }

  // ---------------------------------------------------------------- one ingest, on values

  lemma {:induction false} LatestStep(log: seq<Entry>, e: Entry)
    ensures Latest(log + [e]) == if e.event.ts > Latest(log) then e.event.ts else Latest(log)
  {
    assert (log + [e])[..|log|] == log;
  }

  lemma {:induction false} RankLogStep(log: seq<Entry>, e: Entry, r: Rank)
    ensures RankLog(log + [e], r) == RankLog(log, r) + if e.rank == r then [e.event] else []
  {
    assert (log + [e])[..|log|] == log;
  }

  lemma {:induction false} LogRanksStep(log: seq<Entry>, e: Entry)
    ensures RanksIn(log + [e]) == RanksIn(log) + {e.rank}
  {
    var next := log + [e];
    forall r ensures r in RanksIn(next) <==> r in RanksIn(log) || r == e.rank {
      if r in RanksIn(log) {
        var i :| 0 <= i < |log| && log[i].rank == r;
        assert next[i].rank == r;
      }
      if r == e.rank {
        assert next[|log|].rank == r;
      }
    }
  }

  /** What rank r keeps, after one more event has arrived and the list was trimmed. */
  lemma {:induction false} RetainedStep(log: seq<Entry>, e: Entry, r: Rank, lookback: int)
    ensures Retained(log + [e], r, lookback) ==
      var kept := Retained(log, r, lookback) + if e.rank == r then [e.event] else [];
      if lookback <= 0 then kept else Since(kept, Latest(log + [e]) - lookback)
  {
    hide Latest, RankLog, Since;
    LatestStep(log, e);
    RankLogStep(log, e, r);
    if lookback > 0 {
      SinceLater(RankLog(log, r), if e.rank == r then [e.event] else [], Latest(log) - lookback, Latest(log + [e]) - lookback);
    }
  }

  lemma {:induction false} SinceLater(l: seq<Event>, more: seq<Event>, c: int, d: int)
    requires c <= d
    ensures Since(l + more, d) == Since(Since(l, c) + more, d)
  {
    hide Since;
    SinceAppend(l, more, d);
    SinceAppend(Since(l, c), more, d);
    SinceTwice(l, c, d);
  }

  /** Inserting under rank e.rank, then trimming every list when a lookback is set. */
  lemma {:induction false} IngestOrdered(rankEvents: map<Rank, seq<Event>>, next: map<Rank, seq<Event>>, log: seq<Entry>,
                                         e: Entry, i: nat, lookback: int, r: Rank)
    requires StableSorted(EventsOf(rankEvents, r), Retained(log, r, lookback))
    requires e.rank == r ==> var evs := EventsOf(rankEvents, r);
      && i <= |evs| && (forall j :: 0 <= j < i ==> evs[j].ts <= e.event.ts) && (forall j :: i <= j < |evs| ==> evs[j].ts > e.event.ts)
      && EventsOf(next, r) == evs[..i] + [e.event] + evs[i..]
    requires e.rank != r ==> EventsOf(next, r) == EventsOf(rankEvents, r)
    ensures StableSorted(EventsOf(next, r), Retained(log, r, lookback) + if e.rank == r then [e.event] else [])
  {
    hide StableSorted, Retained;
    if e.rank == r {
      InsertStable(EventsOf(rankEvents, r), Retained(log, r, lookback), i, e.event);
    } else {
      assert Retained(log, r, lookback) + [] == Retained(log, r, lookback);
    }
  }

  lemma {:induction false} TrimOrdered(next: map<Rank, seq<Event>>, log: seq<Entry>, e: Entry, lookback: int, r: Rank)
    requires StableSorted(EventsOf(next, r), Retained(log, r, lookback) + if e.rank == r then [e.event] else [])
    ensures var trimmed := if lookback <= 0 then next else TrimEvents(next, Latest(log + [e]) - lookback);
            StableSorted(EventsOf(trimmed, r), Retained(log + [e], r, lookback))
  {
    hide StableSorted, Retained, Latest;
    RetainedStep(log, e, r, lookback);
    if lookback > 0 {
      SinceStable(EventsOf(next, r), Retained(log, r, lookback) + if e.rank == r then [e.event] else [],
                  Latest(log + [e]) - lookback);
    }
  }

  lemma {:induction false} OrderedSorted(rankEvents: map<Rank, seq<Event>>, log: seq<Entry>, lookback: int, r: Rank)
    requires StoreOrdered(rankEvents, log, lookback)
    ensures SortedByTs(EventsOf(rankEvents, r))
  {
    hide Retained;
    assert StableSorted(EventsOf(rankEvents, r), Retained(log, r, lookback));
  }

  lemma {:induction false} GroupsStep(log: seq<Entry>, e: Entry, lookback: int)
    ensures GroupsAfter(log + [e], lookback) ==
      var groups := Put(GroupsAfter(log, lookback), e.rank, e.event);
      if lookback <= 0 then groups else TrimGroups(groups, Latest(log + [e]) - lookback)
  {
    hide Put, TrimGroups, Latest;
    assert (log + [e])[..|log|] == log;
  }

  /** Where an event goes: behind everything that is not newer. */
  ghost predicate Behind(evs: seq<Event>, i: nat, ts: int) {
    && i <= |evs|
    && (forall j :: 0 <= j < i ==> evs[j].ts <= ts)
    && (forall j :: i <= j < |evs| ==> evs[j].ts > ts)
  }

  /** One ingest keeps the store the stable order of what the lookback keeps. */
  lemma {:induction false} StoreStep(rankEvents: map<Rank, seq<Event>>, log: seq<Entry>, e: Entry, i: nat, lookback: int)
    requires StoreOrdered(rankEvents, log, lookback) && Behind(EventsOf(rankEvents, e.rank), i, e.event.ts)
    ensures var evs := EventsOf(rankEvents, e.rank);
            var next := rankEvents[e.rank := evs[..i] + [e.event] + evs[i..]];
            && AllSorted(next)
            && StoreOrdered(if lookback <= 0 then next else TrimEvents(next, Latest(log + [e]) - lookback), log + [e], lookback)
  {
    hide StableSorted, Retained, Latest, TrimEvents;
    var evs := EventsOf(rankEvents, e.rank);
    var next := rankEvents[e.rank := evs[..i] + [e.event] + evs[i..]];
    forall r
      ensures StableSorted(EventsOf(next, r), Retained(log, r, lookback) + if e.rank == r then [e.event] else [])
      ensures SortedByTs(EventsOf(next, r))
    {
      IngestOrdered(rankEvents, next, log, e, i, lookback, r);
      StableIsSorted(EventsOf(next, r), Retained(log, r, lookback) + if e.rank == r then [e.event] else []);
    }
    hide SortedByTs;
    assert forall r :: r in next ==> EventsOf(next, r) == next[r];
    forall r ensures StableSorted(EventsOf(if lookback <= 0 then next else TrimEvents(next, Latest(log + [e]) - lookback), r),
                                  Retained(log + [e], r, lookback)) {
      TrimOrdered(next, log, e, lookback, r);
    }
  }

  // ---------------------------------------------------------------- the class

  class Correlator {
    const cfg: Config
    var rankEvents: map<Rank, seq<Event>>
    var groups: Groups
    var newestNs: int
    /** The events ingested so far. */
    ghost var log: seq<Entry>

    /** The store is what the log determines: nothing depends on how it was reached. */
    ghost predicate Valid()
      reads this
    {
      && StoreOrdered(rankEvents, log, cfg.lookback)
      && rankEvents.Keys == RanksIn(log)
      && groups == GroupsAfter(log, cfg.lookback)
      && newestNs == Latest(log)
    }

    constructor (cfg: Config)
      ensures Valid() && log == [] && this.cfg == cfg
    {
      this.cfg := cfg;
      rankEvents, groups, newestNs, log := map[], map[], 0, [];
      new;
      EmptyStore(cfg.lookback);
    }

    /** Stores an event in time order under rank, in its group if it is a collective, and trims. */
    method IngestEvent(rank: Rank, event: Option<Event>)
      requires Valid()
      modifies this
      ensures Valid()
      ensures event.None? ==> log == old(log) && rankEvents == old(rankEvents) && groups == old(groups) && newestNs == old(newestNs)
      ensures event.Some? ==> log == old(log) + [Entry(rank, event.value)]
    {
      hide StoreOrdered, Retained, Latest, GroupsAfter, RanksIn, TrimEvents, TrimGroups, Put, AllSorted;
      if event.None? {
        return;
      }
      var e := event.value;
      var evs := EventsOf(rankEvents, rank);
      OrderedSorted(rankEvents, log, cfg.lookback, rank);
      var i := FirstNewer(evs, e.ts);
      ghost var entry := Entry(rank, e);
      StoreStep(rankEvents, log, entry, i, cfg.lookback);
      LogRanksStep(log, entry);
      LatestStep(log, entry);
      GroupsStep(log, entry, cfg.lookback);
      rankEvents := rankEvents[rank := evs[..i] + [e] + evs[i..]];
      PutCollective(rank, e);
      if e.ts > newestNs {
        newestNs := e.ts;
      }
      log := log + [entry];
      TrimLocked();
    }

    /** g[rank] = n, in the group of the collective's key. */
    method PutCollective(rank: Rank, e: Event)
      modifies this`groups
      ensures groups == Put(old(groups), rank, e)
      ensures forall k, q ::
        Lookup(groups, k, q) == if e.NCCL? && KeyOf(e) == k && q == rank then Some(e) else Lookup(old(groups), k, q)
    {
      if e.NCCL? {
        var k := KeyOf(e);
        var g := if k in groups then groups[k] else map[];
        groups := groups[k := g[rank := e]];
      }
    }

    /** Drops what is older than the lookback: events one by one, groups as a whole. */
    method TrimLocked()
      requires AllSorted(rankEvents)
      modifies this`rankEvents, this`groups
      ensures cfg.lookback <= 0 ==> rankEvents == old(rankEvents) && groups == old(groups)
      ensures cfg.lookback > 0 ==> rankEvents == TrimEvents(old(rankEvents), newestNs - cfg.lookback)
      ensures cfg.lookback > 0 ==> groups == TrimGroups(old(groups), newestNs - cfg.lookback)
    {
      if cfg.lookback <= 0 {
        return;
      }
      var cutoff := newestNs - cfg.lookback;
      TrimRanks(cutoff);
      TrimTable(cutoff);
    }

    method TrimRanks(cutoff: int)
      requires AllSorted(rankEvents)
      modifies this`rankEvents
      ensures rankEvents == TrimEvents(old(rankEvents), cutoff)
    {
      hide Since, SortedByTs;
      var remaining := rankEvents.Keys;
      while remaining != {}
        invariant remaining <= rankEvents.Keys == old(rankEvents.Keys)
        invariant forall r :: r in remaining ==> rankEvents[r] == old(rankEvents)[r]
        invariant forall r :: r in rankEvents && r !in remaining ==> rankEvents[r] == Since(old(rankEvents)[r], cutoff)
        decreases |remaining|
      {
        var r :| r in remaining;
        remaining := remaining - {r};
        var evs := rankEvents[r];
        var i := FirstSince(evs, cutoff);
        if i > 0 {
          rankEvents := rankEvents[r := evs[i..]];
        }
      }
    }

    method TrimTable(cutoff: int)
      modifies this`groups
      ensures groups == TrimGroups(old(groups), cutoff)
    {
      hide Newest;
      var remaining := groups.Keys;
      while remaining != {}
        invariant remaining <= groups.Keys <= old(groups.Keys)
        invariant forall k :: k in groups ==> groups[k] == old(groups)[k]
        invariant forall k :: k in old(groups) ==> (k in groups <==> k in remaining || Newest(old(groups)[k]) >= cutoff)
        decreases |remaining|
      {
        var k :| k in remaining;
        remaining := remaining - {k};
        var newest, maxDur, op, durs := ScanGroup(groups[k]);
        if newest < cutoff {
          groups := groups - {k};
        }
      }
    }

    /** The rank's stored events with timestamp >= since, in order. */
    method EventsForRank(rank: Rank, since: int) returns (evs: seq<Event>)
      requires Valid()
      ensures evs == Since(EventsOf(rankEvents, rank), since)
      ensures StableSorted(evs, Since(Retained(log, rank, cfg.lookback), since))
    {
      hide Since, StableSorted, Retained;
      var all := EventsOf(rankEvents, rank);
      OrderedSorted(rankEvents, log, cfg.lookback, rank);
      var i := FirstSince(all, since);
      evs := all[i..];
      SinceStable(all, Retained(log, rank, cfg.lookback), since);
    }

    /** The persistent stragglers among the collectives within window of the newest event. */
    method DetectAnomalies(window: int) returns (out: seq<Anomaly>)
      requires Valid()
      ensures IsDetection(cfg, groups, newestNs - window, out)
    {
      hide *;
      var cutoff := newestNs - window;
      var gs, durs, ks := CollectGroups(cfg, groups, cutoff);
      var sorted, ls := SortGroups(groups, WindowKeys(cfg, groups, cutoff), ks, gs);
      var floor := FloorOf(cfg, groups, durs);
      out := ReportOn(cfg, sorted, floor);
      Detected(cfg, groups, cutoff, ls, sorted, out);
    }
  }

  /** floor := c.cfg.JitterFloor * ComputeStats(durs).Median */
  method FloorOf(cfg: Config, groups: Groups, durs: seq<real>) returns (floor: real)
    requires multiset(durs) == AllDurations(cfg, groups)
    ensures floor == JitterFloor(cfg, groups)
  {
    hide AllDurations, BagMedian, Median, Mad, Mean, RootLike;
    var st := ComputeStats(durs);
    BagStatistics(durs);
    floor := cfg.jitterFloor * st.median;
  }

  /** The rest of DetectAnomalies, on the sorted list. */
  method ReportOn(cfg: Config, gs: seq<GInfo>, floor: real) returns (out: seq<Anomaly>)
    ensures IsReport(cfg, gs, floor, out)
  {
    hide *;
    if cfg.blockSize < 2 || |gs| < cfg.blockSize {
      TooFew(cfg, gs, floor);
      return [];
    }
    var flags := CollectFlags(cfg, gs, floor);
    var reports := CollectReports(cfg, gs, floor, flags);
    out := SortReports(reports);
    CollectedIsReport(cfg, gs, floor, flags, reports, out);
  }

  lemma {:induction false} Detected(cfg: Config, groups: Groups, cutoff: int, ks: seq<GroupKey>, gs: seq<GInfo>, out: seq<Anomaly>)
    requires IsListing(groups, WindowKeys(cfg, groups, cutoff), ks, gs)
    requires IsReport(cfg, gs, JitterFloor(cfg, groups), out)
    ensures IsDetection(cfg, groups, cutoff, out)
  {
    hide IsListing, IsReport, JitterFloor, WindowKeys;
  }

  lemma {:induction false} EmptyStore(lookback: int)
    ensures StoreOrdered(map[], [], lookback) && RanksIn([]) == {} && GroupsAfter([], lookback) == map[] && Latest([]) == 0
  {
    forall r ensures StableSorted([], Retained([], r, lookback)) {
      assert RankLog([], r) == [];
    }
  }

  lemma {:induction false} StableIsSorted(s: seq<Event>, l: seq<Event>)
    requires StableSorted(s, l)
    ensures SortedByTs(s)
  {
  }

  // ---------------------------------------------------------------- assembling the result

  lemma {:induction false} TooFew(cfg: Config, gs: seq<GInfo>, floor: real)
    requires cfg.blockSize < 2 || |gs| < cfg.blockSize
    ensures IsReport(cfg, gs, floor, [])
  {
    if cfg.blockSize >= 2 {
      assert Blocks(gs, cfg.blockSize) == [];
      forall r ensures !Reported(cfg, [], floor, r) {
        assert Flags(cfg, [], floor, r) == [];
      }
    }
  }

  lemma {:induction false} FlagRanks(cfg: Config, blocks: seq<Block>, floor: real, flags: map<Rank, seq<Flag>>, r: Rank)
    requires AllFlags(cfg, blocks, floor, flags) && Reported(cfg, blocks, floor, r)
    ensures r in flags
  {
    hide Flags;
    assert Get(flags, r) == Flags(cfg, blocks, floor, r);
  }

  lemma {:induction false} MembersKept(cfg: Config, blocks: seq<Block>, floor: real, seen: set<Rank>, reports: seq<Anomaly>, a: Anomaly)
    requires forall blk :: blk in blocks ==> |blk| >= 2
    requires Collected(cfg, blocks, floor, seen, reports) && a in reports
    ensures Reported(cfg, blocks, floor, a.rank) && a == AnomalyOf(cfg, blocks, floor, a.rank)
  {
    hide Reported, AnomalyOf;
  }

  /** Sorting neither adds, drops nor repeats a rank. */
  lemma {:induction false} DistinctRanks(reports: seq<Anomaly>, out: seq<Anomaly>)
    requires multiset(reports) == multiset(out)
    requires forall i, j :: 0 <= i < j < |reports| ==> reports[i].rank != reports[j].rank
    ensures forall i, j :: 0 <= i < j < |out| ==> out[i].rank != out[j].rank
  {
    forall i, j | 0 <= i < j < |out| && out[i].rank == out[j].rank ensures false {
      SameMembers(reports, out, out[i]);
      SameMembers(reports, out, out[j]);
      var a :| 0 <= a < |reports| && reports[a] == out[i];
      var b :| 0 <= b < |reports| && reports[b] == out[j];
      assert a == b;
      Twice(out, i, j);
      Once(reports, a);
    }
  }

  lemma {:induction false} SameMembers(reports: seq<Anomaly>, out: seq<Anomaly>, a: Anomaly)
    requires multiset(reports) == multiset(out)
    ensures a in reports <==> a in out
  {
    assert a in reports <==> a in multiset(reports);
    assert a in out <==> a in multiset(out);
  }

  lemma {:induction false} Twice(s: seq<Anomaly>, i: nat, j: nat)
    requires i < j < |s| && s[i] == s[j]
    ensures multiset(s)[s[i]] >= 2
  {
    assert s == s[..i] + [s[i]] + s[i + 1..j] + [s[j]] + s[j + 1..];
  }

  lemma {:induction false} Once(s: seq<Anomaly>, i: nat)
    requires i < |s| && forall a, b :: 0 <= a < b < |s| ==> s[a].rank != s[b].rank
    ensures multiset(s)[s[i]] == 1
  {
    assert s == s[..i] + [s[i]] + s[i + 1..];
    assert s[i] !in s[..i] && s[i] !in s[i + 1..];
  }

  lemma {:induction false} CollectedIsReport(cfg: Config, gs: seq<GInfo>, floor: real, flags: map<Rank, seq<Flag>>,
                                             reports: seq<Anomaly>, out: seq<Anomaly>)
    requires cfg.blockSize >= 2
    requires AllFlags(cfg, Blocks(gs, cfg.blockSize), floor, flags)
    requires Collected(cfg, Blocks(gs, cfg.blockSize), floor, flags.Keys, reports)
    requires Descending(out) && multiset(out) == multiset(reports)
    ensures IsReport(cfg, gs, floor, out)
  {
    hide Reported, AnomalyOf, Blocks, AllFlags;
    var blocks := Blocks(gs, cfg.blockSize);
    DistinctRanks(reports, out);
    forall i | 0 <= i < |out|
      ensures Reported(cfg, blocks, floor, out[i].rank) && out[i] == AnomalyOf(cfg, blocks, floor, out[i].rank)
    {
      SameMembers(reports, out, out[i]);
      MembersKept(cfg, blocks, floor, flags.Keys, reports, out[i]);
    }
    forall r | Reported(cfg, blocks, floor, r) ensures exists i :: 0 <= i < |out| && out[i].rank == r {
      FlagRanks(cfg, blocks, floor, flags, r);
      var j :| 0 <= j < |reports| && reports[j].rank == r;
      SameMembers(reports, out, reports[j]);
      var i :| 0 <= i < |out| && out[i] == reports[j];
    }
  }
}
