/** The coordinator: offline analysis of a recorded trace and the bounded live log, and why the two agree. */
module Coordinators {
  import opened Events
  import opened Grouping
  import opened Detection
  import opened Store
  import opened Order
  import opened Correlators
  import opened Attributions
  import opened Engines
  import opened Sequences
  import opened Agents

  datatype Options = Options(thresholdSigma: real, attributionWindow: int)

  datatype Report = Report(events: nat, ranks: seq<Rank>, attributions: seq<Attribution>)

  /** The detection window of a replay: the whole trace. */
  const SPAN := 0x4000_0000_0000_0000 - 1

  /** The configuration of an analysis: zero options pick the defaults, and nothing is trimmed. */
  function AnalysisConfig(o: Options, root: Root): Config {
    DefaultConfig(if o.thresholdSigma == 0.0 then 4.0 else o.thresholdSigma, root).(lookback := 0)
  }

  function AnalysisWindow(o: Options): int {
    if o.attributionWindow == 0 then 5_000_000_000 else o.attributionWindow
  }

  /** The ingests of a replay: every event under its own rank. */
  function Replay(events: seq<Event>): (log: seq<Entry>)
    ensures |log| == |events|
  {
    if events == [] then []
    else Replay(events[..|events| - 1]) + [Entry(events[|events| - 1].rank, events[|events| - 1])]
  }

  /** att explains a from the events of its rank, in stable time order from time zero on. */
  ghost predicate Explained(log: seq<Entry>, window: int, a: Anomaly, att: Attribution) {
    exists evs :: StableSorted(evs, Since(RankLog(log, a.rank), 0)) && att == Explain(a, window, evs)
  }

  ghost predicate Explains(log: seq<Entry>, window: int, out: seq<Anomaly>, atts: seq<Attribution>) {
    |atts| == |out| && forall i :: 0 <= i < |out| ==> Explained(log, window, out[i], atts[i])
  }

  predicate Rising(ranks: seq<Rank>) {
    forall i, j :: 0 <= i < j < |ranks| ==> ranks[i] < ranks[j]
  }

  ghost predicate Detects(events: seq<Event>, o: Options, root: Root, out: seq<Anomaly>) {
    var log := Replay(events);
    IsDetection(AnalysisConfig(o, root), GroupsAfter(log, 0), Latest(log) - SPAN, out)
  }

  /** What Analyze may return on these events. */
  ghost predicate IsAnalysis(events: seq<Event>, o: Options, root: Root, rep: Report) {
    var log := Replay(events);
    && rep.events == |events|
    && Rising(rep.ranks) && (forall r :: r in rep.ranks <==> r in RanksIn(log))
    && exists out :: Detects(events, o, root, out) && Explains(log, AnalysisWindow(o), out, rep.attributions)
  }

  // ---------------------------------------------------------------- Analyze

  /** The ranks seen, sorted. */
  method SortRanks(seen: set<Rank>) returns (ranks: seq<Rank>)
    ensures Rising(ranks) && forall r :: r in ranks <==> r in seen
  {
    ranks := [];
    var remaining := seen;
    while remaining != {}
      invariant remaining <= seen && Rising(ranks)
      invariant forall r :: r in ranks <==> r in seen - remaining
      decreases |remaining|
    {
      var r :| r in remaining;
      remaining := remaining - {r};
      ranks := AddRank(ranks, r);
    }
  }

  method AddRank(ranks: seq<Rank>, r: Rank) returns (more: seq<Rank>)
    requires Rising(ranks) && r !in ranks
    ensures Rising(more) && forall q :: q in more <==> q == r || q in ranks
  {
    var i := |ranks|;
    while i > 0 && ranks[i - 1] > r
      invariant 0 <= i <= |ranks|
      invariant forall j :: i <= j < |ranks| ==> ranks[j] > r
    {
      i := i - 1;
    }
    more := ranks[..i] + [r] + ranks[i..];
    RisingInsert(ranks, i, r);
  }

  lemma {:induction false} RisingInsert(ranks: seq<Rank>, i: nat, r: Rank)
    requires Rising(ranks) && r !in ranks && i <= |ranks|
    requires i == 0 || ranks[i - 1] <= r
    requires forall j :: i <= j < |ranks| ==> ranks[j] > r
    ensures Rising(ranks[..i] + [r] + ranks[i..])
    ensures forall q :: q in ranks[..i] + [r] + ranks[i..] <==> q == r || q in ranks
  {
    var more := ranks[..i] + [r] + ranks[i..];
    if i > 0 {
      assert ranks[i - 1] in ranks;
    }
    assert forall j :: 0 <= j < i ==> more[j] == ranks[j] && ranks[j] < r;
    assert more[i] == r;
    assert forall j :: i < j < |more| ==> more[j] == ranks[j - 1] && ranks[j - 1] > r;
    assert Rising(more);
    InsertMembers(ranks, i, r);
  }

  lemma {:induction false} InsertMembers(ranks: seq<Rank>, i: nat, r: Rank)
    requires i <= |ranks|
    ensures forall q :: q in ranks[..i] + [r] + ranks[i..] <==> q == r || q in ranks
  {
    assert ranks == ranks[..i] + ranks[i..];
    forall q ensures q in ranks[..i] + [r] + ranks[i..] <==> q == r || q in ranks {
      assert q in ranks <==> q in ranks[..i] || q in ranks[i..];
    }
  }

  lemma {:induction false} ReplayStep(events: seq<Event>, i: nat)
    requires i < |events|
    ensures Replay(events[..i + 1]) == Replay(events[..i]) + [Entry(events[i].rank, events[i])]
  {
    assert events[..i + 1][..i] == events[..i];
  }

  /** One cause report for each anomaly. */
  method ExplainAll(c: Correlator, out: seq<Anomaly>, window: int) returns (atts: seq<Attribution>)
    requires c.Valid() && c.cfg.lookback == 0
    ensures Explains(c.log, window, out, atts)
  {
    hide *;
    atts := [];
    for i := 0 to |out|
      invariant |atts| == i && c.Valid()
      invariant forall j :: 0 <= j < i ==> Explained(c.log, window, out[j], atts[j])
    {
      var evs := c.EventsForRank(out[i].rank, 0);
      var att := Attribute(out[i], window, evs);
      ExplainedBy(c.log, window, out[i], evs);
      atts := atts + [att];
    }
    ExplainedAll(c.log, window, out, atts);
  }

  lemma {:induction false} ExplainedBy(log: seq<Entry>, window: int, a: Anomaly, evs: seq<Event>)
    requires StableSorted(evs, Since(Retained(log, a.rank, 0), 0))
    ensures Explained(log, window, a, Explain(a, window, evs))
  {
    hide StableSorted, Since, Explain;
  }

  lemma {:induction false} ExplainedAll(log: seq<Entry>, window: int, out: seq<Anomaly>, atts: seq<Attribution>)
    requires |atts| == |out| && forall i :: 0 <= i < |out| ==> Explained(log, window, out[i], atts[i])
    ensures Explains(log, window, out, atts)
  {
    hide Explained;
  }

  /** Detection and attribution over a complete event set. */
  method Analyze(events: seq<Event>, o: Options, root: Root) returns (rep: Report)
    ensures IsAnalysis(events, o, root, rep)
  {
    var cfg, window := AnalysisConfig(o, root), AnalysisWindow(o);
    assert cfg.lookback == 0;
    hide AnalysisConfig, AnalysisWindow, Replay, RanksIn, IsDetection, Explains, GroupsAfter, Latest, Correlator.Valid, RootLike;
    var c := new Correlator(cfg);
    var seen: set<Rank> := {};
    NothingSeen();
    for i := 0 to |events|
      invariant fresh(c) && c.Valid() && c.cfg == cfg && c.log == Replay(events[..i])
      invariant seen == RanksIn(c.log)
    {
      ReplayStep(events, i);
      LogRanksStep(c.log, Entry(events[i].rank, events[i]));
      c.IngestEvent(events[i].rank, Some(events[i]));
      seen := seen + {events[i].rank};
    }
    assert events[..|events|] == events;
    var ranks := SortRanks(seen);
    var out := c.DetectAnomalies(SPAN);
    StoreOf(c);
    assert Detects(events, o, root, out);
    var atts := ExplainAll(c, out, window);
    rep := Report(|events|, ranks, atts);
  }

  lemma {:induction false} NothingSeen()
    ensures Replay([]) == [] && RanksIn([]) == {}
  {
  }

  lemma {:induction false} StoreOf(c: Correlator)
    requires c.Valid()
    ensures c.groups == GroupsAfter(c.log, c.cfg.lookback) && c.newestNs == Latest(c.log)
  {
    hide StoreOrdered, RanksIn, GroupsAfter, Latest;
  }

  // ---------------------------------------------------------------- the live log

  function LastOfLog(log: seq<Event>, n: nat): seq<Event> {
    if |log| <= n then log else log[|log| - n..]
  }

  class Live {
    const opts: Options
    const root: Root
    const maxEvents: nat
    var events: seq<Event>
    /** Everything ever ingested. */
    ghost var log: seq<Event>

    /** The newest maxEvents of the log are held, oldest first. */
    ghost predicate Valid()
      reads this
    {
      maxEvents > 0 && events == LastOfLog(log, maxEvents)
    }

    constructor (o: Options, maxEvents: int, root: Root)
      ensures Valid() && log == [] && opts == o && this.root == root
      ensures this.maxEvents == if maxEvents <= 0 then 2_000_000 else maxEvents
    {
      this.maxEvents := if maxEvents <= 0 then 2_000_000 else maxEvents;
      opts, this.root, events, log := o, root, [], [];
    }

    method Ingest(e: Event)
      requires Valid()
      modifies this
      ensures Valid() && log == old(log) + [e]
    {
      log := log + [e];
      events := events + [e];
      if |events| > maxEvents {
        events := events[|events| - maxEvents..];
      }
    }

    /** The attributions of an analysis of the events held. */
    method Report() returns (atts: seq<Attribution>)
      requires Valid()
      ensures exists rep :: IsAnalysis(events, opts, root, rep) && rep.attributions == atts
    {
      hide IsAnalysis;
      var rep := Analyze(events, opts, root);
      atts := rep.attributions;
    }
  }

  // ---------------------------------------------------------------- the order of arrival does not matter

  /** Same events of every rank in the same order, however the ranks interleave. */
  ghost predicate SameStreams(a: seq<Entry>, b: seq<Entry>) {
    forall r :: RankLog(a, r) == RankLog(b, r)
  }

  lemma {:induction false} RankLogAppend(a: seq<Entry>, b: seq<Entry>, r: Rank)
    ensures RankLog(a + b, r) == RankLog(a, r) + RankLog(b, r)
  {
    if b == [] {
      assert a + b == a;
    } else {
      assert (a + b)[..|a + b| - 1] == a + b[..|b| - 1];
      RankLogAppend(a, b[..|b| - 1], r);
    }
  }

  lemma {:induction false} RankLogNone(b: seq<Entry>, r: Rank)
    requires forall i :: 0 <= i < |b| ==> b[i].rank != r
    ensures RankLog(b, r) == []
  {
    if b != [] {
      RankLogNone(b[..|b| - 1], r);
    }
  }

  lemma {:induction false} RankLogOne(x: Entry, r: Rank)
    ensures RankLog([x], r) == if x.rank == r then [x.event] else []
  {
    assert [x][..0] == [];
  }

  /** Ingests under different ranks commute, duplicates included. */
  lemma {:induction false} PutCommutes(groups: Groups, r: Rank, d: Event, q: Rank, e: Event)
    requires r != q
    ensures Put(Put(groups, r, d), q, e) == Put(Put(groups, q, e), r, d)
  {
    if d.NCCL? && e.NCCL? {
      var x, y := Put(Put(groups, r, d), q, e), Put(Put(groups, q, e), r, d);
      assert x.Keys == groups.Keys + {KeyOf(d), KeyOf(e)} == y.Keys;
      forall k | k in x ensures x[k] == y[k] {
        if k == KeyOf(d) == KeyOf(e) {
          MembersCommute(if k in groups then groups[k] else map[], r, d, q, e);
        }
      }
    }
  }

  lemma {:induction false} MembersCommute(g: Group, r: Rank, d: Collective, q: Rank, e: Collective)
    requires r != q
    ensures g[r := d][q := e] == g[q := e][r := d]
  {
  }

  lemma {:induction false} GroupsUntrimmed(log: seq<Entry>, x: Entry)
    ensures GroupsAfter(log + [x], 0) == Put(GroupsAfter(log, 0), x.rank, x.event)
  {
    assert (log + [x])[..|log|] == log;
  }

  /** An ingest can be put off until after those of other ranks. */
  lemma {:induction false} PutOff(a: seq<Entry>, x: Entry, b: seq<Entry>)
    requires forall i :: 0 <= i < |b| ==> b[i].rank != x.rank
    ensures GroupsAfter(a + [x] + b, 0) == GroupsAfter(a + b + [x], 0)
    ensures Latest(a + [x] + b) == Latest(a + b + [x])
  {
    hide GroupsAfter, Put, Latest;
    if b == [] {
      assert a + [x] + b == a + b + [x];
    } else {
      var c, y := b[..|b| - 1], b[|b| - 1];
      PutOff(a, x, c);
      assert a + [x] + b == a + [x] + c + [y] && a + b == a + c + [y];
      GroupsUntrimmed(a + [x] + c, y);
      GroupsUntrimmed(a + c, x);
      GroupsUntrimmed(a + c, y);
      GroupsUntrimmed(a + b, x);
      PutCommutes(GroupsAfter(a + c, 0), x.rank, x.event, y.rank, y.event);
      LatestStep(a + [x] + c, y);
      LatestStep(a + c, x);
      LatestStep(a + c, y);
      LatestStep(a + b, x);
    }
  }

  /** The last ingest of rank r. */
  lemma {:induction false} SplitAtLast(log: seq<Entry>, r: Rank) returns (a: seq<Entry>, x: Entry, b: seq<Entry>)
    requires RankLog(log, r) != []
    ensures log == a + [x] + b && x.rank == r && forall i :: 0 <= i < |b| ==> b[i].rank != r
  {
    var n := |log| - 1;
    if log[n].rank == r {
      a, x, b := log[..n], log[n], [];
    } else {
      a, x, b := SplitAtLast(log[..n], r);
      b := b + [log[n]];
    }
  }

  /** Taking rank r's last ingest out of the middle. */
  lemma {:induction false} TakeOut(a: seq<Entry>, x: Entry, b: seq<Entry>, q: Rank)
    requires forall i :: 0 <= i < |b| ==> b[i].rank != x.rank
    ensures RankLog(a + [x] + b, q) == RankLog(a + b, q) + if q == x.rank then [x.event] else []
  {
    hide RankLog;
    RankLogAppend(a + [x], b, q);
    RankLogAppend(a, [x], q);
    RankLogAppend(a, b, q);
    RankLogOne(x, q);
    if q == x.rank {
      RankLogNone(b, q);
    }
    assert RankLog(a, q) + [] == RankLog(a, q) && RankLog(a + b, q) + [] == RankLog(a + b, q);
  }

  lemma {:induction false} NoStreams(a: seq<Entry>, b: seq<Entry>)
    requires SameStreams(a, b)
    ensures a == [] ==> b == []
  {
    if b != [] {
      var r := b[|b| - 1].rank;
      assert RankLog(a, r) == RankLog(b, r);
      assert RankLog(b, r) != [];
    }
  }

  lemma {:induction false} DropEvent(s: seq<Event>, t: seq<Event>, x: Event, y: Event)
    requires s + [x] == t + [y]
    ensures s == t && x == y
  {
    assert (s + [x])[|s|] == x && (t + [y])[|t|] == y;
    assert s == (s + [x])[..|s|] && t == (t + [y])[..|t|];
  }

  /** Distributed equals offline, at the store: logs with the same stream for every rank hold the same
      ingests and leave the same table and the same newest time. */
  lemma {:induction false} InterleavingsAgree(l: seq<Entry>, m: seq<Entry>)
    requires SameStreams(l, m)
    ensures GroupsAfter(l, 0) == GroupsAfter(m, 0) && Latest(l) == Latest(m) && multiset(l) == multiset(m)
    decreases |l|
  {
    if l == [] {
      NoStreams(l, m);
    } else {
      var front, e := l[..|l| - 1], l[|l| - 1];
      assert l == front + [e];
      RankLogStep(front, e, e.rank);
      var a, x, b := SplitAtLast(m, e.rank);
      assert SameStreams(l, m);
      LastTaken(front, e, a, x, b);
      InterleavingsAgree(front, a + b);
      hide GroupsAfter, Latest, Put, SameStreams;
      GroupsUntrimmed(front, e);
      GroupsUntrimmed(a + b, e);
      LatestStep(front, e);
      LatestStep(a + b, e);
      PutOff(a, x, b);
      assert multiset(a + [x] + b) == multiset(a + b) + multiset{x};
    }
  }

  lemma {:induction false} LastTaken(front: seq<Entry>, e: Entry, a: seq<Entry>, x: Entry, b: seq<Entry>)
    requires SameStreams(front + [e], a + [x] + b) && x.rank == e.rank
    requires forall i :: 0 <= i < |b| ==> b[i].rank != x.rank
    ensures x == e && SameStreams(front, a + b)
  {
    hide RankLog;
    var r := x.rank;
    assert RankLog(front + [e], r) == RankLog(a + [x] + b, r);
    RankLogStep(front, e, r);
    TakeOut(a, x, b, r);
    DropEvent(RankLog(front, r), RankLog(a + b, r), e.event, x.event);
    forall q ensures RankLog(front, q) == RankLog(a + b, q) {
      if q != r {
        assert RankLog(front + [e], q) == RankLog(a + [x] + b, q);
        RankLogStep(front, e, q);
        TakeOut(a, x, b, q);
        assert RankLog(front, q) + [] == RankLog(front, q) && RankLog(a + b, q) + [] == RankLog(a + b, q);
      }
    }
  }

  /** Two correlators without a lookback that have taken the same streams are in the same state. */
  lemma {:induction false} SameStore(c: Correlator, d: Correlator)
    requires c.Valid() && d.Valid() && c.cfg.lookback <= 0 && d.cfg.lookback <= 0 && SameStreams(c.log, d.log)
    ensures c.rankEvents == d.rankEvents && c.groups == d.groups && c.newestNs == d.newestNs
  {
    InterleavingsAgree(c.log, d.log);
    NoLookback(c.log, c.cfg.lookback);
    NoLookback(d.log, d.cfg.lookback);
    hide GroupsAfter, Latest, RanksIn;
    SameRanks(c.log, d.log);
    forall r | r in c.rankEvents ensures c.rankEvents[r] == d.rankEvents[r] {
      assert StableSorted(EventsOf(c.rankEvents, r), Retained(c.log, r, 0));
      assert StableSorted(EventsOf(d.rankEvents, r), Retained(d.log, r, 0));
      StableSortUnique(c.rankEvents[r], d.rankEvents[r], RankLog(c.log, r));
    }
  }

  lemma {:induction false} NoLookback(log: seq<Entry>, lookback: int)
    requires lookback <= 0
    ensures GroupsAfter(log, lookback) == GroupsAfter(log, 0)
  {
    hide Put, TrimGroups, Latest;
    if log != [] {
      NoLookback(log[..|log| - 1], lookback);
    }
  }

  lemma {:induction false} SameRanks(l: seq<Entry>, m: seq<Entry>)
    requires multiset(l) == multiset(m)
    ensures RanksIn(l) == RanksIn(m)
  {
    RanksWithin(l, m);
    RanksWithin(m, l);
  }

  lemma {:induction false} RanksWithin(l: seq<Entry>, m: seq<Entry>)
    requires multiset(l) == multiset(m)
    ensures RanksIn(l) <= RanksIn(m)
  {
    forall r | r in RanksIn(l) ensures r in RanksIn(m) {
      var i :| 0 <= i < |l| && l[i].rank == r;
      assert l[i] in multiset(m);
      var j :| 0 <= j < |m| && m[j] == l[i];
      assert m[j].rank == r;
    }
  }

  // ---------------------------------------------------------------- the same report

  /** No two collectives of the window tie, and the members of each agree on its op. */
  ghost predicate Unambiguous(events: seq<Event>, o: Options, root: Root) {
    var log := Replay(events);
    var groups := GroupsAfter(log, 0);
    && NoTies(groups, WindowKeys(AnalysisConfig(o, root), groups, Latest(log) - SPAN))
    && forall k :: k in groups ==> SameOp(groups[k])
  }

  lemma {:induction false} RisingUnique(a: seq<Rank>, b: seq<Rank>)
    requires Rising(a) && Rising(b) && forall r :: r in a <==> r in b
    ensures a == b
    decreases |a|
  {
    BothEmpty(a, b);
    BothEmpty(b, a);
    if a != [] {
      var m, n := |a| - 1, |b| - 1;
      LargestLast(a, b);
      LargestLast(b, a);
      forall r ensures r in a[..m] <==> r in b[..n] {
        AllButLast(a, r);
        AllButLast(b, r);
      }
      RisingUnique(a[..m], b[..n]);
      assert a == a[..m] + [a[m]] && b == b[..n] + [b[n]];
    }
  }

  lemma {:induction false} BothEmpty(a: seq<Rank>, b: seq<Rank>)
    requires forall r :: r in a ==> r in b
    ensures b == [] ==> a == []
  {
    if a != [] {
      assert a[0] in a;
    }
  }

  lemma {:induction false} LargestLast(a: seq<Rank>, b: seq<Rank>)
    requires Rising(b) && a != [] && b != [] && forall r :: r in a ==> r in b
    ensures a[|a| - 1] <= b[|b| - 1]
  {
    assert a[|a| - 1] in b;
  }

  lemma {:induction false} AllButLast(a: seq<Rank>, r: Rank)
    requires Rising(a) && a != []
    ensures r in a[..|a| - 1] <==> r in a && r != a[|a| - 1]
  {
    var m := |a| - 1;
    assert a == a[..m] + [a[m]];
  }

  lemma {:induction false} SameExplained(l: seq<Entry>, m: seq<Entry>, window: int, a: Anomaly, s: Attribution, t: Attribution)
    requires SameStreams(l, m) && Explained(l, window, a, s) && Explained(m, window, a, t)
    ensures s == t
  {
    hide Since, StableSorted, Explain;
    var x :| StableSorted(x, Since(RankLog(l, a.rank), 0)) && s == Explain(a, window, x);
    var y :| StableSorted(y, Since(RankLog(m, a.rank), 0)) && t == Explain(a, window, y);
    assert RankLog(l, a.rank) == RankLog(m, a.rank);
    StableSortUnique(x, y, Since(RankLog(l, a.rank), 0));
  }

  lemma {:induction false} AttributionsWithin(l: seq<Entry>, m: seq<Entry>, window: int,
                                              out: seq<Anomaly>, s: seq<Attribution>, out': seq<Anomaly>, t: seq<Attribution>)
    requires SameStreams(l, m) && Explains(l, window, out, s) && Explains(m, window, out', t)
    requires forall a :: a in out ==> a in out'
    ensures forall x :: x in s ==> x in t
  {
    hide SameStreams, Explained;
    forall i | 0 <= i < |s| ensures s[i] in t {
      assert out[i] in out';
      var j :| 0 <= j < |out'| && out'[j] == out[i];
      SameExplained(l, m, window, out[i], s[i], t[j]);
    }
  }

  /** Same streams, same report: however the ranks' events were interleaved, and whatever order the maps were
      visited in, two analyses count the same events, list the same ranks and give the same attributions. */
  lemma {:induction false} SameReport(events: seq<Event>, events': seq<Event>, o: Options, root: Root, rep: Report, rep': Report)
    requires SameStreams(Replay(events), Replay(events')) && Unambiguous(events, o, root)
    requires IsAnalysis(events, o, root, rep) && IsAnalysis(events', o, root, rep')
    ensures rep.events == rep'.events && rep.ranks == rep'.ranks
    ensures forall x :: x in rep.attributions <==> x in rep'.attributions
  {
    hide GroupsAfter, Latest, RanksIn, IsDetection, Explains, AnalysisConfig, AnalysisWindow, Rising, NoTies, SameOp, WindowKeys,
         SameStreams, RootLike;
    var l, m := Replay(events), Replay(events');
    InterleavingsAgree(l, m);
    SameSize(l, m);
    SameRanks(l, m);
    RisingUnique(rep.ranks, rep'.ranks);
    var out :| Detects(events, o, root, out) && Explains(l, AnalysisWindow(o), out, rep.attributions);
    var out' :| Detects(events', o, root, out') && Explains(m, AnalysisWindow(o), out', rep'.attributions);
    MapOrderIndependence(AnalysisConfig(o, root), GroupsAfter(l, 0), Latest(l) - SPAN, out, out');
    AttributionsWithin(l, m, AnalysisWindow(o), out, rep.attributions, out', rep'.attributions);
    StreamsSymmetric(l, m);
    AttributionsWithin(m, l, AnalysisWindow(o), out', rep'.attributions, out, rep.attributions);
  }

  lemma {:induction false} SameSize(l: seq<Entry>, m: seq<Entry>)
    requires multiset(l) == multiset(m)
    ensures |l| == |m|
  {
    assert |multiset(l)| == |l| && |multiset(m)| == |m|;
  }

  lemma {:induction false} StreamsSymmetric(l: seq<Entry>, m: seq<Entry>)
    requires SameStreams(l, m)
    ensures SameStreams(m, l)
  {
    hide RankLog;
  }

  // ---------------------------------------------------------------- from the agents to the report

  function Untag<E>(s: seq<Tagged<E>>): (t: seq<E>)
    ensures |t| == |s|
  {
    if s == [] then [] else Untag(s[..|s| - 1]) + [s[|s| - 1].event]
  }

  /** The events of rank r. */
  function OfRank(events: seq<Event>, r: Rank): seq<Event> {
    if events == [] then []
    else
      var t := OfRank(events[..|events| - 1], r);
      var e := events[|events| - 1];
      if e.rank == r then t + [e] else t
  }

  lemma {:induction false} ReplayOfRank(events: seq<Event>, r: Rank)
    ensures RankLog(Replay(events), r) == OfRank(events, r)
  {
    if events != [] {
      var front, e := events[..|events| - 1], events[|events| - 1];
      ReplayOfRank(front, r);
      RankLogStep(Replay(front), Entry(e.rank, e), r);
    }
  }

  lemma {:induction false} FromStep<E>(s: seq<Tagged<E>>, x: Tagged<E>, i: nat)
    ensures From(s + [x], i) == From(s, i) + if x.from == i then [x.event] else []
  {
    assert (s + [x])[..|s|] == s;
  }

  lemma {:induction false} OfRankStep(s: seq<Event>, e: Event, r: Rank)
    ensures OfRank(s + [e], r) == OfRank(s, r) + if e.rank == r then [e] else []
  {
    assert (s + [e])[..|s|] == s;
  }

  /** If rank r comes from source i alone, its events in a merge are its events in what i contributed. */
  lemma {:induction false} OneSource(s: seq<Tagged<Event>>, r: Rank, i: nat)
    requires forall x :: x in s && x.event.rank == r ==> x.from == i
    ensures OfRank(Untag(s), r) == OfRank(From(s, i), r)
  {
    if s != [] {
      var front, x := s[..|s| - 1], s[|s| - 1];
      assert s == front + [x];
      assert x in s;
      OneSource(front, r, i);
      hide From, OfRank;
      FromStep(front, x, i);
      OfRankStep(Untag(front), x.event, r);
      OfRankStep(From(front, i), x.event, r);
      assert From(front, i) + [] == From(front, i);
    }
  }

  lemma {:induction false} MemberFrom<E>(s: seq<Tagged<E>>, x: Tagged<E>)
    requires x in s
    ensures x.event in From(s, x.from)
  {
    var n := |s| - 1;
    assert s == s[..n] + [s[n]];
    if x in s[..n] {
      MemberFrom(s[..n], x);
    }
  }

  lemma {:induction false} UntagMember<E>(s: seq<Tagged<E>>, e: E)
    requires e in Untag(s)
    ensures exists x :: x in s && x.event == e
  {
    var n := |s| - 1;
    if e in Untag(s[..n]) {
      UntagMember(s[..n], e);
      var x :| x in s[..n] && x.event == e;
      assert x in s;
    } else {
      assert s[n] in s;
    }
  }

  /** Which collector, of which agent, reads the events of a rank. */
  datatype Place = Place(agent: nat, collector: nat)

  /** Every agent has returned uncancelled, its stream acknowledged. */
  ghost predicate AllDelivered(streams: seq<seq<seq<Event>>>, runs: seq<seq<Action>>, ends: seq<State<Event>>) {
    && |runs| == |ends| == |streams|
    && (forall k :: 0 <= k < |streams| ==> Reaches(true, Init(streams[k]), runs[k], ends[k]))
    && (forall k :: 0 <= k < |streams| ==> ends[k].returned && !ends[k].cancelled && ends[k].stream.Acked?)
  }

  /** What reached the coordinator: the agents' streams, merged in any way. */
  ghost predicate Merged(ends: seq<State<Event>>, arrival: seq<Tagged<Event>>) {
    && (forall x :: x in arrival ==> x.from < |ends|)
    && (forall k :: 0 <= k < |ends| ==> From(arrival, k) == Untag(ends[k].delivered))
  }

  /** Each rank is read by one collector. */
  ghost predicate OneHome(streams: seq<seq<seq<Event>>>, home: Rank -> Place) {
    forall k, i, e {:trigger e in streams[k][i]} :: 0 <= k < |streams| && 0 <= i < |streams[k]| && e in streams[k][i] ==>
      home(e.rank) == Place(k, i)
  }

  /** What a rank's collector reads of it. */
  function Stream(streams: seq<seq<seq<Event>>>, home: Rank -> Place, r: Rank): seq<Event> {
    var p := home(r);
    if p.agent < |streams| && p.collector < |streams[p.agent]| then OfRank(streams[p.agent][p.collector], r) else []
  }

  /** Of each agent: what it delivered is what its collectors emitted, collector by collector. */
  lemma {:induction false} DeliveredAll(streams: seq<seq<seq<Event>>>, runs: seq<seq<Action>>, ends: seq<State<Event>>, k: nat)
    requires AllDelivered(streams, runs, ends) && k < |streams|
    ensures forall i :: 0 <= i < |streams[k]| ==> From(ends[k].delivered, i) == streams[k][i]
    ensures forall x :: x in ends[k].delivered ==> x.from < |streams[k]|
  {
    hide Inv, Reaches;
    NothingLeft(streams[k], runs[k], ends[k]);
    CompleteRun(true, streams[k], runs[k], ends[k]);
  }

  lemma {:induction false} NothingLeft(streams: seq<seq<Event>>, run: seq<Action>, st: State<Event>)
    requires Reaches(true, Init(streams), run, st) && st.stream.Acked?
    ensures st.finished && st.delivered == st.forwarded
  {
    hide Reaches, Faithful, Subsequence;
    InvInit(true, streams);
    InvRun(true, streams, Init(streams), run, st);
  }

  /** The events of rank r in what agent k delivered. */
  lemma {:induction false} DeliveredOfRank(streams: seq<seq<seq<Event>>>, runs: seq<seq<Action>>, ends: seq<State<Event>>,
                                           home: Rank -> Place, k: nat, r: Rank)
    requires AllDelivered(streams, runs, ends) && OneHome(streams, home) && k < |streams|
    ensures forall e :: e in Untag(ends[k].delivered) && e.rank == r ==> home(r).agent == k && home(r).collector < |streams[k]|
    ensures home(r).agent == k ==> OfRank(Untag(ends[k].delivered), r) == Stream(streams, home, r)
  {
    DeliveredAll(streams, runs, ends, k);
    var p, d := home(r), ends[k].delivered;
    hide From, OfRank, Untag, AllDelivered;
    forall x | x in d && x.event.rank == r ensures p == Place(k, x.from) && x.from < |streams[k]| {
      MemberFrom(d, x);
      assert x.event in streams[k][x.from];
    }
    forall e | e in Untag(d) && e.rank == r ensures p.agent == k && p.collector < |streams[k]| {
      UntagMember(d, e);
    }
    if p.agent == k {
      OneSource(d, r, p.collector);
      if p.collector >= |streams[k]| {
        NoneFrom(d, p.collector);
      }
    }
  }

  lemma {:induction false} NoneFrom(s: seq<Tagged<Event>>, i: nat)
    requires forall x :: x in s ==> x.from != i
    ensures forall r :: OfRank(From(s, i), r) == []
  {
    if s != [] {
      var n := |s| - 1;
      assert s[n] in s;
      NoneFrom(s[..n], i);
    }
  }

  /** Through fan-in, forwarding and the merge at the coordinator, each rank's events arrive just as its
      collector read them. */
  lemma {:induction false} ArrivalOfRank(streams: seq<seq<seq<Event>>>, runs: seq<seq<Action>>, ends: seq<State<Event>>,
                                         home: Rank -> Place, arrival: seq<Tagged<Event>>, r: Rank)
    requires AllDelivered(streams, runs, ends) && OneHome(streams, home) && Merged(ends, arrival)
    ensures OfRank(Untag(arrival), r) == Stream(streams, home, r)
  {
    var p := home(r);
    assert |ends| == |streams|;
    hide From, OfRank, Untag, AllDelivered, OneHome;
    forall x | x in arrival && x.event.rank == r ensures x.from == p.agent {
      DeliveredOfRank(streams, runs, ends, home, x.from, r);
      MemberFrom(arrival, x);
      assert From(arrival, x.from) == Untag(ends[x.from].delivered);
    }
    OneSource(arrival, r, p.agent);
    if p.agent < |streams| {
      DeliveredOfRank(streams, runs, ends, home, p.agent, r);
    } else {
      NoneFrom(arrival, p.agent);
    }
  }

  /** Distributed equals offline. Agents fan in their collectors and stream to a live coordinator, in any
      interleaving; the trace holds each rank's events in the order its collector read them, in any other
      interleaving. While the live log has not overflowed, its report gives the attributions that the offline
      analysis of the trace gives. */
  lemma {:induction false} DistributedEqualsOffline(
      streams: seq<seq<seq<Event>>>, runs: seq<seq<Action>>, ends: seq<State<Event>>, home: Rank -> Place,
      arrival: seq<Tagged<Event>>, live: Live, trace: seq<Event>, rep: Report, offline: Report)
    requires AllDelivered(streams, runs, ends) && OneHome(streams, home) && Merged(ends, arrival)
    requires live.Valid() && live.log == Untag(arrival) && |arrival| <= live.maxEvents
    requires forall r :: OfRank(trace, r) == Stream(streams, home, r)
    requires Unambiguous(trace, live.opts, live.root)
    requires IsAnalysis(live.events, live.opts, live.root, rep) && IsAnalysis(trace, live.opts, live.root, offline)
    ensures rep.events == offline.events && rep.ranks == offline.ranks
    ensures forall x :: x in rep.attributions <==> x in offline.attributions
  {
    assert live.events == Untag(arrival);
    hide AllDelivered, OneHome, Merged, Unambiguous, IsAnalysis, Untag, OfRank, Stream, Live.Valid, RootLike;
    forall r ensures RankLog(Replay(trace), r) == RankLog(Replay(live.events), r) {
      ReplayOfRank(trace, r);
      ReplayOfRank(live.events, r);
      ArrivalOfRank(streams, runs, ends, home, arrival, r);
    }
    hide RankLog;
    SameReport(trace, live.events, live.opts, live.root, offline, rep);
  }
}
