/** What the correlator's store holds after a sequence of ingests: per rank the retained events in
    stable time order, and the table of collectives. */
module Store {
  import opened Events
  import opened Grouping

  /** One call of IngestEvent with a non-nil event. */
  datatype Entry = Entry(rank: Rank, event: Event)

  /** The newest timestamp ingested, starting from 0. */
  function Latest(log: seq<Entry>): int {
    if log == [] then 0
    else
      var m := Latest(log[..|log| - 1]);
      var ts := log[|log| - 1].event.ts;
      if ts > m then ts else m
  }

  /** What was ingested under rank r, in order of arrival. */
  function RankLog(log: seq<Entry>, r: Rank): seq<Event> {
    if log == [] then []
    else
      var l := RankLog(log[..|log| - 1], r);
      var e := log[|log| - 1];
      if e.rank == r then l + [e.event] else l
  }

  function Since(s: seq<Event>, cutoff: int): seq<Event> {
    if s == [] then []
    else
      var t := Since(s[..|s| - 1], cutoff);
      var e := s[|s| - 1];
      if e.ts >= cutoff then t + [e] else t
  }

  /** The events with timestamp exactly ts, in order. */
  function At(s: seq<Event>, ts: int): seq<Event> {
    if s == [] then []
    else
      var t := At(s[..|s| - 1], ts);
      var e := s[|s| - 1];
      if e.ts == ts then t + [e] else t
  }

  predicate SortedByTs(s: seq<Event>) {
    forall i, j :: 0 <= i < j < |s| ==> s[i].ts <= s[j].ts
  }

  /** s is l in time order, with events of equal timestamp in their order of arrival. */
  ghost predicate StableSorted(s: seq<Event>, l: seq<Event>) {
    SortedByTs(s) && forall ts :: At(s, ts) == At(l, ts)
  }

  /** The events of rank r that the lookback keeps. */
  function Retained(log: seq<Entry>, r: Rank, lookback: int): seq<Event> {
    if lookback <= 0 then RankLog(log, r) else Since(RankLog(log, r), Latest(log) - lookback)
  }

  // ---------------------------------------------------------------- filters

  lemma {:induction false} SinceAppend(a: seq<Event>, b: seq<Event>, cutoff: int)
    ensures Since(a + b, cutoff) == Since(a, cutoff) + Since(b, cutoff)
  {
    if b == [] {
      assert a + b == a;
    } else {
      assert (a + b)[..|a + b| - 1] == a + b[..|b| - 1];
      SinceAppend(a, b[..|b| - 1], cutoff);
    }
  }

  lemma {:induction false} AtAppend(a: seq<Event>, b: seq<Event>, ts: int)
    ensures At(a + b, ts) == At(a, ts) + At(b, ts)
  {
    if b == [] {
      assert a + b == a;
    } else {
      assert (a + b)[..|a + b| - 1] == a + b[..|b| - 1];
      AtAppend(a, b[..|b| - 1], ts);
    }
  }

  lemma {:induction false} AtNone(s: seq<Event>, ts: int)
    requires forall i :: 0 <= i < |s| ==> s[i].ts != ts
    ensures At(s, ts) == []
  {
    if s != [] {
      AtNone(s[..|s| - 1], ts);
    }
  }

  lemma {:induction false} AtSince(s: seq<Event>, cutoff: int, ts: int)
    ensures At(Since(s, cutoff), ts) == if ts >= cutoff then At(s, ts) else []
  {
    if s != [] {
      var front, e := s[..|s| - 1], s[|s| - 1];
      AtSince(front, cutoff, ts);
      if e.ts >= cutoff {
        assert (Since(front, cutoff) + [e])[..|Since(front, cutoff)|] == Since(front, cutoff);
      }
    }
  }

  lemma {:induction false} SinceTwice(s: seq<Event>, c: int, d: int)
    requires c <= d
    ensures Since(Since(s, c), d) == Since(s, d)
  {
    if s != [] {
      var front, e := s[..|s| - 1], s[|s| - 1];
      SinceTwice(front, c, d);
      if e.ts >= c {
        assert (Since(front, c) + [e])[..|Since(front, c)|] == Since(front, c);
      }
    }
  }

  /** On a sorted list the events not older than the cutoff are a suffix. */
  lemma {:induction false} SinceSorted(s: seq<Event>, i: nat, cutoff: int)
    requires i <= |s|
    requires forall j :: 0 <= j < i ==> s[j].ts < cutoff
    requires forall j :: i <= j < |s| ==> s[j].ts >= cutoff
    ensures Since(s, cutoff) == s[i..]
  {
    if s != [] {
      var n := |s| - 1;
      if i <= n {
        SinceSorted(s[..n], i, cutoff);
        SuffixExtend(s, i);
      } else {
        SinceSorted(s[..n], n, cutoff);
      }
    }
  }

  lemma {:induction false} SuffixExtend(s: seq<Event>, i: nat)
    requires i < |s|
    ensures s[i..] == s[..|s| - 1][i..] + [s[|s| - 1]]
  {
    var n := |s| - 1;
    assert s == s[..n] + [s[n]];
    assert |s[i..]| == |s[..n][i..]| + 1;
    forall j | 0 <= j < |s| - i ensures s[i..][j] == (s[..n][i..] + [s[n]])[j] {
    }
  }

  // ---------------------------------------------------------------- insertion and trimming

  /** Inserting an event behind all that are not newer keeps the list the stable sort of what arrived. */
  lemma {:induction false} InsertStable(s: seq<Event>, l: seq<Event>, i: nat, e: Event)
    requires StableSorted(s, l) && i <= |s|
    requires forall j :: 0 <= j < i ==> s[j].ts <= e.ts
    requires forall j :: i <= j < |s| ==> s[j].ts > e.ts
    ensures StableSorted(s[..i] + [e] + s[i..], l + [e])
  {
    forall ts ensures At(s[..i] + [e] + s[i..], ts) == At(l + [e], ts) {
      InsertAt(s, l, i, e, ts);
    }
    InsertSorted(s, i, e);
  }

  lemma {:induction false} InsertSorted(s: seq<Event>, i: nat, e: Event)
    requires SortedByTs(s) && i <= |s|
    requires forall j :: 0 <= j < i ==> s[j].ts <= e.ts
    requires forall j :: i <= j < |s| ==> s[j].ts > e.ts
    ensures SortedByTs(s[..i] + [e] + s[i..])
  {
    var t := s[..i] + [e] + s[i..];
    assert forall j :: 0 <= j < i ==> t[j] == s[j];
    assert t[i] == e;
    assert forall j :: i < j < |t| ==> t[j] == s[j - 1];
  }

  lemma {:induction false} InsertAt(s: seq<Event>, l: seq<Event>, i: nat, e: Event, ts: int)
    requires At(s, ts) == At(l, ts) && i <= |s|
    requires forall j :: i <= j < |s| ==> s[j].ts > e.ts
    ensures At(s[..i] + [e] + s[i..], ts) == At(l + [e], ts)
  {
    hide At;
    var a, b := s[..i], s[i..];
    assert s == a + b;
    AtAppend(a + [e], b, ts);
    AtAppend(a, [e], ts);
    AtAppend(l, [e], ts);
    AtAppend(a, b, ts);
    AtOne(e, ts);
    if ts == e.ts {
      AtNone(b, ts);
      assert At(a, ts) + [] == At(a, ts);
    } else {
      assert At(a, ts) + [] + At(b, ts) == At(a, ts) + At(b, ts);
      assert At(l, ts) + [] == At(l, ts);
    }
  }

  lemma {:induction false} AtOne(e: Event, ts: int)
    ensures At([e], ts) == if e.ts == ts then [e] else []
  {
    assert [e][..0] == [];
  }

  lemma {:induction false} SinceStable(s: seq<Event>, l: seq<Event>, cutoff: int)
    requires StableSorted(s, l)
    ensures StableSorted(Since(s, cutoff), Since(l, cutoff))
  {
    SinceKeepsSorted(s, cutoff);
    forall ts ensures At(Since(s, cutoff), ts) == At(Since(l, cutoff), ts) {
      AtSince(s, cutoff, ts);
      AtSince(l, cutoff, ts);
    }
  }

  lemma {:induction false} SinceMember(s: seq<Event>, cutoff: int, e: Event)
    ensures e in Since(s, cutoff) <==> e in s && e.ts >= cutoff
  {
    if s != [] {
      SinceMember(s[..|s| - 1], cutoff, e);
      assert s == s[..|s| - 1] + [s[|s| - 1]];
    }
  }

  lemma {:induction false} SinceKeepsSorted(s: seq<Event>, cutoff: int)
    requires SortedByTs(s)
    ensures SortedByTs(Since(s, cutoff))
  {
    if s != [] {
      var front, e := s[..|s| - 1], s[|s| - 1];
      SinceKeepsSorted(front, cutoff);
      forall x | x in Since(front, cutoff) ensures x.ts <= e.ts {
        SinceMember(front, cutoff, x);
        var i :| 0 <= i < |front| && front[i] == x;
        assert s[i] == x;
      }
    }
  }

  // ---------------------------------------------------------------- uniqueness

  lemma {:induction false} AtLast(s: seq<Event>)
    requires s != []
    ensures var e := s[|s| - 1]; At(s, e.ts) == At(s[..|s| - 1], e.ts) + [e]
  {
  }

  lemma {:induction false} AtNewer(s: seq<Event>, ts: int)
    requires SortedByTs(s) && s != [] && ts > s[|s| - 1].ts
    ensures At(s, ts) == []
  {
    AtNone(s, ts);
  }

  /** The stable sort is determined by the events at each timestamp. */
  lemma {:induction false} StableUnique(a: seq<Event>, b: seq<Event>)
    requires SortedByTs(a) && SortedByTs(b) && forall ts :: At(a, ts) == At(b, ts)
    ensures a == b
    decreases |a|
  {
    if a == [] || b == [] {
      OneEmpty(a, b);
    } else {
      SameLast(a, b);
      var m, n := |a| - 1, |b| - 1;
      forall ts ensures At(a[..m], ts) == At(b[..n], ts) {
        AtEqual(a, b, ts);
        AtStep(a, ts);
        AtStep(b, ts);
        DropLast(At(a[..m], ts), At(b[..n], ts), a[m]);
      }
      StableUnique(a[..m], b[..n]);
      assert a == a[..m] + [a[m]] && b == b[..n] + [b[n]];
    }
  }

  lemma {:induction false} AtEqual(a: seq<Event>, b: seq<Event>, ts: int)
    requires forall ts :: At(a, ts) == At(b, ts)
    ensures At(a, ts) == At(b, ts)
  {
  }

  lemma {:induction false} AtStep(s: seq<Event>, ts: int)
    requires s != []
    ensures At(s, ts) == At(s[..|s| - 1], ts) + if s[|s| - 1].ts == ts then [s[|s| - 1]] else []
  {
  }

  lemma {:induction false} DropLast(x: seq<Event>, y: seq<Event>, e: Event)
    ensures x + [e] == y + [e] ==> x == y
  {
    if x + [e] == y + [e] {
      assert x == (x + [e])[..|x|] && y == (y + [e])[..|y|];
    }
  }

  lemma {:induction false} SomeTime(s: seq<Event>) returns (ts: int)
    requires s != []
    ensures At(s, ts) != []
  {
    ts := s[|s| - 1].ts;
    AtLast(s);
  }

  lemma {:induction false} OneEmpty(a: seq<Event>, b: seq<Event>)
    requires (forall ts :: At(a, ts) == At(b, ts)) && (a == [] || b == [])
    ensures a == b
  {
    if a != [] {
      var ts := SomeTime(a);
      AtEqual(a, b, ts);
    }
    if b != [] {
      var ts := SomeTime(b);
      AtEqual(a, b, ts);
    }
  }

  lemma {:induction false} SameLast(a: seq<Event>, b: seq<Event>)
    requires SortedByTs(a) && SortedByTs(b) && (forall ts :: At(a, ts) == At(b, ts)) && a != [] && b != []
    ensures a[|a| - 1] == b[|b| - 1]
  {
    var x, y := a[|a| - 1], b[|b| - 1];
    AtLast(a);
    AtLast(b);
    assert At(a, x.ts) == At(b, x.ts) && At(a, y.ts) == At(b, y.ts);
    if x.ts > y.ts {
      AtNewer(b, x.ts);
    } else if y.ts > x.ts {
      AtNewer(a, y.ts);
    } else {
      assert (At(a[..|a| - 1], x.ts) + [x])[|At(a, x.ts)| - 1] == x;
      assert (At(b[..|b| - 1], x.ts) + [y])[|At(b, x.ts)| - 1] == y;
    }
  }

  lemma {:induction false} StableSortUnique(a: seq<Event>, b: seq<Event>, l: seq<Event>)
    requires StableSorted(a, l) && StableSorted(b, l)
    ensures a == b
  {
    StableUnique(a, b);
  }

  // ---------------------------------------------------------------- the table of collectives

  function KeyOf(e: Event): GroupKey
    requires e.NCCL?
  {
    GroupKey(e.pg, e.seqId)
  }

  /** A collective event joins its group; a duplicate from the same rank replaces the earlier one. */
  function Put(groups: Groups, r: Rank, e: Event): Groups {
    if e.NCCL? then
      var k := KeyOf(e);
      var g := if k in groups then groups[k] else map[];
      groups[k := g[r := e]]
    else groups
  }

  /** Groups whose newest member is older than the cutoff are deleted. */
  ghost function TrimGroups(groups: Groups, cutoff: int): Groups {
    map k | k in groups && Newest(groups[k]) >= cutoff :: groups[k]
  }

  /** The table after the log. */
  ghost function GroupsAfter(log: seq<Entry>, lookback: int): Groups {
    if log == [] then map[]
    else
      var e := log[|log| - 1];
      var groups := Put(GroupsAfter(log[..|log| - 1], lookback), e.rank, e.event);
      if lookback <= 0 then groups else TrimGroups(groups, Latest(log) - lookback)
  }

  /** Rank r's entry in the group of key k. */
  function Lookup(groups: Groups, k: GroupKey, r: Rank): Option<Event> {
    if k in groups && r in groups[k] then Some(groups[k][r]) else None
  }

  /** The last collective of key k among the events. */
  function LastWith(events: seq<Event>, k: GroupKey): (e: Option<Event>)
    ensures e.Some? ==> e.value in events && e.value.NCCL? && KeyOf(e.value) == k
  {
    if events == [] then None
    else
      var e := events[|events| - 1];
      if e.NCCL? && KeyOf(e) == k then Some(e) else LastWith(events[..|events| - 1], k)
  }

  /** An event sets its rank's entry under its own key, if it is a collective, and no other entry. */
  lemma {:induction false} PutLookup(groups: Groups, r: Rank, e: Event, k: GroupKey, q: Rank)
    ensures Lookup(Put(groups, r, e), k, q) == if e.NCCL? && KeyOf(e) == k && q == r then Some(e) else Lookup(groups, k, q)
  {
  }

  /** Without a lookback the table holds, under key k, exactly the ranks that ingested such a collective, each
      with the last of them. */
  lemma {:induction false} TableExactly(log: seq<Entry>, k: GroupKey, r: Rank)
    ensures Lookup(GroupsAfter(log, 0), k, r) == LastWith(RankLog(log, r), k)
  {
    hide Put, Lookup, TrimGroups, Latest;
    if log != [] {
      var front, x := log[..|log| - 1], log[|log| - 1];
      TableExactly(front, k, r);
      PutLookup(GroupsAfter(front, 0), x.rank, x.event, k, r);
      var l := RankLog(front, r);
      assert (l + [x.event])[..|l|] == l;
    } else {
      assert Lookup(map[], k, r) == None by {
        EmptyLookup(k, r);
      }
    }
  }

  lemma {:induction false} EmptyLookup(k: GroupKey, r: Rank)
    ensures Lookup(map[], k, r) == None
  {
  }

  /** Every stored group has a member, holds only events of its own collective, and under a lookback is
      not wholly older than the window. */
  lemma {:induction false} GroupsInvariant(log: seq<Entry>, lookback: int, k: GroupKey)
    requires k in GroupsAfter(log, lookback)
    ensures var g := GroupsAfter(log, lookback)[k];
            && g != map[] && (forall r :: r in g ==> KeyOf(g[r]) == k)
            && (lookback > 0 ==> Newest(g) >= Latest(log) - lookback)
  {
    var n := |log| - 1;
    var prev := GroupsAfter(log[..n], lookback);
    hide Newest, Latest;
    if k in prev {
      GroupsInvariant(log[..n], lookback, k);
    }
    var e := log[n];
    assert k in Put(prev, e.rank, e.event);
    PutInvariant(prev, e.rank, e.event, k);
  }

  lemma {:induction false} PutInvariant(groups: Groups, r: Rank, e: Event, k: GroupKey)
    requires k in Put(groups, r, e)
    requires k in groups ==> groups[k] != map[] && forall q :: q in groups[k] ==> KeyOf(groups[k][q]) == k
    ensures Put(groups, r, e)[k] != map[] && forall q :: q in Put(groups, r, e)[k] ==> KeyOf(Put(groups, r, e)[k][q]) == k
  {
    var g := Put(groups, r, e)[k];
    if e.NCCL? && k == KeyOf(e) {
      assert r in g;
    }
  }

  /** The newest timestamp is the largest of all, or zero if none is above it. */
  lemma {:induction false} LatestIs(log: seq<Entry>)
    ensures Latest(log) >= 0 && forall i :: 0 <= i < |log| ==> log[i].event.ts <= Latest(log)
    ensures Latest(log) == 0 || exists i :: 0 <= i < |log| && log[i].event.ts == Latest(log)
  {
    if log != [] {
      var n := |log| - 1;
      LatestIs(log[..n]);
      if Latest(log[..n]) != 0 {
        var i :| 0 <= i < n && log[..n][i].event.ts == Latest(log[..n]);
        assert log[i].event.ts == Latest(log[..n]);
      }
      forall i | 0 <= i < |log| ensures log[i].event.ts <= Latest(log) {
        if i < n {
          assert log[..n][i] == log[i];
        }
      }
    }
  }

  lemma {:induction false} NewestAtLeast(g: Group, r: Rank)
    requires r in g
    ensures Newest(g) >= g[r].ts
  {
    var s := set q | q in g :: g[q].ts;
    assert g[r].ts in s;
    assert Newest(g) == MaxFromZero(s);
  }

  lemma {:induction false} TrimLookup(groups: Groups, cutoff: int, k: GroupKey, r: Rank, e: Event)
    requires Lookup(groups, k, r) == Some(e) && e.ts >= cutoff
    ensures Lookup(TrimGroups(groups, cutoff), k, r) == Some(e)
  {
    hide Newest;
    NewestAtLeast(groups[k], r);
  }

  /** Whatever the lookback, no collective of the window is lost: the last record of a rank under a key is in the
      table while it is not older than the cutoff. */
  lemma {:induction false} RecentKept(log: seq<Entry>, lookback: int, i: nat)
    requires i < |log| && log[i].event.NCCL? && (lookback > 0 ==> log[i].event.ts >= Latest(log) - lookback)
    requires forall j :: i < j < |log| && log[j].rank == log[i].rank && log[j].event.NCCL? ==> KeyOf(log[j].event) != KeyOf(log[i].event)
    ensures Lookup(GroupsAfter(log, lookback), KeyOf(log[i].event), log[i].rank) == Some(log[i].event)
  {
    var n := |log| - 1;
    var front, x := log[..n], log[n];
    var k, r, e := KeyOf(log[i].event), log[i].rank, log[i].event;
    assert Latest(front) <= Latest(log);
    if i < n {
      assert front[i] == log[i];
      forall j | i < j < n && front[j].rank == r && front[j].event.NCCL? ensures KeyOf(front[j].event) != k {
        assert log[j] == front[j];
      }
      RecentKept(front, lookback, i);
    }
    hide Put, TrimGroups, Lookup, Latest;
    PutLookup(GroupsAfter(front, lookback), x.rank, x.event, k, r);
    if lookback > 0 {
      TrimLookup(Put(GroupsAfter(front, lookback), x.rank, x.event), Latest(log) - lookback, k, r, e);
    }
  }
}
