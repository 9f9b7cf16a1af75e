/** Agent.Run: concurrent fan-in of the collectors, local recording and forwarding, as a state machine
    whose steps are the channel operations of its goroutines. */
module Agents {
  import opened Events
  import opened Sequences

  /** The buffer of the merged and of the outgoing channel. */
  const CHANNEL: nat := 1024

  /** An event with the index of the collector it came from. */
  datatype Tagged<E> = Tagged(from: nat, event: E)

  /** The goroutine that relays one collector's channel. */
  datatype Relay<E> = Idle | Holding(e: E) | Stopped

  /** The stream to the coordinator: still being opened, which is retried for ever, taking events, closed and
      acknowledged, or ended with an error. */
  datatype Stream = Opening | Open | Acked | Failed

  datatype State<E> = State(
    source: seq<seq<E>>,          // what each collector has yet to emit before it closes its channel
    relay: seq<Relay<E>>,
    merged: seq<Tagged<E>>,       // the merged channel
    mergedClosed: bool,
    current: Option<Tagged<E>>,   // recorded by the main loop, waiting in the select
    finished: bool,               // the main loop has ended and closed the outgoing channel
    pushed: seq<Tagged<E>>,       // everything recorded in the ring buffer
    out: seq<Tagged<E>>,          // the outgoing channel
    forwarded: seq<Tagged<E>>,    // everything ever sent on it
    delivered: seq<Tagged<E>>,    // what the stream to the coordinator has taken from it
    stream: Stream,
    cancelled: bool,              // the context is done
    returned: bool)               // Run has returned

  datatype Action =
    | Receive(i: nat) | Send(i: nat) | Abandon(i: nat) | Finish(i: nat)
    | CloseMerged | Take | Forward | Skip | Exit | Deliver | Acknowledge | Return
    | CloseSource(i: nat) | Cancel | OpenStream | FailStream

  function Init<E>(streams: seq<seq<E>>): State<E> {
    State(streams, seq(|streams|, _ => Idle), [], false, None, false, [], [], [], [], Opening, false, false)
  }

  predicate Shaped<E>(st: State<E>) {
    |st.relay| == |st.source|
  }

  /** StreamEvents has returned. */
  predicate Over(stream: Stream) {
    stream.Acked? || stream.Failed?
  }

  predicate Enabled<E>(client: bool, st: State<E>, a: Action)
    requires Shaped(st)
  {
    match a
    case Receive(i) => i < |st.source| && st.relay[i].Idle? && st.source[i] != []
    case Send(i) => i < |st.source| && st.relay[i].Holding? && |st.merged| < CHANNEL
    case Abandon(i) => i < |st.source| && st.relay[i].Holding? && st.cancelled
    case Finish(i) => i < |st.source| && st.relay[i].Idle? && st.source[i] == []
    case CloseMerged => st.relay != [] && !st.mergedClosed && forall i :: 0 <= i < |st.relay| ==> st.relay[i].Stopped?
    case Take => !st.finished && st.current.None? && st.merged != []
    case Forward => st.current.Some? && |st.out| < CHANNEL
    case Skip => st.current.Some? && st.cancelled
    case Exit => !st.finished && st.current.None? && st.merged == [] && st.mergedClosed
    case Deliver => client && st.stream.Open? && st.out != []
    case Acknowledge => client && st.stream.Open? && st.finished && st.out == []
    case Return => !st.returned && if st.relay == [] then st.cancelled else st.finished && (client ==> Over(st.stream))
    case CloseSource(i) => i < |st.source| && st.cancelled
    case Cancel => true
    case OpenStream => client && st.stream.Opening?
    case FailStream => client && !Over(st.stream) && (st.stream.Open? || st.cancelled)
  }

  function Next<E>(client: bool, st: State<E>, a: Action): State<E>
    requires Shaped(st) && Enabled(client, st, a)
  {
    match a
    case Receive(i) => st.(source := st.source[i := st.source[i][1..]], relay := st.relay[i := Holding(st.source[i][0])])
    case Send(i) => st.(merged := st.merged + [Tagged(i, st.relay[i].e)], relay := st.relay[i := Idle])
    case Abandon(i) => st.(relay := st.relay[i := Stopped])
    case Finish(i) => st.(relay := st.relay[i := Stopped])
    case CloseMerged => st.(mergedClosed := true)
    case Take =>
      var x := st.merged[0];
      st.(merged := st.merged[1..], pushed := st.pushed + [x], current := if client then Some(x) else None)
    case Forward => st.(current := None, out := st.out + [st.current.value], forwarded := st.forwarded + [st.current.value])
    case Skip => st.(current := None)
    case Exit => st.(finished := true)
    case Deliver => st.(out := st.out[1..], delivered := st.delivered + [st.out[0]])
    case Acknowledge => st.(stream := Acked)
    case Return => st.(returned := true)
    case CloseSource(i) => st.(source := st.source[i := []])
    case Cancel => st.(cancelled := true)
    case OpenStream => st.(stream := Open)
    case FailStream => st.(stream := Failed)
  }

  /** The steps the agent takes of itself: not a collector that closes, a cancellation, or the fate of the
      stream. An open stream takes what it is given and acknowledges its end, or it fails. */
  predicate Internal(a: Action) {
    !a.CloseSource? && !a.Cancel? && !a.OpenStream? && !a.FailStream?
  }

  /** st' is reached from st by the run. */
  ghost predicate Reaches<E>(client: bool, st: State<E>, run: seq<Action>, st': State<E>)
    requires Shaped(st)
    decreases |run|
  {
    if run == [] then st' == st
    else Enabled(client, st, run[0]) && Reaches(client, Next(client, st, run[0]), run[1..], st')
  }

  // ---------------------------------------------------------------- what every step keeps

  /** The events of collector i, in order. */
  function From<E>(s: seq<Tagged<E>>, i: nat): seq<E> {
    if s == [] then []
    else
      var t := From(s[..|s| - 1], i);
      var x := s[|s| - 1];
      if x.from == i then t + [x.event] else t
  }

  lemma {:induction false} FromAppend<E>(a: seq<Tagged<E>>, b: seq<Tagged<E>>, i: nat)
    ensures From(a + b, i) == From(a, i) + From(b, i)
  {
    if b == [] {
      assert a + b == a;
    } else {
      assert (a + b)[..|a + b| - 1] == a + b[..|b| - 1];
      FromAppend(a, b[..|b| - 1], i);
    }
  }

  lemma {:induction false} FromOne<E>(x: Tagged<E>, i: nat)
    ensures From([x], i) == if x.from == i then [x.event] else []
  {
    assert [x][..0] == [];
  }

  lemma {:induction false} FromHead<E>(s: seq<Tagged<E>>, i: nat)
    requires s != []
    ensures From(s, i) == (if s[0].from == i then [s[0].event] else []) + From(s[1..], i)
  {
    assert s == [s[0]] + s[1..];
    FromAppend([s[0]], s[1..], i);
    FromOne(s[0], i);
  }

  function Held<E>(r: Relay<E>): seq<E> {
    if r.Holding? then [r.e] else []
  }

  /** The events of collector i that have left it, in order. */
  function Got<E>(st: State<E>, i: nat): seq<E>
    requires i < |st.relay|
  {
    From(st.pushed, i) + From(st.merged, i) + Held(st.relay[i])
  }

  /** What holds of collector i: nothing is lost or reordered before a cancellation; afterwards what has
      arrived is still a beginning of its stream. */
  ghost predicate Faithful<E>(stream: seq<E>, st: State<E>, i: nat)
    requires i < |st.relay| == |st.source|
  {
    && Got(st, i) <= stream
    && (!st.relay[i].Stopped? ==> Got(st, i) + st.source[i] <= stream)
    && (!st.cancelled ==> Got(st, i) + st.source[i] == stream && (st.relay[i].Stopped? ==> st.source[i] == []))
  }

  function Waiting<E>(o: Option<Tagged<E>>): seq<Tagged<E>> {
    if o.Some? then [o.value] else []
  }

  ghost predicate Forwarding<E>(client: bool, st: State<E>) {
    && |st.out| <= CHANNEL && st.forwarded == st.delivered + st.out
    && Subsequence(st.forwarded + Waiting(st.current), st.pushed)
    && (client && !st.cancelled ==> st.pushed == st.forwarded + Waiting(st.current))
    && (!client ==> st.current.None? && st.forwarded == [])
  }

  ghost predicate Inv<E>(client: bool, streams: seq<seq<E>>, st: State<E>) {
    && |st.source| == |st.relay| == |streams|
    && (forall i :: 0 <= i < |streams| ==> Faithful(streams[i], st, i))
    && (forall x :: x in st.merged + st.pushed ==> x.from < |streams|)
    && |st.merged| <= CHANNEL
    && (st.mergedClosed ==> forall i :: 0 <= i < |st.relay| ==> st.relay[i].Stopped?)
    && (st.finished ==> st.mergedClosed && st.merged == [] && st.current.None?)
    && Forwarding(client, st)
    && Ending(client, st)
  }

  /** An acknowledged stream has taken everything; Run returns, if nobody cancelled it, after its main loop
      and its stream. */
  ghost predicate Ending<E>(client: bool, st: State<E>) {
    && (st.stream.Acked? ==> st.finished && st.out == [])
    && (st.returned && !st.cancelled ==> st.relay != [] && st.finished && (client ==> Over(st.stream)))
  }

  lemma {:induction false} InvInit<E>(client: bool, streams: seq<seq<E>>)
    ensures Inv(client, streams, Init(streams))
  {
    var st := Init(streams);
    forall i | 0 <= i < |streams| ensures Faithful(streams[i], st, i) {
      assert Got(st, i) == [];
    }
  }

  lemma {:induction false} GotSend<E>(client: bool, st: State<E>, j: nat, i: nat)
    requires Shaped(st) && Enabled(client, st, Send(j)) && i < |st.relay|
    ensures Got(Next(client, st, Send(j)), i) == Got(st, i)
  {
    var x := Tagged(j, st.relay[j].e);
    FromAppend(st.merged, [x], i);
    FromOne(x, i);
    hide From;
    if i == j {
      assert From(st.pushed, i) + From(st.merged, i) + [x.event] == From(st.pushed, i) + (From(st.merged, i) + [x.event]) + [];
    } else {
      assert From(st.merged, i) + [] == From(st.merged, i);
    }
  }

  lemma {:induction false} GotTake<E>(client: bool, st: State<E>, i: nat)
    requires Shaped(st) && Enabled(client, st, Take) && i < |st.relay|
    ensures Got(Next(client, st, Take), i) == Got(st, i)
  {
    hide From;
    var x := st.merged[0];
    FromHead(st.merged, i);
    FromAppend(st.pushed, [x], i);
    FromOne(x, i);
    Regroup(From(st.pushed, i), if x.from == i then [x.event] else [], From(st.merged[1..], i));
  }

  lemma {:induction false} Regroup<E>(a: seq<E>, b: seq<E>, c: seq<E>)
    ensures a + b + c == a + (b + c)
  {
  }

  lemma {:induction false} GotReceive<E>(client: bool, st: State<E>, j: nat, i: nat)
    requires Shaped(st) && Enabled(client, st, Receive(j)) && i < |st.relay|
    ensures Got(Next(client, st, Receive(j)), i) == Got(st, i) + if i == j then [st.source[i][0]] else []
  {
    hide From;
    if i != j {
      assert Got(st, i) + [] == Got(st, i);
    }
  }

  lemma {:induction false} GotOther<E>(client: bool, st: State<E>, a: Action, i: nat)
    requires Shaped(st) && Enabled(client, st, a) && i < |st.relay|
    requires !a.Receive? && !a.Send? && !a.Take? && !a.Abandon?
    ensures Got(Next(client, st, a), i) == Got(st, i)
  {
    hide From;
  }

  lemma {:induction false} GotAbandon<E>(client: bool, st: State<E>, j: nat, i: nat)
    requires Shaped(st) && Enabled(client, st, Abandon(j)) && i < |st.relay|
    ensures Got(Next(client, st, Abandon(j)), i) <= Got(st, i)
  {
    hide From;
  }

  lemma {:induction false} FaithfulReceive<E>(client: bool, stream: seq<E>, st: State<E>, j: nat, i: nat)
    requires Shaped(st) && Enabled(client, st, Receive(j)) && i < |st.relay| && Faithful(stream, st, i)
    ensures Faithful(stream, Next(client, st, Receive(j)), i)
  {
    GotReceive(client, st, j, i);
    if i == j {
      MoveHead(Got(st, i), st.source[i]);
    }
    hide Got;
  }

  lemma {:induction false} FaithfulAbandon<E>(client: bool, stream: seq<E>, st: State<E>, j: nat, i: nat)
    requires Shaped(st) && Enabled(client, st, Abandon(j)) && i < |st.relay| && Faithful(stream, st, i)
    ensures Faithful(stream, Next(client, st, Abandon(j)), i)
  {
    GotAbandon(client, st, j, i);
    hide Got;
  }

  /** A step that leaves what was got of collector i as it was, and its source unless that is closed. */
  ghost predicate SameCollector<E>(st: State<E>, st': State<E>, i: nat)
    requires i < |st.relay| == |st.source|
  {
    && |st'.relay| == |st'.source| == |st.relay| && Got(st', i) == Got(st, i)
    && (st'.source[i] == st.source[i] || (st.cancelled && st'.source[i] == []))
    && (st.cancelled ==> st'.cancelled)
    && (st'.relay[i].Stopped? ==> st.relay[i].Stopped? || st.source[i] == [])
    && (st.relay[i].Stopped? ==> st'.relay[i].Stopped?)
  }

  lemma {:induction false} CollectorKept<E>(client: bool, st: State<E>, a: Action, i: nat)
    requires Shaped(st) && Enabled(client, st, a) && i < |st.relay| && !a.Receive? && !a.Abandon?
    ensures SameCollector(st, Next(client, st, a), i)
  {
    if a.Send? {
      GotSend(client, st, a.i, i);
    } else if a.Take? {
      GotTake(client, st, i);
    } else {
      GotOther(client, st, a, i);
    }
    hide Got, Over;
  }

  lemma {:induction false} FaithfulKept<E>(stream: seq<E>, st: State<E>, st': State<E>, i: nat)
    requires i < |st.relay| == |st.source| && Faithful(stream, st, i) && SameCollector(st, st', i)
    ensures Faithful(stream, st', i)
  {
    hide Got;
    assert Got(st, i) + [] == Got(st, i);
  }

  /** How one step moves the events of collector i along. */
  lemma {:induction false} FaithfulStep<E>(client: bool, stream: seq<E>, st: State<E>, a: Action, i: nat)
    requires Shaped(st) && Enabled(client, st, a) && i < |st.relay| && Faithful(stream, st, i)
    ensures Shaped(Next(client, st, a)) && |Next(client, st, a).relay| == |st.relay|
    ensures Faithful(stream, Next(client, st, a), i)
  {
    ShapeKept(client, st, a);
    hide Faithful, Next, Enabled, SameCollector;
    if a.Receive? {
      FaithfulReceive(client, stream, st, a.i, i);
    } else if a.Abandon? {
      FaithfulAbandon(client, stream, st, a.i, i);
    } else {
      CollectorKept(client, st, a, i);
      FaithfulKept(stream, st, Next(client, st, a), i);
    }
  }

  lemma {:induction false} ShapeKept<E>(client: bool, st: State<E>, a: Action)
    requires Shaped(st) && Enabled(client, st, a)
    ensures Shaped(Next(client, st, a)) && |Next(client, st, a).relay| == |st.relay|
  {
  }

  lemma {:induction false} MoveHead<E>(got: seq<E>, source: seq<E>)
    requires source != []
    ensures got + [source[0]] + source[1..] == got + source
    ensures got + [source[0]] <= got + source
  {
    assert source == [source[0]] + source[1..];
  }

  lemma {:induction false} ForwardingTake<E>(client: bool, st: State<E>)
    requires Shaped(st) && Enabled(client, st, Take) && Forwarding(client, st)
    ensures Forwarding(client, Next(client, st, Take))
  {
    hide Subsequence;
    assert st.forwarded + [] == st.forwarded;
    if client {
      SubsequenceBoth(st.forwarded, st.pushed, st.merged[0]);
    } else {
      SubsequenceSkip(st.forwarded, st.pushed, st.merged[0]);
    }
  }

  lemma {:induction false} ForwardingForward<E>(client: bool, st: State<E>)
    requires Shaped(st) && Enabled(client, st, Forward) && Forwarding(client, st)
    ensures Forwarding(client, Next(client, st, Forward))
  {
    hide Subsequence;
    assert st.forwarded + [st.current.value] + [] == st.forwarded + [st.current.value];
    assert st.delivered + st.out + [st.current.value] == st.delivered + (st.out + [st.current.value]);
  }

  lemma {:induction false} ForwardingSkip<E>(client: bool, st: State<E>)
    requires Shaped(st) && Enabled(client, st, Skip) && Forwarding(client, st)
    ensures Forwarding(client, Next(client, st, Skip))
  {
    hide Subsequence;
    var all := st.forwarded + [st.current.value];
    SubsequenceDrop(all, st.pushed);
    assert all[..|all| - 1] == st.forwarded + [];
  }

  lemma {:induction false} ForwardingDeliver<E>(client: bool, st: State<E>)
    requires Shaped(st) && Enabled(client, st, Deliver) && Forwarding(client, st)
    ensures Forwarding(client, Next(client, st, Deliver))
  {
    hide Subsequence;
    assert st.out == [st.out[0]] + st.out[1..];
    assert st.delivered + [st.out[0]] + st.out[1..] == st.delivered + st.out;
  }

  ghost predicate SameQueues<E>(st: State<E>, st': State<E>) {
    && st'.forwarded == st.forwarded && st'.out == st.out && st'.current == st.current && st'.pushed == st.pushed
    && st'.delivered == st.delivered && (st.cancelled ==> st'.cancelled)
  }

  lemma {:induction false} QueuesKept<E>(client: bool, st: State<E>, a: Action)
    requires Shaped(st) && Enabled(client, st, a)
    requires !a.Take? && !a.Forward? && !a.Skip? && !a.Deliver?
    ensures SameQueues(st, Next(client, st, a))
  {
    hide Over;
  }

  lemma {:induction false} ForwardingKept<E>(client: bool, st: State<E>, st': State<E>)
    requires Forwarding(client, st) && SameQueues(st, st')
    ensures Forwarding(client, st')
  {
    hide Subsequence;
  }

  lemma {:induction false} ForwardingStep<E>(client: bool, st: State<E>, a: Action)
    requires Shaped(st) && Enabled(client, st, a) && Forwarding(client, st)
    ensures Forwarding(client, Next(client, st, a))
  {
    hide Forwarding, Next, Enabled;
    if a.Take? {
      ForwardingTake(client, st);
    } else if a.Forward? {
      ForwardingForward(client, st);
    } else if a.Skip? {
      ForwardingSkip(client, st);
    } else if a.Deliver? {
      ForwardingDeliver(client, st);
    } else {
      QueuesKept(client, st, a);
      ForwardingKept(client, st, Next(client, st, a));
    }
  }

  lemma {:induction false} EndingStep<E>(client: bool, st: State<E>, a: Action)
    requires Shaped(st) && Enabled(client, st, a) && Ending(client, st) && (st.finished ==> st.current.None?)
    ensures Ending(client, Next(client, st, a))
  {
  }

  lemma {:induction false} InvStep<E>(client: bool, streams: seq<seq<E>>, st: State<E>, a: Action)
    requires Inv(client, streams, st) && Enabled(client, st, a)
    ensures Inv(client, streams, Next(client, st, a))
  {
    hide Faithful, Forwarding, Ending;
    ForwardingStep(client, st, a);
    EndingStep(client, st, a);
    forall i | 0 <= i < |streams| ensures Faithful(streams[i], Next(client, st, a), i) {
      FaithfulStep(client, streams[i], st, a, i);
    }
    SourcesKnown(client, streams, st, a);
  }

  lemma {:induction false} SourcesKnown<E>(client: bool, streams: seq<seq<E>>, st: State<E>, a: Action)
    requires Shaped(st) && |st.source| == |streams| && Enabled(client, st, a)
    requires forall x :: x in st.merged + st.pushed ==> x.from < |streams|
    ensures var st' := Next(client, st, a); forall x :: x in st'.merged + st'.pushed ==> x.from < |streams|
  {
    var st' := Next(client, st, a);
    forall x | x in st'.merged + st'.pushed ensures x.from < |streams| {
      if a.Send? {
        assert x in st.merged + st.pushed || x == Tagged(a.i, st.relay[a.i].e);
      } else {
        assert x in st.merged + st.pushed;
      }
    }
  }

  /** The invariant holds in every state of every run. */
  lemma {:induction false} InvRun<E>(client: bool, streams: seq<seq<E>>, st: State<E>, run: seq<Action>, st': State<E>)
    requires Inv(client, streams, st) && Reaches(client, st, run, st')
    ensures Inv(client, streams, st')
    decreases |run|
  {
    if run != [] {
      hide Inv;
      InvShaped(client, streams, st);
      InvStep(client, streams, st, run[0]);
      InvRun(client, streams, Next(client, st, run[0]), run[1..], st');
    }
  }

  lemma {:induction false} InvShaped<E>(client: bool, streams: seq<seq<E>>, st: State<E>)
    requires Inv(client, streams, st)
    ensures Shaped(st) && |st.source| == |streams|
  {
  }

  /** Fan-in conservation. In every run, cancelled or not: what was recorded of each collector is a beginning
      of its stream, in its order, and what was forwarded is recorded, in the order recorded, and reaches the
      coordinator first in, first out. */
  lemma {:induction false} FanInConservation<E>(client: bool, streams: seq<seq<E>>, run: seq<Action>, st: State<E>)
    requires Reaches(client, Init(streams), run, st)
    ensures forall i :: 0 <= i < |streams| ==> From(st.pushed, i) <= streams[i]
    ensures Subsequence(st.forwarded, st.pushed) && st.delivered <= st.forwarded
    ensures forall x :: x in st.pushed ==> x.from < |streams|
  {
    InvInit(client, streams);
    InvRun(client, streams, Init(streams), run, st);
    forall i | 0 <= i < |streams| ensures From(st.pushed, i) <= streams[i] {
      assert Faithful(streams[i], st, i);
      assert From(st.pushed, i) <= Got(st, i);
    }
    var all := st.forwarded + Waiting(st.current);
    if st.current.Some? {
      SubsequenceDrop(all, st.pushed);
      assert all[..|all| - 1] == st.forwarded;
    } else {
      assert all == st.forwarded;
    }
    forall x | x in st.pushed ensures x.from < |streams| {
      assert x in st.merged + st.pushed;
    }
  }

  /** A run that ends without having been cancelled records every event of every collector exactly once, in
      that collector's order, and forwards just what it recorded. */
  lemma {:induction false} CompleteRun<E>(client: bool, streams: seq<seq<E>>, run: seq<Action>, st: State<E>)
    requires Reaches(client, Init(streams), run, st) && st.finished && !st.cancelled
    ensures forall i :: 0 <= i < |streams| ==> From(st.pushed, i) == streams[i]
    ensures client ==> st.forwarded == st.pushed
    ensures forall x :: x in st.pushed ==> x.from < |streams|
  {
    InvInit(client, streams);
    InvRun(client, streams, Init(streams), run, st);
    forall i | 0 <= i < |streams| ensures From(st.pushed, i) == streams[i] {
      assert Faithful(streams[i], st, i);
      assert st.relay[i].Stopped?;
      assert Got(st, i) + [] == Got(st, i);
    }
    forall x | x in st.pushed ensures x.from < |streams| {
      assert x in st.merged + st.pushed;
    }
  }

  // ---------------------------------------------------------------- progress

  function Total<E>(source: seq<seq<E>>): nat {
    if source == [] then 0 else Total(source[..|source| - 1]) + |source[|source| - 1]|
  }

  function Holders<E>(relay: seq<Relay<E>>): nat {
    if relay == [] then 0 else Holders(relay[..|relay| - 1]) + if relay[|relay| - 1].Holding? then 1 else 0
  }

  function Runners<E>(relay: seq<Relay<E>>): nat {
    if relay == [] then 0 else Runners(relay[..|relay| - 1]) + if relay[|relay| - 1].Stopped? then 0 else 1
  }

  lemma {:induction false} TotalUpdate<E>(source: seq<seq<E>>, i: nat, s: seq<E>)
    requires i < |source|
    ensures Total(source[i := s]) == Total(source) - |source[i]| + |s|
  {
    var n := |source| - 1;
    if i < n {
      assert source[i := s][..n] == source[..n][i := s];
      TotalUpdate(source[..n], i, s);
    } else {
      assert source[i := s][..n] == source[..n];
    }
  }

  lemma {:induction false} RelayUpdate<E>(relay: seq<Relay<E>>, i: nat, r: Relay<E>)
    requires i < |relay|
    ensures Holders(relay[i := r]) == Holders(relay) - (if relay[i].Holding? then 1 else 0) + if r.Holding? then 1 else 0
    ensures Runners(relay[i := r]) == Runners(relay) - (if relay[i].Stopped? then 0 else 1) + if r.Stopped? then 0 else 1
  {
    var n := |relay| - 1;
    if i < n {
      assert relay[i := r][..n] == relay[..n][i := r];
      RelayUpdate(relay[..n], i, r);
    } else {
      assert relay[i := r][..n] == relay[..n];
    }
  }

  function One<T>(o: Option<T>): nat {
    if o.Some? then 1 else 0
  }

  /** The steps left at most: five for an event still in its collector, down to one for an event in the
      outgoing channel; one for each goroutine still to stop, for the acknowledgement and for the return. */
  function Work<E>(st: State<E>): nat {
    5 * Total(st.source) + 4 * Holders(st.relay) + 3 * |st.merged| + 2 * One(st.current) + |st.out|
    + Runners(st.relay) + (if st.mergedClosed then 0 else 1) + (if st.finished then 0 else 1)
    + (if Over(st.stream) then 0 else 1) + (if st.returned then 0 else 1)
  }

  /** The events that have not reached the outgoing channel. */
  function Pending<E>(st: State<E>): nat {
    Total(st.source) + Holders(st.relay) + |st.merged| + One(st.current)
  }

  /** What a step does to the work and to the events not yet delivered. */
  ghost predicate UsesWork<E>(client: bool, st: State<E>, st': State<E>, delivered: nat) {
    && Work(st') < Work(st)
    && st'.cancelled == st.cancelled
    && (client && !st.cancelled ==> Pending(st') + |st'.out| == Pending(st) + |st.out| - delivered)
  }

  lemma {:induction false} RelayWork<E>(client: bool, st: State<E>, a: Action)
    requires Shaped(st) && Enabled(client, st, a) && (a.Receive? || a.Send? || a.Finish? || a.Abandon?)
    ensures UsesWork(client, st, Next(client, st, a), 0)
  {
    if a.Receive? {
      TotalUpdate(st.source, a.i, st.source[a.i][1..]);
      RelayUpdate(st.relay, a.i, Holding(st.source[a.i][0]));
    } else {
      RelayUpdate(st.relay, a.i, if a.Send? then Idle else Stopped);
    }
    hide Total, Holders, Runners, Over;
  }

  lemma {:induction false} LoopWork<E>(client: bool, st: State<E>, a: Action)
    requires Shaped(st) && Enabled(client, st, a) && (Internal(a) || a.FailStream?)
    requires !a.Receive? && !a.Send? && !a.Finish? && !a.Abandon?
    ensures UsesWork(client, st, Next(client, st, a), if a.Deliver? then 1 else 0)
  {
    hide Total, Holders, Runners;
  }

  /** A step of the agent itself uses up work, and so does the end of its stream; without a cancellation its
      steps neither lose nor invent an event. */
  lemma {:induction false} WorkStep<E>(client: bool, st: State<E>, a: Action)
    requires Shaped(st) && Enabled(client, st, a) && (Internal(a) || a.FailStream?)
    ensures Work(Next(client, st, a)) < Work(st)
    ensures Next(client, st, a).cancelled == st.cancelled
    ensures client && !st.cancelled ==>
      Pending(Next(client, st, a)) + |Next(client, st, a).out| == Pending(st) + |st.out| - if a.Deliver? then 1 else 0
  {
    hide Work, Pending, Next, Enabled, Internal;
    if a.Receive? || a.Send? || a.Finish? || a.Abandon? {
      RelayWork(client, st, a);
    } else {
      LoopWork(client, st, a);
    }
  }

  /** What a running agent returns from: some collector, and no coordinator, or one whose stream has opened
      and not failed, or room in the outgoing channel for everything left. */
  predicate CanReturn<E>(client: bool, st: State<E>) {
    && st.relay != []
    && (client ==> !st.stream.Opening? && (st.stream.Failed? ==> Pending(st) + |st.out| <= CHANNEL))
  }

  lemma {:induction false} AllStopped<E>(relay: seq<Relay<E>>) returns (i: int)
    ensures -1 <= i < |relay|
    ensures if i < 0 then forall j :: 0 <= j < |relay| ==> relay[j].Stopped? else !relay[i].Stopped?
  {
    i := |relay| - 1;
    while i >= 0 && relay[i].Stopped?
      invariant -1 <= i < |relay|
      invariant forall j :: i < j < |relay| ==> relay[j].Stopped?
    {
      i := i - 1;
    }
  }

  lemma {:induction false} ProgressAtEnd<E>(client: bool, st: State<E>) returns (a: Action)
    requires Shaped(st) && st.relay != [] && st.finished && !st.returned && (client ==> !st.stream.Opening?)
    ensures Internal(a) && Enabled(client, st, a)
  {
    a := if client && st.stream.Open? then (if st.out == [] then Acknowledge else Deliver) else Return;
  }

  lemma {:induction false} ProgressBefore<E>(client: bool, st: State<E>) returns (a: Action)
    requires Shaped(st) && st.relay != [] && !st.finished && |st.merged| <= CHANNEL
    requires st.current.Some? && |st.out| >= CHANNEL ==> client && st.stream.Open?
    ensures Internal(a) && Enabled(client, st, a)
  {
    if st.current.Some? {
      a := if |st.out| < CHANNEL then Forward else Deliver;
    } else if st.merged != [] {
      a := Take;
    } else {
      var i := AllStopped(st.relay);
      if i < 0 {
        a := if st.mergedClosed then Exit else CloseMerged;
      } else if st.relay[i].Holding? {
        a := Send(i);
      } else {
        a := if st.source[i] == [] then Finish(i) else Receive(i);
      }
    }
  }

  /** While such an agent has not returned, it can take a step. */
  lemma {:induction false} Progress<E>(client: bool, streams: seq<seq<E>>, st: State<E>) returns (a: Action)
    requires Inv(client, streams, st) && !st.cancelled && !st.returned && CanReturn(client, st)
    ensures Shaped(st) && Internal(a) && Enabled(client, st, a)
  {
    hide Faithful, Total, Holders, Subsequence, Enabled, Internal;
    if st.finished {
      a := ProgressAtEnd(client, st);
    } else {
      a := ProgressBefore(client, st);
    }
  }

  ghost predicate InternalRun(run: seq<Action>) {
    forall i :: 0 <= i < |run| ==> Internal(run[i])
  }

  /** The agent's own steps do not change whether it can return. */
  lemma {:induction false} CanReturnStep<E>(client: bool, st: State<E>, a: Action)
    requires Shaped(st) && Enabled(client, st, a) && Internal(a) && !st.cancelled
    ensures CanReturn(client, st) <==> CanReturn(client, Next(client, st, a))
  {
    WorkStep(client, st, a);
    hide Pending, Work;
  }

  /** Every run of its own steps is short, and keeps whether the agent can return. */
  lemma {:induction false} RunBound<E>(client: bool, streams: seq<seq<E>>, st: State<E>, run: seq<Action>, st': State<E>)
    requires Inv(client, streams, st) && !st.cancelled && Shaped(st) && InternalRun(run) && Reaches(client, st, run, st')
    ensures Inv(client, streams, st') && !st'.cancelled && |run| + Work(st') <= Work(st)
    ensures CanReturn(client, st) <==> CanReturn(client, st')
    decreases |run|
  {
    hide Inv, Work, CanReturn, Next, Enabled;
    if run != [] {
      var a := run[0];
      assert Internal(a);
      WorkStep(client, st, a);
      InvStep(client, streams, st, a);
      CanReturnStep(client, st, a);
      InvShaped(client, streams, Next(client, st, a));
      RunBound(client, streams, Next(client, st, a), run[1..], st');
    }
  }

  /** Left to itself, an agent that can return does: no run of its own steps is longer than the work left, and
      any that has not returned goes on. */
  lemma {:induction false} AlwaysReturns<E>(client: bool, streams: seq<seq<E>>, st: State<E>, run: seq<Action>, st': State<E>)
    requires Inv(client, streams, st) && !st.cancelled && CanReturn(client, st)
    requires Shaped(st) && InternalRun(run) && Reaches(client, st, run, st')
    ensures Shaped(st') && |run| + Work(st') <= Work(st)
    ensures st'.returned || exists a :: Internal(a) && Enabled(client, st', a)
  {
    hide Inv, Work, CanReturn, Enabled, Reaches, InternalRun;
    RunBound(client, streams, st, run, st');
    InvShaped(client, streams, st');
    if !st'.returned {
      var a := Progress(client, streams, st');
    }
  }

  /** So some run of its own steps ends with the return. */
  lemma {:induction false} ReturningRun<E>(client: bool, streams: seq<seq<E>>, st: State<E>) returns (run: seq<Action>, st': State<E>)
    requires Inv(client, streams, st) && !st.cancelled && CanReturn(client, st)
    ensures Shaped(st) && InternalRun(run) && Reaches(client, st, run, st') && st'.returned
    decreases Work(st)
  {
    InvShaped(client, streams, st);
    hide Inv, CanReturn, Work, Enabled, Next;
    if st.returned {
      run, st' := [], st;
    } else {
      var a := Progress(client, streams, st);
      InvStep(client, streams, st, a);
      CanReturnStep(client, st, a);
      WorkStep(client, st, a);
      var rest;
      rest, st' := ReturningRun(client, streams, Next(client, st, a));
      run := [a] + rest;
      assert run[1..] == rest;
    }
  }

  /** After the main loop has ended everything is in the outgoing channel or beyond. */
  lemma {:induction false} FinishedEmpty<E>(client: bool, streams: seq<seq<E>>, st: State<E>)
    requires Inv(client, streams, st) && st.finished && !st.cancelled
    ensures Pending(st) == 0 && |st.out| <= CHANNEL
  {
    forall i | 0 <= i < |streams| ensures st.source[i] == [] && st.relay[i].Stopped? {
      assert Faithful(streams[i], st, i);
    }
    TotalZero(st.source);
    HoldersZero(st.relay);
  }

  lemma {:induction false} TotalZero<E>(source: seq<seq<E>>)
    requires forall i :: 0 <= i < |source| ==> source[i] == []
    ensures Total(source) == 0
  {
    if source != [] {
      TotalZero(source[..|source| - 1]);
    }
  }

  lemma {:induction false} HoldersZero<E>(relay: seq<Relay<E>>)
    requires forall i :: 0 <= i < |relay| ==> relay[i].Stopped?
    ensures Holders(relay) == 0
  {
    if relay != [] {
      HoldersZero(relay[..|relay| - 1]);
    }
  }

  lemma {:induction false} ReturnedCould<E>(client: bool, streams: seq<seq<E>>, st: State<E>)
    requires Inv(client, streams, st) && st.returned && !st.cancelled
    ensures CanReturn(client, st)
  {
    assert Ending(client, st);
    FinishedEmpty(client, streams, st);
    hide Pending, Faithful, Forwarding;
  }

  /** Run is said to block until the context is done or every collector has finished. While the context is not
      done, the steps of the agent itself lead to the return of Run if and only if it has a collector and either
      no coordinator, or a stream that has opened and not failed, or a failed one and room in the outgoing
      channel for everything not yet in it. */
  lemma {:induction false} ReturnsExactly<E>(client: bool, streams: seq<seq<E>>, st: State<E>)
    requires Inv(client, streams, st) && !st.cancelled
    ensures Shaped(st)
    ensures CanReturn(client, st) <==> exists run, st' :: InternalRun(run) && Reaches(client, st, run, st') && st'.returned
  {
    InvShaped(client, streams, st);
    hide Inv, CanReturn, Reaches, InternalRun, Work;
    if CanReturn(client, st) {
      var run, st' := ReturningRun(client, streams, st);
    }
    if exists run, st' :: InternalRun(run) && Reaches(client, st, run, st') && st'.returned {
      var run, st' :| InternalRun(run) && Reaches(client, st, run, st') && st'.returned;
      RunBound(client, streams, st, run, st');
      ReturnedCould(client, streams, st');
    }
  }

  /** A run of the agent after a cancellation: its stream ends with the context. */
  ghost predicate CancelledRun(run: seq<Action>) {
    forall i :: 0 <= i < |run| ==> Internal(run[i]) || run[i].FailStream?
  }

  lemma {:induction false} CancelledBound<E>(client: bool, streams: seq<seq<E>>, st: State<E>, run: seq<Action>, st': State<E>)
    requires Inv(client, streams, st) && st.cancelled && Shaped(st) && CancelledRun(run) && Reaches(client, st, run, st')
    ensures Inv(client, streams, st') && st'.cancelled && |run| + Work(st') <= Work(st)
    decreases |run|
  {
    hide Inv, Work, Next, Enabled;
    if run != [] {
      var a := run[0];
      assert Internal(a) || a.FailStream?;
      WorkStep(client, st, a);
      InvStep(client, streams, st, a);
      InvShaped(client, streams, Next(client, st, a));
      CancelledBound(client, streams, Next(client, st, a), run[1..], st');
    }
  }

  lemma {:induction false} CancelledProgress<E>(client: bool, st: State<E>) returns (a: Action)
    requires Shaped(st) && st.cancelled && !st.returned
    ensures (Internal(a) || a.FailStream?) && Enabled(client, st, a)
  {
    if st.relay == [] {
      a := Return;
    } else if st.finished {
      a := if client && !Over(st.stream) then FailStream else Return;
    } else if st.current.Some? {
      a := Skip;
    } else if st.merged != [] {
      a := Take;
    } else {
      var i := AllStopped(st.relay);
      if i < 0 {
        a := if st.mergedClosed then Exit else CloseMerged;
      } else if st.relay[i].Holding? {
        a := Abandon(i);
      } else {
        a := if st.source[i] == [] then Finish(i) else Receive(i);
      }
    }
  }

  /** Once the context is done Run returns, whatever state it is in: no run is longer than the work left, and
      any that has not returned goes on. */
  lemma {:induction false} CancelledReturns<E>(client: bool, streams: seq<seq<E>>, st: State<E>, run: seq<Action>, st': State<E>)
    requires Inv(client, streams, st) && st.cancelled
    requires Shaped(st) && CancelledRun(run) && Reaches(client, st, run, st')
    ensures Shaped(st') && |run| + Work(st') <= Work(st)
    ensures st'.returned || exists a :: (Internal(a) || a.FailStream?) && Enabled(client, st', a)
  {
    hide Inv, Work, Enabled, Reaches, CancelledRun;
    CancelledBound(client, streams, st, run, st');
    InvShaped(client, streams, st');
    if !st'.returned {
      var a := CancelledProgress(client, st');
    }
  }

  /** None of its own runs lets it return. */
  ghost predicate Stuck<E(!new)>(client: bool, st: State<E>)
    requires Shaped(st)
  {
    forall run, st' :: InternalRun(run) && Reaches(client, st, run, st') ==> !st'.returned
  }

  lemma {:induction false} CannotReturn<E(!new)>(client: bool, streams: seq<seq<E>>, st: State<E>)
    requires Inv(client, streams, st) && !st.cancelled && !CanReturn(client, st)
    ensures Shaped(st) && Stuck(client, st)
  {
    InvShaped(client, streams, st);
    hide Inv, CanReturn, Reaches, InternalRun, Work;
    forall run, st' | InternalRun(run) && Reaches(client, st, run, st') ensures !st'.returned {
      RunBound(client, streams, st, run, st');
      if st'.returned {
        ReturnedCould(client, streams, st');
      }
    }
  }

  /** With a coordinator that cannot be reached Run never returns, even if every collector is empty. */
  lemma {:induction false} WaitsForCoordinator<E(!new)>(streams: seq<seq<E>>)
    ensures Stuck(true, Init(streams))
  {
    InvInit(true, streams);
    hide Inv, Stuck;
    CannotReturn(true, streams, Init(streams));
  }

  /** When the stream opens and fails at once, Run never returns exactly if the collector has more events than the
      outgoing channel holds. */
  lemma {:induction false} BlocksForGood(events: seq<int>) returns (st: State<int>)
    ensures Reaches(true, Init([events]), [OpenStream, FailStream], st)
    ensures Stuck(true, st) <==> |events| > 1024
  {
    hide Inv, Stuck, Pending, Work;
    st := FailedAtOnce(events);
    InvInit(true, [events]);
    InvRun(true, [events], Init([events]), [OpenStream, FailStream], st);
    AllPending(events, st);
    if |events| > 1024 {
      CannotReturn(true, [events], st);
    } else {
      NotStuck(true, [events], st);
    }
  }

  lemma {:induction false} NotStuck<E(!new)>(client: bool, streams: seq<seq<E>>, st: State<E>)
    requires Inv(client, streams, st) && !st.cancelled && CanReturn(client, st)
    ensures Shaped(st) && !Stuck(client, st)
  {
    InvShaped(client, streams, st);
    hide Inv, CanReturn, Reaches, InternalRun, Work;
    var run, st' := ReturningRun(client, streams, st);
  }

  lemma {:induction false} FailedAtOnce(events: seq<int>) returns (st: State<int>)
    ensures Reaches(true, Init([events]), [OpenStream, FailStream], st)
    ensures st == Init([events]).(stream := Failed)
  {
    var start := Init([events]);
    var ready := Next(true, start, OpenStream);
    st := Next(true, ready, FailStream);
    assert [OpenStream, FailStream][1..] == [FailStream] && [FailStream][1..] == [];
    assert Reaches(true, st, [], st);
    assert Reaches(true, ready, [FailStream], st);
  }

  lemma {:induction false} OneIdle()
    ensures Holders<int>([Idle]) == 0
  {
    var relay: seq<Relay<int>> := [Idle];
    assert relay[..0] == [];
  }

  lemma {:induction false} AllPending(events: seq<int>, st: State<int>)
    requires st == Init([events]).(stream := Failed)
    ensures Pending(st) == |events| && st.out == [] && st.stream.Failed? && !st.cancelled
  {
    assert st.relay == [Idle] && st.source == [events];
    assert [events][..0] == [];
    assert Total([events]) == |events|;
    OneIdle();
  }
}
