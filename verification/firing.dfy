/** When each rule fires, in terms of the events themselves. */
module Firing {
  import opened Sequences
  import opened Events
  import opened Stats
  import opened Detection
  import opened Attributions
  import opened Engines
  import opened Causes

  // ---------------------------------------------------------------- the window and the baseline

  lemma {:induction false} SelectAppend(p: Event -> bool, a: seq<Event>, b: seq<Event>)
    ensures Select(p, a + b) == Select(p, a) + Select(p, b)
  {
    if b == [] {
      assert a + b == a;
    } else {
      assert (a + b)[..|a + b| - 1] == a + b[..|b| - 1];
      SelectAppend(p, a, b[..|b| - 1]);
    }
  }

  lemma {:induction false} SelectExactly(p: Event -> bool, evs: seq<Event>, e: Event)
    ensures multiset(Select(p, evs))[e] == if p(e) then multiset(evs)[e] else 0
    ensures Subsequence(Select(p, evs), evs)
  {
    if evs != [] {
      var n := |evs| - 1;
      var s := Select(p, evs[..n]);
      SelectExactly(p, evs[..n], e);
      assert evs == evs[..n] + [evs[n]];
      hide Subsequence;
      if p(evs[n]) {
        SubsequenceBoth(s, evs[..n], evs[n]);
      } else {
        SubsequenceSkip(s, evs[..n], evs[n]);
      }
    }
  }

  /** Between the window's length before the first flagged collective and the last one. */
  predicate InWindow(a: Anomaly, window: int, e: Event) {
    a.startNs - window <= e.ts <= a.endNs
  }

  /** The window holds exactly the events of that time and the baseline exactly the earlier ones, each as often as
      it was given and in the order given. */
  lemma {:induction false} PhasesExactly(a: Anomaly, window: int, evs: seq<Event>, e: Event)
    ensures multiset(During(a, window, evs))[e] == if a.startNs - window <= e.ts <= a.endNs then multiset(evs)[e] else 0
    ensures multiset(Earlier(a, window, evs))[e] == if e.ts < a.startNs - window then multiset(evs)[e] else 0
    ensures Subsequence(During(a, window, evs), evs) && Subsequence(Earlier(a, window, evs), evs)
  {
    hide Subsequence, Select;
    SelectExactly((e: Event) => a.startNs - window <= e.ts <= a.endNs, evs, e);
    SelectExactly((e: Event) => e.ts < a.startNs - window, evs, e);
  }

  lemma {:induction false} InDuring(a: Anomaly, window: int, evs: seq<Event>, e: Event)
    ensures e in During(a, window, evs) <==> e in evs && InWindow(a, window, e)
  {
    PhasesExactly(a, window, evs, e);
    hide During;
    assert e in evs <==> e in multiset(evs);
    assert e in During(a, window, evs) <==> e in multiset(During(a, window, evs));
  }

  // ---------------------------------------------------------------- the throttle rules

  /** Throttled for heat: a hardware slowdown or thermal bit, or a thermal event that says so. */
  predicate ShowsHeat(e: Event) {
    || (e.GPUMetric? && (e.throttleReasons & 0x08 != 0 || e.throttleReasons & 0x20 != 0 || e.throttleReasons & 0x40 != 0))
    || (e.Thermal? && e.throttleActive)
  }

  /** Throttled for power: a power cap or brake bit. */
  predicate ShowsPower(e: Event) {
    e.GPUMetric? && (e.throttleReasons & 0x04 != 0 || e.throttleReasons & 0x80 != 0)
  }

  lemma {:induction false} HeatBits(t: bv64)
    ensures t & THERMAL_MASK != 0 <==> t & 0x08 != 0 || t & 0x20 != 0 || t & 0x40 != 0
    ensures t & POWER_MASK != 0 <==> t & 0x04 != 0 || t & 0x80 != 0
  {
  }

  lemma {:induction false} Shows(e: Event)
    ensures ThermalHit(e) <==> ShowsHeat(e)
    ensures PowerHit(e) <==> ShowsPower(e)
    ensures AnyThrottle(e) <==> e.GPUMetric? && (ShowsHeat(e) || ShowsPower(e))
  {
    if e.GPUMetric? {
      HeatBits(e.throttleReasons);
      MaskUnion(e.throttleReasons);
    }
  }

  lemma {:induction false} SampleExists(p: Event -> bool, evs: seq<Event>)
    ensures AnySample(p, evs) <==> exists e :: e in evs && p(e)
  {
    if AnySample(p, evs) {
      var i :| 0 <= i < |evs| && p(evs[i]);
      assert evs[i] in evs;
    }
  }

  /** An event of the kind p, within the window. */
  function Timed(a: Anomaly, window: int, p: Event -> bool): Event -> bool {
    (e: Event) => InWindow(a, window, e) && p(e)
  }

  lemma {:induction false} CountTimed(a: Anomaly, window: int, evs: seq<Event>, p: Event -> bool)
    ensures CountIf(p, During(a, window, evs)) == Matches(evs, Timed(a, window, p))
  {
    hide Matches;
    if evs != [] {
      var n := |evs| - 1;
      CountTimed(a, window, evs[..n], p);
      MatchesStep(evs, Timed(a, window, p));
      var d := During(a, window, evs[..n]);
      if InWindow(a, window, evs[n]) {
        assert During(a, window, evs) == d + [evs[n]];
        assert (d + [evs[n]])[..|d|] == d;
      }
    } else {
      NoMatches(evs, Timed(a, window, p));
    }
  }

  /** The last event of the kind p among evs. */
  ghost predicate IsLast(evs: seq<Event>, p: Event -> bool, e: Event) {
    exists i :: 0 <= i < |evs| && evs[i] == e && p(e) && forall j :: i < j < |evs| ==> !p(evs[j])
  }

  lemma {:induction false} LastExactly(evs: seq<Event>, p: Event -> bool)
    requires LastIf(p, evs).Some?
    ensures IsLast(evs, p, LastIf(p, evs).value)
  {
    var n := |evs| - 1;
    if !p(evs[n]) {
      LastExactly(evs[..n], p);
      var e := LastIf(p, evs[..n]).value;
      var i :| 0 <= i < n && evs[..n][i] == e && p(e) && forall j :: i < j < n ==> !p(evs[..n][j]);
      forall j | i < j < |evs| ensures !p(evs[j]) {
        if j < n {
          assert evs[..n][j] == evs[j];
        }
      }
      assert evs[i] == e;
    }
  }

  lemma {:induction false} LastUnique(evs: seq<Event>, p: Event -> bool, x: Event, y: Event)
    requires IsLast(evs, p, x) && IsLast(evs, p, y)
    ensures x == y
  {
    var i :| 0 <= i < |evs| && evs[i] == x && p(x) && forall k :: i < k < |evs| ==> !p(evs[k]);
    var j :| 0 <= j < |evs| && evs[j] == y && p(y) && forall k :: j < k < |evs| ==> !p(evs[k]);
    assert i <= j && j <= i;
  }

  lemma {:induction false} InChainExactly(a: Anomaly, window: int, evs: seq<Event>, c: Cause)
    requires c != Unknown
    ensures InChain(Explain(a, window, evs), c) <==> OutcomeOf(c, During(a, window, evs), Earlier(a, window, evs)).Fired?
  {
    var during, before := During(a, window, evs), Earlier(a, window, evs);
    hide During, Earlier, OutcomeOf, Explain;
    if InChain(Explain(a, window, evs), c) {
      var l :| l in Explain(a, window, evs).chain && l.cause == c;
      ChainLinks(a, window, evs, l);
    }
    if OutcomeOf(c, during, before).Fired? {
      FiredConfidence(c, during, before);
      ChainLinks(a, window, evs, OutcomeOf(c, during, before).link);
    }
  }

  predicate ReportsHeat(e: Event) {
    e.GPUMetric? || e.Thermal?
  }

  lemma {:induction false} CountSame(evs: seq<Event>, p: Event -> bool, q: Event -> bool)
    requires forall e :: p(e) <==> q(e)
    ensures CountIf(p, evs) == CountIf(q, evs)
  {
    if evs != [] {
      CountSame(evs[..|evs| - 1], p, q);
    }
  }

  /** Thermal throttling is in the chain if and only if some event of the rank in the window shows it, with the
      share of the window's samples that do, at most 0.95, as its confidence. */
  lemma {:induction false} ThermalExactly(a: Anomaly, window: int, evs: seq<Event>)
    ensures InChain(Explain(a, window, evs), ThermalThrottle) <==>
      exists e :: e in evs && a.startNs - window <= e.ts <= a.endNs && ShowsHeat(e)
    ensures forall l :: l in Explain(a, window, evs).chain && l.cause == ThermalThrottle ==>
      var n := Matches(evs, Timed(a, window, ReportsHeat));
      n > 0 && l.confidence == Min(Matches(evs, Timed(a, window, ShowsHeat)) as real / n as real, 0.95)
  {
    ThrottleExactly(ThermalThrottle, a, window, evs, ShowsHeat, ReportsHeat) by {
      forall e ensures ThermalHit(e) <==> ShowsHeat(e) {
        Shows(e);
      }
    }
  }

  /** The same of a power cap or brake, among the GPU samples. */
  lemma {:induction false} PowerExactly(a: Anomaly, window: int, evs: seq<Event>)
    ensures InChain(Explain(a, window, evs), PowerThrottle) <==>
      exists e :: e in evs && a.startNs - window <= e.ts <= a.endNs && ShowsPower(e)
    ensures forall l :: l in Explain(a, window, evs).chain && l.cause == PowerThrottle ==>
      var n := Matches(evs, Timed(a, window, IsGpu));
      n > 0 && l.confidence == Min(Matches(evs, Timed(a, window, ShowsPower)) as real / n as real, 0.95)
  {
    ThrottleExactly(PowerThrottle, a, window, evs, ShowsPower, IsGpu) by {
      forall e ensures PowerHit(e) <==> ShowsPower(e) {
        Shows(e);
      }
    }
  }

  lemma {:induction false} ThrottleFires(c: Cause, during: seq<Event>, before: seq<Event>)
    requires c.ThermalThrottle? || c.PowerThrottle?
    ensures OutcomeOf(c, during, before).Fired? <==> CountIf(Throttled(c), during) > 0
  {
    CountSome(ThermalHit, during);
    CountSome(ThermalSample, during);
    CountSome(PowerHit, during);
    CountSome(IsGpu, during);
    HitIsSample(during);
    hide CountIf, LastIf, Frac, AnySample, ThermalHit, ThermalSample, PowerHit, IsGpu;
  }

  lemma {:induction false} HitIsSample(evs: seq<Event>)
    ensures AnySample(ThermalHit, evs) ==> AnySample(ThermalSample, evs)
    ensures AnySample(PowerHit, evs) ==> AnySample(IsGpu, evs)
  {
    if AnySample(ThermalHit, evs) {
      var i :| 0 <= i < |evs| && ThermalHit(evs[i]);
      assert ThermalSample(evs[i]);
    }
    if AnySample(PowerHit, evs) {
      var i :| 0 <= i < |evs| && PowerHit(evs[i]);
      assert IsGpu(evs[i]);
    }
  }

  lemma {:induction false} ThrottleExactly(c: Cause, a: Anomaly, window: int, evs: seq<Event>, hit: Event -> bool, sample: Event -> bool)
    requires c.ThermalThrottle? || c.PowerThrottle?
    requires forall e :: (Throttled(c)(e) <==> hit(e)) && (Sampled(c)(e) <==> sample(e))
    ensures InChain(Explain(a, window, evs), c) <==> exists e :: e in evs && a.startNs - window <= e.ts <= a.endNs && hit(e)
    ensures forall l :: l in Explain(a, window, evs).chain && l.cause == c ==>
      var n := Matches(evs, Timed(a, window, sample));
      n > 0 && l.confidence == Min(Matches(evs, Timed(a, window, hit)) as real / n as real, 0.95)
  {
    var during, before := During(a, window, evs), Earlier(a, window, evs);
    InChainExactly(a, window, evs, c);
    ThrottleFires(c, during, before);
    CountSame(during, Throttled(c), hit);
    CountSame(during, Sampled(c), sample);
    CountTimed(a, window, evs, hit);
    CountTimed(a, window, evs, sample);
    CountSome(hit, during);
    SampleExists(hit, during);
    hide During, Earlier, OutcomeOf, Explain, CountIf, LastIf, Matches, Timed, AnySample, Throttled, Sampled;
    forall e ensures e in during <==> e in evs && a.startNs - window <= e.ts <= a.endNs {
      InDuring(a, window, evs, e);
    }
    forall l | l in Explain(a, window, evs).chain && l.cause == c ensures
      var n := Matches(evs, Timed(a, window, sample));
      n > 0 && l.confidence == Min(Matches(evs, Timed(a, window, hit)) as real / n as real, 0.95)
    {
      ChainLinks(a, window, evs, l);
      ThrottleShare(c, during, before);
    }
  }

  /** Their evidence is the last throttled sample of the window. */
  lemma {:induction false} ThrottleEvidence(c: Cause, during: seq<Event>, before: seq<Event>)
    requires c.ThermalThrottle? || c.PowerThrottle?
    requires OutcomeOf(c, during, before).Fired?
    ensures var ev := OutcomeOf(c, during, before).link.evidence;
            ev.Some? && IsLast(during, if c.ThermalThrottle? then ShowsHeat else ShowsPower, ev.value)
  {
    ThrottleFires(c, during, before);
    CountSome(Throttled(c), during);
    var ev := LastIf(Throttled(c), during);
    LastExactly(during, Throttled(c));
    forall e ensures (ThermalHit(e) <==> ShowsHeat(e)) && (PowerHit(e) <==> ShowsPower(e)) {
      Shows(e);
    }
    hide CountIf, LastIf, Frac, AnySample, ThermalHit, PowerHit, ShowsHeat, ShowsPower, ThermalSample, IsGpu;
  }

  // ---------------------------------------------------------------- readings

  lemma {:induction false} ReadingExactly(f: Event -> Option<real>, evs: seq<Event>, x: real)
    ensures x in Values(f, evs) <==> exists e :: e in evs && f(e) == Some(x)
  {
    if evs != [] {
      var n := |evs| - 1;
      ReadingExactly(f, evs[..n], x);
      assert evs == evs[..n] + [evs[n]];
    }
  }

  lemma {:induction false} ReadingsAll(f: Event -> Option<real>, evs: seq<Event>)
    ensures forall x :: x in Values(f, evs) <==> exists e :: e in evs && f(e) == Some(x)
    ensures Values(f, evs) != [] <==> exists e :: e in evs && f(e).Some?
  {
    forall x ensures x in Values(f, evs) <==> exists e :: e in evs && f(e) == Some(x) {
      ReadingExactly(f, evs, x);
    }
    ValuesSome(f, evs);
    SampleExists(Has(f), evs);
    hide Values, AnySample;
  }

  /** The median reading is where all the readings are. */
  lemma {:induction false} MedianReading(f: Event -> Option<real>, evs: seq<Event>, m: real)
    requires Values(f, evs) != []
    ensures (forall e :: e in evs && f(e).Some? ==> f(e).value > m) ==> Median(Values(f, evs)) > m
    ensures (forall e :: e in evs && f(e).Some? ==> f(e).value >= m) ==> Median(Values(f, evs)) >= m
    ensures (forall e :: e in evs && f(e).Some? ==> f(e).value < m) ==> Median(Values(f, evs)) < m
    ensures (forall e :: e in evs && f(e).Some? ==> f(e).value <= m) ==> Median(Values(f, evs)) <= m
  {
    ReadingsAll(f, evs);
    hide Values, Median;
    MedianSide(Values(f, evs), m);
  }

  /** Compute processes were counted. */
  predicate CountsProcs(e: Event) {
    e.GPUMetric? && e.computeProcs > 0
  }

  /** Contention fires exactly when both phases report process counts and the median of the window's is above that
      of the baseline's, with confidence 0.7 and the window's last count as evidence. */
  lemma {:induction false} ContentionFires(during: seq<Event>, before: seq<Event>)
    ensures var o := ContentionOutcome(during, before);
            && (o.Fired? <==> (exists e :: e in during && CountsProcs(e)) && (exists e :: e in before && CountsProcs(e))
                              && Median(Values(Procs, before)) < Median(Values(Procs, during)))
            && (o.Fired? ==> o.link.cause == Contention && o.link.confidence == 0.7
                             && o.link.evidence.Some? && IsLast(during, CountsProcs, o.link.evidence.value))
  {
    ReadingsAll(Procs, during);
    ReadingsAll(Procs, before);
    LastOfKind(Procs, CountsProcs, during);
    hide Values, Median, LastIf, IsLast;
  }

  lemma {:induction false} LastOfKind(f: Event -> Option<real>, p: Event -> bool, evs: seq<Event>)
    requires forall e :: f(e).Some? <==> p(e)
    ensures LastIf(Has(f), evs).Some? <==> exists e :: e in evs && p(e)
    ensures LastIf(Has(f), evs).Some? ==> IsLast(evs, p, LastIf(Has(f), evs).value)
  {
    CountSome(Has(f), evs);
    SampleExists(Has(f), evs);
    if LastIf(Has(f), evs).Some? {
      LastExactly(evs, Has(f));
    }
    hide LastIf, AnySample, CountIf;
  }

  /** Counts of the window that are all above a number, over counts of the baseline that are not, fire it; counts
      not above a number that no count of the baseline is below rule it out. */
  lemma {:induction false} ContentionByCounts(during: seq<Event>, before: seq<Event>, m: int)
    requires (exists e :: e in during && CountsProcs(e)) && (exists e :: e in before && CountsProcs(e))
    ensures ((forall e :: e in during && CountsProcs(e) ==> e.computeProcs > m)
             && (forall e :: e in before && CountsProcs(e) ==> e.computeProcs <= m)) ==> ContentionOutcome(during, before).Fired?
    ensures ((forall e :: e in during && CountsProcs(e) ==> e.computeProcs <= m)
             && (forall e :: e in before && CountsProcs(e) ==> e.computeProcs >= m)) ==> ContentionOutcome(during, before).RuledOut?
  {
    hide Values, Median, LastIf;
    ReadingsAll(Procs, during);
    ReadingsAll(Procs, before);
    MedianReading(Procs, during, m as real);
    MedianReading(Procs, before, m as real);
  }

  // ---------------------------------------------------------------- clock and bandwidth

  predicate ReportsClock(e: Event) {
    e.GPUMetric? && e.smClockMHz > 0.0
  }

  /** The clock rule fires exactly when both phases report clocks and the median of the window's is below three
      quarters of that of the baseline's. */
  lemma {:induction false} ClockFires(during: seq<Event>, before: seq<Event>)
    ensures var o, dm, bm := ClockOutcome(during, before), Median(Values(Clock, during)), Median(Values(Clock, before));
            && (o.Fired? <==> (exists e :: e in during && ReportsClock(e)) && (exists e :: e in before && ReportsClock(e))
                              && 4.0 * dm < 3.0 * bm)
            && (o.Fired? ==> o.link.cause == ClockReduced && bm > 0.0 && o.link.confidence == Min(0.4 + (1.0 - dm / bm) / 2.0, 0.7)
                             && o.link.evidence.Some? && IsLast(during, ReportsClock, o.link.evidence.value))
  {
    ClockVerdict(during, before);
    ReadingsAll(Clock, during);
    ReadingsAll(Clock, before);
    LastOfKind(Clock, ReportsClock, during);
    hide Values, Median, LastIf, IsLast, ClockOutcome;
    if ClockOutcome(during, before).Fired? {
      assert OutcomeOf(ClockReduced, during, before) == ClockOutcome(during, before);
      ClockShare(during, before);
    }
  }

  lemma {:induction false} ClockVerdict(during: seq<Event>, before: seq<Event>)
    ensures var o, d, b := ClockOutcome(during, before), Values(Clock, during), Values(Clock, before);
            && (o.NoData? <==> d == [] || b == [])
            && (o.Fired? <==> d != [] && b != [] && Median(d) < Median(b) * 0.75)
            && (o.Fired? ==> o.link.cause == ClockReduced && o.link.evidence == LastIf(Has(Clock), during))
  {
    if Values(Clock, before) != [] {
      BaselinePositive(before);
    }
    hide Values, Median, LastIf;
  }

  /** The drop rule on readings: a window wholly below half of what the baseline nowhere falls below fires it, one
      nowhere below half of what the baseline nowhere exceeds does not. */
  lemma {:induction false} DropByReadings(c: Cause, f: Event -> Option<real>, during: seq<Event>, before: seq<Event>, ev: Option<Event>, m: real)
    requires (exists e :: e in during && f(e).Some?) && (exists e :: e in before && f(e).Some?) && m > 0.0
    ensures ((forall e :: e in during && f(e).Some? ==> f(e).value < m / 2.0)
             && (forall e :: e in before && f(e).Some? ==> f(e).value >= m)) ==>
      BandwidthDrop(c, Values(f, during), Values(f, before), ev).Fired?
    ensures ((forall e :: e in during && f(e).Some? ==> f(e).value >= m / 2.0)
             && (forall e :: e in before && f(e).Some? ==> f(e).value <= m)) ==>
      BandwidthDrop(c, Values(f, during), Values(f, before), ev).RuledOut?
  {
    ReadingsAll(f, during);
    ReadingsAll(f, before);
    hide Values, BandwidthDrop, Median;
    DropFires(c, Values(f, during), Values(f, before), ev);
    MedianReading(f, during, m / 2.0);
    MedianReading(f, before, m);
  }

  /** PCIe: what counts is the read and write traffic of a sample together. */
  lemma {:induction false} PCIeByTraffic(during: seq<Event>, before: seq<Event>, m: real)
    requires (exists e :: e in during && e.PCIe?) && (exists e :: e in before && e.PCIe?) && m > 0.0
    ensures ((forall e :: e in during && e.PCIe? ==> e.readMBs + e.writeMBs < m / 2.0)
             && (forall e :: e in before && e.PCIe? ==> e.readMBs + e.writeMBs >= m)) ==> PCIeOutcome(during, before).Fired?
    ensures ((forall e :: e in during && e.PCIe? ==> e.readMBs + e.writeMBs >= m / 2.0)
             && (forall e :: e in before && e.PCIe? ==> e.readMBs + e.writeMBs <= m)) ==> PCIeOutcome(during, before).RuledOut?
  {
    hide Values, LastIf, BandwidthDrop;
    DropByReadings(PCIeBandwidth, PCIeRate, during, before, LastIf(Has(PCIeRate), during), m);
  }

  /** NVLink: its throughput. */
  lemma {:induction false} NVLinkByThroughput(during: seq<Event>, before: seq<Event>, m: real)
    requires (exists e :: e in during && e.NVLink?) && (exists e :: e in before && e.NVLink?) && m > 0.0
    ensures ((forall e :: e in during && e.NVLink? ==> e.throughputGB < m / 2.0)
             && (forall e :: e in before && e.NVLink? ==> e.throughputGB >= m)) ==> NVLinkOutcome(during, before).Fired?
    ensures ((forall e :: e in during && e.NVLink? ==> e.throughputGB >= m / 2.0)
             && (forall e :: e in before && e.NVLink? ==> e.throughputGB <= m)) ==> NVLinkOutcome(during, before).RuledOut?
  {
    hide Values, LastIf, BandwidthDrop;
    DropByReadings(NVLinkDegraded, NVLinkRate, during, before, LastIf(Has(NVLinkRate), during), m);
  }

  /** Clocks: a window wholly below three quarters of what the baseline nowhere falls below fires the rule, one nowhere
      below three quarters of what the baseline nowhere exceeds is ruled out. */
  lemma {:induction false} ClockByReadings(during: seq<Event>, before: seq<Event>, m: real)
    requires (exists e :: e in during && ReportsClock(e)) && (exists e :: e in before && ReportsClock(e))
    ensures ((forall e :: e in during && ReportsClock(e) ==> e.smClockMHz < 0.75 * m)
             && (forall e :: e in before && ReportsClock(e) ==> e.smClockMHz >= m)) ==> ClockOutcome(during, before).Fired?
    ensures ((forall e :: e in during && ReportsClock(e) ==> e.smClockMHz >= 0.75 * m)
             && (forall e :: e in before && ReportsClock(e) ==> e.smClockMHz <= m)) ==> ClockOutcome(during, before).RuledOut?
  {
    hide Values, Median, LastIf, ClockOutcome;
    ReadingsAll(Clock, during);
    ReadingsAll(Clock, before);
    ClockVerdict(during, before);
    MedianReading(Clock, during, 0.75 * m);
    MedianReading(Clock, before, m);
  }

  // ---------------------------------------------------------------- means

  /** Memory pressure fires exactly when the GPU samples of the window use 90% of the memory bandwidth on average. */
  lemma {:induction false} MemoryFires(during: seq<Event>)
    ensures var o, v := MemoryOutcome(during), Values(MemUse, during);
            && (o.Fired? <==> (exists e :: e in during && e.GPUMetric?) && Sum(v) >= 90.0 * |v| as real)
            && (o.Fired? ==> o.link.cause == MemoryPressure && o.link.confidence == 0.5
                             && o.link.evidence.Some? && IsLast(during, IsGpu, o.link.evidence.value))
  {
    ReadingsAll(MemUse, during);
    LastOfKind(MemUse, IsGpu, during);
    hide Values, LastIf, IsLast, Mean;
    MeanAgainst(Values(MemUse, during), 90.0);
  }

  lemma {:induction false} MemoryByReadings(during: seq<Event>)
    requires exists e :: e in during && e.GPUMetric?
    ensures (forall e :: e in during && e.GPUMetric? ==> e.memBandwidth >= 90.0) ==> MemoryOutcome(during).Fired?
    ensures (forall e :: e in during && e.GPUMetric? ==> e.memBandwidth < 90.0) ==> MemoryOutcome(during).RuledOut?
  {
    ReadingsAll(MemUse, during);
    hide Values, LastIf, Mean;
    MeanAgainst(Values(MemUse, during), 90.0);
  }

  lemma {:induction false} MeanAgainst(v: seq<real>, c: real)
    ensures v != [] ==> (Mean(v) >= c <==> Sum(v) >= c * |v| as real)
    ensures v != [] && (forall x :: x in v ==> x >= c) ==> Mean(v) >= c
    ensures v != [] && (forall x :: x in v ==> x < c) ==> Mean(v) < c
  {
    if v != [] {
      hide Mean, Sum;
      MeanExactly(v);
      Compare(Mean(v), c, |v| as real, Sum(v), c * |v| as real);
      var lo, hi := Ends(v);
      MeanInRange(v, lo, hi);
    }
  }

  /** A host stall fires exactly when the window has GPU samples, none of them throttled, that are busy less than 40%
      of the time on average; less activity means more confidence, up to 0.8. */
  lemma {:induction false} HostStallFires(during: seq<Event>)
    ensures var o, v := HostStallOutcome(during), Values(Util, during);
            && (o.Fired? <==> (exists e :: e in during && e.GPUMetric?)
                              && (forall e :: e in during && e.GPUMetric? ==> !ShowsHeat(e) && !ShowsPower(e))
                              && Sum(v) < 40.0 * |v| as real)
            && (o.Fired? ==> o.link.cause == HostStall && o.link.confidence == Min(0.4 + (40.0 - Mean(v)) / 100.0, 0.8)
                             && o.link.evidence.Some? && IsLast(during, IsGpu, o.link.evidence.value))
  {
    hide Values, LastIf, IsLast, Mean, CountIf, ShowsHeat, ShowsPower, Sum;
    ReadingsAll(Util, during);
    LastOfKind(Util, IsGpu, during);
    ThrottledSample(during);
    MeanAgainst(Values(Util, during), 40.0);
  }

  lemma {:induction false} ThrottledSample(evs: seq<Event>)
    ensures CountIf(AnyThrottle, evs) == 0 <==> forall e :: e in evs && e.GPUMetric? ==> !ShowsHeat(e) && !ShowsPower(e)
  {
    CountSome(AnyThrottle, evs);
    SampleExists(AnyThrottle, evs);
    hide CountIf, AnySample, AnyThrottle, ShowsHeat, ShowsPower;
    forall e ensures AnyThrottle(e) <==> e.GPUMetric? && (ShowsHeat(e) || ShowsPower(e)) {
      Shows(e);
    }
  }

  lemma {:induction false} HostStallByReadings(during: seq<Event>)
    requires exists e :: e in during && e.GPUMetric?
    ensures (forall e :: e in during && e.GPUMetric? ==> e.utilization < 40.0 && !ShowsHeat(e) && !ShowsPower(e)) ==>
      HostStallOutcome(during).Fired?
    ensures (forall e :: e in during && e.GPUMetric? ==> e.utilization >= 40.0) ==> HostStallOutcome(during).RuledOut?
  {
    ReadingsAll(Util, during);
    ThrottledSample(during);
    hide Values, LastIf, Mean, CountIf, ShowsHeat, ShowsPower;
    MeanAgainst(Values(Util, during), 40.0);
  }

  // ---------------------------------------------------------------- error counters

  ghost predicate IsFirst(evs: seq<Event>, p: Event -> bool, e: Event) {
    exists i :: 0 <= i < |evs| && evs[i] == e && p(e) && forall j :: 0 <= j < i ==> !p(evs[j])
  }

  ghost predicate NoGpu(evs: seq<Event>) {
    forall e :: e in evs ==> !e.GPUMetric?
  }

  lemma {:induction false} FirstIs(evs: seq<Event>, e: Event)
    requires IsFirst(evs, IsGpu, e)
    ensures FirstGpu(evs) == Some(e)
  {
    var i :| 0 <= i < |evs| && evs[i] == e && IsGpu(e) && forall j :: 0 <= j < i ==> !IsGpu(evs[j]);
    if i > 0 {
      assert !IsGpu(evs[0]);
      var rest := evs[1..];
      forall j | 0 <= j < i - 1 ensures !IsGpu(rest[j]) {
        assert rest[j] == evs[j + 1];
      }
      assert rest[i - 1] == e;
      FirstIs(rest, e);
    }
  }

  lemma {:induction false} LastIs(evs: seq<Event>, p: Event -> bool, e: Event)
    requires IsLast(evs, p, e)
    ensures LastIf(p, evs) == Some(e)
  {
    var i :| 0 <= i < |evs| && evs[i] == e && p(e) && forall j :: i < j < |evs| ==> !p(evs[j]);
    CountFound(p, evs, i);
    CountSome(p, evs);
    LastExactly(evs, p);
    LastUnique(evs, p, e, LastIf(p, evs).value);
  }

  /** The sample counted from: the last of the baseline, or the first of the window if the baseline has none. */
  ghost predicate CountedFrom(during: seq<Event>, before: seq<Event>, x: Event) {
    IsLast(before, IsGpu, x) || (NoGpu(before) && IsFirst(during, IsGpu, x))
  }

  /** The sample counted to: the last of the window, or the one counted from if the window has none. */
  ghost predicate CountedTo(during: seq<Event>, before: seq<Event>, y: Event) {
    IsLast(during, IsGpu, y) || (NoGpu(during) && IsLast(before, IsGpu, y))
  }

  lemma {:induction false} NoneLast(evs: seq<Event>)
    requires NoGpu(evs)
    ensures LastIf(IsGpu, evs) == None && LastOf(evs) == []
  {
    if evs != [] {
      assert evs[|evs| - 1] in evs;
      NoneLast(evs[..|evs| - 1]);
    }
  }

  lemma {:induction false} LastOfTwo(a: seq<Event>, b: seq<Event>)
    ensures LastIf(IsGpu, a + b) == if LastIf(IsGpu, b).Some? then LastIf(IsGpu, b) else LastIf(IsGpu, a)
  {
    if b == [] {
      assert a + b == a;
    } else {
      assert (a + b)[..|a + b| - 1] == a + b[..|b| - 1];
      LastOfTwo(a, b[..|b| - 1]);
    }
  }

  lemma {:induction false} CountedEnds(during: seq<Event>, before: seq<Event>, x: Event, y: Event)
    requires CountedFrom(during, before, x) && CountedTo(during, before, y)
    ensures FirstGpu(LastOf(before) + during) == Some(x) && LastIf(IsGpu, LastOf(before) + during) == Some(y)
    ensures x.GPUMetric? && y.GPUMetric?
  {
    LastOfTwo(LastOf(before), during);
    if NoGpu(before) {
      NoneLast(before);
      assert LastOf(before) + during == during;
    }
    if IsLast(before, IsGpu, x) {
      LastIs(before, IsGpu, x);
      assert (LastOf(before) + during)[0] == x;
    } else {
      FirstIs(during, x);
    }
    if IsLast(during, IsGpu, y) {
      LastIs(during, IsGpu, y);
    } else {
      LastIs(before, IsGpu, y);
      NoneLast(during);
      OneLast(y);
    }
  }

  lemma {:induction false} OneLast(y: Event)
    requires y.GPUMetric?
    ensures LastIf(IsGpu, [y]) == Some(y)
  {
  }

  /** ECC errors fire exactly when a counter of the sample counted to is above that of the sample counted from; a rise
      of the double-bit counter is the stronger evidence. */
  lemma {:induction false} EccFires(during: seq<Event>, before: seq<Event>, x: Event, y: Event)
    requires CountedFrom(during, before, x) && CountedTo(during, before, y)
    ensures x.GPUMetric? && y.GPUMetric?
    ensures var o := EccOutcome(during, before);
            && (o.Fired? <==> y.eccSBE > x.eccSBE || y.eccDBE > x.eccDBE)
            && (o.Fired? ==> o.link == Link(ECCErrors, Some(y), if y.eccDBE > x.eccDBE then 0.9 else 0.6))
  {
    hide CountedFrom, CountedTo, FirstGpu, LastIf, LastOf;
    CountedEnds(during, before, x, y);
  }
}
