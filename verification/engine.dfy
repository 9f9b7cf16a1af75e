/** The engine's own loops, each computing what the rule is specified to answer. */
module Engines {
  import opened Events
  import opened Stats
  import opened Statistics
  import opened Detection
  import opened Attributions

  method RuleThermal(during: seq<Event>) returns (o: Outcome)
    ensures o == ThermalOutcome(during)
  {
    var n, hit, ev := 0, 0, None;
    for i := 0 to |during|
      invariant n == CountIf(ThermalSample, during[..i]) && hit == CountIf(ThermalHit, during[..i])
      invariant ev == LastIf(ThermalHit, during[..i]) && hit <= n
    {
      assert during[..i + 1][..i] == during[..i];
      var e := during[i];
      match e
      case GPUMetric(_, _, _, _, _, _, _, reasons, _) =>
        n := n + 1;
        if reasons & THERMAL_MASK != 0 {
          hit, ev := hit + 1, Some(e);
        }
      case Thermal(_, _, active) =>
        n := n + 1;
        if active {
          hit, ev := hit + 1, Some(e);
        }
      case _ =>
    }
    assert during[..|during|] == during;
    if n == 0 {
      return NoData;
    }
    if hit == 0 {
      return RuledOut;
    }
    o := Fired(Link(ThermalThrottle, ev, Frac(hit, n)));
  }

  method RulePower(during: seq<Event>) returns (o: Outcome)
    ensures o == PowerOutcome(during)
  {
    var n, hit, ev := 0, 0, None;
    for i := 0 to |during|
      invariant n == CountIf(IsGpu, during[..i]) && hit == CountIf(PowerHit, during[..i])
      invariant ev == LastIf(PowerHit, during[..i]) && hit <= n
    {
      assert during[..i + 1][..i] == during[..i];
      var e := during[i];
      if e.GPUMetric? {
        n := n + 1;
        if e.throttleReasons & POWER_MASK != 0 {
          hit, ev := hit + 1, Some(e);
        }
      }
    }
    assert during[..|during|] == during;
    if n == 0 {
      return NoData;
    }
    if hit == 0 {
      return RuledOut;
    }
    o := Fired(Link(PowerThrottle, ev, Frac(hit, n)));
  }

  /** The values a rule reads off the events, and the last event that carries one. */
  method Readings(f: Event -> Option<real>, evs: seq<Event>) returns (v: seq<real>, last: Option<Event>)
    ensures v == Values(f, evs) && last == LastIf(Has(f), evs)
  {
    v, last := [], None;
    for i := 0 to |evs|
      invariant v == Values(f, evs[..i]) && last == LastIf(Has(f), evs[..i])
    {
      assert evs[..i + 1][..i] == evs[..i];
      var x := f(evs[i]);
      if x.Some? {
        v, last := v + [x.value], Some(evs[i]);
      }
    }
    assert evs[..|evs|] == evs;
  }

  lemma {:induction false} ValuesPositive(evs: seq<Event>)
    ensures forall x :: x in Values(Clock, evs) ==> x > 0.0
  {
    if evs != [] {
      ValuesPositive(evs[..|evs| - 1]);
    }
  }

  /** A clock baseline is never zero: samples without a clock are not readings. */
  lemma {:induction false} BaselinePositive(evs: seq<Event>)
    requires Values(Clock, evs) != []
    ensures Median(Values(Clock, evs)) > 0.0
  {
    hide Values;
    ValuesPositive(evs);
    var v := Values(Clock, evs);
    CountNone(v, 0.0, false);
    MedianByCount(v, 0.0, false);
  }

  method RuleClock(during: seq<Event>, before: seq<Event>) returns (o: Outcome)
    ensures o == ClockOutcome(during, before)
  {
    hide Values, LastIf, Median, Mean, Mad;
    var d, ev := Readings(Clock, during);
    var b, _ := Readings(Clock, before);
    if d == [] || b == [] {
      return NoData;
    }
    BaselinePositive(before);
    var ds := ComputeStats(d);
    var bs := ComputeStats(b);
    var dm, bm := ds.median, bs.median;
    if dm >= bm * 0.75 {
      return RuledOut;
    }
    var drop := 1.0 - dm / bm;
    o := Fired(Link(ClockReduced, ev, Min(0.4 + drop / 2.0, 0.7)));
  }

  method RuleContention(during: seq<Event>, before: seq<Event>) returns (o: Outcome)
    ensures o == ContentionOutcome(during, before)
  {
    hide Values, LastIf, Median, Mean, Mad;
    var d, ev := Readings(Procs, during);
    var b, _ := Readings(Procs, before);
    if d == [] || b == [] {
      return NoData;
    }
    var ds := ComputeStats(d);
    var bs := ComputeStats(b);
    if ds.median <= bs.median {
      return RuledOut;
    }
    o := Fired(Link(Contention, ev, 0.7));
  }

  method FinalGpu(evs: seq<Event>) returns (s: seq<Event>)
    ensures s == LastOf(evs)
  {
    var i := |evs|;
    assert evs[..|evs|] == evs;
    while i > 0
      invariant 0 <= i <= |evs|
      invariant LastIf(IsGpu, evs) == LastIf(IsGpu, evs[..i])
    {
      i := i - 1;
      assert evs[..i + 1][..i] == evs[..i];
      if evs[i].GPUMetric? {
        return [evs[i]];
      }
    }
    s := [];
  }

  lemma {:induction false} FirstGpuStep(evs: seq<Event>, i: nat)
    requires i < |evs|
    ensures FirstGpu(evs[..i + 1]) ==
      if FirstGpu(evs[..i]).Some? then FirstGpu(evs[..i]) else if evs[i].GPUMetric? then Some(evs[i]) else None
  {
    if i > 0 {
      assert evs[..i + 1][1..] == evs[1..][..i] && evs[..i][1..] == evs[1..][..i - 1];
      FirstGpuStep(evs[1..], i - 1);
    } else {
      assert evs[..1][1..] == [];
    }
  }

  method RuleECC(during: seq<Event>, before: seq<Event>) returns (o: Outcome)
    ensures o == EccOutcome(during, before)
  {
    var tail := FinalGpu(before);
    var s := tail + during;
    var first: Option<Event>, last: Option<Event> := None, None;
    for i := 0 to |s|
      invariant first == FirstGpu(s[..i]) && last == LastIf(IsGpu, s[..i])
      invariant first.Some? <==> last.Some?
      invariant first.Some? ==> first.value.GPUMetric? && last.value.GPUMetric?
    {
      hide FirstGpu;
      assert s[..i + 1][..i] == s[..i];
      FirstGpuStep(s, i);
      var e := s[i];
      if e.GPUMetric? {
        if first.None? {
          first := Some(e);
        }
        last := Some(e);
      }
    }
    assert s[..|s|] == s;
    if first.None? {
      return NoData;
    }
    var dS := last.value.eccSBE - first.value.eccSBE;
    var dD := last.value.eccDBE - first.value.eccDBE;
    if dS <= 0 && dD <= 0 {
      return RuledOut;
    }
    var conf := 0.6;
    if dD > 0 {
      conf := 0.9;
    }
    o := Fired(Link(ECCErrors, last, conf));
  }

  method DropRule(c: Cause, d: seq<real>, b: seq<real>, ev: Option<Event>) returns (o: Outcome)
    ensures o == BandwidthDrop(c, d, b, ev)
  {
    hide Median, Mean, Mad;
    if d == [] || b == [] {
      return NoData;
    }
    var ds := ComputeStats(d);
    var bs := ComputeStats(b);
    var dm, bm := ds.median, bs.median;
    if bm <= 0.0 || dm >= bm * 0.5 {
      return RuledOut;
    }
    var drop := 1.0 - dm / bm;
    o := Fired(Link(c, ev, Min(0.5 + drop / 2.0, 0.95)));
  }

  method RulePCIe(during: seq<Event>, before: seq<Event>) returns (o: Outcome)
    ensures o == PCIeOutcome(during, before)
  {
    hide Values, LastIf, BandwidthDrop;
    var d, ev := Readings(PCIeRate, during);
    var b, _ := Readings(PCIeRate, before);
    o := DropRule(PCIeBandwidth, d, b, ev);
  }

  method RuleNVLink(during: seq<Event>, before: seq<Event>) returns (o: Outcome)
    ensures o == NVLinkOutcome(during, before)
  {
    hide Values, LastIf, BandwidthDrop;
    var d, ev := Readings(NVLinkRate, during);
    var b, _ := Readings(NVLinkRate, before);
    o := DropRule(NVLinkDegraded, d, b, ev);
  }

  method RuleMemory(during: seq<Event>) returns (o: Outcome)
    ensures o == MemoryOutcome(during)
  {
    hide Values, LastIf, Median, Mean, Mad;
    var v, ev := Readings(MemUse, during);
    if v == [] {
      return NoData;
    }
    var st := ComputeStats(v);
    if st.mean < 90.0 {
      return RuledOut;
    }
    o := Fired(Link(MemoryPressure, ev, 0.5));
  }

  lemma {:induction false} CountFound(p: Event -> bool, evs: seq<Event>, i: nat)
    requires i < |evs| && p(evs[i])
    ensures CountIf(p, evs) > 0
  {
    if i < |evs| - 1 {
      CountFound(p, evs[..|evs| - 1], i);
    }
  }

  method RuleHostStall(during: seq<Event>) returns (o: Outcome)
    ensures o == HostStallOutcome(during)
  {
    hide Mean, Median, Mad;
    var v, ev := [], None;
    for i := 0 to |during|
      invariant v == Values(Util, during[..i]) && ev == LastIf(Has(Util), during[..i])
      invariant CountIf(AnyThrottle, during[..i]) == 0
    {
      assert during[..i + 1][..i] == during[..i];
      var e := during[i];
      if e.GPUMetric? {
        if e.throttleReasons & (THERMAL_MASK | POWER_MASK) != 0 {
          CountFound(AnyThrottle, during, i);
          return RuledOut;
        }
        v, ev := v + [e.utilization], Some(e);
      }
    }
    assert during[..|during|] == during;
    if v == [] {
      return NoData;
    }
    var st := ComputeStats(v);
    if st.mean >= 40.0 {
      return RuledOut;
    }
    o := Fired(Link(HostStall, ev, Min(0.4 + (40.0 - st.mean) / 100.0, 0.8)));
  }

  method RunRule(c: Cause, during: seq<Event>, before: seq<Event>) returns (o: Outcome)
    requires c != Unknown
    ensures o == OutcomeOf(c, during, before)
  {
    hide ThermalOutcome, PowerOutcome, ClockOutcome, ContentionOutcome, EccOutcome, PCIeOutcome, NVLinkOutcome, MemoryOutcome,
         HostStallOutcome;
    match c
    case ThermalThrottle => o := RuleThermal(during);
    case PowerThrottle => o := RulePower(during);
    case ClockReduced => o := RuleClock(during, before);
    case Contention => o := RuleContention(during, before);
    case ECCErrors => o := RuleECC(during, before);
    case PCIeBandwidth => o := RulePCIe(during, before);
    case NVLinkDegraded => o := RuleNVLink(during, before);
    case MemoryPressure => o := RuleMemory(during);
    case HostStall => o := RuleHostStall(during);
  }

  /** Splits the events into those of the window and the baseline. */
  method Split(a: Anomaly, window: int, evs: seq<Event>) returns (during: seq<Event>, before: seq<Event>)
    ensures during == During(a, window, evs) && before == Earlier(a, window, evs)
  {
    var lo := a.startNs - window;
    ghost var inside := (e: Event) => a.startNs - window <= e.ts <= a.endNs;
    ghost var earlier := (e: Event) => e.ts < a.startNs - window;
    during, before := [], [];
    for i := 0 to |evs|
      invariant during == Select(inside, evs[..i]) && before == Select(earlier, evs[..i])
    {
      assert evs[..i + 1][..i] == evs[..i];
      var ts := evs[i].ts;
      if lo <= ts <= a.endNs {
        during := during + [evs[i]];
      } else if ts < lo {
        before := before + [evs[i]];
      }
    }
    assert evs[..|evs|] == evs;
  }

  /** Engine.Attribute: runs the rules in order, ranks what fired and lists what is ruled out. */
  method Attribute(a: Anomaly, window: int, evs: seq<Event>) returns (res: Attribution)
    ensures res == Explain(a, window, evs)
  {
    hide During, Earlier, OutcomeOf, Ranked;
    var during, before := Split(a, window, evs);
    var chain, ruledOut := [], [];
    for i := 0 to |CAUSES|
      invariant chain == FiredLinks(CAUSES[..i], during, before) && ruledOut == RuledOutCauses(CAUSES[..i], during, before)
    {
      assert CAUSES[..i + 1][..i] == CAUSES[..i];
      var o := RunRule(CAUSES[i], during, before);
      match o
      case Fired(link) => chain := chain + [link];
      case RuledOut => ruledOut := ruledOut + [CAUSES[i]];
      case NoData =>
    }
    assert CAUSES[..|CAUSES|] == CAUSES;
    chain := Ranked(chain);
    if chain == [] {
      chain := [Link(Unknown, None, 0.0)];
    }
    res := Attribution(a, chain, ruledOut);
  }
}
