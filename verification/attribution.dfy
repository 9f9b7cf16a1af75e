/** The attribution engine: nine rules over the straggler's own events, and the ranked causal chain. */
module Attributions {
  import opened Events
  import opened Stats
  import opened Statistics
  import opened Detection

  datatype Cause =
    | ThermalThrottle | PowerThrottle | ClockReduced | Contention | ECCErrors
    | PCIeBandwidth | NVLinkDegraded | MemoryPressure | HostStall | Unknown

  /** The nine causes, in the order the rules run. */
  const CAUSES: seq<Cause> :=
    [ThermalThrottle, PowerThrottle, ClockReduced, Contention, ECCErrors, PCIeBandwidth, NVLinkDegraded, MemoryPressure, HostStall]

  datatype Link = Link(cause: Cause, evidence: Option<Event>, confidence: real)

  /** What a rule answers: (link, fired, hadData). */
  datatype Outcome = Fired(link: Link) | RuledOut | NoData

  datatype Attribution = Attribution(anomaly: Anomaly, chain: seq<Link>, ruledOut: seq<Cause>)

  const THERMAL_MASK: bv64 := 0x68
  const POWER_MASK: bv64 := 0x84

  function Min(a: real, b: real): real {
    if b < a then b else a
  }

  /** frac: the share of samples, capped at 0.95. */
  function Frac(a: nat, b: nat): real
    requires b > 0
  {
    Min(a as real / b as real, 0.95)
  }

  // ---------------------------------------------------------------- samples

  function CountIf(p: Event -> bool, evs: seq<Event>): (n: nat)
    ensures n <= |evs|
  {
    if evs == [] then 0 else CountIf(p, evs[..|evs| - 1]) + if p(evs[|evs| - 1]) then 1 else 0
  }

  function LastIf(p: Event -> bool, evs: seq<Event>): Option<Event> {
    if evs == [] then None
    else if p(evs[|evs| - 1]) then Some(evs[|evs| - 1]) else LastIf(p, evs[..|evs| - 1])
  }

  /** The values f reads off the events that carry one. */
  function Values(f: Event -> Option<real>, evs: seq<Event>): seq<real> {
    if evs == [] then []
    else
      var v := Values(f, evs[..|evs| - 1]);
      var x := f(evs[|evs| - 1]);
      if x.Some? then v + [x.value] else v
  }

  predicate IsGpu(e: Event) { e.GPUMetric? }

  predicate ThermalSample(e: Event) { e.GPUMetric? || e.Thermal? }

  predicate ThermalBit(e: Event) { e.GPUMetric? && e.throttleReasons & THERMAL_MASK != 0 }

  predicate ThermalHit(e: Event) { ThermalBit(e) || (e.Thermal? && e.throttleActive) }

  predicate PowerHit(e: Event) { e.GPUMetric? && e.throttleReasons & POWER_MASK != 0 }

  predicate AnyThrottle(e: Event) { e.GPUMetric? && e.throttleReasons & (THERMAL_MASK | POWER_MASK) != 0 }

  function Clock(e: Event): Option<real> {
    if e.GPUMetric? && e.smClockMHz > 0.0 then Some(e.smClockMHz) else None
  }

  function Procs(e: Event): Option<real> {
    if e.GPUMetric? && e.computeProcs > 0 then Some(e.computeProcs as real) else None
  }

  function PCIeRate(e: Event): Option<real> {
    if e.PCIe? then Some(e.readMBs + e.writeMBs) else None
  }

  function NVLinkRate(e: Event): Option<real> {
    if e.NVLink? then Some(e.throughputGB) else None
  }

  function MemUse(e: Event): Option<real> {
    if e.GPUMetric? then Some(e.memBandwidth) else None
  }

  function Util(e: Event): Option<real> {
    if e.GPUMetric? then Some(e.utilization) else None
  }

  function Has(f: Event -> Option<real>): Event -> bool {
    e => f(e).Some?
  }

  // ---------------------------------------------------------------- what each rule answers

  function ThermalOutcome(during: seq<Event>): Outcome {
    var n, hit := CountIf(ThermalSample, during), CountIf(ThermalHit, during);
    if n == 0 then NoData
    else if hit == 0 then RuledOut
    else Fired(Link(ThermalThrottle, LastIf(ThermalHit, during), Frac(hit, n)))
  }

  function PowerOutcome(during: seq<Event>): Outcome {
    var n, hit := CountIf(IsGpu, during), CountIf(PowerHit, during);
    if n == 0 then NoData
    else if hit == 0 then RuledOut
    else Fired(Link(PowerThrottle, LastIf(PowerHit, during), Frac(hit, n)))
  }

  function ClockOutcome(during: seq<Event>, before: seq<Event>): Outcome {
    var d, b := Values(Clock, during), Values(Clock, before);
    if d == [] || b == [] then NoData
    else
      var dm, bm := Median(d), Median(b);
      if bm == 0.0 || dm >= bm * 0.75 then RuledOut // a baseline of zero does not occur: only positive clocks are read
      else Fired(Link(ClockReduced, LastIf(Has(Clock), during), Min(0.4 + (1.0 - dm / bm) / 2.0, 0.7)))
  }

  function ContentionOutcome(during: seq<Event>, before: seq<Event>): Outcome {
    var d, b := Values(Procs, during), Values(Procs, before);
    if d == [] || b == [] then NoData
    else if Median(d) <= Median(b) then RuledOut
    else Fired(Link(Contention, LastIf(Has(Procs), during), 0.7))
  }

  function FirstGpu(evs: seq<Event>): Option<Event> {
    if evs == [] then None
    else if evs[0].GPUMetric? then Some(evs[0]) else FirstGpu(evs[1..])
  }

  /** lastOf: the final GPU sample, as a list. */
  function LastOf(evs: seq<Event>): seq<Event> {
    var e := LastIf(IsGpu, evs);
    if e.Some? then [e.value] else []
  }

  function EccOutcome(during: seq<Event>, before: seq<Event>): Outcome {
    var s := LastOf(before) + during;
    var first, last := FirstGpu(s), LastIf(IsGpu, s);
    if first.None? || last.None? || !first.value.GPUMetric? || !last.value.GPUMetric? then NoData
    else
      var dS, dD := last.value.eccSBE - first.value.eccSBE, last.value.eccDBE - first.value.eccDBE;
      if dS <= 0 && dD <= 0 then RuledOut
      else Fired(Link(ECCErrors, last, if dD > 0 then 0.9 else 0.6))
  }

  function BandwidthDrop(c: Cause, d: seq<real>, b: seq<real>, ev: Option<Event>): Outcome {
    if d == [] || b == [] then NoData
    else
      var dm, bm := Median(d), Median(b);
      if bm <= 0.0 || dm >= bm * 0.5 then RuledOut
      else Fired(Link(c, ev, Min(0.5 + (1.0 - dm / bm) / 2.0, 0.95)))
  }

  function PCIeOutcome(during: seq<Event>, before: seq<Event>): Outcome {
    BandwidthDrop(PCIeBandwidth, Values(PCIeRate, during), Values(PCIeRate, before), LastIf(Has(PCIeRate), during))
  }

  function NVLinkOutcome(during: seq<Event>, before: seq<Event>): Outcome {
    BandwidthDrop(NVLinkDegraded, Values(NVLinkRate, during), Values(NVLinkRate, before), LastIf(Has(NVLinkRate), during))
  }

  function MemoryOutcome(during: seq<Event>): Outcome {
    var v := Values(MemUse, during);
    if v == [] then NoData
    else if Mean(v) < 90.0 then RuledOut
    else Fired(Link(MemoryPressure, LastIf(Has(MemUse), during), 0.5))
  }

  function HostStallOutcome(during: seq<Event>): Outcome {
    var v := Values(Util, during);
    if CountIf(AnyThrottle, during) > 0 then RuledOut
    else if v == [] then NoData
    else if Mean(v) >= 40.0 then RuledOut
    else Fired(Link(HostStall, LastIf(Has(Util), during), Min(0.4 + (40.0 - Mean(v)) / 100.0, 0.8)))
  }

  function OutcomeOf(c: Cause, during: seq<Event>, before: seq<Event>): Outcome {
    match c
    case ThermalThrottle => ThermalOutcome(during)
    case PowerThrottle => PowerOutcome(during)
    case ClockReduced => ClockOutcome(during, before)
    case Contention => ContentionOutcome(during, before)
    case ECCErrors => EccOutcome(during, before)
    case PCIeBandwidth => PCIeOutcome(during, before)
    case NVLinkDegraded => NVLinkOutcome(during, before)
    case MemoryPressure => MemoryOutcome(during)
    case HostStall => HostStallOutcome(during)
    case Unknown => NoData
  }

  // ---------------------------------------------------------------- the chain

  /** The place of l: behind everything at least as confident. */
  function InsertLink(s: seq<Link>, l: Link): seq<Link> {
    if s != [] && s[|s| - 1].confidence < l.confidence then InsertLink(s[..|s| - 1], l) + [s[|s| - 1]] else s + [l]
  }

  /** sort.SliceStable by descending confidence. */
  function Ranked(links: seq<Link>): seq<Link> {
    if links == [] then [] else InsertLink(Ranked(links[..|links| - 1]), links[|links| - 1])
  }

  function FiredLinks(causes: seq<Cause>, during: seq<Event>, before: seq<Event>): seq<Link> {
    if causes == [] then []
    else
      var l := FiredLinks(causes[..|causes| - 1], during, before);
      var o := OutcomeOf(causes[|causes| - 1], during, before);
      if o.Fired? then l + [o.link] else l
  }

  function RuledOutCauses(causes: seq<Cause>, during: seq<Event>, before: seq<Event>): seq<Cause> {
    if causes == [] then []
    else
      var l := RuledOutCauses(causes[..|causes| - 1], during, before);
      if OutcomeOf(causes[|causes| - 1], during, before).RuledOut? then l + [causes[|causes| - 1]] else l
  }

  function Select(p: Event -> bool, evs: seq<Event>): seq<Event> {
    if evs == [] then []
    else
      var s := Select(p, evs[..|evs| - 1]);
      if p(evs[|evs| - 1]) then s + [evs[|evs| - 1]] else s
  }

  /** The events of [StartNs - window, EndNs]. */
  function During(a: Anomaly, window: int, evs: seq<Event>): seq<Event> {
    Select((e: Event) => a.startNs - window <= e.ts <= a.endNs, evs)
  }

  /** The baseline: everything earlier. */
  function Earlier(a: Anomaly, window: int, evs: seq<Event>): seq<Event> {
    Select((e: Event) => e.ts < a.startNs - window, evs)
  }

  function Explain(a: Anomaly, window: int, evs: seq<Event>): Attribution {
    var during, before := During(a, window, evs), Earlier(a, window, evs);
    var chain := Ranked(FiredLinks(CAUSES, during, before));
    Attribution(a, if chain == [] then [Link(Unknown, None, 0.0)] else chain, RuledOutCauses(CAUSES, during, before))
  }
}
