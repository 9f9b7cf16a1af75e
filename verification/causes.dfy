/** Which causes can coexist, and how they rank. */
module Causes {
  import opened Events
  import opened Stats
  import opened Detection
  import opened Attributions
  import opened Engines

  // ---------------------------------------------------------------- when a rule has data

  ghost predicate AnySample(p: Event -> bool, evs: seq<Event>) {
    exists i :: 0 <= i < |evs| && p(evs[i])
  }

  /** The samples a rule needs: in the window, and for the comparing rules in the baseline too. */
  ghost predicate HasData(c: Cause, during: seq<Event>, before: seq<Event>) {
    match c
    case ThermalThrottle => AnySample(ThermalSample, during)
    case PowerThrottle => AnySample(IsGpu, during)
    case ClockReduced => AnySample(Has(Clock), during) && AnySample(Has(Clock), before)
    case Contention => AnySample(Has(Procs), during) && AnySample(Has(Procs), before)
    case ECCErrors => AnySample(IsGpu, during) || AnySample(IsGpu, before)
    case PCIeBandwidth => AnySample(Has(PCIeRate), during) && AnySample(Has(PCIeRate), before)
    case NVLinkDegraded => AnySample(Has(NVLinkRate), during) && AnySample(Has(NVLinkRate), before)
    case MemoryPressure => AnySample(IsGpu, during)
    case HostStall => AnySample(IsGpu, during)
    case Unknown => false
  }

  lemma {:induction false} SomeStep(p: Event -> bool, evs: seq<Event>)
    requires evs != []
    ensures AnySample(p, evs) <==> AnySample(p, evs[..|evs| - 1]) || p(evs[|evs| - 1])
  {
    var n := |evs| - 1;
    if AnySample(p, evs[..n]) {
      var i :| 0 <= i < n && p(evs[..n][i]);
      assert p(evs[i]);
    }
    if AnySample(p, evs) {
      var i :| 0 <= i < |evs| && p(evs[i]);
      if i < n {
        assert p(evs[..n][i]);
      }
    }
  }

  lemma {:induction false} CountSome(p: Event -> bool, evs: seq<Event>)
    ensures CountIf(p, evs) > 0 <==> AnySample(p, evs)
    ensures LastIf(p, evs).Some? <==> AnySample(p, evs)
    ensures LastIf(p, evs).Some? ==> p(LastIf(p, evs).value)
  {
    if evs != [] {
      SomeStep(p, evs);
      hide AnySample;
      CountSome(p, evs[..|evs| - 1]);
    }
  }

  lemma {:induction false} ValuesSome(f: Event -> Option<real>, evs: seq<Event>)
    ensures Values(f, evs) != [] <==> AnySample(Has(f), evs)
  {
    if evs != [] {
      SomeStep(Has(f), evs);
      hide AnySample;
      ValuesSome(f, evs[..|evs| - 1]);
    }
  }

  lemma {:induction false} SameSome(p: Event -> bool, q: Event -> bool, evs: seq<Event>)
    requires forall e :: p(e) <==> q(e)
    ensures AnySample(p, evs) <==> AnySample(q, evs)
  {
    if AnySample(p, evs) {
      var i :| 0 <= i < |evs| && p(evs[i]);
      assert q(evs[i]);
    }
    if AnySample(q, evs) {
      var i :| 0 <= i < |evs| && q(evs[i]);
      assert p(evs[i]);
    }
  }

  lemma {:induction false} FirstSome(evs: seq<Event>)
    ensures FirstGpu(evs).Some? <==> AnySample(IsGpu, evs)
    ensures FirstGpu(evs).Some? ==> FirstGpu(evs).value.GPUMetric?
  {
    if evs != [] {
      FirstSome(evs[1..]);
      if AnySample(IsGpu, evs[1..]) {
        var i :| 0 <= i < |evs| - 1 && IsGpu(evs[1..][i]);
        assert IsGpu(evs[i + 1]);
      }
      if AnySample(IsGpu, evs) {
        var i :| 0 <= i < |evs| && IsGpu(evs[i]);
        if i > 0 {
          assert IsGpu(evs[1..][i - 1]);
        } else {
          assert IsGpu(evs[0]);
        }
      } else if evs[0].GPUMetric? {
        assert IsGpu(evs[0]);
      }
    }
  }

  lemma {:induction false} EccSome(during: seq<Event>, before: seq<Event>)
    ensures AnySample(IsGpu, LastOf(before) + during) <==> AnySample(IsGpu, during) || AnySample(IsGpu, before)
  {
    CountSome(IsGpu, before);
    var tail := LastOf(before);
    var s := tail + during;
    if AnySample(IsGpu, during) {
      var i :| 0 <= i < |during| && IsGpu(during[i]);
      assert IsGpu(s[|tail| + i]);
    }
    if AnySample(IsGpu, before) {
      assert IsGpu(s[0]);
    }
    if AnySample(IsGpu, s) {
      var i :| 0 <= i < |s| && IsGpu(s[i]);
      if i >= |tail| {
        assert IsGpu(during[i - |tail|]);
      }
    }
  }

  /** A rule stays silent exactly when it lacks its samples: absent data neither fires nor rules out. */
  lemma {:induction false} NoDataExactly(c: Cause, during: seq<Event>, before: seq<Event>)
    ensures OutcomeOf(c, during, before).NoData? <==> !HasData(c, during, before)
  {
    hide Values, CountIf, LastIf, Median, Mean, AnySample, FirstGpu, LastOf;
    match c
    case ThermalThrottle => CountSome(ThermalSample, during);
    case PowerThrottle => CountSome(IsGpu, during);
    case ClockReduced => ValuesSome(Clock, during); ValuesSome(Clock, before);
    case Contention => ValuesSome(Procs, during); ValuesSome(Procs, before);
    case ECCErrors =>
      EccSome(during, before);
      FirstSome(LastOf(before) + during);
      CountSome(IsGpu, LastOf(before) + during);
    case PCIeBandwidth => ValuesSome(PCIeRate, during); ValuesSome(PCIeRate, before);
    case NVLinkDegraded => ValuesSome(NVLinkRate, during); ValuesSome(NVLinkRate, before);
    case MemoryPressure => ValuesSome(MemUse, during); SameSome(Has(MemUse), IsGpu, during);
    case HostStall =>
      ValuesSome(Util, during);
      SameSome(Has(Util), IsGpu, during);
      CountSome(AnyThrottle, during);
      ThrottledIsGpu(during);
    case Unknown =>
  }

  lemma {:induction false} ThrottledIsGpu(evs: seq<Event>)
    ensures AnySample(AnyThrottle, evs) ==> AnySample(IsGpu, evs)
  {
    if AnySample(AnyThrottle, evs) {
      var i :| 0 <= i < |evs| && AnyThrottle(evs[i]);
      assert IsGpu(evs[i]);
    }
  }

  // ---------------------------------------------------------------- confidence

  lemma {:induction false} FracRange(a: nat, b: nat)
    requires 0 < a && 0 < b
    ensures 0.0 < Frac(a, b) <= 0.95
  {
    RatioPositive(a as real, b as real);
  }

  lemma {:induction false} RatioPositive(x: real, d: real)
    requires x > 0.0 && d > 0.0
    ensures x / d > 0.0
  {
  }

  /** x is below share * d: the drop 1 - x/d is more than 1 - share. */
  lemma {:induction false} DropRange(x: real, d: real, share: real)
    requires d > 0.0 && x < d * share
    ensures 1.0 - x / d > 1.0 - share
  {
    var q := x / d;
    assert q * d == x;
    ProductSign(q - share, d);
  }

  lemma {:induction false} ProductSign(x: real, y: real)
    ensures x >= 0.0 && y >= 0.0 ==> x * y >= 0.0
    ensures x > 0.0 && y > 0.0 ==> x * y > 0.0
  {
  }

  /** Every fired link names its own rule, and its confidence is positive and never certainty. */
  lemma {:induction false} FiredConfidence(c: Cause, during: seq<Event>, before: seq<Event>)
    requires OutcomeOf(c, during, before).Fired?
    ensures var l := OutcomeOf(c, during, before).link; l.cause == c && 0.0 < l.confidence <= 0.95
  {
    hide Values, CountIf, LastIf, Median, Mean, FirstGpu, LastOf, Frac;
    match c
    case ThermalThrottle => FracRange(CountIf(ThermalHit, during), CountIf(ThermalSample, during));
    case PowerThrottle => FracRange(CountIf(PowerHit, during), CountIf(IsGpu, during));
    case ClockReduced =>
      BaselinePositive(before);
      DropRange(Median(Values(Clock, during)), Median(Values(Clock, before)), 0.75);
    case PCIeBandwidth => DropRange(Median(Values(PCIeRate, during)), Median(Values(PCIeRate, before)), 0.5);
    case NVLinkDegraded => DropRange(Median(Values(NVLinkRate, during)), Median(Values(NVLinkRate, before)), 0.5);
    case _ =>
  }

  /** A bandwidth rule fires exactly when both phases have samples and the median fell below half of a positive
      baseline; then it names its cause, and its confidence is above 0.75, more for a deeper fall, up to 0.95. */
  lemma {:induction false} DropFires(c: Cause, d: seq<real>, b: seq<real>, ev: Option<Event>)
    ensures var o := BandwidthDrop(c, d, b, ev);
            && (o.NoData? <==> d == [] || b == [])
            && (o.Fired? <==> d != [] && b != [] && 0.0 < Median(b) && Median(d) < Median(b) / 2.0)
            && (o.Fired? ==> o.link.cause == c && o.link.evidence == ev && 0.75 < o.link.confidence <= 0.95)
            && (o.Fired? ==> (o.link.confidence == 0.95 <==> 10.0 * Median(d) <= Median(b)))
  {
    hide Median;
    if d != [] && b != [] && 0.0 < Median(b) {
      FallConfidence(Median(d), Median(b));
    }
  }

  lemma {:induction false} FallConfidence(dm: real, bm: real)
    requires bm > 0.0
    ensures var conf := Min(0.5 + (1.0 - dm / bm) / 2.0, 0.95);
            && (dm < bm * 0.5 <==> 0.75 < conf) && conf <= 0.95 && (conf == 0.95 <==> 10.0 * dm <= bm)
  {
    Quotient(dm, bm);
    FallAt(dm / bm, dm, bm);
    FallRange(dm / bm);
  }

  lemma {:induction false} FallAt(q: real, dm: real, bm: real)
    requires bm > 0.0 && q * bm == dm
    ensures q < 0.5 <==> dm < bm * 0.5
    ensures 0.1 >= q <==> 10.0 * dm <= bm
  {
    Compare(q, 0.5, bm, dm, 0.5 * bm);
    Compare(0.1, q, bm, 0.1 * bm, dm);
  }

  lemma {:induction false} FallRange(q: real)
    ensures var conf := Min(0.5 + (1.0 - q) / 2.0, 0.95); conf <= 0.95 && (conf == 0.95 <==> 0.1 >= q) && (0.75 < conf <==> q < 0.5)
  {
  }

  lemma {:induction false} Quotient(x: real, d: real)
    requires d > 0.0
    ensures x / d * d == x
  {
  }

  // ---------------------------------------------------------------- the chain

  lemma {:induction false} InsertLinkBag(s: seq<Link>, l: Link)
    ensures multiset(InsertLink(s, l)) == multiset(s) + multiset{l}
  {
    if s != [] && s[|s| - 1].confidence < l.confidence {
      InsertLinkBag(s[..|s| - 1], l);
      assert s == s[..|s| - 1] + [s[|s| - 1]];
    }
  }

  lemma {:induction false} RankedBag(links: seq<Link>)
    ensures multiset(Ranked(links)) == multiset(links)
  {
    hide InsertLink;
    if links != [] {
      RankedBag(links[..|links| - 1]);
      InsertLinkBag(Ranked(links[..|links| - 1]), links[|links| - 1]);
      assert links == links[..|links| - 1] + [links[|links| - 1]];
    }
  }

  lemma {:induction false} RankedMember(links: seq<Link>, l: Link)
    ensures l in Ranked(links) <==> l in links
  {
    RankedBag(links);
    assert l in links <==> l in multiset(links);
    assert l in Ranked(links) <==> l in multiset(Ranked(links));
  }

  predicate ByConfidence(s: seq<Link>) {
    forall i, j :: 0 <= i < j < |s| ==> s[i].confidence >= s[j].confidence
  }

  lemma {:induction false} InsertLinkSorted(s: seq<Link>, l: Link)
    requires ByConfidence(s)
    ensures ByConfidence(InsertLink(s, l))
    ensures forall x :: x in InsertLink(s, l) ==> x in s || x == l
  {
    if s != [] && s[|s| - 1].confidence < l.confidence {
      var front, last := s[..|s| - 1], s[|s| - 1];
      InsertLinkSorted(front, l);
      var t := InsertLink(front, l);
      forall i | 0 <= i < |t| ensures t[i].confidence >= last.confidence {
        assert t[i] in t;
        if t[i] in front {
          var j :| 0 <= j < |front| && front[j] == t[i];
          assert s[j] == t[i];
        }
      }
    }
  }

  lemma {:induction false} RankedSorted(links: seq<Link>)
    ensures ByConfidence(Ranked(links))
  {
    if links != [] {
      RankedSorted(links[..|links| - 1]);
      InsertLinkSorted(Ranked(links[..|links| - 1]), links[|links| - 1]);
    }
  }

  /** a stands before b. */
  ghost predicate Precedes(s: seq<Link>, a: Link, b: Link) {
    exists i, j :: 0 <= i < j < |s| && s[i] == a && s[j] == b
  }

  lemma {:induction false} PrecedesExtend(s: seq<Link>, a: Link, b: Link, x: Link)
    ensures Precedes(s, a, b) ==> Precedes(s + [x], a, b)
    ensures a in s ==> Precedes(s + [x], a, x)
  {
    var t := s + [x];
    if Precedes(s, a, b) {
      var i, j :| 0 <= i < j < |s| && s[i] == a && s[j] == b;
      assert t[i] == a && t[j] == b;
    }
    if a in s {
      var i :| 0 <= i < |s| && s[i] == a;
      assert t[i] == a && t[|s|] == x;
    }
  }

  /** Inserting does not disturb the order of what is there. */
  lemma {:induction false} InsertKeepsOrder(s: seq<Link>, l: Link, a: Link, b: Link)
    requires Precedes(s, a, b)
    ensures Precedes(InsertLink(s, l), a, b)
  {
    if s != [] && s[|s| - 1].confidence < l.confidence {
      var front, last := s[..|s| - 1], s[|s| - 1];
      var i, j :| 0 <= i < j < |s| && s[i] == a && s[j] == b;
      if j < |s| - 1 {
        assert front[i] == a && front[j] == b;
        InsertKeepsOrder(front, l, a, b);
      } else {
        assert front[i] == a;
        InsertHas(front, l, a);
      }
      PrecedesExtend(InsertLink(front, l), a, b, last);
    } else {
      PrecedesExtend(s, a, b, l);
    }
  }

  lemma {:induction false} InsertHas(s: seq<Link>, l: Link, a: Link)
    ensures a in InsertLink(s, l) <==> a in s || a == l
  {
    InsertLinkBag(s, l);
    assert a in s <==> a in multiset(s);
    assert a in InsertLink(s, l) <==> a in multiset(InsertLink(s, l));
  }

  /** A later rule's link goes behind an earlier one exactly when it is not more confident. */
  lemma {:induction false} InsertPlaces(s: seq<Link>, l: Link, a: Link)
    requires a in s && ByConfidence(s)
    ensures a.confidence >= l.confidence ==> Precedes(InsertLink(s, l), a, l)
    ensures a.confidence < l.confidence ==> Precedes(InsertLink(s, l), l, a)
  {
    var front, last := s[..|s| - 1], s[|s| - 1];
    assert s == front + [last];
    var k :| 0 <= k < |s| && s[k] == a;
    assert a.confidence >= last.confidence;
    if last.confidence < l.confidence {
      InsertHas(front, l, l);
      if a in front {
        InsertPlaces(front, l, a);
      }
      PrecedesExtend(InsertLink(front, l), a, l, last);
      PrecedesExtend(InsertLink(front, l), l, a, last);
      PrecedesExtend(InsertLink(front, l), l, l, last);
    } else {
      PrecedesExtend(s, a, l, l);
    }
  }

  /** Stable ranking: of two links the more confident comes first, and on a tie the earlier rule's. */
  lemma {:induction false} RankedOrder(links: seq<Link>, i: nat, j: nat)
    requires i < j < |links|
    ensures links[i].confidence >= links[j].confidence ==> Precedes(Ranked(links), links[i], links[j])
    ensures links[i].confidence < links[j].confidence ==> Precedes(Ranked(links), links[j], links[i])
  {
    hide Precedes, InsertLink;
    var n := |links| - 1;
    var front := links[..n];
    if j < n {
      RankedOrder(front, i, j);
      if links[i].confidence >= links[j].confidence {
        InsertKeepsOrder(Ranked(front), links[n], links[i], links[j]);
      } else {
        InsertKeepsOrder(Ranked(front), links[n], links[j], links[i]);
      }
    } else {
      assert front[i] in front;
      RankedMember(front, links[i]);
      RankedSorted(front);
      InsertPlaces(Ranked(front), links[n], links[i]);
    }
  }

  // ---------------------------------------------------------------- partition

  /** One of the rules fired with link l. */
  ghost predicate FiresAs(causes: seq<Cause>, during: seq<Event>, before: seq<Event>, l: Link) {
    exists i :: 0 <= i < |causes| && OutcomeOf(causes[i], during, before) == Fired(l)
  }

  lemma {:induction false} FiresStep(causes: seq<Cause>, during: seq<Event>, before: seq<Event>, l: Link)
    requires causes != []
    ensures FiresAs(causes, during, before, l) <==>
      FiresAs(causes[..|causes| - 1], during, before, l) || OutcomeOf(causes[|causes| - 1], during, before) == Fired(l)
  {
    hide OutcomeOf;
    var n := |causes| - 1;
    if FiresAs(causes[..n], during, before, l) {
      var i :| 0 <= i < n && OutcomeOf(causes[..n][i], during, before) == Fired(l);
      assert OutcomeOf(causes[i], during, before) == Fired(l);
    }
    if FiresAs(causes, during, before, l) {
      var i :| 0 <= i < |causes| && OutcomeOf(causes[i], during, before) == Fired(l);
      if i < n {
        assert OutcomeOf(causes[..n][i], during, before) == Fired(l);
      }
    }
  }

  lemma {:induction false} FiredIn(causes: seq<Cause>, during: seq<Event>, before: seq<Event>, l: Link)
    ensures l in FiredLinks(causes, during, before) <==> FiresAs(causes, during, before, l)
  {
    hide OutcomeOf;
    if causes != [] {
      FiresStep(causes, during, before, l);
      hide FiresAs;
      FiredIn(causes[..|causes| - 1], during, before, l);
    }
  }

  lemma {:induction false} RuledOutIn(causes: seq<Cause>, during: seq<Event>, before: seq<Event>, c: Cause)
    ensures c in RuledOutCauses(causes, during, before) <==> c in causes && OutcomeOf(c, during, before).RuledOut?
  {
    if causes != [] {
      hide OutcomeOf;
      var n := |causes| - 1;
      RuledOutIn(causes[..n], during, before, c);
      assert causes == causes[..n] + [causes[n]];
    }
  }

  ghost predicate InChain(res: Attribution, c: Cause) {
    exists l :: l in res.chain && l.cause == c
  }

  lemma {:induction false} AllCauses(c: Cause)
    ensures c in CAUSES <==> c != Unknown
  {
    assert CAUSES[0] == ThermalThrottle && CAUSES[1] == PowerThrottle && CAUSES[2] == ClockReduced && CAUSES[3] == Contention
        && CAUSES[4] == ECCErrors && CAUSES[5] == PCIeBandwidth && CAUSES[6] == NVLinkDegraded && CAUSES[7] == MemoryPressure
        && CAUSES[8] == HostStall;
  }

  /** A link of the chain is that of a fired rule, or the lone unknown. */
  lemma {:induction false} ChainLinks(a: Anomaly, window: int, evs: seq<Event>, l: Link)
    ensures var during, before := During(a, window, evs), Earlier(a, window, evs); var res := Explain(a, window, evs);
            && (l in res.chain && l.cause != Unknown ==> OutcomeOf(l.cause, during, before) == Fired(l))
            && (l.cause != Unknown && OutcomeOf(l.cause, during, before) == Fired(l) ==> l in res.chain)
            && (l in res.chain && l.cause == Unknown ==> res.chain == [l] && l.confidence == 0.0)
            && (l in res.chain && l.cause == Unknown ==> FiredLinks(CAUSES, during, before) == [])
  {
    var during, before := During(a, window, evs), Earlier(a, window, evs);
    var fired := FiredLinks(CAUSES, during, before);
    hide During, Earlier, OutcomeOf, Ranked, FiredLinks;
    FiredIn(CAUSES, during, before, l);
    RankedMember(fired, l);
    RankedLength(fired);
    AllCauses(l.cause);
    if l in fired {
      var i :| 0 <= i < |CAUSES| && OutcomeOf(CAUSES[i], during, before) == Fired(l);
      assert CAUSES[i] in CAUSES;
      AllCauses(CAUSES[i]);
      FiredConfidence(CAUSES[i], during, before);
    }
    if l.cause != Unknown && OutcomeOf(l.cause, during, before) == Fired(l) {
      var i :| 0 <= i < |CAUSES| && CAUSES[i] == l.cause;
    }
  }

  lemma {:induction false} RankedLength(links: seq<Link>)
    ensures Ranked(links) == [] <==> links == []
  {
    RankedBag(links);
    assert |multiset(links)| == |links| && |multiset(Ranked(links))| == |Ranked(links)|;
  }

  /** Attribution partitions the nine causes: each is in the chain, ruled out, or without data, never two of
      them; it is without data exactly when its rule lacks its samples or baseline. */
  lemma {:induction false} Partition(a: Anomaly, window: int, evs: seq<Event>, c: Cause)
    requires c != Unknown
    ensures var during, before := During(a, window, evs), Earlier(a, window, evs); var res := Explain(a, window, evs);
            if !HasData(c, during, before) then !InChain(res, c) && c !in res.ruledOut
            else InChain(res, c) <==> c !in res.ruledOut
  {
    var during, before := During(a, window, evs), Earlier(a, window, evs);
    var res := Explain(a, window, evs);
    NoDataExactly(c, during, before);
    RuledOutIn(CAUSES, during, before, c);
    AllCauses(c);
    hide During, Earlier, OutcomeOf, Ranked, FiredLinks, RuledOutCauses, HasData;
    if InChain(res, c) {
      var l :| l in res.chain && l.cause == c;
      ChainLinks(a, window, evs, l);
    }
    if OutcomeOf(c, during, before).Fired? {
      FiredConfidence(c, during, before);
      ChainLinks(a, window, evs, OutcomeOf(c, during, before).link);
    }
  }

  /** The chain is never empty, comes by descending confidence, holds unknown only alone, and no other link
      is certain. */
  lemma {:induction false} ChainShape(a: Anomaly, window: int, evs: seq<Event>)
    ensures var res := Explain(a, window, evs);
            && res.chain != [] && ByConfidence(res.chain)
            && (forall l :: l in res.chain && l.cause == Unknown ==> res.chain == [l])
            && (forall l :: l in res.chain && l.cause != Unknown ==> 0.0 < l.confidence <= 0.95)
  {
    var during, before := During(a, window, evs), Earlier(a, window, evs);
    var res := Explain(a, window, evs);
    RankedSorted(FiredLinks(CAUSES, during, before));
    hide During, Earlier, OutcomeOf, Ranked, FiredLinks;
    forall l | l in res.chain
      ensures l.cause == Unknown ==> res.chain == [l]
      ensures l.cause != Unknown ==> 0.0 < l.confidence <= 0.95
    {
      ChainLinks(a, window, evs, l);
      if l.cause != Unknown {
        FiredConfidence(l.cause, during, before);
      }
    }
  }

  // ---------------------------------------------------------------- coexistence

  lemma {:induction false} ThrottleBits(e: Event)
    ensures AnyThrottle(e) <==> ThermalBit(e) || PowerHit(e)
  {
    if e.GPUMetric? {
      MaskUnion(e.throttleReasons);
    }
  }

  lemma {:induction false} MaskUnion(t: bv64)
    ensures t & (THERMAL_MASK | POWER_MASK) != 0 <==> t & THERMAL_MASK != 0 || t & POWER_MASK != 0
  {
  }

  /** A stalled host is not diagnosed beside a hardware throttle: never with a power cap, and with thermal
      throttling only on the word of a thermal event. */
  lemma {:induction false} HostStallExclusive(a: Anomaly, window: int, evs: seq<Event>)
    ensures var res := Explain(a, window, evs); InChain(res, HostStall) ==> !InChain(res, PowerThrottle)
    ensures var res := Explain(a, window, evs); InChain(res, HostStall) && InChain(res, ThermalThrottle) ==>
              exists e :: e in During(a, window, evs) && e.Thermal? && e.throttleActive
  {
    var during, before := During(a, window, evs), Earlier(a, window, evs);
    var res := Explain(a, window, evs);
    hide During, Earlier, Ranked, FiredLinks, RuledOutCauses, CountIf, LastIf, Values, Mean, Frac, AnySample, ThermalBit, PowerHit, AnyThrottle;
    if InChain(res, HostStall) {
      var l :| l in res.chain && l.cause == HostStall;
      ChainLinks(a, window, evs, l);
      CountSome(AnyThrottle, during);
      if InChain(res, PowerThrottle) {
        var p :| p in res.chain && p.cause == PowerThrottle;
        ChainLinks(a, window, evs, p);
        CountSome(PowerHit, during);
        PowerIsThrottle(during);
      }
      if InChain(res, ThermalThrottle) {
        var t :| t in res.chain && t.cause == ThermalThrottle;
        ChainLinks(a, window, evs, t);
        CountSome(ThermalHit, during);
        ThermalIsThrottle(during);
      }
    }
  }

  lemma {:induction false} PowerIsThrottle(evs: seq<Event>)
    ensures AnySample(PowerHit, evs) ==> AnySample(AnyThrottle, evs)
  {
    hide PowerHit, AnyThrottle, ThermalBit;
    if AnySample(PowerHit, evs) {
      var i :| 0 <= i < |evs| && PowerHit(evs[i]);
      ThrottleBits(evs[i]);
    }
  }

  lemma {:induction false} ThermalIsThrottle(evs: seq<Event>)
    ensures AnySample(ThermalHit, evs) ==> AnySample(AnyThrottle, evs) || exists e :: e in evs && e.Thermal? && e.throttleActive
  {
    hide PowerHit, AnyThrottle, ThermalBit;
    if AnySample(ThermalHit, evs) {
      var i :| 0 <= i < |evs| && ThermalHit(evs[i]);
      ThrottleBits(evs[i]);
      assert evs[i] in evs;
    }
  }

  // ---------------------------------------------------------------- throttle against clock

  /** In the window every GPU sample reports its clock, there is no thermal event, and every clock below 75%
      of the baseline carries a thermal bit. */
  ghost predicate ThermalClocks(during: seq<Event>, before: seq<Event>) {
    var low := Median(Values(Clock, before)) * 0.75;
    && (forall e :: e in during ==> !e.Thermal?)
    && (forall e :: e in during && e.GPUMetric? ==> e.smClockMHz > 0.0 && (e.smClockMHz < low ==> ThermalBit(e)))
  }

  lemma {:induction false} ClockCounting(evs: seq<Event>, c: real)
    requires forall e :: e in evs ==> !e.Thermal? && (e.GPUMetric? ==> e.smClockMHz > 0.0 && (e.smClockMHz < c ==> ThermalBit(e)))
    ensures |Values(Clock, evs)| == CountIf(ThermalSample, evs)
    ensures Count(Values(Clock, evs), c, true) <= CountIf(ThermalHit, evs)
  {
    if evs != [] {
      var n := |evs| - 1;
      var e := evs[n];
      hide ThermalBit;
      ClockCounting(evs[..n], c);
      assert e in evs;
      var v := Values(Clock, evs[..n]);
      if e.GPUMetric? {
        assert (v + [e.smClockMHz])[..|v|] == v;
      }
    }
  }

  lemma {:induction false} HalfFrac(a: nat, b: nat)
    requires 2 * a >= b > 0
    ensures Frac(a, b) >= 0.5
  {
    var q := a as real / b as real;
    assert q * b as real == a as real;
    ProductSign(0.5 - q, b as real);
  }

  /** If thermal bits explain every low clock, a fired clock rule comes with a thermal throttle seen in at
      least half of the samples: the median is low only if half of the clocks are. */
  lemma {:induction false} ClockImpliesThermal(during: seq<Event>, before: seq<Event>)
    requires ThermalClocks(during, before) && ClockOutcome(during, before).Fired?
    ensures ThermalOutcome(during).Fired? && ThermalOutcome(during).link.confidence >= 0.5
  {
    var d, c := Values(Clock, during), Median(Values(Clock, before)) * 0.75;
    ClockCounting(during, c);
    MedianByCount(d, c, true);
    HalfFrac(CountIf(ThermalHit, during), CountIf(ThermalSample, during));
    hide Values, CountIf, Median, LastIf, Frac, Count;
  }

  lemma {:induction false} FirstFired(causes: seq<Cause>, during: seq<Event>, before: seq<Event>, n: nat) returns (i: nat)
    requires n < |causes| && OutcomeOf(causes[n], during, before).Fired?
    ensures i < |FiredLinks(causes, during, before)| && FiredLinks(causes, during, before)[i] == OutcomeOf(causes[n], during, before).link
    ensures i == |FiredLinks(causes[..n], during, before)|
  {
    hide OutcomeOf;
    var k := |causes| - 1;
    if n < k {
      assert causes[..k][..n] == causes[..n];
      i := FirstFired(causes[..k], during, before, n);
    } else {
      i := |FiredLinks(causes[..n], during, before)|;
    }
  }

  lemma {:induction false} FiredPrefix(causes: seq<Cause>, during: seq<Event>, before: seq<Event>, m: nat, n: nat)
    requires m < n <= |causes| && OutcomeOf(causes[m], during, before).Fired?
    ensures |FiredLinks(causes[..m], during, before)| < |FiredLinks(causes[..n], during, before)|
  {
    hide OutcomeOf;
    assert causes[..n][..n - 1] == causes[..n - 1];
    if m < n - 1 {
      FiredPrefix(causes, during, before, m, n - 1);
    }
  }

  /** The samples a throttle rule counts, and those it finds throttled. */
  function Sampled(c: Cause): Event -> bool {
    if c.ThermalThrottle? then ThermalSample else IsGpu
  }

  function Throttled(c: Cause): Event -> bool {
    if c.ThermalThrottle? then ThermalHit else PowerHit
  }

  /** hit of n samples throttled weigh at least as much as a clock that fell from the median bm to dm: 70% of
      the samples always do, fewer only if the drop is shallow enough. */
  predicate Outweighs(hit: nat, n: nat, dm: real, bm: real) {
    10 * hit >= 7 * n || 10.0 * hit as real * bm >= n as real * (9.0 * bm - 5.0 * dm)
  }

  lemma {:induction false} ShareAgainstDrop(hit: nat, n: nat, dm: real, bm: real)
    requires n > 0 && bm > 0.0 && dm < bm * 0.75
    ensures Frac(hit, n) >= Min(0.4 + (1.0 - dm / bm) / 2.0, 0.7) <==> Outweighs(hit, n, dm, bm)
  {
    Quotient(hit as real, n as real);
    Quotient(dm, bm);
    ShareOrder(hit as real / n as real, dm / bm, hit as real, n as real, dm, bm);
    Tenths(hit, n);
  }

  lemma {:induction false} ShareOrder(share: real, ratio: real, hit: real, n: real, dm: real, bm: real)
    requires share * n == hit && ratio * bm == dm && n > 0.0 && bm > 0.0
    ensures Min(share, 0.95) >= Min(0.4 + (1.0 - ratio) / 2.0, 0.7) <==> hit >= 0.7 * n || 10.0 * hit * bm >= n * (9.0 * bm - 5.0 * dm)
  {
    ConfidenceOrder(share, ratio);
    hide Min;
    Compare(share, 0.7, n, hit, 0.7 * n);
    ShareSide(share, hit, n, bm);
    DropSide(ratio, dm, n, bm);
    ProductSign(n, bm);
    Compare(10.0 * share, 9.0 - 5.0 * ratio, n * bm, 10.0 * hit * bm, n * (9.0 * bm - 5.0 * dm));
  }

  lemma {:induction false} ShareSide(share: real, hit: real, n: real, bm: real)
    requires share * n == hit
    ensures 10.0 * share * (n * bm) == 10.0 * hit * bm
  {
    assert share * (n * bm) == share * n * bm;
  }

  lemma {:induction false} DropSide(ratio: real, dm: real, n: real, bm: real)
    requires ratio * bm == dm
    ensures (9.0 - 5.0 * ratio) * (n * bm) == n * (9.0 * bm - 5.0 * dm)
  {
    assert ratio * (n * bm) == n * (ratio * bm);
  }

  lemma {:induction false} ConfidenceOrder(share: real, ratio: real)
    ensures Min(share, 0.95) >= Min(0.4 + (1.0 - ratio) / 2.0, 0.7) <==> share >= 0.7 || 10.0 * share >= 9.0 - 5.0 * ratio
  {
  }

  lemma {:induction false} Tenths(hit: nat, n: nat)
    ensures hit as real >= 0.7 * n as real <==> 10 * hit >= 7 * n
  {
  }

  /** x against y, and their multiples by d. */
  lemma {:induction false} Compare(x: real, y: real, d: real, xd: real, yd: real)
    requires d > 0.0 && x * d == xd && y * d == yd
    ensures x >= y <==> xd >= yd
  {
    ProductSign(x - y, d);
    ProductSign(y - x, d);
    assert (x - y) * d == x * d - y * d;
  }

  lemma {:induction false} ThrottleShare(c: Cause, during: seq<Event>, before: seq<Event>)
    requires c.ThermalThrottle? || c.PowerThrottle?
    requires OutcomeOf(c, during, before).Fired?
    ensures CountIf(Sampled(c), during) > 0
    ensures OutcomeOf(c, during, before).link.confidence == Frac(CountIf(Throttled(c), during), CountIf(Sampled(c), during))
  {
    hide CountIf, LastIf, Frac;
  }

  lemma {:induction false} ClockShare(during: seq<Event>, before: seq<Event>)
    requires OutcomeOf(ClockReduced, during, before).Fired?
    ensures var dm, bm := Median(Values(Clock, during)), Median(Values(Clock, before));
            && bm > 0.0 && dm < bm * 0.75
            && OutcomeOf(ClockReduced, during, before).link.confidence == Min(0.4 + (1.0 - dm / bm) / 2.0, 0.7)
  {
    hide Values, Median, LastIf;
    BaselinePositive(before);
  }

  lemma {:induction false} PrecedesRanked(links: seq<Link>, x: Link, y: Link)
    requires Precedes(Ranked(links), x, y)
    ensures x.confidence >= y.confidence
  {
    RankedSorted(links);
    hide Ranked;
  }

  /** Where the links of two fired rules stand: the more confident first, the earlier rule's on a tie. */
  lemma {:induction false} RuleOrder(causes: seq<Cause>, during: seq<Event>, before: seq<Event>, m: nat, n: nat)
    requires m < n < |causes| && OutcomeOf(causes[m], during, before).Fired? && OutcomeOf(causes[n], during, before).Fired?
    ensures var x, y := OutcomeOf(causes[m], during, before).link, OutcomeOf(causes[n], during, before).link;
            var chain := Ranked(FiredLinks(causes, during, before));
            && (Precedes(chain, x, y) <==> x.confidence >= y.confidence)
            && (!Precedes(chain, x, y) ==> Precedes(chain, y, x))
            && chain != []
  {
    hide OutcomeOf, Ranked, FiredLinks, Precedes;
    var fired := FiredLinks(causes, during, before);
    var i := FirstFired(causes, during, before, m);
    var j := FirstFired(causes, during, before, n);
    FiredPrefix(causes, during, before, m, n);
    RankedOrder(fired, i, j);
    RankedLength(fired);
    if Precedes(Ranked(fired), fired[i], fired[j]) {
      PrecedesRanked(fired, fired[i], fired[j]);
    }
  }

  /** Throttle against clock. When an explicit throttle rule, thermal or power, and the clock rule both fire, the
      throttle comes first in the chain if and only if its samples outweigh the drop of the median clock;
      otherwise the clock drop comes first. */
  lemma {:induction false} ThrottleBeforeClock(c: Cause, a: Anomaly, window: int, evs: seq<Event>)
    requires c.ThermalThrottle? || c.PowerThrottle?
    requires var during, before := During(a, window, evs), Earlier(a, window, evs);
             OutcomeOf(c, during, before).Fired? && OutcomeOf(ClockReduced, during, before).Fired?
    ensures var during, before := During(a, window, evs), Earlier(a, window, evs);
            var t, k := OutcomeOf(c, during, before).link, OutcomeOf(ClockReduced, during, before).link;
            var chain := Explain(a, window, evs).chain;
            && (Precedes(chain, t, k) <==> Outweighs(CountIf(Throttled(c), during), CountIf(Sampled(c), during),
                                                     Median(Values(Clock, during)), Median(Values(Clock, before))))
            && (!Precedes(chain, t, k) ==> Precedes(chain, k, t))
  {
    var during, before := During(a, window, evs), Earlier(a, window, evs);
    hide During, Earlier, OutcomeOf, Ranked, FiredLinks, Precedes, CountIf, Values, Median, Frac, Outweighs, Throttled, Sampled;
    assert CAUSES[0] == ThermalThrottle && CAUSES[1] == PowerThrottle && CAUSES[2] == ClockReduced;
    RuleOrder(CAUSES, during, before, if c.ThermalThrottle? then 0 else 1, 2);
    ThrottleShare(c, during, before);
    ClockShare(during, before);
    ShareAgainstDrop(CountIf(Throttled(c), during), CountIf(Sampled(c), during),
                     Median(Values(Clock, during)), Median(Values(Clock, before)));
  }

  lemma {:induction false} SmallMedians(x: real, y: real)
    ensures Median([x]) == x
    ensures x <= y ==> Median([x, y]) == (x + y) / 2.0
  {
    assert [x][..0] == [] && [x, y][..1] == [x];
    assert Sort([x]) == [x];
  }

  lemma {:induction false} TwoSamples(p: Event -> bool, f: Event -> Option<real>, x: Event, y: Event)
    ensures CountIf(p, [x]) == (if p(x) then 1 else 0) && CountIf(p, [x, y]) == CountIf(p, [x]) + if p(y) then 1 else 0
    ensures Values(f, [x]) == (if f(x).Some? then [f(x).value] else [])
    ensures Values(f, [x, y]) == Values(f, [x]) + if f(y).Some? then [f(y).value] else []
  {
    assert [x][..0] == [] && [x, y][..1] == [x];
  }

  lemma {:induction false} SelectThree(p: Event -> bool, x: Event, y: Event, z: Event)
    ensures Select(p, [x, y, z]) == (if p(x) then [x] else []) + (if p(y) then [y] else []) + (if p(z) then [z] else [])
  {
    assert [x, y, z][..2] == [x, y] && [x, y][..1] == [x] && [x][..0] == [];
    assert Select(p, [x]) == if p(x) then [x] else [];
    assert Select(p, [x, y]) == Select(p, [x]) + if p(y) then [y] else [];
  }

  function Sample(ts: int, clock: real, reasons: bv64): Event {
    GPUMetric(ts, 0, 50.0, 50.0, 0, 0, clock, reasons, 1)
  }

  lemma {:induction false} SampleFacts(ts: int, clock: real)
    requires clock > 0.0
    ensures var e := Sample(ts, clock, 0x24); ThermalBit(e) && ThermalHit(e) && PowerHit(e) && ThermalSample(e) && IsGpu(e)
    ensures var e := Sample(ts, clock, 0); !ThermalBit(e) && !ThermalHit(e) && !PowerHit(e) && ThermalSample(e) && IsGpu(e)
    ensures forall reasons :: Clock(Sample(ts, clock, reasons)) == Some(clock)
  {
    assert 0x24 & THERMAL_MASK != 0 && 0x24 & POWER_MASK != 0 && 0 & THERMAL_MASK == 0 && 0 & POWER_MASK == 0;
  }

  lemma {:induction false} HalfThrottled(c: Cause, x: Event, y: Event, before: seq<Event>)
    requires c.ThermalThrottle? || c.PowerThrottle?
    requires Sampled(c)(x) && Sampled(c)(y) && Throttled(c)(x) && !Throttled(c)(y)
    ensures OutcomeOf(c, [x, y], before).Fired?
    ensures CountIf(Throttled(c), [x, y]) == 1 && CountIf(Sampled(c), [x, y]) == 2
  {
    TwoSamples(Sampled(c), Clock, x, y);
    TwoSamples(Throttled(c), Clock, x, y);
    hide CountIf, LastIf, Clock, ThermalHit, ThermalSample, PowerHit, IsGpu, Frac;
  }

  lemma {:induction false} DeepDrop(x: Event, y: Event, b: Event)
    requires Clock(x) == Some(100.0) && Clock(y) == Some(900.0) && Clock(b) == Some(1000.0)
    ensures Median(Values(Clock, [x, y])) == 500.0 && Median(Values(Clock, [b])) == 1000.0
    ensures OutcomeOf(ClockReduced, [x, y], [b]).Fired?
  {
    hide CountIf, Median, Values, LastIf, Clock;
    TwoSamples(IsGpu, Clock, x, y);
    TwoSamples(IsGpu, Clock, b, b);
    SmallMedians(100.0, 900.0);
    SmallMedians(1000.0, 1000.0);
    assert Values(Clock, [x, y]) == [100.0, 900.0] && Values(Clock, [b]) == [1000.0];
  }

  /** Explicit throttle evidence is documented to outrank an inferred clock drop. Even where a thermal bit
      explains every low clock neither throttle need: one deep sample of two, throttled for heat and for power,
      leaves both at 0.5 and the clock drop at 0.65. */
  lemma {:induction false} ClockCanOutrankThrottle(c: Cause) returns (a: Anomaly, window: int, evs: seq<Event>)
    requires c.ThermalThrottle? || c.PowerThrottle?
    ensures var during, before := During(a, window, evs), Earlier(a, window, evs);
            && ThermalClocks(during, before)
            && OutcomeOf(c, during, before).Fired? && OutcomeOf(ClockReduced, during, before).Fired?
            && Precedes(Explain(a, window, evs).chain, OutcomeOf(ClockReduced, during, before).link, OutcomeOf(c, during, before).link)
  {
    var b, x, y := Sample(0, 1000.0, 0), Sample(10, 100.0, 0x24), Sample(11, 900.0, 0);
    a, window, evs := Anomaly(20, 0, "", 0, Finite(5.0), 60, 60, 10, 20), 0, [b, x, y];
    SampleWindow(a, b, x, y);
    SampleFacts(0, 1000.0);
    SampleFacts(10, 100.0);
    SampleFacts(11, 900.0);
    hide During, Earlier, Explain, ThermalBit, ThermalHit, ThermalSample, PowerHit, IsGpu, Clock, OutcomeOf, CountIf, Precedes,
         Median, Values;
    HalfThrottled(c, x, y, [b]);
    DeepDrop(x, y, b);
    ThrottleBeforeClock(c, a, window, evs);
  }

  lemma {:induction false} SampleWindow(a: Anomaly, b: Event, x: Event, y: Event)
    requires b.ts < a.startNs <= x.ts <= a.endNs && a.startNs <= y.ts <= a.endNs
    ensures During(a, 0, [b, x, y]) == [x, y] && Earlier(a, 0, [b, x, y]) == [b]
  {
    SelectThree((e: Event) => a.startNs - 0 <= e.ts <= a.endNs, b, x, y);
    SelectThree((e: Event) => e.ts < a.startNs - 0, b, x, y);
    hide Select;
    ghost var window := 0;
    assert During(a, window, [b, x, y]) == Select((e: Event) => a.startNs - window <= e.ts <= a.endNs, [b, x, y]);
  }
}
