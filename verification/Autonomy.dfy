/**
 The cross-field checks on an autonomy measurement, held against the events it claims to
 summarise: the integer totals pass exactly when some population of events produces them.
 */
module Autonomy {
  import opened Wrappers

  const TOLERANCE: real := 0.000000000001

  // ---------------------------------------------------------------- the payload

  datatype Vertical = Vertical(key: string, events: nat, autoResolved: nat)

  datatype Measurement = Measurement(
    sampleSize: nat,
    verticals: seq<Vertical>,
    attributed: nat,
    unattributed: nat,
    coverage: Option<real>,
    finalized: nat,
    pending: nat,
    adverse: nat,
    autoResolution: Option<real>,
    mix: map<string, real>,
    tierCounts: Option<map<string, nat>>,
    markers: Option<Markers>,
    unknownMarkerGap: bool)

  datatype Markers = Markers(declaredNonSynthetic: nat, unknown: nat)

  datatype Fault =
    | MarkersDoNotAddUp
    | MarkerGapInconsistent
    | UnknownVertical
    | RepeatedVertical
    | ResolvedExceedsEvents
    | AttributionInconsistent
    | FinalizationInconsistent
    | OutcomesInconsistent
    | RateInconsistent
    | MixInconsistent
    | TierCountsInconsistent

  const UNATTRIBUTED := "unattributed"
  const VERTICAL_KEYS: set<string> := {"resilience", "change_safety", "cost", "unattributed"}
  const TIER_KEYS: set<string> := {"t0", "t1", "t2"}

  // ---------------------------------------------------------------- the checks

  function Abs(x: real): real {
    if x < 0.0 then -x else x
  }

  function SumEvents(verticals: seq<Vertical>): nat {
    if verticals == [] then 0 else verticals[0].events + SumEvents(verticals[1..])
  }

  function SumResolved(verticals: seq<Vertical>): nat {
    if verticals == [] then 0 else verticals[0].autoResolved + SumResolved(verticals[1..])
  }

  function Unattributed(verticals: seq<Vertical>): seq<Vertical> {
    if verticals == [] then []
    else (if verticals[0].key == UNATTRIBUTED then [verticals[0]] else []) + Unattributed(verticals[1..])
  }

  function Keys(verticals: seq<Vertical>): seq<string>
    ensures |Keys(verticals)| == |verticals|
  {
    if verticals == [] then [] else [verticals[0].key] + Keys(verticals[1..])
  }

  predicate Unique(keys: seq<string>) {
    keys == [] || (keys[0] !in keys[1..] && Unique(keys[1..]))
  }

  function SumCounts(counts: map<string, nat>, keys: seq<string>): nat {
    if keys == [] then 0 else (if keys[0] in counts then counts[keys[0]] else 0) + SumCounts(counts, keys[1..])
  }

  const TIERS: seq<string> := ["t0", "t1", "t2"]

  /** `part / whole` for a whole that is not empty. */
  function Share(part: nat, whole: nat): real
    requires whole > 0
  {
    part as real / whole as real
  }

  predicate Close(value: real, part: nat, whole: nat)
    requires whole > 0
  {
    Abs(value - Share(part, whole)) <= TOLERANCE
  }

  /** The ratio is absent exactly for an empty whole, and otherwise within the tolerance. */
  predicate CoverageFits(coverage: Option<real>, attributed: nat, total: nat) {
    if total == 0 then coverage.None? else coverage.Some? && Close(coverage.value, attributed, total)
  }

  /** The ratio may be absent; given, it needs a non-empty whole and must be within the tolerance. */
  predicate RateFits(rate: Option<real>, resolved: nat, sampleSize: nat) {
    rate.Some? ==> sampleSize > 0 && Close(rate.value, resolved, sampleSize)
  }

  function SumShares(mix: map<string, real>, keys: seq<string>): real {
    if keys == [] then 0.0 else (if keys[0] in mix then mix[keys[0]] else 0.0) + SumShares(mix, keys[1..])
  }

  predicate MixFits(mix: map<string, real>) {
    && mix.Keys <= TIER_KEYS
    && (forall key | key in mix :: 0.0 <= mix[key] <= 1.0)
    && SumShares(mix, TIERS) <= 1.0 + TOLERANCE
  }

  /** A listed tier has at least one event, and its share is that of its count. */
  predicate SharesFit(counts: map<string, nat>, mix: map<string, real>, sampleSize: nat) {
    && counts.Keys == mix.Keys
    && forall key | key in counts ::
         counts[key] >= 1 && sampleSize > 0 && Close(mix[key], counts[key], sampleSize)
  }

  /** The decoder's checks in its order; None is acceptance. */
  function Check(m: Measurement): Option<Fault> {
    var total := m.attributed + m.unattributed;
    var unattributedEvents := SumEvents(Unattributed(m.verticals));
    if m.markers.Some? && m.markers.value.declaredNonSynthetic + m.markers.value.unknown != m.sampleSize then
      Some(MarkersDoNotAddUp)
    else if m.unknownMarkerGap != (m.markers.Some? && m.markers.value.unknown > 0) then Some(MarkerGapInconsistent)
    else if exists v | v in m.verticals :: v.key !in VERTICAL_KEYS then Some(UnknownVertical)
    else if !Unique(Keys(m.verticals)) then Some(RepeatedVertical)
    else if exists v | v in m.verticals :: v.autoResolved > v.events then Some(ResolvedExceedsEvents)
    else if SumEvents(m.verticals) != m.sampleSize
            || SumEvents(m.verticals) != total
            || SumEvents(m.verticals) - unattributedEvents != m.attributed
            || unattributedEvents != m.unattributed
            || !CoverageFits(m.coverage, m.attributed, total) then Some(AttributionInconsistent)
    else if m.adverse > m.finalized || m.finalized + m.pending > total then Some(FinalizationInconsistent)
    else if SumResolved(m.verticals) != m.finalized - m.adverse then Some(OutcomesInconsistent)
    else if !RateFits(m.autoResolution, SumResolved(m.verticals), m.sampleSize) then Some(RateInconsistent)
    else if !MixFits(m.mix) then Some(MixInconsistent)
    else if m.tierCounts.Some?
            && !(SumCounts(m.tierCounts.value, TIERS) <= m.sampleSize && SharesFit(m.tierCounts.value, m.mix, m.sampleSize)) then
      Some(TierCountsInconsistent)
    else None
  }

  // ---------------------------------------------------------------- the population

  datatype Outcome = Resolved | Adverse | Pending | Other

  /** One event: where it is attributed, how it ended, the tier that handled it if any, and whether it was declared non-synthetic. */
  datatype Event = Event(vertical: string, outcome: Outcome, tier: Option<string>, declared: bool)

  /** The questions a total answers about one event. */
  datatype Query = InVertical(key: string) | ResolvedIn(key: string) | Ended(outcome: Outcome) | InTier(name: string) | Marked(declared: bool)

  predicate Holds(q: Query, e: Event) {
    match q
    case InVertical(key) => e.vertical == key
    case ResolvedIn(key) => e.vertical == key && e.outcome.Resolved?
    case Ended(outcome) => e.outcome == outcome
    case InTier(name) => e.tier == Some(name)
    case Marked(declared) => e.declared == declared
  }

  function Count(pop: seq<Event>, q: Query): nat {
    if pop == [] then 0 else (if Holds(q, pop[0]) then 1 else 0) + Count(pop[1..], q)
  }

  /** Every listed vertical is known, listed once, and has the events and resolutions it reports; no event is elsewhere. */
  ghost predicate VerticalsProduced(pop: seq<Event>, verticals: seq<Vertical>) {
    && Unique(Keys(verticals))
    && (forall v | v in verticals :: v.key in {"resilience", "change_safety", "cost", "unattributed"})
    && (forall e | e in pop :: e.vertical in Keys(verticals))
    && (forall v | v in verticals ::
          v.events == Count(pop, InVertical(v.key)) && v.autoResolved == Count(pop, ResolvedIn(v.key)))
  }

  ghost predicate TiersProduced(pop: seq<Event>, counts: map<string, nat>) {
    forall t | t in {"t0", "t1", "t2"} :: Count(pop, InTier(t)) == if t in counts then counts[t] else 0
  }

  /** The ratio is that of so many events out of all, up to 1e-12: the product is off by at most so much of all. */
  predicate IsShareOf(ratio: real, part: int, size: nat) {
    var n := size as real;
    ratio * n - part as real <= 0.000000000001 * n && part as real - ratio * n <= 0.000000000001 * n
  }

  function MixOf(mix: map<string, real>, tier: string): real {
    if tier in mix then mix[tier] else 0.0
  }

  /** The ratios are those of the population: coverage of its attributed events, rate of its resolved ones, mix of its tiers. */
  ghost predicate RatiosProduced(pop: seq<Event>, m: Measurement) {
    && m.coverage.None? == (pop == [])
    && (m.coverage.Some? ==> IsShareOf(m.coverage.value, |pop| - Count(pop, InVertical("unattributed")), |pop|))
    && (m.autoResolution.Some? ==> pop != [] && IsShareOf(m.autoResolution.value, Count(pop, Ended(Resolved)), |pop|))
    && m.mix.Keys <= {"t0", "t1", "t2"}
    && (forall t | t in m.mix :: 0.0 <= m.mix[t] <= 1.0)
    && MixOf(m.mix, "t0") + MixOf(m.mix, "t1") + MixOf(m.mix, "t2") <= 1.000000000001
    && (m.tierCounts.Some? ==>
          && m.tierCounts.value.Keys == m.mix.Keys
          && forall t | t in m.mix :: Count(pop, InTier(t)) > 0 && IsShareOf(m.mix[t], Count(pop, InTier(t)), |pop|))
  }

  /** The population produces every integer of the measurement, and its ratios up to the tolerance. */
  ghost predicate Produces(pop: seq<Event>, m: Measurement) {
    && |pop| == m.sampleSize
    && VerticalsProduced(pop, m.verticals)
    && m.unattributed == Count(pop, InVertical("unattributed"))
    && m.attributed == |pop| - m.unattributed
    && m.finalized == Count(pop, Ended(Resolved)) + Count(pop, Ended(Adverse))
    && m.adverse == Count(pop, Ended(Adverse))
    && m.pending == Count(pop, Ended(Pending))
    && (m.tierCounts.Some? ==> TiersProduced(pop, m.tierCounts.value))
    && (m.markers.Some? ==>
          && m.markers.value.declaredNonSynthetic == Count(pop, Marked(true))
          && m.markers.value.unknown == Count(pop, Marked(false)))
    && m.unknownMarkerGap == (m.markers.Some? && Count(pop, Marked(false)) > 0)
    && RatiosProduced(pop, m)
  }

  // ---------------------------------------------------------------- counting

  lemma {:induction false} CountAppend(a: seq<Event>, b: seq<Event>, q: Query)
    ensures Count(a + b, q) == Count(a, q) + Count(b, q)
  {
    if a == [] {
      assert a + b == b;
    } else {
      CountAppend(a[1..], b, q);
      assert (a + b)[1..] == a[1..] + b;
    }
  }

  function Copies(e: Event, n: nat): (pop: seq<Event>)
    ensures |pop| == n && forall x | x in pop :: x == e
  {
    if n == 0 then [] else [e] + Copies(e, n - 1)
  }

  lemma {:induction false} CountCopies(e: Event, n: nat, q: Query)
    ensures Count(Copies(e, n), q) == if Holds(q, e) then n else 0
  {
    if n > 0 {
      CountCopies(e, n - 1, q);
      assert Copies(e, n)[1..] == Copies(e, n - 1);
    }
  }

  function SumOver(pop: seq<Event>, keys: seq<string>): nat {
    if keys == [] then 0 else Count(pop, InVertical(keys[0])) + SumOver(pop, keys[1..])
  }

  function SumResolvedOver(pop: seq<Event>, keys: seq<string>): nat {
    if keys == [] then 0 else Count(pop, ResolvedIn(keys[0])) + SumResolvedOver(pop, keys[1..])
  }

  /** Adding one event to the front raises the sum over unique keys by one, if its vertical is among them. */
  lemma {:induction false} SumOverCons(pop: seq<Event>, keys: seq<string>)
    requires pop != [] && Unique(keys)
    ensures SumOver(pop, keys) == SumOver(pop[1..], keys) + if pop[0].vertical in keys then 1 else 0
    ensures SumResolvedOver(pop, keys)
            == SumResolvedOver(pop[1..], keys) + if pop[0].vertical in keys && pop[0].outcome.Resolved? then 1 else 0
  {
    if keys != [] { SumOverCons(pop, keys[1..]); }
  }

  lemma {:induction false} SumOverNothing(keys: seq<string>)
    ensures SumOver([], keys) == 0 && SumResolvedOver([], keys) == 0
  {
    if keys != [] { SumOverNothing(keys[1..]); }
  }

  /** Unique keys that cover every event partition the population, and its resolutions. */
  lemma {:induction false} VerticalsPartition(pop: seq<Event>, keys: seq<string>)
    requires Unique(keys) && forall e | e in pop :: e.vertical in keys
    ensures SumOver(pop, keys) == |pop|
    ensures SumResolvedOver(pop, keys) == Count(pop, Ended(Resolved))
  {
    if pop == [] {
      SumOverNothing(keys);
    } else {
      assert pop[0] in pop;
      SumOverCons(pop, keys);
      VerticalsPartition(pop[1..], keys);
    }
  }

  lemma {:induction false} SumsAreCounts(pop: seq<Event>, verticals: seq<Vertical>)
    requires forall v | v in verticals ::
               v.events == Count(pop, InVertical(v.key)) && v.autoResolved == Count(pop, ResolvedIn(v.key))
    ensures SumEvents(verticals) == SumOver(pop, Keys(verticals))
    ensures SumResolved(verticals) == SumResolvedOver(pop, Keys(verticals))
  {
    if verticals != [] {
      assert verticals[0] in verticals;
      SumsAreCounts(pop, verticals[1..]);
      assert Keys(verticals)[1..] == Keys(verticals[1..]);
    }
  }

  lemma {:induction false} NoneElsewhere(pop: seq<Event>, key: string)
    requires forall e | e in pop :: e.vertical != key
    ensures Count(pop, InVertical(key)) == 0
  {
    if pop != [] {
      assert pop[0] in pop;
      NoneElsewhere(pop[1..], key);
    }
  }

  lemma {:induction false} KeysHold(verticals: seq<Vertical>)
    ensures forall v | v in verticals :: v.key in Keys(verticals)
    ensures forall i | 0 <= i < |verticals| :: Keys(verticals)[i] == verticals[i].key
  {
    if verticals != [] { KeysHold(verticals[1..]); }
  }

  /** The events listed as unattributed: those of the one such vertical, or none. */
  lemma {:induction false} UnattributedSum(verticals: seq<Vertical>)
    requires Unique(Keys(verticals))
    ensures UNATTRIBUTED !in Keys(verticals) ==> SumEvents(Unattributed(verticals)) == 0
    ensures forall v | v in verticals && v.key == UNATTRIBUTED :: SumEvents(Unattributed(verticals)) == v.events
    ensures SumEvents(Unattributed(verticals)) <= SumEvents(verticals)
  {
    if verticals != [] {
      UnattributedSum(verticals[1..]);
      KeysHold(verticals);
      KeysHold(verticals[1..]);
      assert Keys(verticals)[1..] == Keys(verticals[1..]);
      var rest := Unattributed(verticals[1..]);
      if verticals[0].key == UNATTRIBUTED {
        assert ([verticals[0]] + rest)[1..] == rest;
      } else {
        assert [] + rest == rest;
      }
    }
  }

  lemma {:induction false} OutcomesPartition(pop: seq<Event>)
    ensures Count(pop, Ended(Resolved)) + Count(pop, Ended(Adverse)) + Count(pop, Ended(Pending)) + Count(pop, Ended(Other)) == |pop|
    ensures Count(pop, Marked(true)) + Count(pop, Marked(false)) == |pop|
    ensures Count(pop, InTier("t0")) + Count(pop, InTier("t1")) + Count(pop, InTier("t2")) <= |pop|
  {
    if pop != [] { OutcomesPartition(pop[1..]); }
  }

  lemma {:induction false} ResolvedWithin(pop: seq<Event>, key: string)
    ensures Count(pop, ResolvedIn(key)) <= Count(pop, InVertical(key))
  {
    if pop != [] { ResolvedWithin(pop[1..], key); }
  }

  lemma TierSum(counts: map<string, nat>)
    ensures SumCounts(counts, TIERS) ==
            (if "t0" in counts then counts["t0"] else 0)
            + (if "t1" in counts then counts["t1"] else 0)
            + (if "t2" in counts then counts["t2"] else 0)
  {
    var last, two := TIERS[2..], TIERS[1..];
    assert last[1..] == [] && two[1..] == last;
    assert SumCounts(counts, last) == (if "t2" in counts then counts["t2"] else 0) + SumCounts(counts, []);
    assert SumCounts(counts, two) == (if "t1" in counts then counts["t1"] else 0) + SumCounts(counts, last);
  }

  // ---------------------------------------------------------------- the checks, grouped

  predicate VerticalsAccepted(verticals: seq<Vertical>) {
    && (forall v | v in verticals :: v.key in VERTICAL_KEYS)
    && Sensible(verticals)
    && Unique(Keys(verticals))
  }

  predicate TotalsAccepted(m: Measurement) {
    && SumEvents(m.verticals) == m.sampleSize == m.attributed + m.unattributed
    && SumEvents(Unattributed(m.verticals)) == m.unattributed
    && m.adverse <= m.finalized && m.finalized + m.pending <= m.sampleSize
    && SumResolved(m.verticals) == m.finalized - m.adverse
  }

  predicate RatiosAccepted(m: Measurement) {
    && CoverageFits(m.coverage, m.attributed, m.sampleSize)
    && RateFits(m.autoResolution, SumResolved(m.verticals), m.sampleSize)
    && MixFits(m.mix)
    && (m.tierCounts.Some? ==> SharesFit(m.tierCounts.value, m.mix, m.sampleSize))
  }

  predicate LabelsAccepted(m: Measurement) {
    && (m.markers.Some? ==> m.markers.value.declaredNonSynthetic + m.markers.value.unknown == m.sampleSize)
    && m.unknownMarkerGap == (m.markers.Some? && m.markers.value.unknown > 0)
    && (m.tierCounts.Some? ==> SumCounts(m.tierCounts.value, TIERS) <= m.sampleSize)
  }

  lemma CheckGrouped(m: Measurement)
    ensures Check(m).None? <==>
            VerticalsAccepted(m.verticals) && TotalsAccepted(m) && RatiosAccepted(m) && LabelsAccepted(m)
  {
  }

  // ---------------------------------------------------------------- ratios

  /** Being close to a quotient, stated by products. */
  lemma CloseIsShare(value: real, part: nat, size: nat)
    requires size > 0
    ensures Close(value, part, size) <==> IsShareOf(value, part, size)
  {
    var w, p := size as real, part as real;
    OffsetsScale(value, p / w, p, w, TOLERANCE);
  }

  /** A bound on how far the ratio is off a quotient, and the same bound on the products. */
  lemma OffsetsScale(value: real, q: real, p: real, w: real, t: real)
    requires w > 0.0 && q * w == p
    ensures Abs(value - q) <= t <==> value * w - p <= t * w && p - value * w <= t * w
  {
    var d := value - q;
    assert d * w == value * w - q * w;
    OrderScales(d, t, w);
    OrderScales(-d, t, w);
    assert (-d) * w == -(d * w);
  }

  lemma OrderScales(a: real, b: real, w: real)
    requires w > 0.0
    ensures a <= b <==> a * w <= b * w
  {
    if a <= b { assert (b - a) * w >= 0.0; } else { assert (a - b) * w > 0.0; }
  }

  lemma MixSum(mix: map<string, real>)
    ensures SumShares(mix, TIERS) == MixOf(mix, "t0") + MixOf(mix, "t1") + MixOf(mix, "t2")
  {
    var last, two := TIERS[2..], TIERS[1..];
    assert last[1..] == [] && two[1..] == last;
    assert SumShares(mix, last) == MixOf(mix, "t2") + SumShares(mix, []);
    assert SumShares(mix, two) == MixOf(mix, "t1") + SumShares(mix, last);
  }

  /** On a population with the measurement's counts the ratio checks say what the ratios are. */
  lemma RatiosAgree(pop: seq<Event>, m: Measurement)
    requires |pop| == m.sampleSize && m.attributed == |pop| - Count(pop, InVertical("unattributed"))
    requires SumResolved(m.verticals) == Count(pop, Ended(Resolved))
    requires m.tierCounts.Some? ==> TiersProduced(pop, m.tierCounts.value)
    ensures RatiosAccepted(m) <==> RatiosProduced(pop, m)
  {
    hide Close, IsShareOf, SumShares, Count;
    MixSum(m.mix);
    if pop != [] {
      if m.coverage.Some? { CloseIsShare(m.coverage.value, m.attributed, |pop|); }
      if m.autoResolution.Some? { CloseIsShare(m.autoResolution.value, Count(pop, Ended(Resolved)), |pop|); }
    }
    if m.tierCounts.Some? {
      SharesAgree(pop, m.tierCounts.value, m.mix);
    }
  }

  lemma SharesAgree(pop: seq<Event>, counts: map<string, nat>, mix: map<string, real>)
    requires TiersProduced(pop, counts)
    ensures mix.Keys <= {"t0", "t1", "t2"} ==>
              (SharesFit(counts, mix, |pop|) <==>
               && counts.Keys == mix.Keys
               && forall t | t in mix :: Count(pop, InTier(t)) > 0 && IsShareOf(mix[t], Count(pop, InTier(t)), |pop|))
  {
    hide Close, IsShareOf, Count;
    if mix.Keys <= {"t0", "t1", "t2"} && counts.Keys == mix.Keys {
      forall t | t in mix
        ensures (counts[t] >= 1 && |pop| > 0 && Close(mix[t], counts[t], |pop|))
                <==> Count(pop, InTier(t)) > 0 && IsShareOf(mix[t], Count(pop, InTier(t)), |pop|)
      {
        assert Count(pop, InTier(t)) == counts[t];
        if pop == [] {
          assert Count(pop, InTier(t)) == 0 by { CountNone(InTier(t)); }
        } else {
          CloseIsShare(mix[t], counts[t], |pop|);
        }
      }
    }
  }

  lemma CountNone(q: Query)
    ensures Count([], q) == 0
  {
  }

  // ---------------------------------------------------------------- soundness

  lemma ProducedVerticals(pop: seq<Event>, verticals: seq<Vertical>)
    requires VerticalsProduced(pop, verticals)
    ensures VerticalsAccepted(verticals)
    ensures SumEvents(verticals) == |pop| && SumResolved(verticals) == Count(pop, Ended(Resolved))
    ensures SumEvents(Unattributed(verticals)) == Count(pop, InVertical(UNATTRIBUTED))
  {
    VerticalsPartition(pop, Keys(verticals));
    SumsAreCounts(pop, verticals);
    UnattributedSum(verticals);
    KeysHold(verticals);
    forall v | v in verticals ensures v.autoResolved <= v.events {
      ResolvedWithin(pop, v.key);
    }
    if UNATTRIBUTED !in Keys(verticals) {
      NoneElsewhere(pop, UNATTRIBUTED);
    } else {
      var i :| 0 <= i < |verticals| && Keys(verticals)[i] == UNATTRIBUTED;
      assert verticals[i] in verticals;
    }
  }

  /** Whatever real events are summarised, the checks accept the summary. */
  lemma {:induction false} ProducedIsAccepted(pop: seq<Event>, m: Measurement)
    requires Produces(pop, m)
    ensures Check(m).None?
  {
    ProducedVerticals(pop, m.verticals);
    OutcomesPartition(pop);
    if m.tierCounts.Some? {
      TierSum(m.tierCounts.value);
    }
    RatiosAgree(pop, m);
    CheckGrouped(m);
  }

  // ---------------------------------------------------------------- completeness

  function Min(a: nat, b: nat): nat {
    if a <= b then a else b
  }

  /** The events of one vertical: its resolved ones, then as many of the adverse and pending as still fit, then others. */
  function Fill(key: string, resolved: nat, adverse: nat, pending: nat, other: nat): seq<Event> {
    Copies(Event(key, Resolved, None, true), resolved)
    + Copies(Event(key, Adverse, None, true), adverse)
    + Copies(Event(key, Pending, None, true), pending)
    + Copies(Event(key, Other, None, true), other)
  }

  lemma FillCounts(key: string, resolved: nat, adverse: nat, pending: nat, other: nat, q: Query)
    ensures var pop := Fill(key, resolved, adverse, pending, other);
            && |pop| == resolved + adverse + pending + other
            && (forall e | e in pop :: e.vertical == key)
            && Count(pop, q) == (if Holds(q, Event(key, Resolved, None, true)) then resolved else 0)
                              + (if Holds(q, Event(key, Adverse, None, true)) then adverse else 0)
                              + (if Holds(q, Event(key, Pending, None, true)) then pending else 0)
                              + (if Holds(q, Event(key, Other, None, true)) then other else 0)
  {
    var r, a := Copies(Event(key, Resolved, None, true), resolved), Copies(Event(key, Adverse, None, true), adverse);
    var p, o := Copies(Event(key, Pending, None, true), pending), Copies(Event(key, Other, None, true), other);
    CountCopies(Event(key, Resolved, None, true), resolved, q);
    CountCopies(Event(key, Adverse, None, true), adverse, q);
    CountCopies(Event(key, Pending, None, true), pending, q);
    CountCopies(Event(key, Other, None, true), other, q);
    CountAppend(r, a, q);
    CountAppend(r + a, p, q);
    CountAppend(r + a + p, o, q);
  }

  /** How many of the remaining adverse events the first vertical takes: what its unresolved events allow. */
  function AdverseHere(v: Vertical, adverse: nat): (n: nat)
    requires v.autoResolved <= v.events
    ensures n <= adverse && n <= v.events - v.autoResolved
    ensures n == adverse || n == v.events - v.autoResolved
  {
    Min(adverse, v.events - v.autoResolved)
  }

  function PendingHere(v: Vertical, adverse: nat, pending: nat): (n: nat)
    requires v.autoResolved <= v.events
    ensures n <= pending && n + AdverseHere(v, adverse) <= v.events - v.autoResolved
    ensures n == pending || n + AdverseHere(v, adverse) == v.events - v.autoResolved
  {
    Min(pending, v.events - v.autoResolved - AdverseHere(v, adverse))
  }

  function Here(v: Vertical, adverse: nat, pending: nat): seq<Event>
    requires v.autoResolved <= v.events
  {
    var a, p := AdverseHere(v, adverse), PendingHere(v, adverse, pending);
    Fill(v.key, v.autoResolved, a, p, v.events - v.autoResolved - a - p)
  }

  predicate Sensible(verticals: seq<Vertical>) {
    forall v | v in verticals :: v.autoResolved <= v.events
  }

  lemma SensibleCons(verticals: seq<Vertical>)
    requires Sensible(verticals) && verticals != []
    ensures verticals[0].autoResolved <= verticals[0].events && Sensible(verticals[1..])
  {
    assert verticals[0] in verticals;
  }

  /** A population for the verticals, with `adverse` and `pending` events spread over what is not resolved. */
  function Build(verticals: seq<Vertical>, adverse: nat, pending: nat): seq<Event>
    requires Sensible(verticals)
  {
    if verticals == [] then []
    else
      SensibleCons(verticals);
      var v := verticals[0];
      Here(v, adverse, pending)
      + Build(verticals[1..], adverse - AdverseHere(v, adverse), pending - PendingHere(v, adverse, pending))
  }

  /** Counting in the built population: the first vertical's part and the rest. */
  lemma BuildStep(verticals: seq<Vertical>, adverse: nat, pending: nat, q: Query)
    requires verticals != [] && Sensible(verticals) && verticals[0].autoResolved <= verticals[0].events && Sensible(verticals[1..])
    ensures var v := verticals[0];
            var a, p := AdverseHere(v, adverse), PendingHere(v, adverse, pending);
            var rest := Build(verticals[1..], adverse - a, pending - p);
            && Count(Build(verticals, adverse, pending), q) == Count(Here(v, adverse, pending), q) + Count(rest, q)
            && |Build(verticals, adverse, pending)| == v.events + |rest|
            && (forall e | e in Build(verticals, adverse, pending) :: e.vertical == v.key || e in rest)
  {
    var v := verticals[0];
    var a, p := AdverseHere(v, adverse), PendingHere(v, adverse, pending);
    CountAppend(Here(v, adverse, pending), Build(verticals[1..], adverse - a, pending - p), q);
    FillCounts(v.key, v.autoResolved, a, p, v.events - v.autoResolved - a - p, q);
  }

  lemma HereCounts(v: Vertical, adverse: nat, pending: nat, key: string)
    requires v.autoResolved <= v.events
    ensures var pop := Here(v, adverse, pending);
            && Count(pop, Ended(Resolved)) == v.autoResolved
            && Count(pop, Ended(Adverse)) == AdverseHere(v, adverse)
            && Count(pop, Ended(Pending)) == PendingHere(v, adverse, pending)
            && Count(pop, InVertical(key)) == (if v.key == key then v.events else 0)
            && Count(pop, ResolvedIn(key)) == (if v.key == key then v.autoResolved else 0)
  {
    var a, p := AdverseHere(v, adverse), PendingHere(v, adverse, pending);
    var o := v.events - v.autoResolved - a - p;
    FillCounts(v.key, v.autoResolved, a, p, o, Ended(Resolved));
    FillCounts(v.key, v.autoResolved, a, p, o, Ended(Adverse));
    FillCounts(v.key, v.autoResolved, a, p, o, Ended(Pending));
    FillCounts(v.key, v.autoResolved, a, p, o, InVertical(key));
    FillCounts(v.key, v.autoResolved, a, p, o, ResolvedIn(key));
  }

  lemma {:induction false} ResolvedAtMostEvents(verticals: seq<Vertical>)
    requires Sensible(verticals)
    ensures SumResolved(verticals) <= SumEvents(verticals)
  {
    if verticals != [] {
      SensibleCons(verticals);
      ResolvedAtMostEvents(verticals[1..]);
    }
  }

  /** What the built population answers, summed vertical by vertical. */
  function Expected(verticals: seq<Vertical>, adverse: nat, pending: nat, q: Query): nat
    requires Sensible(verticals)
  {
    if verticals == [] then 0
    else
      SensibleCons(verticals);
      var v := verticals[0];
      Count(Here(v, adverse, pending), q)
      + Expected(verticals[1..], adverse - AdverseHere(v, adverse), pending - PendingHere(v, adverse, pending), q)
  }

  lemma CountNothing(q: Query)
    ensures Count([], q) == 0
  {
  }

  lemma {:induction false} BuildIsExpected(verticals: seq<Vertical>, adverse: nat, pending: nat, q: Query)
    requires Sensible(verticals)
    ensures Count(Build(verticals, adverse, pending), q) == Expected(verticals, adverse, pending, q)
    ensures |Build(verticals, adverse, pending)| == SumEvents(verticals)
  {
    hide Here, Holds, AdverseHere, PendingHere, Count, Sensible, Keys;
    CountNothing(q);
    if verticals != [] {
      var v := verticals[0];
      SensibleCons(verticals);
      BuildIsExpected(verticals[1..], adverse - AdverseHere(v, adverse), pending - PendingHere(v, adverse, pending), q);
      BuildStep(verticals, adverse, pending, q);
    }
  }

  lemma {:induction false} BuildStaysInside(verticals: seq<Vertical>, adverse: nat, pending: nat)
    requires Sensible(verticals)
    ensures forall e | e in Build(verticals, adverse, pending) :: e.vertical in Keys(verticals)
  {
    hide Here, Holds, AdverseHere, PendingHere, Count;
    if verticals != [] {
      var v := verticals[0];
      SensibleCons(verticals);
      BuildStaysInside(verticals[1..], adverse - AdverseHere(v, adverse), pending - PendingHere(v, adverse, pending));
      BuildStep(verticals, adverse, pending, Ended(Resolved));
      assert Keys(verticals)[0] == v.key && Keys(verticals)[1..] == Keys(verticals[1..]);
    }
  }

  lemma {:induction false} ExpectedOutcomes(verticals: seq<Vertical>, adverse: nat, pending: nat)
    requires Sensible(verticals)
    requires adverse + pending <= SumEvents(verticals) - SumResolved(verticals)
    ensures Expected(verticals, adverse, pending, Ended(Resolved)) == SumResolved(verticals)
    ensures Expected(verticals, adverse, pending, Ended(Adverse)) == adverse
    ensures Expected(verticals, adverse, pending, Ended(Pending)) == pending
  {
    hide Here, Holds, AdverseHere, PendingHere, Count, Sensible;
    if verticals != [] {
      var v := verticals[0];
      SensibleCons(verticals);
      ResolvedAtMostEvents(verticals[1..]);
      ExpectedOutcomes(verticals[1..], adverse - AdverseHere(v, adverse), pending - PendingHere(v, adverse, pending));
      HereCounts(v, adverse, pending, v.key);
    }
  }

  function EventsWith(verticals: seq<Vertical>, key: string): nat {
    if verticals == [] then 0
    else (if verticals[0].key == key then verticals[0].events else 0) + EventsWith(verticals[1..], key)
  }

  function ResolvedWith(verticals: seq<Vertical>, key: string): nat {
    if verticals == [] then 0
    else (if verticals[0].key == key then verticals[0].autoResolved else 0) + ResolvedWith(verticals[1..], key)
  }

  lemma {:induction false} ExpectedVerticals(verticals: seq<Vertical>, adverse: nat, pending: nat, key: string)
    requires Sensible(verticals)
    ensures Expected(verticals, adverse, pending, InVertical(key)) == EventsWith(verticals, key)
    ensures Expected(verticals, adverse, pending, ResolvedIn(key)) == ResolvedWith(verticals, key)
  {
    hide Here, Holds, AdverseHere, PendingHere, Count, Sensible;
    if verticals != [] {
      var v := verticals[0];
      SensibleCons(verticals);
      ExpectedVerticals(verticals[1..], adverse - AdverseHere(v, adverse), pending - PendingHere(v, adverse, pending), key);
      HereCounts(v, adverse, pending, key);
    }
  }

  lemma {:induction false} UniqueKeySums(verticals: seq<Vertical>, key: string)
    requires Unique(Keys(verticals))
    ensures key !in Keys(verticals) ==> EventsWith(verticals, key) == 0 && ResolvedWith(verticals, key) == 0
    ensures forall v | v in verticals && v.key == key ::
              EventsWith(verticals, key) == v.events && ResolvedWith(verticals, key) == v.autoResolved
  {
    if verticals != [] {
      UniqueKeySums(verticals[1..], key);
      KeysHold(verticals[1..]);
      assert Keys(verticals)[0] == verticals[0].key && Keys(verticals)[1..] == Keys(verticals[1..]);
    }
  }

  // ---------------------------------------------------------------- labels

  /** The same events with other tiers and markers. */
  function Relabel(pop: seq<Event>, tiers: seq<Option<string>>, marks: seq<bool>): (r: seq<Event>)
    requires |tiers| == |marks| == |pop|
    ensures |r| == |pop|
  {
    if pop == [] then []
    else [pop[0].(tier := tiers[0], declared := marks[0])] + Relabel(pop[1..], tiers[1..], marks[1..])
  }

  lemma {:induction false} RelabelKeeps(pop: seq<Event>, tiers: seq<Option<string>>, marks: seq<bool>, q: Query)
    requires |tiers| == |marks| == |pop| && (q.InVertical? || q.ResolvedIn? || q.Ended?)
    ensures Count(Relabel(pop, tiers, marks), q) == Count(pop, q)
    ensures (forall e | e in Relabel(pop, tiers, marks) :: exists d | d in pop :: d.vertical == e.vertical)
  {
    if pop != [] {
      RelabelKeeps(pop[1..], tiers[1..], marks[1..], q);
      assert pop[0] in pop;
    }
  }

  function Ones<T(==)>(xs: seq<T>, x: T): nat {
    if xs == [] then 0 else (if xs[0] == x then 1 else 0) + Ones(xs[1..], x)
  }

  lemma {:induction false} RelabelCounts(pop: seq<Event>, tiers: seq<Option<string>>, marks: seq<bool>, name: string, declared: bool)
    requires |tiers| == |marks| == |pop|
    ensures Count(Relabel(pop, tiers, marks), InTier(name)) == Ones(tiers, Some(name))
    ensures Count(Relabel(pop, tiers, marks), Marked(declared)) == Ones(marks, declared)
  {
    if pop != [] { RelabelCounts(pop[1..], tiers[1..], marks[1..], name, declared); }
  }

  function Repeat<T>(x: T, n: nat): (xs: seq<T>)
    ensures |xs| == n
  {
    if n == 0 then [] else [x] + Repeat(x, n - 1)
  }

  lemma {:induction false} OnesRepeat<T>(x: T, n: nat, y: T)
    ensures Ones(Repeat(x, n), y) == if x == y then n else 0
  {
    if n > 0 {
      OnesRepeat(x, n - 1, y);
      assert Repeat(x, n)[1..] == Repeat(x, n - 1);
    }
  }

  lemma {:induction false} OnesAppend<T>(a: seq<T>, b: seq<T>, x: T)
    ensures Ones(a + b, x) == Ones(a, x) + Ones(b, x)
  {
    if a == [] {
      assert a + b == b;
    } else {
      OnesAppend(a[1..], b, x);
      assert (a + b)[1..] == a[1..] + b;
    }
  }

  function MarkLabels(declared: nat, unknown: nat): (marks: seq<bool>)
    ensures |marks| == declared + unknown
  {
    Repeat(true, declared) + Repeat(false, unknown)
  }

  lemma MarkLabelCounts(declared: nat, unknown: nat)
    ensures Ones(MarkLabels(declared, unknown), true) == declared
    ensures Ones(MarkLabels(declared, unknown), false) == unknown
  {
    forall b: bool ensures Ones(MarkLabels(declared, unknown), b) == if b then declared else unknown {
      OnesAppend(Repeat(true, declared), Repeat(false, unknown), b);
      OnesRepeat(true, declared, b);
      OnesRepeat(false, unknown, b);
    }
  }

  function CountOf(counts: map<string, nat>, key: string): nat {
    if key in counts then counts[key] else 0
  }

  function TierLabels(counts: map<string, nat>, size: nat): (tiers: seq<Option<string>>)
    requires SumCounts(counts, TIERS) <= size
    ensures |tiers| == size
  {
    TierSum(counts);
    var a, b, c := CountOf(counts, "t0"), CountOf(counts, "t1"), CountOf(counts, "t2");
    Repeat(Some("t0"), a) + Repeat(Some("t1"), b) + Repeat(Some("t2"), c) + Repeat(None, size - a - b - c)
  }

  lemma TierLabelCounts(counts: map<string, nat>, size: nat, t: string)
    requires SumCounts(counts, TIERS) <= size && t in TIER_KEYS
    ensures Ones(TierLabels(counts, size), Some(t)) == CountOf(counts, t)
  {
    TierSum(counts);
    var a, b, c := CountOf(counts, "t0"), CountOf(counts, "t1"), CountOf(counts, "t2");
    var x, y, z, n := Repeat(Some("t0"), a), Repeat(Some("t1"), b), Repeat(Some("t2"), c), Repeat(None, size - a - b - c);
    OnesAppend(x + y + z, n, Some(t));
    OnesAppend(x + y, z, Some(t));
    OnesAppend(x, y, Some(t));
    OnesRepeat(Some("t0"), a, Some(t));
    OnesRepeat(Some("t1"), b, Some(t));
    OnesRepeat(Some("t2"), c, Some(t));
    OnesRepeat(None, size - a - b - c, Some(t));
    assert "t0" != "t1" && "t0" != "t2" && "t1" != "t2" by {
      assert "t0"[1] == '0' && "t1"[1] == '1' && "t2"[1] == '2';
    }
  }

  // ---------------------------------------------------------------- the theorem

  /** The population the proof of completeness builds for an accepted measurement. */
  ghost function Witness(m: Measurement): seq<Event>
    requires Check(m).None?
  {
    CheckGrouped(m);
    var base := Build(m.verticals, m.adverse, m.pending);
    assert |base| == m.sampleSize by { BuildIsExpected(m.verticals, m.adverse, m.pending, Ended(Other)); }
    var tiers := if m.tierCounts.Some? then TierLabels(m.tierCounts.value, m.sampleSize) else Repeat(None, m.sampleSize);
    var marks := if m.markers.Some? then MarkLabels(m.markers.value.declaredNonSynthetic, m.markers.value.unknown)
                 else Repeat(true, m.sampleSize);
    Relabel(base, tiers, marks)
  }

  lemma WitnessVerticals(m: Measurement)
    requires Check(m).None?
    ensures var pop := Witness(m);
            && |pop| == m.sampleSize
            && VerticalsProduced(pop, m.verticals)
            && Count(pop, Ended(Resolved)) == SumResolved(m.verticals)
            && Count(pop, Ended(Adverse)) == m.adverse
            && Count(pop, Ended(Pending)) == m.pending
  {
    CheckGrouped(m);
    var base := Build(m.verticals, m.adverse, m.pending);
    BuildIsExpected(m.verticals, m.adverse, m.pending, Ended(Resolved));
    var tiers := if m.tierCounts.Some? then TierLabels(m.tierCounts.value, m.sampleSize) else Repeat(None, m.sampleSize);
    var marks := if m.markers.Some? then MarkLabels(m.markers.value.declaredNonSynthetic, m.markers.value.unknown)
                 else Repeat(true, m.sampleSize);
    RelabelBuilds(m.verticals, m.adverse, m.pending, tiers, marks);
  }

  /** The events built for the verticals, with any labels, are what the verticals say. */
  lemma RelabelBuilds(verticals: seq<Vertical>, adverse: nat, pending: nat, tiers: seq<Option<string>>, marks: seq<bool>)
    requires VerticalsAccepted(verticals) && adverse + pending <= SumEvents(verticals) - SumResolved(verticals)
    requires |tiers| == |marks| == |Build(verticals, adverse, pending)|
    ensures var pop := Relabel(Build(verticals, adverse, pending), tiers, marks);
            && VerticalsProduced(pop, verticals)
            && Count(pop, Ended(Resolved)) == SumResolved(verticals)
            && Count(pop, Ended(Adverse)) == adverse
            && Count(pop, Ended(Pending)) == pending
  {
    hide Build, Relabel, Count, Holds, Expected, Keys, Unique, Sensible, SumEvents, SumResolved;
    var base := Build(verticals, adverse, pending);
    ExpectedOutcomes(verticals, adverse, pending);
    BuildIsExpected(verticals, adverse, pending, Ended(Resolved));
    BuildIsExpected(verticals, adverse, pending, Ended(Adverse));
    BuildIsExpected(verticals, adverse, pending, Ended(Pending));
    RelabelKeeps(base, tiers, marks, Ended(Resolved));
    RelabelKeeps(base, tiers, marks, Ended(Adverse));
    RelabelKeeps(base, tiers, marks, Ended(Pending));
    BuildStaysInside(verticals, adverse, pending);
    forall v | v in verticals
      ensures v.events == Count(Relabel(base, tiers, marks), InVertical(v.key))
      ensures v.autoResolved == Count(Relabel(base, tiers, marks), ResolvedIn(v.key))
    {
      BuildIsExpected(verticals, adverse, pending, InVertical(v.key));
      BuildIsExpected(verticals, adverse, pending, ResolvedIn(v.key));
      ExpectedVerticals(verticals, adverse, pending, v.key);
      UniqueKeySums(verticals, v.key);
      RelabelKeeps(base, tiers, marks, InVertical(v.key));
      RelabelKeeps(base, tiers, marks, ResolvedIn(v.key));
    }
  }

  lemma WitnessLabels(m: Measurement)
    requires Check(m).None?
    ensures var pop := Witness(m);
            && (m.tierCounts.Some? ==> TiersProduced(pop, m.tierCounts.value))
            && (m.markers.Some? ==>
                  && m.markers.value.declaredNonSynthetic == Count(pop, Marked(true))
                  && m.markers.value.unknown == Count(pop, Marked(false)))
  {
    CheckGrouped(m);
    var base := Build(m.verticals, m.adverse, m.pending);
    BuildIsExpected(m.verticals, m.adverse, m.pending, Ended(Resolved));
    var tiers := if m.tierCounts.Some? then TierLabels(m.tierCounts.value, m.sampleSize) else Repeat(None, m.sampleSize);
    var marks := if m.markers.Some? then MarkLabels(m.markers.value.declaredNonSynthetic, m.markers.value.unknown)
                 else Repeat(true, m.sampleSize);
    RelabelCounts(base, tiers, marks, "t0", true);
    RelabelCounts(base, tiers, marks, "t0", false);
    if m.tierCounts.Some? {
      forall t | t in TIER_KEYS ensures Count(Witness(m), InTier(t)) == CountOf(m.tierCounts.value, t) {
        RelabelCounts(base, tiers, marks, t, true);
        TierLabelCounts(m.tierCounts.value, m.sampleSize, t);
      }
    }
    if m.markers.Some? {
      MarkLabelCounts(m.markers.value.declaredNonSynthetic, m.markers.value.unknown);
    }
  }

  /** A measurement is accepted exactly when some population of events produces it. */
  lemma {:induction false} AcceptedIffProduced(m: Measurement)
    ensures Check(m).None? <==> exists pop :: Produces(pop, m)
  {
    if Check(m).None? {
      CheckGrouped(m);
      WitnessVerticals(m);
      WitnessLabels(m);
      ProducedVerticals(Witness(m), m.verticals);
      RatiosAgree(Witness(m), m);
      assert Produces(Witness(m), m);
    }
    forall pop | Produces(pop, m) ensures Check(m).None? {
      ProducedIsAccepted(pop, m);
    }
  }

  // ---------------------------------------------------------------- what a refusal says

  /** A refusal names a check that really fails. */
  lemma {:induction false} FaultIsReal(m: Measurement)
    requires Check(m).Some?
    ensures match Check(m).value
            case MarkersDoNotAddUp =>
              m.markers.Some? && m.markers.value.declaredNonSynthetic + m.markers.value.unknown != m.sampleSize
            case MarkerGapInconsistent => m.unknownMarkerGap <==> !(m.markers.Some? && m.markers.value.unknown > 0)
            case UnknownVertical => exists v | v in m.verticals :: v.key !in {"resilience", "change_safety", "cost", "unattributed"}
            case RepeatedVertical =>
              exists i, j | 0 <= i < j < |m.verticals| :: m.verticals[i].key == m.verticals[j].key
            case ResolvedExceedsEvents => exists v | v in m.verticals :: v.autoResolved > v.events
            case AttributionInconsistent =>
              || SumEvents(m.verticals) != m.sampleSize || m.attributed + m.unattributed != m.sampleSize
              || SumEvents(Unattributed(m.verticals)) != m.unattributed
              || (m.coverage.None? <==> m.sampleSize > 0)
              || (m.coverage.Some? && !IsShareOf(m.coverage.value, m.attributed, m.sampleSize))
            case FinalizationInconsistent => m.adverse > m.finalized || m.finalized + m.pending > m.attributed + m.unattributed
            case OutcomesInconsistent => SumResolved(m.verticals) + m.adverse != m.finalized
            case RateInconsistent =>
              m.autoResolution.Some?
              && (m.sampleSize == 0 || !IsShareOf(m.autoResolution.value, SumResolved(m.verticals), m.sampleSize))
            case MixInconsistent =>
              || !(m.mix.Keys <= {"t0", "t1", "t2"})
              || (exists t | t in m.mix :: m.mix[t] < 0.0 || m.mix[t] > 1.0)
              || MixOf(m.mix, "t0") + MixOf(m.mix, "t1") + MixOf(m.mix, "t2") > 1.000000000001
            case TierCountsInconsistent =>
              m.tierCounts.Some? && var counts := m.tierCounts.value;
              || SumCounts(counts, TIERS) > m.sampleSize
              || counts.Keys != m.mix.Keys
              || (exists t | t in counts :: counts[t] == 0 || m.sampleSize == 0 || !IsShareOf(m.mix[t], counts[t], m.sampleSize))
  {
    hide SumEvents, SumResolved, Unattributed, SumCounts, SumShares, Close, IsShareOf, Keys, Unique;
    MixSum(m.mix);
    if Check(m) == Some(RepeatedVertical) {
      RepeatedKeys(m.verticals);
    }
    if m.sampleSize > 0 {
      if m.coverage.Some? { CloseIsShare(m.coverage.value, m.attributed, m.sampleSize); }
      if m.autoResolution.Some? { CloseIsShare(m.autoResolution.value, SumResolved(m.verticals), m.sampleSize); }
      forall t, n: nat | t in m.mix ensures Close(m.mix[t], n, m.sampleSize) <==> IsShareOf(m.mix[t], n, m.sampleSize) {
        CloseIsShare(m.mix[t], n, m.sampleSize);
      }
    }
  }

  lemma {:induction false} RepeatedKeys(verticals: seq<Vertical>)
    requires !Unique(Keys(verticals))
    ensures exists i, j | 0 <= i < j < |verticals| :: verticals[i].key == verticals[j].key
  {
    var rest := verticals[1..];
    KeysHold(rest);
    if verticals[0].key in Keys(rest) {
      var k :| 0 <= k < |rest| && Keys(rest)[k] == verticals[0].key;
      assert verticals[0].key == verticals[k + 1].key;
    } else {
      RepeatedKeys(rest);
      var i, j :| 0 <= i < j < |rest| && rest[i].key == rest[j].key;
      assert verticals[i + 1].key == verticals[j + 1].key;
    }
  }
}
