/**
 The cross-checks on published incident metrics: cohort counts, the incidents listed for
 each cohort, and which lists are truncated. A population of incidents is what they summarise.
 */
module IncidentMetrics {
  import opened Wrappers
  import opened JsText
  import opened Sequences

  const COHORTS: nat := 5
  const MAX_REFS: nat := 200

  /** The lists have one entry per cohort, in the order the source checks them. */
  datatype Metrics = Metrics(
    counts: seq<nat>, drilldown: seq<seq<string>>, truncated: seq<bool>, denominator: nat, matchedTotal: Option<nat>)

  datatype Error = BadRefs(cohort: nat) | Repeated | CountsOff | Exceeds(cohort: nat) | Incomplete(cohort: nat) | MatchedTooFew

  predicate Shaped(m: Metrics) {
    |m.counts| == |m.drilldown| == |m.truncated| == COHORTS
  }

  // ---------------------------------------------------------------- the checks

  predicate GoodRefs(refs: seq<string>) {
    |refs| <= MAX_REFS && forall r | r in refs :: Trim(r) != ""
  }

  function Sum(counts: seq<nat>): nat {
    if counts == [] then 0 else counts[0] + Sum(counts[1..])
  }

  function Flat(lists: seq<seq<string>>): seq<string> {
    if lists == [] then [] else lists[0] + Flat(lists[1..])
  }

  ghost predicate CountsFit(m: Metrics, c: nat)
    requires Shaped(m) && c < COHORTS
  {
    |m.drilldown[c]| <= m.counts[c] && (!m.truncated[c] ==> |m.drilldown[c]| == m.counts[c])
  }

  /** A given matched total covers at least the measured incidents. */
  predicate MatchedFits(m: Metrics) {
    m.matchedTotal.Some? ==> m.denominator <= m.matchedTotal.value
  }

  /** What accepted metrics satisfy. */
  ghost predicate Consistent(m: Metrics)
    requires Shaped(m)
  {
    && (forall c | 0 <= c < COHORTS :: GoodRefs(m.drilldown[c]))
    && Distinct(Flat(m.drilldown))
    && Sum(m.counts) == m.denominator
    && (forall c | 0 <= c < COHORTS :: CountsFit(m, c))
    && MatchedFits(m)
  }

  /** The first error of the loop over the lists, given the references already seen. */
  ghost function RefsError(lists: seq<seq<string>>, c: nat, seen: seq<string>): Option<Error>
    requires c <= |lists|
    decreases |lists| - c
  {
    if c == |lists| then None
    else if !GoodRefs(lists[c]) then Some(BadRefs(c))
    else if !Distinct(seen + lists[c]) then Some(Repeated)
    else RefsError(lists, c + 1, seen + lists[c])
  }

  ghost function CountsError(m: Metrics, c: nat): Option<Error>
    requires Shaped(m) && c <= COHORTS
    decreases COHORTS - c
  {
    if c == COHORTS then None
    else if |m.drilldown[c]| > m.counts[c] then Some(Exceeds(c))
    else if !m.truncated[c] && |m.drilldown[c]| != m.counts[c] then Some(Incomplete(c))
    else CountsError(m, c + 1)
  }

  ghost function Check(m: Metrics): Option<Error>
    requires Shaped(m)
  {
    var refs := RefsError(m.drilldown, 0, []);
    if refs.Some? then refs
    else if Sum(m.counts) != m.denominator then Some(CountsOff)
    else
      var counts := CountsError(m, 0);
      if counts.Some? then counts
      else if !MatchedFits(m) then Some(MatchedTooFew)
      else None
  }

  // ---------------------------------------------------------------- the code

  lemma SplitAgain(all: seq<string>, ref: string)
    requires Distinct(all)
    ensures Distinct(all + [ref]) <==> ref !in all
  {
    if ref in all {
      var i :| 0 <= i < |all| && all[i] == ref;
      assert (all + [ref])[i] == (all + [ref])[|all|];
    }
  }

  lemma PrefixDistinct(a: seq<string>, b: seq<string>)
    requires Distinct(a + b)
    ensures Distinct(a)
  {
    assert forall i | 0 <= i < |a| :: (a + b)[i] == a[i];
  }

  /** The references of one cohort against the set of all seen before. */
  method AddRefs(seen: set<string>, refs: seq<string>, ghost before: seq<string>) returns (ok: bool, now: set<string>)
    requires Distinct(before) && seen == Elements(before)
    ensures ok <==> Distinct(before + refs)
    ensures ok ==> now == Elements(before + refs)
  {
    now := seen;
    assert before + [] == before;
    for i := 0 to |refs|
      invariant Distinct(before + refs[..i]) && now == Elements(before + refs[..i])
    {
      var all := before + refs[..i];
      SplitAgain(all, refs[i]);
      assert before + refs[..i + 1] == all + [refs[i]];
      if refs[i] in now {
        if Distinct(before + refs) {
          assert before + refs == (all + [refs[i]]) + refs[i + 1..];
          PrefixDistinct(all + [refs[i]], refs[i + 1..]);
        }
        return false, now;
      }
      now := now + {refs[i]};
      assert Elements(all + [refs[i]]) == Elements(all) + {refs[i]};
    }
    assert refs[..|refs|] == refs;
    return true, now;
  }

  method CheckRefs(lists: seq<seq<string>>) returns (error: Option<Error>)
    ensures error == RefsError(lists, 0, [])
  {
    var seen: set<string> := {};
    ghost var before: seq<string> := [];
    for c := 0 to |lists|
      invariant Distinct(before) && seen == Elements(before)
      invariant RefsError(lists, 0, []) == RefsError(lists, c, before)
    {
      if !GoodRefs(lists[c]) { return Some(BadRefs(c)); }
      var ok, now := AddRefs(seen, lists[c], before);
      if !ok { return Some(Repeated); }
      seen := now;
      before := before + lists[c];
    }
    return None;
  }

  method DecodeIncidentMetrics(m: Metrics) returns (error: Option<Error>)
    requires Shaped(m)
    ensures error == Check(m)
  {
    error := CheckRefs(m.drilldown);
    if error.Some? { return; }
    var sum := 0;
    for i := 0 to |m.counts|
      invariant sum + Sum(m.counts[i..]) == Sum(m.counts)
    {
      sum := sum + m.counts[i];
    }
    if sum != m.denominator { return Some(CountsOff); }
    for c := 0 to COHORTS
      invariant CountsError(m, 0) == CountsError(m, c)
    {
      if |m.drilldown[c]| > m.counts[c] { return Some(Exceeds(c)); }
      if !m.truncated[c] && |m.drilldown[c]| != m.counts[c] { return Some(Incomplete(c)); }
    }
    if m.matchedTotal.Some? && m.matchedTotal.value < m.denominator { return Some(MatchedTooFew); }
    return None;
  }

  // ---------------------------------------------------------------- acceptance

  lemma {:induction false} RefsErrorIff(lists: seq<seq<string>>, c: nat, seen: seq<string>)
    requires c <= |lists| && Distinct(seen)
    ensures RefsError(lists, c, seen).None?
            <==> (forall i | c <= i < |lists| :: GoodRefs(lists[i])) && Distinct(seen + Flat(lists[c..]))
    decreases |lists| - c
  {
    if c == |lists| {
      assert seen + Flat(lists[c..]) == seen;
    } else {
      assert lists[c..][1..] == lists[c + 1..];
      assert seen + Flat(lists[c..]) == (seen + lists[c]) + Flat(lists[c + 1..]);
      if Distinct(seen + lists[c]) {
        RefsErrorIff(lists, c + 1, seen + lists[c]);
      } else if Distinct(seen + Flat(lists[c..])) {
        PrefixDistinct(seen + lists[c], Flat(lists[c + 1..]));
      }
    }
  }

  lemma {:induction false} CountsErrorIff(m: Metrics, c: nat)
    requires Shaped(m) && c <= COHORTS
    ensures CountsError(m, c).None? <==> forall i | c <= i < COHORTS :: CountsFit(m, i)
    decreases COHORTS - c
  {
    if c < COHORTS {
      CountsErrorIff(m, c + 1);
      assert CountsFit(m, c) <==> |m.drilldown[c]| <= m.counts[c] && (m.truncated[c] || |m.drilldown[c]| == m.counts[c]);
    }
  }

  /** The code accepts exactly the consistent metrics. */
  lemma {:induction false} AcceptedIffConsistent(m: Metrics)
    requires Shaped(m)
    ensures Check(m).None? <==> Consistent(m)
  {
    RefsErrorIff(m.drilldown, 0, []);
    CountsErrorIff(m, 0);
    assert m.drilldown[0..] == m.drilldown && [] + Flat(m.drilldown) == Flat(m.drilldown);
  }

  lemma {:induction false} RefsErrorIsReal(lists: seq<seq<string>>, c: nat, seen: seq<string>)
    requires c <= |lists| && RefsError(lists, c, seen).Some?
    ensures match RefsError(lists, c, seen).value
            case BadRefs(k) => c <= k < |lists| && (|lists[k]| > 200 || exists r | r in lists[k] :: Trim(r) == "")
            case Repeated => !Distinct(seen + Flat(lists[c..]))
            case _ => false
    decreases |lists| - c
  {
    if GoodRefs(lists[c]) {
      assert lists[c..][1..] == lists[c + 1..];
      assert seen + Flat(lists[c..]) == (seen + lists[c]) + Flat(lists[c + 1..]);
      if Distinct(seen + lists[c]) {
        RefsErrorIsReal(lists, c + 1, seen + lists[c]);
      } else if Distinct(seen + Flat(lists[c..])) {
        PrefixDistinct(seen + lists[c], Flat(lists[c + 1..]));
      }
    }
  }

  lemma {:induction false} CountsErrorIsReal(m: Metrics, c: nat)
    requires Shaped(m) && c <= COHORTS && CountsError(m, c).Some?
    ensures match CountsError(m, c).value
            case Exceeds(k) => k < COHORTS && |m.drilldown[k]| > m.counts[k]
            case Incomplete(k) => k < COHORTS && !m.truncated[k] && |m.drilldown[k]| < m.counts[k]
            case _ => false
    decreases COHORTS - c
  {
    if |m.drilldown[c]| <= m.counts[c] && (m.truncated[c] || |m.drilldown[c]| == m.counts[c]) {
      CountsErrorIsReal(m, c + 1);
    }
  }

  /** A refusal names a check that really fails, and the cohort it fails for. */
  lemma {:induction false} ErrorIsReal(m: Metrics)
    requires Shaped(m) && Check(m).Some?
    ensures match Check(m).value
            case BadRefs(c) => c < COHORTS && (|m.drilldown[c]| > 200 || exists r | r in m.drilldown[c] :: Trim(r) == "")
            case Repeated => !Distinct(Flat(m.drilldown))
            case CountsOff => Sum(m.counts) != m.denominator
            case Exceeds(c) => c < COHORTS && |m.drilldown[c]| > m.counts[c]
            case Incomplete(c) => c < COHORTS && !m.truncated[c] && |m.drilldown[c]| < m.counts[c]
            case MatchedTooFew => m.matchedTotal.Some? && m.matchedTotal.value < m.denominator
  {
    hide Trim, Sum, Flat, Distinct;
    if RefsError(m.drilldown, 0, []).Some? {
      RefsErrorIsReal(m.drilldown, 0, []);
      assert m.drilldown[0..] == m.drilldown && [] + Flat(m.drilldown) == Flat(m.drilldown);
    } else if CountsError(m, 0).Some? {
      CountsErrorIsReal(m, 0);
    }
  }

  lemma {:induction false} FlatLength(lists: seq<seq<string>>, counts: seq<nat>)
    requires |lists| == |counts| && forall c | 0 <= c < |lists| :: |lists[c]| <= counts[c]
    ensures |Flat(lists)| <= Sum(counts)
    ensures |Flat(lists)| == Sum(counts) <==> forall c | 0 <= c < |lists| :: |lists[c]| == counts[c]
  {
    if lists != [] {
      FlatLength(lists[1..], counts[1..]);
      assert forall c | 1 <= c < |lists| :: lists[c] == lists[1..][c - 1] && counts[c] == counts[1..][c - 1];
    }
  }

  /**
   The listed incidents are all different and at most the denominator, and exactly it when
   no list is truncated; a cohort of more than 200 is always marked truncated.
   */
  lemma {:induction false} AcceptedListsAreBounded(m: Metrics)
    requires Shaped(m) && Check(m).None?
    ensures |Elements(Flat(m.drilldown))| == |Flat(m.drilldown)| <= m.denominator
    ensures (forall c | 0 <= c < COHORTS :: !m.truncated[c]) ==> |Flat(m.drilldown)| == m.denominator
    ensures forall c | 0 <= c < COHORTS && m.counts[c] > MAX_REFS :: m.truncated[c]
  {
    AcceptedIffConsistent(m);
    forall c | 0 <= c < COHORTS ensures CountsFit(m, c) && GoodRefs(m.drilldown[c]) {
    }
    FlatLength(m.drilldown, m.counts);
    DistinctSize(Flat(m.drilldown));
  }

  // ---------------------------------------------------------------- the incidents behind the metrics

  datatype Incident = Incident(ref: string, cohort: nat)

  function Refs(incidents: seq<Incident>): (refs: seq<string>)
    ensures |refs| == |incidents| && forall k | 0 <= k < |refs| :: refs[k] == incidents[k].ref
  {
    if incidents == [] then [] else [incidents[0].ref] + Refs(incidents[1..])
  }

  function CountIn(incidents: seq<Incident>, c: nat): nat {
    if incidents == [] then 0 else (if incidents[0].cohort == c then 1 else 0) + CountIn(incidents[1..], c)
  }

  ghost function RefsIn(incidents: seq<Incident>, c: nat): set<string> {
    set i | i in incidents && i.cohort == c :: i.ref
  }

  /** Different incidents have different references, and every incident is in a cohort. */
  ghost predicate Population(incidents: seq<Incident>) {
    Distinct(Refs(incidents)) && forall i | i in incidents :: i.cohort < COHORTS && Trim(i.ref) != ""
  }

  /**
   The metrics summarise the incidents: exact counts, and for each cohort some of its
   incidents, all unless truncated. The incidents are among those matched, if that is given.
   */
  ghost predicate Summarises(m: Metrics, incidents: seq<Incident>)
    requires Shaped(m)
  {
    && m.denominator == |incidents|
    && (m.matchedTotal.Some? ==> |incidents| <= m.matchedTotal.value)
    && (forall c | 0 <= c < COHORTS ::
          && m.counts[c] == CountIn(incidents, c)
          && Distinct(m.drilldown[c]) && |m.drilldown[c]| <= 200
          && Elements(m.drilldown[c]) <= RefsIn(incidents, c)
          && (!m.truncated[c] ==> |m.drilldown[c]| == m.counts[c]))
  }

  lemma {:induction false} RefsAtMostCount(incidents: seq<Incident>, c: nat)
    ensures |RefsIn(incidents, c)| <= CountIn(incidents, c)
  {
    if incidents == [] {
      assert RefsIn(incidents, c) == {};
    } else {
      var first, rest := incidents[0], incidents[1..];
      RefsAtMostCount(rest, c);
      assert RefsIn(incidents, c) == RefsIn(rest, c) + if first.cohort == c then {first.ref} else {};
    }
  }

  /** The counts of all cohorts from c on. */
  function CountFrom(incidents: seq<Incident>, c: nat): nat {
    if incidents == [] then 0 else (if c <= incidents[0].cohort < COHORTS then 1 else 0) + CountFrom(incidents[1..], c)
  }

  lemma {:induction false} CountFromStep(incidents: seq<Incident>, c: nat)
    requires c < COHORTS
    ensures CountFrom(incidents, c) == CountIn(incidents, c) + CountFrom(incidents, c + 1)
  {
    if incidents != [] { CountFromStep(incidents[1..], c); }
  }

  lemma {:induction false} CountFromEnds(incidents: seq<Incident>)
    ensures CountFrom(incidents, COHORTS) == 0
    ensures (forall i | i in incidents :: i.cohort < COHORTS) ==> CountFrom(incidents, 0) == |incidents|
  {
    if incidents != [] {
      CountFromEnds(incidents[1..]);
      assert incidents[0] in incidents && forall i | i in incidents[1..] :: i in incidents;
    }
  }

  lemma {:induction false} SumIsCountFrom(incidents: seq<Incident>, counts: seq<nat>, c: nat)
    requires |counts| == COHORTS && c <= COHORTS
    requires forall k | c <= k < COHORTS :: counts[k] == CountIn(incidents, k)
    ensures Sum(counts[c..]) == CountFrom(incidents, c)
    decreases COHORTS - c
  {
    if c == COHORTS {
      CountFromEnds(incidents);
    } else {
      SumIsCountFrom(incidents, counts, c + 1);
      CountFromStep(incidents, c);
      assert counts[c..][1..] == counts[c + 1..];
    }
  }

  ghost function RefsFrom(incidents: seq<Incident>, c: nat): set<string> {
    set i | i in incidents && i.cohort >= c :: i.ref
  }

  lemma OneCohort(incidents: seq<Incident>, i: Incident, j: Incident)
    requires Population(incidents) && i in incidents && j in incidents && i.ref == j.ref
    ensures i == j
  {
    hide Trim, Refs;
    var a :| 0 <= a < |incidents| && incidents[a] == i;
    var b :| 0 <= b < |incidents| && incidents[b] == j;
    assert Refs(incidents)[a] == Refs(incidents)[b];
  }

  lemma CohortsApart(incidents: seq<Incident>, c: nat)
    requires Population(incidents)
    ensures RefsIn(incidents, c) !! RefsFrom(incidents, c + 1)
  {
    forall r | r in RefsIn(incidents, c) ensures r !in RefsFrom(incidents, c + 1) {
      var i :| i in incidents && i.ref == r && i.cohort == c;
      forall j | j in incidents && j.ref == r ensures j == i {
        OneCohort(incidents, i, j);
      }
    }
  }

  lemma DistinctConcat(a: seq<string>, b: seq<string>)
    requires Distinct(a) && Distinct(b) && Elements(a) !! Elements(b)
    ensures Distinct(a + b)
  {
    forall x, y | 0 <= x < |a| && 0 <= y < |b| ensures a[x] != b[y] {
      assert a[x] in Elements(a) && b[y] in Elements(b);
    }
  }

  lemma {:induction false} ListsAreDistinct(incidents: seq<Incident>, lists: seq<seq<string>>, c: nat)
    requires Population(incidents) && |lists| == COHORTS && c <= COHORTS
    requires forall k | c <= k < COHORTS :: Distinct(lists[k]) && Elements(lists[k]) <= RefsIn(incidents, k)
    ensures Distinct(Flat(lists[c..])) && Elements(Flat(lists[c..])) <= RefsFrom(incidents, c)
    decreases COHORTS - c
  {
    hide Population, Distinct;
    if c == COHORTS {
      assert Distinct<string>([]) by { NothingDistinct(); }
    } else {
      ListsAreDistinct(incidents, lists, c + 1);
      assert lists[c..][1..] == lists[c + 1..];
      var own, rest := lists[c], Flat(lists[c + 1..]);
      CohortsApart(incidents, c);
      DistinctConcat(own, rest);
      assert Elements(own + rest) == Elements(own) + Elements(rest);
      assert RefsIn(incidents, c) <= RefsFrom(incidents, c) && RefsFrom(incidents, c + 1) <= RefsFrom(incidents, c);
    }
  }

  lemma NothingDistinct()
    ensures Distinct<string>([])
  {
  }

  /** Metrics of real incidents are accepted. */
  lemma SummaryIsAccepted(m: Metrics, incidents: seq<Incident>)
    requires Shaped(m) && Population(incidents) && Summarises(m, incidents)
    ensures Check(m).None?
  {
    SumIsCountFrom(incidents, m.counts, 0);
    CountFromEnds(incidents);
    assert m.counts[0..] == m.counts && m.drilldown[0..] == m.drilldown;
    ListsAreDistinct(incidents, m.drilldown, 0);
    forall c | 0 <= c < COHORTS ensures GoodRefs(m.drilldown[c]) && CountsFit(m, c) {
      DistinctSize(m.drilldown[c]);
      RefsAtMostCount(incidents, c);
      SubsetSize(Elements(m.drilldown[c]), RefsIn(incidents, c));
      forall r | r in m.drilldown[c] ensures Trim(r) != "" {
        assert r in Elements(m.drilldown[c]);
      }
    }
    AcceptedIffConsistent(m);
  }

  // ---------------------------------------------------------------- incidents for accepted metrics

  /** A reference longer than every listed one; different numbers give different ones. */
  function Unlisted(longest: nat, k: nat): (r: string)
    ensures |r| == longest + 1 + k && Trim(r) != ""
  {
    var r := seq(longest + 1 + k, _ => 'x');
    TrimKeepsInk(r);
    r
  }

  lemma TrimKeepsInk(r: string)
    requires r != "" && !IsSpace(r[0]) && !IsSpace(r[|r| - 1])
    ensures Trim(r) == r
  {
  }

  function Listed(refs: seq<string>, c: nat): seq<Incident> {
    if refs == [] then [] else [Incident(refs[0], c)] + Listed(refs[1..], c)
  }

  /** An incident for every listed reference, the first list being that of cohort c. */
  function AllListed(lists: seq<seq<string>>, c: nat): seq<Incident> {
    if lists == [] then [] else Listed(lists[0], c) + AllListed(lists[1..], c + 1)
  }

  function Copies(c: nat, n: nat): seq<nat> {
    if n == 0 then [] else [c] + Copies(c, n - 1)
  }

  /** The cohorts of the incidents that are counted and not listed. */
  function Missing(lists: seq<seq<string>>, counts: seq<nat>, c: nat): seq<nat>
    requires |lists| == |counts| && forall i | 0 <= i < |lists| :: |lists[i]| <= counts[i]
  {
    if lists == [] then [] else Copies(c, counts[0] - |lists[0]|) + Missing(lists[1..], counts[1..], c + 1)
  }

  function Others(longest: nat, cohorts: seq<nat>, k: nat): seq<Incident> {
    if cohorts == [] then [] else [Incident(Unlisted(longest, k), cohorts[0])] + Others(longest, cohorts[1..], k + 1)
  }

  lemma {:induction false} CountAppend(a: seq<Incident>, b: seq<Incident>, c: nat)
    ensures CountIn(a + b, c) == CountIn(a, c) + CountIn(b, c)
  {
    if a == [] {
      assert a + b == b;
    } else {
      CountAppend(a[1..], b, c);
      assert (a + b)[1..] == a[1..] + b;
    }
  }

  lemma RefsAppend(a: seq<Incident>, b: seq<Incident>)
    ensures Refs(a + b) == Refs(a) + Refs(b)
  {
  }

  lemma {:induction false} ListedIs(refs: seq<string>, c: nat, q: nat)
    ensures Refs(Listed(refs, c)) == refs
    ensures CountIn(Listed(refs, c), q) == if c == q then |refs| else 0
    ensures forall i | i in Listed(refs, c) :: i.cohort == c
  {
    if refs != [] { ListedIs(refs[1..], c, q); }
  }

  lemma {:induction false} AllListedIs(lists: seq<seq<string>>, c: nat, q: nat)
    ensures Refs(AllListed(lists, c)) == Flat(lists)
    ensures CountIn(AllListed(lists, c), q) == if c <= q < c + |lists| then |lists[q - c]| else 0
    ensures forall i | i in AllListed(lists, c) :: c <= i.cohort < c + |lists|
  {
    hide CountIn, Refs;
    if lists == [] {
      assert CountIn([], q) == 0 && Refs([]) == [] by { NoIncidents(q); }
    } else {
      var own, rest := Listed(lists[0], c), AllListed(lists[1..], c + 1);
      AllListedIs(lists[1..], c + 1, q);
      ListedIs(lists[0], c, q);
      CountAppend(own, rest, q);
      RefsAppend(own, rest);
    }
  }

  lemma {:induction false} AllListedMembers(lists: seq<seq<string>>, c: nat, q: nat)
    requires c <= q < c + |lists|
    ensures forall r | r in lists[q - c] :: Incident(r, q) in AllListed(lists, c)
  {
    ListedMembers(lists[0], c);
    if q > c { AllListedMembers(lists[1..], c + 1, q); }
  }

  lemma NoIncidents(q: nat)
    ensures CountIn([], q) == 0 && Refs([]) == []
  {
  }

  lemma {:induction false} ListedMembers(refs: seq<string>, c: nat)
    ensures forall r | r in refs :: Incident(r, c) in Listed(refs, c)
  {
    if refs != [] { ListedMembers(refs[1..], c); }
  }

  function CountOf(cohorts: seq<nat>, q: nat): nat {
    if cohorts == [] then 0 else (if cohorts[0] == q then 1 else 0) + CountOf(cohorts[1..], q)
  }

  lemma {:induction false} CountOfAppend(a: seq<nat>, b: seq<nat>, q: nat)
    ensures CountOf(a + b, q) == CountOf(a, q) + CountOf(b, q)
  {
    if a == [] {
      assert a + b == b;
    } else {
      CountOfAppend(a[1..], b, q);
      assert (a + b)[1..] == a[1..] + b;
    }
  }

  lemma {:induction false} CopiesIs(c: nat, n: nat, q: nat)
    ensures |Copies(c, n)| == n && CountOf(Copies(c, n), q) == (if c == q then n else 0)
    ensures forall x | x in Copies(c, n) :: x == c
  {
    if n > 0 { CopiesIs(c, n - 1, q); }
  }

  lemma {:induction false} MissingIs(lists: seq<seq<string>>, counts: seq<nat>, c: nat, q: nat)
    requires |lists| == |counts| && forall i | 0 <= i < |lists| :: |lists[i]| <= counts[i]
    ensures CountOf(Missing(lists, counts, c), q) == if c <= q < c + |lists| then counts[q - c] - |lists[q - c]| else 0
    ensures |Missing(lists, counts, c)| + |Flat(lists)| == Sum(counts)
    ensures forall x | x in Missing(lists, counts, c) :: c <= x < c + |lists|
  {
    hide CountOf, Copies;
    if lists == [] {
      assert CountOf([], q) == 0 by { CopiesOfNone(q); }
    } else {
      var n := counts[0] - |lists[0]|;
      assert forall i | 0 <= i < |lists[1..]| :: |lists[1..][i]| <= counts[1..][i];
      MissingIs(lists[1..], counts[1..], c + 1, q);
      CopiesIs(c, n, q);
      CountOfAppend(Copies(c, n), Missing(lists[1..], counts[1..], c + 1), q);
    }
  }

  lemma CopiesOfNone(q: nat)
    ensures CountOf([], q) == 0
  {
  }

  lemma {:induction false} OthersIs(longest: nat, cohorts: seq<nat>, k: nat, q: nat)
    ensures CountIn(Others(longest, cohorts, k), q) == CountOf(cohorts, q)
    ensures |Others(longest, cohorts, k)| == |cohorts|
    ensures forall i | i in Others(longest, cohorts, k) :: i.cohort in cohorts && Trim(i.ref) != ""
  {
    hide Unlisted, Trim;
    if cohorts != [] { OthersIs(longest, cohorts[1..], k + 1, q); }
  }

  lemma {:induction false} OthersDiffer(longest: nat, cohorts: seq<nat>, k: nat)
    ensures forall r | r in Refs(Others(longest, cohorts, k)) :: |r| >= longest + 1 + k
    ensures Distinct(Refs(Others(longest, cohorts, k)))
  {
    hide Unlisted, Refs, Distinct, Trim;
    if cohorts == [] {
      NoIncidents(0);
      NothingDistinct();
    } else {
      OthersDiffer(longest, cohorts[1..], k + 1);
      RefsCons(Incident(Unlisted(longest, k), cohorts[0]), Others(longest, cohorts[1..], k + 1));
      NewFirst(Unlisted(longest, k), Refs(Others(longest, cohorts[1..], k + 1)));
    }
  }

  lemma RefsCons(i: Incident, rest: seq<Incident>)
    ensures Refs([i] + rest) == [i.ref] + Refs(rest)
  {
    assert ([i] + rest)[1..] == rest;
  }

  lemma NewFirst(first: string, rest: seq<string>)
    requires Distinct(rest) && first !in rest
    ensures Distinct([first] + rest)
  {
    assert forall i | 0 <= i < |rest| :: rest[i] in rest;
  }

  lemma {:induction false} Longest(refs: seq<string>) returns (n: nat)
    ensures forall r | r in refs :: |r| <= n
  {
    n := 0;
    if refs != [] {
      var rest := Longest(refs[1..]);
      n := if |refs[0]| > rest then |refs[0]| else rest;
    }
  }

  lemma {:induction false} OwnList(lists: seq<seq<string>>, c: nat)
    requires Distinct(Flat(lists)) && c < |lists|
    ensures Distinct(lists[c])
    ensures forall r | r in lists[c] :: r in Flat(lists)
  {
    var own, rest := lists[0], Flat(lists[1..]);
    assert forall i | 0 <= i < |own| :: (own + rest)[i] == own[i];
    assert forall i | 0 <= i < |rest| :: (own + rest)[|own| + i] == rest[i];
    if c > 0 { OwnList(lists[1..], c - 1); }
  }

  lemma {:induction false} InSomeList(lists: seq<seq<string>>, r: string)
    requires r in Flat(lists)
    ensures exists c | 0 <= c < |lists| :: r in lists[c]
  {
    if r !in lists[0] {
      InSomeList(lists[1..], r);
      var c :| 0 <= c < |lists[1..]| && r in lists[1..][c];
      assert r in lists[c + 1];
    }
  }

  /** The incidents built for consistent metrics. */
  ghost function Witness(m: Metrics, longest: nat): seq<Incident>
    requires Shaped(m) && forall c | 0 <= c < COHORTS :: |m.drilldown[c]| <= m.counts[c]
  {
    AllListed(m.drilldown, 0) + Others(longest, Missing(m.drilldown, m.counts, 0), 0)
  }

  lemma WitnessIsPopulation(m: Metrics, longest: nat)
    requires Shaped(m) && Consistent(m) && (forall r | r in Flat(m.drilldown) :: |r| <= longest)
    requires forall c | 0 <= c < COHORTS :: |m.drilldown[c]| <= m.counts[c]
    ensures Population(Witness(m, longest))
  {
    hide Trim, Unlisted, Refs, CountIn, CountOf, Missing, Sum, Flat, CountsFit, AllListed, Others, Distinct;
    var listed, others := AllListed(m.drilldown, 0), Others(longest, Missing(m.drilldown, m.counts, 0), 0);
    AllListedIs(m.drilldown, 0, 0);
    MissingIs(m.drilldown, m.counts, 0, 0);
    OthersIs(longest, Missing(m.drilldown, m.counts, 0), 0, 0);
    OthersDiffer(longest, Missing(m.drilldown, m.counts, 0), 0);
    RefsAppend(listed, others);
    DistinctConcat(Refs(listed), Refs(others));
    forall i | i in listed ensures Trim(i.ref) != "" {
      var k :| 0 <= k < |listed| && listed[k] == i;
      assert Refs(listed)[k] == i.ref;
      InSomeList(m.drilldown, i.ref);
    }
  }

  /** What the metrics say of one cohort is true of the witness. */
  lemma WitnessCohort(m: Metrics, longest: nat, c: nat)
    requires Shaped(m) && c < COHORTS && Distinct(Flat(m.drilldown))
    requires forall k | 0 <= k < COHORTS :: |m.drilldown[k]| <= m.counts[k]
    ensures m.counts[c] == CountIn(Witness(m, longest), c) && |Witness(m, longest)| == Sum(m.counts)
    ensures Distinct(m.drilldown[c]) && Elements(m.drilldown[c]) <= RefsIn(Witness(m, longest), c)
  {
    hide Unlisted, Refs, CountIn, CountOf, Missing, Sum, Flat, AllListed, Others, Distinct;
    var missing := Missing(m.drilldown, m.counts, 0);
    var listed, others := AllListed(m.drilldown, 0), Others(longest, missing, 0);
    AllListedIs(m.drilldown, 0, c);
    MissingIs(m.drilldown, m.counts, 0, c);
    OthersIs(longest, missing, 0, c);
    assert |listed| == |Refs(listed)|;
    CountAppend(listed, others, c);
    OwnList(m.drilldown, c);
    AllListedMembers(m.drilldown, 0, c);
    forall r | r in m.drilldown[c] ensures r in RefsIn(listed + others, c) {
      assert Incident(r, c) in listed + others;
    }
  }

  /** The checks accept exactly what some incidents can have produced. */
  lemma {:induction false} AcceptedIffSummary(m: Metrics)
    requires Shaped(m)
    ensures Check(m).None? <==> exists incidents :: Population(incidents) && Summarises(m, incidents)
  {
    hide Check, Population, Witness, Flat, CountIn, RefsIn, Sum, Distinct;
    if incidents :| Population(incidents) && Summarises(m, incidents) {
      SummaryIsAccepted(m, incidents);
    }
    if Check(m).None? {
      AcceptedIffConsistent(m);
      forall c | 0 <= c < COHORTS ensures CountsFit(m, c) && GoodRefs(m.drilldown[c]) {
      }
      var longest := Longest(Flat(m.drilldown));
      WitnessIsPopulation(m, longest);
      forall c | 0 <= c < COHORTS
        ensures m.counts[c] == CountIn(Witness(m, longest), c) && |Witness(m, longest)| == Sum(m.counts)
                && Distinct(m.drilldown[c]) && Elements(m.drilldown[c]) <= RefsIn(Witness(m, longest), c)
      {
        WitnessCohort(m, longest, c);
      }
      assert m.counts[0] == CountIn(Witness(m, longest), 0);
      assert Summarises(m, Witness(m, longest));
    }
  }
}
