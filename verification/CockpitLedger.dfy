/**
 Conservation: after any run the counters, the feed and the resource table are what the
 frames and the reported activities say, although the feed and the table are bounded.
 */
module CockpitLedger {
  import opened Wrappers
  import opened Sequences
  import opened CockpitState
  import opened CockpitHistory

  // ---------------------------------------------------------------- counting in the history

  /** A finished routing to this tier; whatever is no tier counts as unrouted. */
  predicate RoutedTo(f: Frame, tier: string) {
    && f.stage == "route" && f.phase == "done"
    && if f.routedTo in {"t0", "t1", "t2", "abstain"} then tier == f.routedTo else tier == "unrouted"
  }

  function CountRoutes(frames: seq<Frame>, tier: string): nat {
    if frames == [] then 0
    else (if RoutedTo(frames[0], tier) then 1 else 0) + CountRoutes(frames[1..], tier)
  }

  function CountAllRoutes(frames: seq<Frame>): nat {
    if frames == [] then 0 else (if Done(frames[0], "route") then 1 else 0) + CountAllRoutes(frames[1..])
  }

  function CountFailed(frames: seq<Frame>): nat {
    if frames == [] then 0 else (if frames[0].phase == "failed" then 1 else 0) + CountFailed(frames[1..])
  }

  function CountApplied(items: seq<Activity>): nat {
    if items == [] then 0 else (if items[0].kind.AutoApplied? then 1 else 0) + CountApplied(items[1..])
  }

  function CountAwaiting(items: seq<Activity>): nat {
    if items == [] then 0 else (if items[0].kind.Awaiting? then 1 else 0) + CountAwaiting(items[1..])
  }

  function CountNamed(items: seq<Activity>): nat {
    if items == [] then 0 else (if items[0].resource != UNNAMED then 1 else 0) + CountNamed(items[1..])
  }

  function CountFor(items: seq<Activity>, resource: string): nat {
    if items == [] then 0 else (if items[0].resource == resource then 1 else 0) + CountFor(items[1..], resource)
  }

  function Lookup(counts: map<string, nat>, key: string): nat {
    if key in counts then counts[key] else 0
  }

  // ---------------------------------------------------------------- sums over tables

  ghost function Total(counts: map<string, nat>): nat
    decreases |counts|
  {
    if counts == map[] then 0
    else
      var key :| key in counts;
      assert |counts - {key}| < |counts| by { Smaller(counts, key); }
      counts[key] + Total(counts - {key})
  }

  lemma Smaller(counts: map<string, nat>, key: string)
    requires key in counts
    ensures |counts - {key}| == |counts| - 1
  {
    assert (counts - {key}).Keys == counts.Keys - {key};
  }

  /** The total does not depend on the order in which entries are taken. */
  lemma {:induction false} TotalWithout(counts: map<string, nat>, key: string)
    requires key in counts
    ensures Total(counts) == counts[key] + Total(counts - {key})
    decreases |counts|
  {
    var first :| first in counts && Total(counts) == counts[first] + Total(counts - {first});
    if first != key {
      Smaller(counts, first);
      Smaller(counts, key);
      TotalWithout(counts - {first}, key);
      TotalWithout(counts - {key}, first);
      assert (counts - {first}) - {key} == (counts - {key}) - {first};
    }
  }

  lemma TotalUpdate(counts: map<string, nat>, key: string, n: nat)
    ensures Total(counts[key := n]) + Lookup(counts, key) == Total(counts) + n
  {
    var updated := counts[key := n];
    TotalWithout(updated, key);
    if key in counts {
      TotalWithout(counts, key);
      assert updated - {key} == counts - {key};
    } else {
      assert updated - {key} == counts;
    }
  }

  // ---------------------------------------------------------------- the ledger

  /** The counters that frames drive. */
  ghost predicate FramesCounted(errors: nat, byTier: map<string, nat>, frames: seq<Frame>) {
    && errors == CountFailed(frames)
    && (forall tier :: Lookup(byTier, tier) == CountRoutes(frames, tier))
    && Total(byTier) == CountAllRoutes(frames)
  }

  /** The counters and the feed that reported activities drive. */
  ghost predicate ActivitiesCounted(s: State, items: seq<Activity>) {
    && s.handled == |items|
    && s.activity == LastN(items, MAX_ACTIVITY)
    && s.autoApplied == CountApplied(items)
    && s.awaitingYou == CountAwaiting(items)
  }

  /**
   The resource table: every listed kind has its exact count, the rest is under the overflow
   key, and a kind is missing only once the table is full.
   */
  ghost predicate TableOk(counts: map<string, nat>, items: seq<Activity>) {
    && Total(counts) == CountNamed(items)
    && |counts - {OVERFLOW}| <= MAX_RESOURCE_KINDS
    && UNNAMED !in counts
    && ListedAreExact(counts, items)
    && (|counts| < MAX_RESOURCE_KINDS ==> UnlistedAreUnseen(counts, items))
  }

  ghost predicate ListedAreExact(counts: map<string, nat>, items: seq<Activity>) {
    forall r | r in counts && r != OVERFLOW :: counts[r] == CountFor(items, r)
  }

  ghost predicate UnlistedAreUnseen(counts: map<string, nat>, items: seq<Activity>) {
    forall r | r != UNNAMED && r !in counts :: CountFor(items, r) == 0
  }

  /** The state against the whole history of frames and reported activities. */
  ghost predicate Balanced(s: State, frames: seq<Frame>, items: seq<Activity>) {
    FramesCounted(s.errors, s.byTier, frames) && ActivitiesCounted(s, items) && TableOk(s.resourceCounts, items)
  }

  lemma {:induction false} FramesSnoc(frames: seq<Frame>, f: Frame, tier: string)
    ensures CountRoutes(frames + [f], tier) == CountRoutes(frames, tier) + if Routes(f) && RoutedTier(f) == tier then 1 else 0
    ensures CountAllRoutes(frames + [f]) == CountAllRoutes(frames) + if Routes(f) then 1 else 0
    ensures CountFailed(frames + [f]) == CountFailed(frames) + if f.phase == "failed" then 1 else 0
  {
    if frames != [] {
      FramesSnoc(frames[1..], f, tier);
      assert (frames + [f])[1..] == frames[1..] + [f];
    } else {
      assert (frames + [f])[1..] == [];
    }
  }

  lemma {:induction false} ItemsSnoc(items: seq<Activity>, a: Activity, r: string)
    ensures CountApplied(items + [a]) == CountApplied(items) + if a.kind.AutoApplied? then 1 else 0
    ensures CountAwaiting(items + [a]) == CountAwaiting(items) + if a.kind.Awaiting? then 1 else 0
    ensures CountNamed(items + [a]) == CountNamed(items) + if a.resource != UNNAMED then 1 else 0
    ensures CountFor(items + [a], r) == CountFor(items, r) + if a.resource == r then 1 else 0
  {
    if items != [] {
      ItemsSnoc(items[1..], a, r);
      assert (items + [a])[1..] == items[1..] + [a];
    } else {
      assert (items + [a])[1..] == [];
    }
  }

  lemma CountForSnoc(items: seq<Activity>, a: Activity)
    ensures forall r :: CountFor(items + [a], r) == CountFor(items, r) + if a.resource == r then 1 else 0
  {
    forall r ensures CountFor(items + [a], r) == CountFor(items, r) + if a.resource == r then 1 else 0 {
      ItemsSnoc(items, a, r);
    }
  }

  lemma TableKnown(counts: map<string, nat>, items: seq<Activity>, a: Activity)
    requires TableOk(counts, items) && a.resource in counts
    ensures TableOk(counts[a.resource := counts[a.resource] + 1], items + [a])
  {
    hide Total, ListedAreExact, UnlistedAreUnseen, CountFor, CountApplied, CountAwaiting, CountNamed;
    var after := counts[a.resource := counts[a.resource] + 1];
    KnownStaysExact(counts, items, a);
    ItemsSnoc(items, a, a.resource);
    TotalUpdate(counts, a.resource, counts[a.resource] + 1);
    assert after.Keys == counts.Keys;
    SameKeys(counts, after);
  }

  lemma KnownStaysExact(counts: map<string, nat>, items: seq<Activity>, a: Activity)
    requires ListedAreExact(counts, items) && a.resource in counts && a.resource != UNNAMED
    ensures ListedAreExact(counts[a.resource := counts[a.resource] + 1], items + [a])
    ensures UnlistedAreUnseen(counts, items) ==> UnlistedAreUnseen(counts[a.resource := counts[a.resource] + 1], items + [a])
  {
    hide CountFor;
    CountForSnoc(items, a);
  }

  lemma TableNew(counts: map<string, nat>, items: seq<Activity>, a: Activity)
    requires TableOk(counts, items) && a.resource != UNNAMED && a.resource !in counts && |counts| < MAX_RESOURCE_KINDS
    ensures TableOk(counts[a.resource := 1], items + [a])
  {
    hide Total, ListedAreExact, UnlistedAreUnseen, CountFor, CountApplied, CountAwaiting, CountNamed;
    ItemsSnoc(items, a, a.resource);
    TotalUpdate(counts, a.resource, 1);
    Grow(counts, a.resource, 1);
    NewIsListed(counts, items, a);
  }

  lemma NewIsListed(counts: map<string, nat>, items: seq<Activity>, a: Activity)
    requires ListedAreExact(counts, items) && UnlistedAreUnseen(counts, items)
    requires a.resource != UNNAMED && a.resource !in counts
    ensures ListedAreExact(counts[a.resource := 1], items + [a])
    ensures UnlistedAreUnseen(counts[a.resource := 1], items + [a])
  {
    CountForSnoc(items, a);
  }

  lemma TableFull(counts: map<string, nat>, items: seq<Activity>, a: Activity)
    requires TableOk(counts, items) && a.resource != UNNAMED && a.resource !in counts && |counts| >= MAX_RESOURCE_KINDS
    ensures TableOk(Bump(counts, OVERFLOW), items + [a])
  {
    hide Total, ListedAreExact, UnlistedAreUnseen, CountFor, CountApplied, CountAwaiting, CountNamed;
    FullStaysExact(counts, items, a);
    ItemsSnoc(items, a, a.resource);
    TotalUpdate(counts, OVERFLOW, Lookup(counts, OVERFLOW) + 1);
    assert Bump(counts, OVERFLOW) - {OVERFLOW} == counts - {OVERFLOW};
    Grow(counts, OVERFLOW, Lookup(counts, OVERFLOW) + 1);
  }

  lemma FullStaysExact(counts: map<string, nat>, items: seq<Activity>, a: Activity)
    requires ListedAreExact(counts, items) && a.resource !in counts
    ensures ListedAreExact(Bump(counts, OVERFLOW), items + [a])
  {
    hide CountFor;
    CountForSnoc(items, a);
  }

  lemma TableStep(counts: map<string, nat>, items: seq<Activity>, a: Activity)
    requires TableOk(counts, items)
    ensures TableOk(CountResource(counts, a.resource), items + [a])
  {
    hide TableOk, Total;
    if a.resource == UNNAMED {
      TableUnnamed(counts, items, a);
    } else if a.resource in counts {
      TableKnown(counts, items, a);
    } else if |counts| < MAX_RESOURCE_KINDS {
      TableNew(counts, items, a);
    } else {
      TableFull(counts, items, a);
    }
  }

  lemma TableUnnamed(counts: map<string, nat>, items: seq<Activity>, a: Activity)
    requires TableOk(counts, items) && a.resource == UNNAMED
    ensures TableOk(counts, items + [a])
  {
    ItemsSnoc(items, a, a.resource);
    CountForSnoc(items, a);
  }

  lemma SameKeys(a: map<string, nat>, b: map<string, nat>)
    requires a.Keys == b.Keys
    ensures |a| == |b| && |a - {OVERFLOW}| == |b - {OVERFLOW}|
  {
    assert |a| == |a.Keys| && |b| == |b.Keys|;
    assert (a - {OVERFLOW}).Keys == (b - {OVERFLOW}).Keys;
    assert |a - {OVERFLOW}| == |(a - {OVERFLOW}).Keys|;
  }

  lemma Grow(counts: map<string, nat>, key: string, n: nat)
    ensures var after := counts[key := n];
            && |counts| <= |after|
            && |after - {OVERFLOW}| <= |counts| + (if key == OVERFLOW then 0 else 1)
  {
    var after := counts[key := n];
    assert after.Keys == counts.Keys + {key};
    assert |after| == |after.Keys| && |counts| == |counts.Keys|;
    SubsetSize(counts.Keys, after.Keys);
    assert (after - {OVERFLOW}).Keys == after.Keys - {OVERFLOW};
    assert |after - {OVERFLOW}| == |(after - {OVERFLOW}).Keys|;
    if key == OVERFLOW {
      SubsetSize((after - {OVERFLOW}).Keys, counts.Keys);
    } else {
      SubsetSize((after - {OVERFLOW}).Keys, counts.Keys + {key});
    }
  }

  lemma PushIsLastN<T>(items: seq<T>, x: T, n: nat)
    requires n > 0
    ensures Push(LastN(items, n), x, n) == LastN(items + [x], n)
  {
    LastNPush(items, x, n);
  }

  lemma BeforeAuditFields(s: State, f: Frame)
    ensures var t := BeforeAudit(s, f);
            && t.handled == s.handled && t.activity == s.activity && t.resourceCounts == s.resourceCounts
            && t.autoApplied == s.autoApplied && t.awaitingYou == s.awaitingYou
            && t.errors == s.errors + (if f.phase == "failed" then 1 else 0)
            && t.byTier == if Routes(f) then Bump(s.byTier, RoutedTier(f)) else s.byTier
  {
  }

  lemma FramesStep(errors: nat, byTier: map<string, nat>, frames: seq<Frame>, f: Frame)
    requires FramesCounted(errors, byTier, frames)
    ensures FramesCounted(errors + (if f.phase == "failed" then 1 else 0),
                          if Routes(f) then Bump(byTier, RoutedTier(f)) else byTier, frames + [f])
  {
    hide Total;
    var tier := RoutedTier(f);
    FramesSnoc(frames, f, tier);
    forall t ensures CountRoutes(frames + [f], t) == CountRoutes(frames, t) + if Routes(f) && tier == t then 1 else 0 {
      FramesSnoc(frames, f, t);
    }
    TotalUpdate(byTier, tier, Lookup(byTier, tier) + 1);
  }

  lemma AuditFields(s: State, f: Frame)
    requires Accepts(s, f)
    ensures var t, a := AfterAudit(s, f), ActivityOf(s, f);
            && t.errors == s.errors && t.byTier == s.byTier
            && t.handled == s.handled + 1 && t.activity == Push(s.activity, a, MAX_ACTIVITY)
            && t.autoApplied == s.autoApplied + (if a.kind.AutoApplied? then 1 else 0)
            && t.awaitingYou == s.awaitingYou + (if a.kind.Awaiting? then 1 else 0)
            && t.resourceCounts == CountResource(s.resourceCounts, a.resource)
  {
  }

  lemma ActivityStep(s: State, t: State, a: Activity, items: seq<Activity>)
    requires ActivitiesCounted(s, items)
    requires t.handled == s.handled + 1 && t.activity == Push(s.activity, a, MAX_ACTIVITY)
    requires t.autoApplied == s.autoApplied + (if a.kind.AutoApplied? then 1 else 0)
    requires t.awaitingYou == s.awaitingYou + (if a.kind.Awaiting? then 1 else 0)
    ensures ActivitiesCounted(t, items + [a])
  {
    ItemsSnoc(items, a, a.resource);
    PushIsLastN(items, a, MAX_ACTIVITY);
  }

  function Reported(output: Option<Activity>): seq<Activity> {
    match output case Some(a) => [a] case None => []
  }

  lemma {:induction false} StepBalances(s: State, f: Frame, frames: seq<Frame>, items: seq<Activity>)
    requires Balanced(s, frames, items)
    ensures Balanced(Next(s, f), frames + [f], items + Reported(Output(s, f)))
  {
    var t := BeforeAudit(s, f);
    BeforeAuditFields(s, f);
    FramesStep(s.errors, s.byTier, frames, f);
    if Accepts(t, f) {
      var a := ActivityOf(t, f);
      AuditFields(t, f);
      ActivityStep(t, Next(s, f), a, items);
      TableStep(t.resourceCounts, items, a);
    } else {
      assert items + [] == items;
    }
  }

  lemma OutputsCons(s: State, frames: seq<Frame>)
    requires frames != []
    ensures Outputs(s, frames) == Reported(Output(s, frames[0])) + Outputs(Next(s, frames[0]), frames[1..])
  {
  }

  lemma {:induction false} RunBalances(s: State, done: seq<Frame>, items: seq<Activity>, frames: seq<Frame>)
    requires Balanced(s, done, items)
    ensures Balanced(Run(s, frames), done + frames, items + Outputs(s, frames))
    decreases |frames|
  {
    hide Balanced, Next, Output;
    if frames == [] {
      assert done + frames == done && items + [] == items;
    } else {
      var f, rest, next := frames[0], frames[1..], Next(s, frames[0]);
      StepBalances(s, f, done, items);
      RunBalances(next, done + [f], items + Reported(Output(s, f)), rest);
      OutputsCons(s, frames);
      Regroup(done, f, rest, frames);
      assert (items + Reported(Output(s, f))) + Outputs(next, rest) == items + (Reported(Output(s, f)) + Outputs(next, rest));
    }
  }

  lemma Regroup(done: seq<Frame>, f: Frame, rest: seq<Frame>, frames: seq<Frame>)
    requires frames == [f] + rest
    ensures (done + [f]) + rest == done + frames
  {
  }

  /** Every counter of the cockpit after any run of frames, in terms of those frames and the activities reported. */
  lemma {:induction false} CountersAreConserved(frames: seq<Frame>)
    ensures var s, items := Run(Initial, frames), Outputs(Initial, frames);
            && Balanced(s, frames, items)
            && s.autoApplied + s.awaitingYou <= s.handled
            && |s.resourceCounts| <= 129
            && |s.activity| == if s.handled <= 400 then s.handled else 400
  {
    assert Balanced(Initial, [], []);
    RunBalances(Initial, [], [], frames);
    assert [] + frames == frames && [] + Outputs(Initial, frames) == Outputs(Initial, frames);
    var s, items := Run(Initial, frames), Outputs(Initial, frames);
    AppliedOrAwaiting(items);
    var table := s.resourceCounts;
    assert (table - {OVERFLOW}).Keys == table.Keys - {OVERFLOW};
    assert |table - {OVERFLOW}| == |(table - {OVERFLOW}).Keys| && |table| == |table.Keys|;
    SubsetSize(table.Keys, (table.Keys - {OVERFLOW}) + {OVERFLOW});
  }

  lemma {:induction false} AppliedOrAwaiting(items: seq<Activity>)
    ensures CountApplied(items) + CountAwaiting(items) <= |items|
  {
    if items != [] { AppliedOrAwaiting(items[1..]); }
  }
}
