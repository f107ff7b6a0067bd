/**
 Attribution: the table of pending events drops its oldest entry beyond 1024. Which entry a
 frame keeps, what it then says about its event, and when an audit still finds it.
 */
module CockpitPending {
  import opened Wrappers
  import opened Sequences
  import opened CockpitState
  import opened CockpitHistory
  import opened CockpitVerdicts

  // ---------------------------------------------------------------- positions

  ghost predicate Sound(p: Pending) {
    PendingOk(p) && |p.order| <= MAX_PENDING_EVENTS
  }

  /** How many keys follow `id` in insertion order. */
  function Behind(order: seq<string>, id: string): nat {
    if order == [] then 0
    else if order[0] == id then |order| - 1
    else Behind(order[1..], id)
  }

  lemma {:induction false} AppendBehind(order: seq<string>, x: string, id: string)
    requires id in order
    ensures Behind(order + [x], id) == Behind(order, id) + 1
  {
    if order[0] != id {
      assert (order + [x])[1..] == order[1..] + [x];
      AppendBehind(order[1..], x, id);
    }
  }

  lemma {:induction false} NewIsLast(order: seq<string>, x: string)
    requires x !in order
    ensures Behind(order + [x], x) == 0
  {
    if order != [] {
      assert (order + [x])[1..] == order[1..] + [x];
      assert order[0] != x;
      NewIsLast(order[1..], x);
    }
  }

  lemma {:induction false} BehindBounded(order: seq<string>, id: string)
    requires id in order
    ensures Behind(order, id) < |order|
  {
    if order[0] != id { BehindBounded(order[1..], id); }
  }

  /** Dropping the oldest key spares exactly the keys that have fewer than all others behind them. */
  lemma DropOldest(order: seq<string>, id: string)
    requires Distinct(order) && id in order
    ensures id in order[1..] <==> Behind(order, id) < |order| - 1
    ensures id in order[1..] ==> Behind(order[1..], id) == Behind(order, id)
    ensures Distinct(order[1..]) && Elements(order[1..]) == Elements(order) - {order[0]}
  {
    if order[0] != id {
      BehindBounded(order[1..], id);
    }
  }

  lemma BehindCons(first: string, rest: seq<string>, id: string)
    ensures Behind([first] + rest, id) == if first == id then |rest| else Behind(rest, id)
  {
    assert ([first] + rest)[1..] == rest;
  }

  lemma {:induction false} WithoutMembers(order: seq<string>, x: string, id: string)
    ensures id in Without(order, x) <==> id in order && id != x
    ensures |Without(order, x)| <= |order|
  {
    if order != [] { WithoutMembers(order[1..], x, id); }
  }

  lemma {:induction false} WithoutKeeps(order: seq<string>, x: string, id: string)
    requires id in order && id != x
    ensures id in Without(order, x) && Behind(Without(order, x), id) <= Behind(order, id)
    ensures |Without(order, x)| <= |order|
  {
    hide Behind;
    var first, rest := order[0], order[1..];
    assert order == [first] + rest;
    BehindCons(first, rest, id);
    BehindCons(first, Without(rest, x), id);
    WithoutMembers(order, x, id);
    WithoutMembers(rest, x, id);
    if first != id {
      WithoutKeeps(rest, x, id);
      assert [] + Without(rest, x) == Without(rest, x);
    }
  }

  lemma {:induction false} WithoutDistinct(order: seq<string>, x: string)
    requires Distinct(order)
    ensures Distinct(Without(order, x)) && Elements(Without(order, x)) == Elements(order) - {x}
  {
    if order != [] {
      WithoutDistinct(order[1..], x);
      WithoutMembers(order[1..], x, order[0]);
      assert order[0] !in Elements(order[1..]);
      assert Elements(order) == {order[0]} + Elements(order[1..]);
      assert Elements(Without(order, x)) == (if order[0] == x then {} else {order[0]}) + Elements(Without(order[1..], x));
    }
  }

  // ---------------------------------------------------------------- one frame

  /** A frame that makes an event pending that was not. */
  predicate Arrives(p: Pending, f: Frame) {
    Routes(f) && f.eventId !in p.records
  }

  /** What a frame does to the table; `accepted` says whether it is an audit that is reported. */
  function PendingStep(p: Pending, f: Frame, accepted: bool): Pending {
    var id := f.eventId;
    if Routes(f) then TrimOldest(Put(p, id, RouteRecord(f)), MAX_PENDING_EVENTS)
    else if Verifies(f) && id in p.records && ValidTier(f) then Put(p, id, p.records[id].(tier := f.tier.value))
    else if accepted then Delete(p, id)
    else p
  }

  lemma NextPending(s: State, f: Frame)
    ensures Next(s, f).pending == PendingStep(s.pending, f, Accepts(s, f))
  {
  }

  lemma TrimOnce(p: Pending)
    requires |p.order| <= MAX_PENDING_EVENTS + 1
    ensures TrimOldest(p, MAX_PENDING_EVENTS)
            == if |p.order| <= MAX_PENDING_EVENTS then p else Pending(p.order[1..], p.records - {p.order[0]})
  {
  }

  /** Trimming keeps exactly the newest entries, unchanged. */
  lemma {:induction false} TrimKeepsEntries(p: Pending, maximum: nat)
    requires PendingOk(p)
    ensures var q := TrimOldest(p, maximum);
            && PendingOk(q) && q.order == LastN(p.order, maximum)
            && forall id | id in q.records :: id in p.records && q.records[id] == p.records[id]
    decreases |p.order|
  {
    hide Behind, LastN;
    TrimKeepsNewest(p, maximum);
    if |p.order| > maximum {
      assert p.order[0] in p.order;
      DropOldest(p.order, p.order[0]);
      TrimKeepsEntries(Pending(p.order[1..], p.records - {p.order[0]}), maximum);
    }
  }

  lemma ArrivalKeepsSound(p: Pending, id: string, record: Record)
    requires Sound(p) && id !in p.records
    ensures Sound(TrimOldest(Put(p, id, record), MAX_PENDING_EVENTS))
  {
    hide TrimOldest, Behind;
    var order := p.order + [id];
    TrimOnce(Put(p, id, record));
    assert id !in Elements(p.order);
    assert Elements(order) == Elements(p.order) + {id};
    if |order| > MAX_PENDING_EVENTS { DropOldest(order, id); }
  }

  lemma ArrivalIsNewest(p: Pending, id: string, record: Record)
    requires Sound(p) && id !in p.records
    ensures var q := TrimOldest(Put(p, id, record), MAX_PENDING_EVENTS);
            id in q.records && q.records[id] == record && Behind(q.order, id) == 0
  {
    hide TrimOldest, Behind;
    var order := p.order + [id];
    TrimOnce(Put(p, id, record));
    assert id !in Elements(p.order);
    NewIsLast(p.order, id);
    if |order| > MAX_PENDING_EVENTS {
      DistinctAppend(p.order, id);
      DropOldest(order, id);
      assert order[0] == p.order[0];
    }
  }

  lemma DistinctAppend(order: seq<string>, x: string)
    requires Distinct(order) && x !in order
    ensures Distinct(order + [x])
  {
  }

  lemma ArrivalAges(p: Pending, id: string, record: Record, other: string)
    requires Sound(p) && id !in p.records && other in p.records
    ensures var q := TrimOldest(Put(p, id, record), MAX_PENDING_EVENTS);
            && (other in q.records <==> Behind(p.order, other) < MAX_PENDING_EVENTS - 1)
            && (other in q.records ==> q.records[other] == p.records[other] && Behind(q.order, other) == Behind(p.order, other) + 1)
  {
    hide TrimOldest, Behind;
    var order := p.order + [id];
    TrimOnce(Put(p, id, record));
    assert id !in Elements(p.order) && other in Elements(p.order);
    AppendBehind(p.order, id, other);
    BehindBounded(p.order, other);
    if |order| > MAX_PENDING_EVENTS {
      DropOldest(order, other);
      assert other in order[1..] <==> other in Elements(order[1..]);
    }
  }

  /**
   Which pending events a frame keeps. One that is not being reported stays unless another
   event arrives while 1023 others are behind it: then it is the oldest of a full table.
   */
  lemma {:induction false} FrameKeepsIff(s: State, f: Frame, id: string)
    requires Sound(s.pending) && id in s.pending.records && !(f.eventId == id && Accepts(s, f))
    ensures var p, q := s.pending, Next(s, f).pending;
            && (id in q.records <==> !(Arrives(p, f) && Behind(p.order, id) == MAX_PENDING_EVENTS - 1))
            && (id in q.records ==> Behind(q.order, id) <= Behind(p.order, id) + (if Arrives(p, f) then 1 else 0))
  {
    hide Next, Accepts;
    var p := s.pending;
    NextPending(s, f);
    if Arrives(p, f) {
      ArrivalAges(p, f.eventId, RouteRecord(f), id);
    } else if f.eventId != id {
      WithoutKeeps(p.order, f.eventId, id);
    }
  }

  lemma FrameKeepsSound(s: State, f: Frame)
    requires Sound(s.pending)
    ensures Sound(Next(s, f).pending)
  {
    hide Next, Accepts;
    var p := s.pending;
    NextPending(s, f);
    if Arrives(p, f) {
      ArrivalKeepsSound(p, f.eventId, RouteRecord(f));
    } else {
      WithoutDistinct(p.order, f.eventId);
      WithoutMembers(p.order, f.eventId, f.eventId);
      if f.eventId in p.records {
        assert p.records.Keys + {f.eventId} == p.records.Keys;
      }
    }
  }

  // ---------------------------------------------------------------- runs, from their last frame

  function Front(frames: seq<Frame>): seq<Frame>
    requires frames != []
  {
    frames[..|frames| - 1]
  }

  function Last(frames: seq<Frame>): Frame
    requires frames != []
  {
    frames[|frames| - 1]
  }

  lemma {:induction false} RunAppend(s: State, a: seq<Frame>, b: seq<Frame>)
    ensures Run(s, a + b) == Run(Run(s, a), b)
    decreases |a|
  {
    hide Next;
    if a == [] {
      assert a + b == b;
    } else {
      RunAppend(Next(s, a[0]), a[1..], b);
      assert (a + b)[1..] == a[1..] + b;
    }
  }

  lemma RunLast(s: State, frames: seq<Frame>)
    requires frames != []
    ensures Run(s, frames) == Next(Run(s, Front(frames)), Last(frames))
  {
    hide Next;
    assert frames == Front(frames) + [Last(frames)];
    RunAppend(s, Front(frames), [Last(frames)]);
    assert [Last(frames)][1..] == [];
  }

  lemma {:induction false} RunKeepsSound(s: State, frames: seq<Frame>)
    requires Sound(s.pending)
    ensures Sound(Run(s, frames).pending)
    decreases |frames|
  {
    hide Next, Sound;
    if frames != [] {
      FrameKeepsSound(s, frames[0]);
      RunKeepsSound(Next(s, frames[0]), frames[1..]);
    }
  }

  /** No audit of the event is reported along the run. */
  ghost predicate Unreported(s: State, frames: seq<Frame>, id: string)
    decreases |frames|
  {
    frames == []
    || (Unreported(s, Front(frames), id) && !(Last(frames).eventId == id && Accepts(Run(s, Front(frames)), Last(frames))))
  }

  /** How many times another event became pending along the run. */
  ghost function Arrivals(s: State, frames: seq<Frame>, id: string): nat
    decreases |frames|
  {
    if frames == [] then 0
    else
      Arrivals(s, Front(frames), id)
      + (if Last(frames).eventId != id && Arrives(Run(s, Front(frames)).pending, Last(frames)) then 1 else 0)
  }

  /**
   What the frames say about the event, however long ago: the resource of its latest route,
   and the tier of its latest route or valid verification.
   */
  function Latest(known: Option<Record>, frames: seq<Frame>, id: string): Option<Record>
    decreases |frames|
  {
    if frames == [] then known
    else
      var before, f := Latest(known, Front(frames), id), Last(frames);
      if f.eventId != id then before
      else if f.stage == "route" && f.phase == "done" then
        var tier := if f.routedTo in {"t0", "t1", "t2", "abstain"} then f.routedTo else "unrouted";
        Some(Record(if f.resourceType == "" then "resource" else f.resourceType, tier, tier))
      else if f.stage == "verify" && f.phase == "done" && before.Some? && f.tier.Some? && f.tier.value in {"t0", "t1", "t2", "abstain"} then
        Some(before.value.(tier := f.tier.value))
      else before
  }

  /** The last frame in the reducer's own terms. */
  lemma LatestByLast(known: Option<Record>, frames: seq<Frame>, id: string)
    requires frames != []
    ensures var before, f := Latest(known, Front(frames), id), Last(frames);
            Latest(known, frames, id) ==
              if f.eventId != id then before
              else if Routes(f) then Some(RouteRecord(f))
              else if Verifies(f) && ValidTier(f) && before.Some? then Some(before.value.(tier := f.tier.value))
              else before
  {
  }

  lemma LatestOfNone(known: Option<Record>, id: string)
    ensures Latest(known, [], id) == known
  {
  }

  lemma {:induction false} LatestAfterRoute(route: Frame, mid: seq<Frame>)
    requires Routes(route)
    ensures Latest(None, [route] + mid, route.eventId) == Latest(Some(RouteRecord(route)), mid, route.eventId)
    decreases |mid|
  {
    hide Latest, RouteRecord, Routes, Verifies, ValidTier;
    var all := [route] + mid;
    LatestByLast(None, all, route.eventId);
    if mid == [] {
      assert Front(all) == [] && Last(all) == route;
      LatestOfNone(Some(RouteRecord(route)), route.eventId);
    } else {
      assert Front(all) == [route] + Front(mid) && Last(all) == Last(mid);
      LatestAfterRoute(route, Front(mid));
      LatestByLast(Some(RouteRecord(route)), mid, route.eventId);
    }
  }

  function RecordOf(p: Pending, id: string): Option<Record> {
    if id in p.records then Some(p.records[id]) else None
  }

  /** An event stays pending while the keys behind it and those that arrive are fewer than 1024 together. */
  lemma {:induction false} StaysPending(s: State, frames: seq<Frame>, id: string)
    requires Sound(s.pending) && id in s.pending.records && Unreported(s, frames, id)
    requires Behind(s.pending.order, id) + Arrivals(s, frames, id) < MAX_PENDING_EVENTS
    ensures var p := Run(s, frames).pending;
            id in p.records && Behind(p.order, id) <= Behind(s.pending.order, id) + Arrivals(s, frames, id)
    decreases |frames|
  {
    hide Next, Sound, Accepts, Behind, Routes;
    if frames != [] {
      var front, f := Front(frames), Last(frames);
      StaysPending(s, front, id);
      RunLast(s, frames);
      RunKeepsSound(s, front);
      FrameKeepsIff(Run(s, front), f, id);
    }
  }

  lemma FrameKeepsRecord(s: State, f: Frame, id: string)
    requires Sound(s.pending) && id in Next(s, f).pending.records && !(f.eventId == id && Accepts(s, f))
    ensures Some(Next(s, f).pending.records[id]) == Latest(RecordOf(s.pending, id), [f], id)
  {
    hide Next, Accepts, Routes, Verifies, ValidTier, RouteRecord, Latest;
    var p := s.pending;
    NextPending(s, f);
    assert Front([f]) == [];
    LatestByLast(RecordOf(p, id), [f], id);
    LatestOfNone(RecordOf(p, id), id);
    if Arrives(p, f) {
      if id == f.eventId {
        ArrivalIsNewest(p, id, RouteRecord(f));
      } else {
        ArrivalHasOldKeys(p, f.eventId, RouteRecord(f), id);
        ArrivalAges(p, f.eventId, RouteRecord(f), id);
      }
    }
  }

  lemma ArrivalHasOldKeys(p: Pending, added: string, record: Record, id: string)
    requires Sound(p) && added !in p.records && id != added
    requires id in TrimOldest(Put(p, added, record), MAX_PENDING_EVENTS).records
    ensures id in p.records
  {
    TrimOnce(Put(p, added, record));
  }

  /** A pending event's entry is always what the unbounded history says about it. */
  lemma {:induction false} EntryIsLatest(s: State, frames: seq<Frame>, id: string)
    requires Sound(s.pending) && Unreported(s, frames, id) && id in Run(s, frames).pending.records
    ensures Some(Run(s, frames).pending.records[id]) == Latest(RecordOf(s.pending, id), frames, id)
    decreases |frames|
  {
    hide Next, Sound, Accepts, Routes, Verifies, ValidTier, RouteRecord, Latest;
    if frames == [] {
      LatestOfNone(RecordOf(s.pending, id), id);
    } else {
      var front, f := Front(frames), Last(frames);
      var middle := Run(s, front);
      LatestByLast(RecordOf(s.pending, id), frames, id);
      LatestByLast(RecordOf(middle.pending, id), [f], id);
      LatestOfNone(RecordOf(middle.pending, id), id);
      RunLast(s, frames);
      RunKeepsSound(s, front);
      FrameKeepsRecord(middle, f, id);
      assert Front([f]) == [];
      if id in middle.pending.records {
        EntryIsLatest(s, front, id);
      } else {
        OnlyRoutesAdd(middle, f, id);
      }
    }
  }

  lemma OnlyRoutesAdd(s: State, f: Frame, id: string)
    requires Sound(s.pending) && id !in s.pending.records && id in Next(s, f).pending.records
    ensures f.eventId == id && Routes(f)
  {
    hide Next, Accepts;
    NextPending(s, f);
    if Arrives(s.pending, f) && f.eventId != id {
      ArrivalHasOldKeys(s.pending, f.eventId, RouteRecord(f), id);
    }
  }

  // ---------------------------------------------------------------- what an audit reports

  lemma RouteRecords(s: State, f: Frame)
    requires Sound(s.pending) && Routes(f)
    ensures var p, q := s.pending, Next(s, f).pending;
            && f.eventId in q.records && q.records[f.eventId] == RouteRecord(f)
            && Behind(q.order, f.eventId) == if f.eventId in p.records then Behind(p.order, f.eventId) else 0
  {
    hide Next, Accepts;
    NextPending(s, f);
    if f.eventId !in s.pending.records {
      ArrivalIsNewest(s.pending, f.eventId, RouteRecord(f));
    }
  }

  /**
   The audit of an event that was routed reports its latest resource and tier, provided
   fewer than 1024 events were behind it or arrived since. `before` is any history.
   */
  lemma {:induction false} AuditReportsLatest(before: seq<Frame>, route: Frame, mid: seq<Frame>, audit: Frame)
    requires Done(route, "route") && audit.eventId == route.eventId
    requires var s := Next(Run(Initial, before), route);
             && Unreported(s, mid, route.eventId) && Accepts(Run(s, mid), audit)
             && Behind(s.pending.order, route.eventId) + Arrivals(s, mid, route.eventId) < 1024
    ensures var s := Next(Run(Initial, before), route);
            var latest, item := Latest(None, [route] + mid, route.eventId), Output(Run(s, mid), audit);
            && latest.Some? && item.Some?
            && item.value.resource == latest.value.resource && item.value.tier == latest.value.tier
            && KindIs(item.value.kind, audit)
  {
    hide Next, Behind, Arrivals, Unreported, RouteRecord, KindOf, KindIs, Run, Latest, TrimOldest;
    var s0 := Run(Initial, before);
    var s := Next(s0, route);
    RunKeepsSound(Initial, before);
    RouteRecords(s0, route);
    FrameKeepsSound(s0, route);
    StaysPending(s, mid, route.eventId);
    EntryIsLatest(s, mid, route.eventId);
    LatestAfterRoute(route, mid);
    KindOfIs(audit);
  }

  /** The audit of an event that is not pending names no resource and the lowest tier. */
  lemma {:induction false} AuditWithoutEntry(s: State, audit: Frame)
    requires Accepts(s, audit) && audit.eventId !in s.pending.records
    ensures var item := Output(s, audit);
            item.Some? && item.value.resource == "resource" && item.value.tier == "t0" && KindIs(item.value.kind, audit)
  {
    hide KindOf, KindIs;
    KindOfIs(audit);
  }

  // ---------------------------------------------------------------- the bound is tight

  function RouteFrame(id: string, resource: string): Frame {
    Frame(id, "route", "done", "t1", resource, None, "", "")
  }

  function RouteFrames(ids: seq<string>): seq<Frame> {
    if ids == [] then [] else [RouteFrame(ids[0], "vm")] + RouteFrames(ids[1..])
  }

  /** Events that arrive behind a pending one, without any being reported, push it out as soon as they make 1024. */
  lemma {:induction false} ArrivalsPushOut(s: State, id: string, others: seq<string>)
    requires Sound(s.pending) && id in s.pending.records
    requires Distinct(others) && (forall x | x in others :: x !in s.pending.records)
    requires Behind(s.pending.order, id) + |others| == 1024
    ensures id !in Run(s, RouteFrames(others)).pending.records
    ensures forall x | x in Run(s, RouteFrames(others)).pending.records :: x in s.pending.records || x in others
    decreases |others|
  {
    hide Next, Accepts, Sound, Behind;
    BehindInTable(s.pending, id);
    var f := RouteFrame(others[0], "vm");
    var rest := others[1..];
    assert RouteFrames(others)[0] == f && RouteFrames(others)[1..] == RouteFrames(rest);
    var next := Next(s, f);
    FrameKeepsSound(s, f);
    FrameKeepsIff(s, f, id);
    RouteAdds(s, f);
    if |others| == 1 {
      assert RouteFrames(rest) == [];
    } else {
      RouteAges(s, f, id);
      ArrivalsPushOut(next, id, rest);
    }
  }

  lemma BehindInTable(p: Pending, id: string)
    requires Sound(p) && id in p.records
    ensures Behind(p.order, id) < MAX_PENDING_EVENTS
  {
    assert id in Elements(p.order);
    BehindBounded(p.order, id);
  }

  lemma RouteAdds(s: State, f: Frame)
    requires Sound(s.pending) && Arrives(s.pending, f)
    ensures forall x | x in Next(s, f).pending.records :: x in s.pending.records || x == f.eventId
  {
    forall x | x in Next(s, f).pending.records && x !in s.pending.records ensures x == f.eventId {
      OnlyRoutesAdd(s, f, x);
    }
  }

  lemma RouteAges(s: State, f: Frame, id: string)
    requires Sound(s.pending) && Arrives(s.pending, f) && id in s.pending.records && id in Next(s, f).pending.records
    ensures Behind(Next(s, f).pending.order, id) == Behind(s.pending.order, id) + 1
  {
    hide Next, Accepts;
    NextPending(s, f);
    ArrivalAges(s.pending, f.eventId, RouteRecord(f), id);
  }

  /** Routing a pending event again renews what is known of it, not its place: the same number of arrivals evicts it. */
  lemma {:induction false} ReroutingDoesNotRefresh(s: State, id: string, resource: string, others: seq<string>)
    requires Sound(s.pending) && id in s.pending.records
    requires Distinct(others) && (forall x | x in others :: x !in s.pending.records)
    requires Behind(s.pending.order, id) + |others| == MAX_PENDING_EVENTS
    ensures var again := Next(s, RouteFrame(id, resource));
            && RecordOf(again.pending, id) == Some(RouteRecord(RouteFrame(id, resource)))
            && id !in Run(again, RouteFrames(others)).pending.records
  {
    hide Next, Accepts, Sound, Behind, Run;
    var f := RouteFrame(id, resource);
    FrameKeepsSound(s, f);
    RouteRecords(s, f);
    forall x | x in others ensures x !in Next(s, f).pending.records {
      if x in Next(s, f).pending.records { OnlyRoutesAdd(s, f, x); }
    }
    ArrivalsPushOut(Next(s, f), id, others);
  }
}
