/**
 The cockpit's reducer: one stage frame at a time updates counters, a bounded table of
 pending events, a bounded set of completed event ids, and the activity feed.
 */
module CockpitState {
  import opened Wrappers
  import opened JsText
  import opened Sequences

  const MAX_PENDING_EVENTS: nat := 1024
  const MAX_COMPLETED_EVENTS: nat := 4096
  const MAX_RESOURCE_KINDS: nat := 128
  const MAX_ACTIVITY: nat := 400
  const MAX_SPARK: nat := 60
  const ROUTING_TIERS: set<string> := {"t0", "t1", "t2", "abstain"}
  const UNNAMED := "resource"
  const OVERFLOW := "other"

  /** A stage frame; its details are already the bounded display lines the reducer makes of them. */
  datatype Frame = Frame(
    eventId: string, stage: string, phase: string,
    routedTo: string, resourceType: string, tier: Option<string>, outcome: string, decision: string)

  datatype Record = Record(resource: string, tier: string, routed: string)

  datatype Kind = AutoApplied | Awaiting | SteppedBack(atRouting: bool) | Shown(text: string)

  datatype Activity = Activity(kind: Kind, resource: string, tier: string)

  /** A JavaScript map of at most `MAX_PENDING_EVENTS` entries: its keys in insertion order, and the entries. */
  datatype Pending = Pending(order: seq<string>, records: map<string, Record>)

  datatype State = State(
    handled: nat, byTier: map<string, nat>, autoApplied: nat, awaitingYou: nat, errors: nat,
    activity: seq<Activity>, resourceCounts: map<string, nat>, pending: Pending, completed: seq<string>)

  const Initial := State(0, map[], 0, 0, 0, [], map[], Pending([], map[]), [])

  // ---------------------------------------------------------------- ordered map

  ghost predicate PendingOk(p: Pending) {
    Distinct(p.order) && p.records.Keys == Elements(p.order)
  }

  /** `set` on a present key keeps its position. */
  function Put(p: Pending, id: string, record: Record): Pending {
    Pending(if id in p.records then p.order else p.order + [id], p.records[id := record])
  }

  /** Deleting the oldest entry until the size is within the maximum. */
  function TrimOldest(p: Pending, maximum: nat): Pending
    decreases |p.order|
  {
    if |p.order| <= maximum then p
    else TrimOldest(Pending(p.order[1..], p.records - {p.order[0]}), maximum)
  }

  /** What stays are the newest keys. */
  lemma {:induction false} TrimKeepsNewest(p: Pending, maximum: nat)
    ensures TrimOldest(p, maximum).order == LastN(p.order, maximum)
    decreases |p.order|
  {
    if |p.order| > maximum {
      TrimKeepsNewest(Pending(p.order[1..], p.records - {p.order[0]}), maximum);
    }
  }

  function Without(order: seq<string>, id: string): seq<string> {
    if order == [] then []
    else (if order[0] == id then [] else [order[0]]) + Without(order[1..], id)
  }

  function Delete(p: Pending, id: string): Pending {
    Pending(Without(p.order, id), p.records - {id})
  }

  /** Append, and drop one element from the front if there are then too many. */
  function Push<T>(buffer: seq<T>, x: T, maximum: nat): seq<T> {
    var longer := buffer + [x];
    if |longer| > maximum then longer[1..] else longer
  }

  // ---------------------------------------------------------------- one frame

  predicate Routes(f: Frame) { f.stage == "route" && f.phase == "done" }

  predicate Verifies(f: Frame) { f.stage == "verify" && f.phase == "done" }

  predicate Audits(f: Frame) { f.stage == "audit" && f.phase == "done" }

  function RoutedTier(f: Frame): string {
    if f.routedTo in ROUTING_TIERS then f.routedTo else "unrouted"
  }

  function RouteRecord(f: Frame): Record {
    Record(if f.resourceType != "" then f.resourceType else UNNAMED, RoutedTier(f), RoutedTier(f))
  }

  predicate ValidTier(f: Frame) { f.tier.Some? && f.tier.value in ROUTING_TIERS }

  function Bump(counts: map<string, nat>, key: string): map<string, nat> {
    counts[key := (if key in counts then counts[key] else 0) + 1]
  }

  function AfterRoute(s: State, f: Frame): State {
    if !Routes(f) then s
    else s.(pending := TrimOldest(Put(s.pending, f.eventId, RouteRecord(f)), MAX_PENDING_EVENTS),
            byTier := Bump(s.byTier, RoutedTier(f)))
  }

  function AfterVerify(s: State, f: Frame): State {
    if Verifies(f) && f.eventId in s.pending.records && ValidTier(f) then
      s.(pending := Put(s.pending, f.eventId, s.pending.records[f.eventId].(tier := f.tier.value)))
    else s
  }

  /** `text.includes(part)`. */
  predicate Includes(text: string, part: string) {
    StartsWith(text, part) || (text != "" && Includes(text[1..], part))
  }

  function KindOf(f: Frame): Kind {
    if f.decision == "auto" || f.outcome == "executed" then AutoApplied
    else if Includes(f.outcome, "hil") || f.decision == "hil" then Awaiting
    else if StartsWith(f.outcome, "abstained") then SteppedBack(Includes(f.outcome, "routing"))
    else Shown(f.outcome)
  }

  function ActivityOf(s: State, f: Frame): Activity {
    var known := f.eventId in s.pending.records;
    Activity(KindOf(f),
             if known then s.pending.records[f.eventId].resource else UNNAMED,
             if known then s.pending.records[f.eventId].tier else "t0")
  }

  function CountResource(counts: map<string, nat>, resource: string): map<string, nat> {
    if resource == UNNAMED then counts
    else if resource in counts then counts[resource := counts[resource] + 1]
    else if |counts| < MAX_RESOURCE_KINDS then counts[resource := 1]
    else Bump(counts, OVERFLOW)
  }

  predicate Accepts(s: State, f: Frame) {
    Audits(f) && f.eventId !in s.completed
  }

  function AfterAudit(s: State, f: Frame): State
    requires Accepts(s, f)
  {
    var a := ActivityOf(s, f);
    s.(completed := LastN(s.completed + [f.eventId], MAX_COMPLETED_EVENTS),
       handled := s.handled + 1,
       autoApplied := s.autoApplied + (if a.kind.AutoApplied? then 1 else 0),
       awaitingYou := s.awaitingYou + (if a.kind.Awaiting? then 1 else 0),
       activity := Push(s.activity, a, MAX_ACTIVITY),
       resourceCounts := CountResource(s.resourceCounts, a.resource),
       pending := Delete(s.pending, f.eventId))
  }

  function BeforeAudit(s: State, f: Frame): State {
    AfterVerify(AfterRoute(if f.phase == "failed" then s.(errors := s.errors + 1) else s, f), f)
  }

  function Next(s: State, f: Frame): State {
    var t := BeforeAudit(s, f);
    if Accepts(t, f) then AfterAudit(t, f) else t
  }

  function Output(s: State, f: Frame): Option<Activity> {
    var t := BeforeAudit(s, f);
    if Accepts(t, f) then Some(ActivityOf(t, f)) else None
  }

  // ---------------------------------------------------------------- the code

  class Cockpit {
    var handled: nat
    var byTier: map<string, nat>
    var autoApplied: nat
    var awaitingYou: nat
    var errors: nat
    var activity: seq<Activity>
    var resourceCounts: map<string, nat>
    var order: seq<string>
    var records: map<string, Record>
    var completed: seq<string>
    var spark: seq<int>
    var handledAtLastTick: nat

    function Abstract(): State
      reads this
    {
      State(handled, byTier, autoApplied, awaitingYou, errors, activity, resourceCounts, Pending(order, records), completed)
    }

    constructor ()
      ensures Abstract() == Initial
      ensures spark == [] && handledAtLastTick == 0
    {
      handled, autoApplied, awaitingYou, errors, handledAtLastTick := 0, 0, 0, 0, 0;
      byTier, resourceCounts, records := map[], map[], map[];
      activity, order, completed, spark := [], [], [], [];
    }

    method TrimPending()
      modifies this`order, this`records
      ensures Pending(order, records) == TrimOldest(Pending(old(order), old(records)), MAX_PENDING_EVENTS)
      ensures order == LastN(old(order), MAX_PENDING_EVENTS)
    {
      TrimKeepsNewest(Pending(order, records), MAX_PENDING_EVENTS);
      while |order| > MAX_PENDING_EVENTS
        invariant TrimOldest(Pending(order, records), MAX_PENDING_EVENTS)
                  == TrimOldest(Pending(old(order), old(records)), MAX_PENDING_EVENTS)
        decreases |order|
      {
        records := records - {order[0]};
        order := order[1..];
      }
    }

    method TrimCompleted()
      modifies this`completed
      ensures completed == LastN(old(completed), MAX_COMPLETED_EVENTS)
    {
      while |completed| > MAX_COMPLETED_EVENTS
        invariant LastN(completed, MAX_COMPLETED_EVENTS) == LastN(old(completed), MAX_COMPLETED_EVENTS)
        decreases |completed|
      {
        completed := completed[1..];
      }
    }

    method ReduceRoute(frame: Frame)
      requires Routes(frame)
      modifies this`order, this`records, this`byTier
      ensures Abstract() == AfterRoute(old(Abstract()), frame)
    {
      var routed := if frame.routedTo in ROUTING_TIERS then frame.routedTo else "unrouted";
      var resource := if frame.resourceType != "" then frame.resourceType else UNNAMED;
      if frame.eventId !in records {
        order := order + [frame.eventId];
      }
      records := records[frame.eventId := Record(resource, routed, routed)];
      TrimPending();
      byTier := byTier[routed := (if routed in byTier then byTier[routed] else 0) + 1];
    }

    method Classify(frame: Frame, resource: string, tier: string) returns (result: Activity)
      modifies this`autoApplied, this`awaitingYou
      ensures result == Activity(KindOf(frame), resource, tier)
      ensures autoApplied == old(autoApplied) + if result.kind.AutoApplied? then 1 else 0
      ensures awaitingYou == old(awaitingYou) + if result.kind.Awaiting? then 1 else 0
    {
      if frame.decision == "auto" || frame.outcome == "executed" {
        autoApplied := autoApplied + 1;
        result := Activity(AutoApplied, resource, tier);
      } else if Includes(frame.outcome, "hil") || frame.decision == "hil" {
        awaitingYou := awaitingYou + 1;
        result := Activity(Awaiting, resource, tier);
      } else if StartsWith(frame.outcome, "abstained") {
        result := Activity(SteppedBack(Includes(frame.outcome, "routing")), resource, tier);
      } else {
        result := Activity(Shown(frame.outcome), resource, tier);
      }
    }

    method RecordResource(resource: string)
      modifies this`resourceCounts
      ensures resourceCounts == CountResource(old(resourceCounts), resource)
    {
      if resource != UNNAMED {
        if resource in resourceCounts {
          resourceCounts := resourceCounts[resource := resourceCounts[resource] + 1];
        } else if |resourceCounts| < MAX_RESOURCE_KINDS {
          resourceCounts := resourceCounts[resource := 1];
        } else {
          resourceCounts := resourceCounts[OVERFLOW := (if OVERFLOW in resourceCounts then resourceCounts[OVERFLOW] else 0) + 1];
        }
      }
    }

    method Complete(id: string)
      modifies this`completed, this`handled
      ensures completed == LastN(old(completed) + [id], MAX_COMPLETED_EVENTS)
      ensures handled == old(handled) + 1
    {
      completed := completed + [id];
      TrimCompleted();
      handled := handled + 1;
    }

    method LookUp(id: string) returns (resource: string, tier: string)
      ensures resource == if id in records then records[id].resource else UNNAMED
      ensures tier == if id in records then records[id].tier else "t0"
    {
      resource, tier := UNNAMED, "t0";
      if id in records {
        resource, tier := records[id].resource, records[id].tier;
      }
    }

    method Feed(item: Activity)
      modifies this`activity
      ensures activity == Push(old(activity), item, MAX_ACTIVITY)
    {
      activity := activity + [item];
      if |activity| > MAX_ACTIVITY {
        activity := activity[1..];
      }
    }

    method ReduceAudit(frame: Frame) returns (result: Activity)
      requires Accepts(Abstract(), frame)
      modifies this`completed, this`handled, this`autoApplied, this`awaitingYou, this`activity,
               this`resourceCounts, this`order, this`records
      ensures Abstract() == AfterAudit(old(Abstract()), frame)
      ensures result == ActivityOf(old(Abstract()), frame)
    {
      hide KindOf, CountResource, Push, LastN;
      Complete(frame.eventId);
      var resource, tier := LookUp(frame.eventId);
      result := Classify(frame, resource, tier);
      Feed(result);
      RecordResource(resource);
      order := Without(order, frame.eventId);
      records := records - {frame.eventId};
    }

    method ReduceStageFrame(frame: Frame) returns (result: Option<Activity>)
      modifies this
      ensures Abstract() == Next(old(Abstract()), frame)
      ensures result == Output(old(Abstract()), frame)
      ensures spark == old(spark) && handledAtLastTick == old(handledAtLastTick)
    {
      if frame.phase == "failed" {
        errors := errors + 1;
      }
      if frame.stage == "route" && frame.phase == "done" {
        ReduceRoute(frame);
      }
      if frame.stage == "verify" && frame.phase == "done" {
        if frame.eventId in records && frame.tier.Some? {
          if frame.tier.value in ROUTING_TIERS {
            records := records[frame.eventId := records[frame.eventId].(tier := frame.tier.value)];
          }
        }
      }
      if frame.stage != "audit" || frame.phase != "done" {
        return None;
      }
      if frame.eventId in completed {
        return None;
      }
      var a := ReduceAudit(frame);
      return Some(a);
    }

    /** One second of the spark line: how many events were handled since the last one, among the last 60. */
    method SparkTick()
      requires |spark| <= MAX_SPARK
      modifies this`spark, this`handledAtLastTick
      ensures spark == LastN(old(spark) + [handled - old(handledAtLastTick)], MAX_SPARK)
      ensures handledAtLastTick == handled
    {
      var delta := handled - handledAtLastTick;
      handledAtLastTick := handled;
      spark := spark + [delta];
      if |spark| > MAX_SPARK {
        spark := spark[1..];
      }
    }
  }
}
