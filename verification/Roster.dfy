/**
 The identity roster of an API client: one promise is shared while it is pending and for
 30 seconds after it succeeded. Settlements happen between calls, in any order the
 transport chooses, and the clock does not go back.
 */
module Roster {
  import opened Wrappers

  const CACHE_MS: nat := 30_000

  /** A request, by when it was sent and how it ended. */
  datatype Request =
    | Pending(sent: nat)
    | Succeeded(sent: nat, at: nat)
    | Failed(sent: nat, at: nat)

  /** `current` is the stored promise, by the number of its request. An expiry of 0 means none is set. */
  datatype State = State(current: Option<nat>, expiresAt: nat, requests: seq<Request>, now: nat)

  const Fresh := State(None, 0, [], 0)

  datatype Event = Call | Succeed(p: nat) | Fail(p: nat) | Wait(ms: nat)

  predicate NeedsRequest(s: State) {
    s.current.None? || (s.expiresAt != 0 && s.now >= s.expiresAt)
  }

  /** The promise a call hands out. */
  function Handed(s: State): nat {
    if NeedsRequest(s) then |s.requests| else s.current.value
  }

  function Called(s: State): State {
    if NeedsRequest(s) then
      s.(expiresAt := 0, current := Some(|s.requests|), requests := s.requests + [Pending(s.now)])
    else s
  }

  predicate Enabled(s: State, e: Event) {
    (e.Succeed? || e.Fail?) ==> e.p < |s.requests| && s.requests[e.p].Pending?
  }

  function Next(s: State, e: Event): State
    requires Enabled(s, e)
  {
    match e
    case Call => Called(s)
    case Succeed(p) => s.(expiresAt := s.now + CACHE_MS, requests := s.requests[p := Succeeded(s.requests[p].sent, s.now)])
    case Fail(p) => s.(current := None, requests := s.requests[p := Failed(s.requests[p].sent, s.now)])
    case Wait(ms) => s.(now := s.now + ms)
  }

  // ---------------------------------------------------------------- the code

  class IamApiClient {
    var rosterPromise: Option<nat>
    var rosterCacheExpiresAt: nat
    /** The transport's side: what became of each request. */
    var requests: seq<Request>

    function Abstract(now: nat): State
      reads this
    {
      State(rosterPromise, rosterCacheExpiresAt, requests, now)
    }

    constructor ()
      ensures forall now :: Abstract(now) == Fresh.(now := now)
    {
      rosterPromise, rosterCacheExpiresAt, requests := None, 0, [];
    }

    method Roster(now: nat) returns (promise: nat)
      modifies this
      ensures Abstract(now) == Called(old(Abstract(now))) && promise == Handed(old(Abstract(now)))
    {
      if rosterPromise == None || (rosterCacheExpiresAt != 0 && now >= rosterCacheExpiresAt) {
        rosterCacheExpiresAt := 0;
        rosterPromise := Some(|requests|);
        requests := requests + [Pending(now)];
      }
      promise := rosterPromise.value;
    }

    method OnSuccess(p: nat, now: nat)
      requires Enabled(Abstract(now), Succeed(p))
      modifies this`rosterCacheExpiresAt, this`requests
      ensures Abstract(now) == Next(old(Abstract(now)), Succeed(p))
    {
      rosterCacheExpiresAt := now + CACHE_MS;
      requests := requests[p := Succeeded(requests[p].sent, now)];
    }

    method OnFailure(p: nat, now: nat)
      requires Enabled(Abstract(now), Fail(p))
      modifies this`rosterPromise, this`requests
      ensures Abstract(now) == Next(old(Abstract(now)), Fail(p))
    {
      rosterPromise := None;
      requests := requests[p := Failed(requests[p].sent, now)];
    }
  }

  // ---------------------------------------------------------------- invariant

  function SettledAt(r: Request): nat
    requires !r.Pending?
  {
    r.at
  }

  /** The stored promise is the latest request, has not failed, and its expiry is that of its success. */
  predicate CurrentOk(s: State) {
    s.current.Some? ==>
      && s.current.value + 1 == |s.requests|
      && (match s.requests[s.current.value]
          case Pending(_) => s.expiresAt == 0
          case Succeeded(_, at) => s.expiresAt == at + CACHE_MS && at <= s.now
          case Failed(_, _) => false)
  }

  /** Only the stored promise is in flight. */
  predicate OneInFlight(s: State) {
    forall p | 0 <= p < |s.requests| && s.requests[p].Pending? :: s.current == Some(p)
  }

  /** A request is sent only after every earlier one has ended, and 30 seconds after any that succeeded. */
  predicate Spaced(s: State) {
    forall p, q | 0 <= p < q < |s.requests| ::
      && !s.requests[p].Pending?
      && SettledAt(s.requests[p]) <= s.requests[q].sent
      && (s.requests[p].Succeeded? ==> s.requests[p].at + CACHE_MS <= s.requests[q].sent)
  }

  predicate Past(s: State) {
    forall r | r in s.requests :: r.sent <= s.now && (!r.Pending? ==> SettledAt(r) <= s.now)
  }

  /** While no promise is stored, every success is at least 30 seconds old. */
  predicate Expired(s: State) {
    s.current.None? ==> forall p | 0 <= p < |s.requests| && s.requests[p].Succeeded? :: s.requests[p].at + CACHE_MS <= s.now
  }

  predicate Inv(s: State) {
    CurrentOk(s) && OneInFlight(s) && Spaced(s) && Past(s) && Expired(s)
  }

  lemma CallKeepsInv(s: State)
    requires Inv(s)
    ensures Inv(Called(s))
  {
    var t := Called(s);
    if NeedsRequest(s) {
      var q := |s.requests|;
      forall p | 0 <= p < q ensures !s.requests[p].Pending? && SettledAt(s.requests[p]) <= s.now
                                    && (s.requests[p].Succeeded? ==> s.requests[p].at + CACHE_MS <= s.now) {
        assert s.requests[p] in s.requests;
        if s.current.Some? && p < s.current.value && s.requests[p].Succeeded? {
          assert s.requests[s.current.value] in s.requests;
        }
      }
    }
  }

  lemma SettleKeepsInv(s: State, e: Event)
    requires Inv(s) && Enabled(s, e) && (e.Succeed? || e.Fail?)
    ensures Inv(Next(s, e))
    ensures s.current == Some(e.p)
  {
    var t := Next(s, e);
    forall p | 0 <= p < |s.requests| ensures s.requests[p].sent <= s.now && (p < e.p ==> !s.requests[p].Pending?) {
      assert s.requests[p] in s.requests;
    }
    if e.Fail? {
      forall p | 0 <= p < |t.requests| && t.requests[p].Succeeded? ensures t.requests[p].at + CACHE_MS <= t.now {
        assert s.requests[p].at + CACHE_MS <= s.requests[e.p].sent;
      }
    }
  }

  lemma {:induction false} StepKeepsInv(s: State, e: Event)
    requires Inv(s) && Enabled(s, e)
    ensures Inv(Next(s, e))
  {
    match e
    case Call => CallKeepsInv(s);
    case Succeed(_) => SettleKeepsInv(s, e);
    case Fail(_) => SettleKeepsInv(s, e);
    case Wait(_) =>
  }

  // ---------------------------------------------------------------- runs

  ghost predicate Possible(s: State, events: seq<Event>)
    decreases |events|
  {
    events == [] || (Enabled(s, events[0]) && Possible(Next(s, events[0]), events[1..]))
  }

  ghost function Run(s: State, events: seq<Event>): State
    requires Possible(s, events)
    decreases |events|
  {
    if events == [] then s else Run(Next(s, events[0]), events[1..])
  }

  lemma {:induction false} RunKeepsInv(s: State, events: seq<Event>)
    requires Inv(s) && Possible(s, events)
    ensures Inv(Run(s, events))
    decreases |events|
  {
    hide Inv, Enabled, Next;
    if events != [] {
      StepKeepsInv(s, events[0]);
      RunKeepsInv(Next(s, events[0]), events[1..]);
    }
  }

  /**
   After any run, a call hands out a promise that is pending or that succeeded less than 30
   seconds ago, never one that failed; and every other request has already ended.
   */
  lemma {:induction false} CallHandsOutFreshPromise(events: seq<Event>)
    requires Possible(Fresh, events)
    ensures var s := Run(Fresh, events);
            var t, p := Called(s), Handed(s);
            && t.current == Some(p) && p < |t.requests|
            && (t.requests[p].Pending? || (t.requests[p].Succeeded? && t.requests[p].at <= s.now < t.requests[p].at + CACHE_MS))
            && (forall q | 0 <= q < |t.requests| && q != p :: !t.requests[q].Pending?)
  {
    RunKeepsInv(Fresh, events);
    CallKeepsInv(Run(Fresh, events));
  }

  /** A failure that arrives is always that of the stored promise: an old one never clears a newer. */
  lemma {:induction false} FailureClearsItsOwn(events: seq<Event>, p: nat)
    requires Possible(Fresh, events) && Enabled(Run(Fresh, events), Fail(p))
    ensures Run(Fresh, events).current == Some(p)
  {
    RunKeepsInv(Fresh, events);
    SettleKeepsInv(Run(Fresh, events), Fail(p));
  }

  /** A call sends a request exactly when nothing is pending and nothing succeeded in the last 30 seconds. */
  lemma {:induction false} RequestSentIff(events: seq<Event>)
    requires Possible(Fresh, events)
    ensures var s := Run(Fresh, events);
            |Called(s).requests| > |s.requests|
            <==> forall r | r in s.requests :: !r.Pending? && (r.Succeeded? ==> r.at + 30_000 <= s.now)
  {
    RunKeepsInv(Fresh, events);
    var s := Run(Fresh, events);
    CallKeepsInv(s);
    if NeedsRequest(s) {
      var t := Called(s);
      forall r | r in s.requests ensures !r.Pending? && (r.Succeeded? ==> r.at + CACHE_MS <= s.now) {
        var p :| 0 <= p < |s.requests| && s.requests[p] == r;
        assert t.requests[p] == r && t.requests[|s.requests|] == Pending(s.now);
      }
    } else {
      assert s.requests[s.current.value] in s.requests;
    }
  }

  /** Over any run, requests never overlap, and after a success the next one is at least 30 seconds later. */
  lemma {:induction false} RequestsAreSpaced(events: seq<Event>, p: nat, q: nat)
    requires Possible(Fresh, events) && p < q < |Run(Fresh, events).requests|
    ensures var a, b := Run(Fresh, events).requests[p], Run(Fresh, events).requests[q];
            && !a.Pending? && SettledAt(a) <= b.sent
            && (a.Succeeded? ==> a.at + 30_000 <= b.sent)
  {
    RunKeepsInv(Fresh, events);
  }
}
