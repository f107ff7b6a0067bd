/**
 The code of one process and the steps of many agree: an acquire and a release on the lock
 folder are runs of the protocol in which only their process steps.
 */
module PortAlone {
  import opened Wrappers
  import opened PortPool
  import opened PortProtocol

  /** The steps of one process that sees these processes outside the protocol alive and these ports free. */
  predicate ByRule(w: World, step: Step, p: nat, foreign: set<nat>, ports: set<nat>) {
    match step
    case Create(q) => q == p
    case Read(q) => q == p
    case Judge(q, f, clock) => q == p && f == foreign && clock == w.now
    case Remove(q) => q == p
    case Probe(q, available) => q == p && p in w.procs && w.procs[p].place.Probing? && (available <==> w.procs[p].place.slot in ports)
    case BackOut(q) => q == p
    case Write(q) => q == p
    case ReleaseCheck(q) => q == p
    case ReleaseRemove(q) => q == p
    case _ => false
  }

  ghost predicate Alone(w: World, steps: seq<Step>, p: nat, foreign: set<nat>, ports: set<nat>)
    requires Possible(w, steps)
    decreases |steps|
  {
    steps == [] || (ByRule(w, steps[0], p, foreign, ports) && Alone(Apply(w, steps[0]), steps[1..], p, foreign, ports))
  }

  /** Such steps lead from the one world to the other. */
  ghost predicate Goes(w: World, steps: seq<Step>, w': World, p: nat, foreign: set<nat>, ports: set<nat>) {
    Leads(w, steps, w') && Alone(w, steps, p, foreign, ports)
  }

  lemma {:induction false} Chain(w: World, a: seq<Step>, mid: World, b: seq<Step>, w': World, p: nat, foreign: set<nat>, ports: set<nat>)
    requires Goes(w, a, mid, p, foreign, ports) && Goes(mid, b, w', p, foreign, ports)
    ensures Goes(w, a + b, w', p, foreign, ports)
    decreases |a|
  {
    hide Enabled, Apply, ByRule;
    Join(w, a, mid, b, w');
    if a == [] {
      assert a + b == b;
    } else {
      assert (a + b)[0] == a[0] && (a + b)[1..] == a[1..] + b;
      Chain(Apply(w, a[0]), a[1..], mid, b, w', p, foreign, ports);
    }
  }

  lemma One(w: World, step: Step, w': World, p: nat, foreign: set<nat>, ports: set<nat>)
    requires Enabled(w, step) && Apply(w, step) == w' && ByRule(w, step, p, foreign, ports)
    ensures Goes(w, [step], w', p, foreign, ports)
  {
    hide Enabled, Apply, ByRule;
    OneStep(w, step);
    assert [step][0] == step && [step][1..] == [];
    assert Possible(w', []) && Alone(w', [], p, foreign, ports);
  }

  lemma Go(start: World, done: seq<Step>, w: World, step: Step, w': World, p: nat, foreign: set<nat>, ports: set<nat>)
    requires Goes(start, done, w, p, foreign, ports)
    requires Enabled(w, step) && Apply(w, step) == w' && ByRule(w, step, p, foreign, ports)
    ensures Goes(start, done + [step], w', p, foreign, ports)
  {
    hide Enabled, Apply, ByRule, Goes;
    One(w, step, w', p, foreign, ports);
    Chain(start, done, w, [step], w', p, foreign, ports);
  }

  lemma MoveTwice(w: World, p: nat, a: Locks, x: Place, b: Locks, y: Place)
    requires p in w.procs
    ensures Move(Move(w, p, a, x), p, b, y) == Move(w, p, b, y)
  {
  }

  lemma MoveKeepsPids(w: World, p: nat, locks: Locks, place: Place, foreign: set<nat>)
    requires p in w.procs
    ensures LivePids(Move(w, p, locks, place), foreign) == LivePids(w, foreign)
  {
    var w' := Move(w, p, locks, place);
    assert forall q | q in w.procs :: w'.procs[q].pid == w.procs[q].pid && w'.procs[q].alive == w.procs[q].alive;
    assert (set q | q in w'.procs && w'.procs[q].alive :: w'.procs[q].pid) == set q | q in w.procs && w.procs[q].alive :: w.procs[q].pid;
  }

  // ---------------------------------------------------------------- one slot

  /** The world once the process has leased the slot. */
  function Leased(w: World, p: nat, locks: Locks, slot: nat): World
    requires p in w.procs
  {
    Move(w, p, locks[slot := Lock(w.now, Some(OwnerRecord(slot, w.procs[p].pid, w.nonces)))], Holding(slot, w.nonces))
    .(nonces := w.nonces + 1)
  }

  /** At a slot without a lock the process leases the slot if its ports are free, and else passes it. */
  lemma FreeSlot(w: World, p: nat, k: nat, again: bool, foreign: set<nat>, ports: set<nat>) returns (steps: seq<Step>)
    requires Live(w, p) && w.procs[p].place == Creating(k, again) && k !in w.locks
    ensures Goes(w, steps, if k in ports then Leased(w, p, w.locks, k) else Move(w, p, w.locks, NextSlot(k)), p, foreign, ports)
  {
    hide Goes;
    var made := w.locks[k := Lock(w.now, None)];
    var w1 := Move(w, p, made, Probing(k));
    One(w, Create(p), w1, p, foreign, ports);
    if k in ports {
      var w2 := Move(w, p, made, Writing(k));
      MoveTwice(w, p, made, Probing(k), made, Writing(k));
      Go(w, [Create(p)], w1, Probe(p, true), w2, p, foreign, ports);
      Written(w, p, k);
      Go(w, [Create(p)] + [Probe(p, true)], w2, Write(p), Leased(w, p, w.locks, k), p, foreign, ports);
      steps := [Create(p)] + [Probe(p, true)] + [Write(p)];
    } else {
      var w2 := Move(w, p, made, BackingOut(k));
      MoveTwice(w, p, made, Probing(k), made, BackingOut(k));
      Go(w, [Create(p)], w1, Probe(p, false), w2, p, foreign, ports);
      assert made - {k} == w.locks;
      MoveTwice(w, p, made, BackingOut(k), w.locks, NextSlot(k));
      Go(w, [Create(p)] + [Probe(p, false)], w2, BackOut(p), Move(w, p, w.locks, NextSlot(k)), p, foreign, ports);
      steps := [Create(p)] + [Probe(p, false)] + [BackOut(p)];
    }
  }

  lemma Written(w: World, p: nat, k: nat)
    requires Live(w, p)
    ensures var w2 := Move(w, p, w.locks[k := Lock(w.now, None)], Writing(k));
            Enabled(w2, Write(p)) && Apply(w2, Write(p)) == Leased(w, p, w.locks, k)
  {
    var made, lock := w.locks[k := Lock(w.now, None)], Lock(w.now, Some(OwnerRecord(k, w.procs[p].pid, w.nonces)));
    assert made[k := lock] == w.locks[k := lock];
    MoveTwice(w, p, made, Writing(k), w.locks[k := lock], Holding(k, w.nonces));
  }

  /** A process that finds a lock reads and judges it. */
  lemma LockedSlot(w: World, p: nat, k: nat, foreign: set<nat>, ports: set<nat>) returns (steps: seq<Step>)
    requires Live(w, p) && w.procs[p].place == Creating(k, false) && k in w.locks
    ensures var alive := LivePids(w, foreign);
            Goes(w, steps, Move(w, p, w.locks, if Acquirable(w.locks, k, w.now, alive) then Removing(k) else NextSlot(k)), p, foreign, ports)
  {
    hide Goes;
    var seen := w.locks[k].owner;
    var w1 := Move(w, p, w.locks, Reading(k));
    One(w, Create(p), w1, p, foreign, ports);
    var w2 := Move(w, p, w.locks, Judging(k, seen));
    MoveTwice(w, p, w.locks, Reading(k), w.locks, Judging(k, seen));
    Go(w, [Create(p)], w1, Read(p), w2, p, foreign, ports);
    MoveKeepsPids(w, p, w.locks, Judging(k, seen), foreign);
    var place := if Acquirable(w.locks, k, w.now, LivePids(w, foreign)) then Removing(k) else NextSlot(k);
    MoveTwice(w, p, w.locks, Judging(k, seen), w.locks, place);
    Go(w, [Create(p)] + [Read(p)], w2, Judge(p, foreign, w.now), Move(w, p, w.locks, place), p, foreign, ports);
    steps := [Create(p)] + [Read(p)] + [Judge(p, foreign, w.now)];
  }

  /** One turn of the acquire loop. */
  lemma OneSlot(w: World, p: nat, k: nat, foreign: set<nat>, ports: set<nat>) returns (steps: seq<Step>)
    requires Live(w, p) && w.procs[p].place == Creating(k, false)
    ensures var takes := Acquirable(w.locks, k, w.now, LivePids(w, foreign));
            Goes(w, steps,
                 if takes && k in ports then Leased(w, p, w.locks, k)
                 else Move(w, p, if takes then w.locks - {k} else w.locks, NextSlot(k)), p, foreign, ports)
  {
    hide Goes;
    if k !in w.locks {
      steps := FreeSlot(w, p, k, false, foreign, ports);
      assert w.locks - {k} == w.locks;
      return;
    }
    var looked := LockedSlot(w, p, k, foreign, ports);
    steps := looked;
    if Acquirable(w.locks, k, w.now, LivePids(w, foreign)) {
      var left := w.locks - {k};
      var w1, w2 := Move(w, p, w.locks, Removing(k)), Move(w, p, left, Creating(k, true));
      MoveTwice(w, p, w.locks, Removing(k), left, Creating(k, true));
      Go(w, looked, w1, Remove(p), w2, p, foreign, ports);
      var more := FreeSlot(w2, p, k, true, foreign, ports);
      MoveTwice(w, p, left, Creating(k, true), left, NextSlot(k));
      LeasedLater(w, p, left, Creating(k, true), k);
      Chain(w, looked + [Remove(p)], w2, more,
            if k in ports then Leased(w, p, w.locks, k) else Move(w, p, left, NextSlot(k)), p, foreign, ports);
      steps := looked + [Remove(p)] + more;
    }
  }

  lemma LeasedLater(w: World, p: nat, locks: Locks, place: Place, k: nat)
    requires p in w.procs && (locks == w.locks - {k} || locks == w.locks)
    ensures Leased(Move(w, p, locks, place), p, locks, k) == Leased(w, p, w.locks, k)
  {
    var lock := Lock(w.now, Some(OwnerRecord(k, w.procs[p].pid, w.nonces)));
    assert locks[k := lock] == w.locks[k := lock];
    MoveTwice(w, p, locks, place, w.locks[k := lock], Holding(k, w.nonces));
  }

  // ---------------------------------------------------------------- all slots

  /** The takeable slots from k on, below the bound. */
  function TriedFrom(locks: Locks, k: nat, bound: nat, now: int, alive: set<nat>): set<nat> {
    set s | k <= s < bound && Acquirable(locks, s, now, alive)
  }

  /** What an acquire from slot k on comes to. */
  ghost predicate ComesTo(w: World, w': World, p: nat, k: nat, slot: Option<nat>, alive: set<nat>, ports: set<nat>)
    requires p in w.procs
  {
    match slot
    case Some(s) =>
      && k <= s < POOL_SIZE && s in ports && Acquirable(w.locks, s, w.now, alive)
      && (forall t | k <= t < s && Acquirable(w.locks, t, w.now, alive) :: t !in ports)
      && w' == Leased(w, p, w.locks - TriedFrom(w.locks, k, s, w.now, alive), s)
    case None =>
      && (forall t | k <= t < POOL_SIZE && Acquirable(w.locks, t, w.now, alive) :: t !in ports)
      && w' == Move(w, p, w.locks - TriedFrom(w.locks, k, POOL_SIZE, w.now, alive), Failed)
  }

  lemma {:induction false} FromSlot(w: World, p: nat, k: nat, foreign: set<nat>, ports: set<nat>)
    returns (steps: seq<Step>, w': World, slot: Option<nat>)
    requires Live(w, p) && w.procs[p].place == Creating(k, false) && k < POOL_SIZE
    ensures Goes(w, steps, w', p, foreign, ports) && ComesTo(w, w', p, k, slot, LivePids(w, foreign), ports)
    decreases POOL_SIZE - k
  {
    hide Goes, Acquirable, ComesTo, LivePids;
    var alive := LivePids(w, foreign);
    var takes := Acquirable(w.locks, k, w.now, alive);
    var first := OneSlot(w, p, k, foreign, ports);
    if takes && k in ports {
      ComesToNow(w, p, k, alive, ports);
      return first, Leased(w, p, w.locks, k), Some(k);
    }
    var locks := if takes then w.locks - {k} else w.locks;
    var w1 := Move(w, p, locks, NextSlot(k));
    if k + 1 == POOL_SIZE {
      ComesToEnd(w, p, k, locks, alive, ports);
      return first, w1, None;
    }
    MoveKeepsPids(w, p, locks, NextSlot(k), foreign);
    var rest;
    rest, w', slot := FromSlot(w1, p, k + 1, foreign, ports);
    Chain(w, first, w1, rest, w', p, foreign, ports);
    steps := first + rest;
    ComesToLater(w, w1, w', p, k, slot, locks, alive, ports);
  }

  lemma ComesToNow(w: World, p: nat, k: nat, alive: set<nat>, ports: set<nat>)
    requires p in w.procs && k < POOL_SIZE && k in ports && Acquirable(w.locks, k, w.now, alive)
    ensures ComesTo(w, Leased(w, p, w.locks, k), p, k, Some(k), alive, ports)
  {
    assert w.locks - TriedFrom(w.locks, k, k, w.now, alive) == w.locks;
  }

  lemma ComesToEnd(w: World, p: nat, k: nat, locks: Locks, alive: set<nat>, ports: set<nat>)
    requires p in w.procs && k + 1 == POOL_SIZE && (Acquirable(w.locks, k, w.now, alive) ==> k !in ports)
    requires locks == if Acquirable(w.locks, k, w.now, alive) then w.locks - {k} else w.locks
    ensures ComesTo(w, Move(w, p, locks, NextSlot(k)), p, k, None, alive, ports)
  {
    TriedAlso(w, locks, k, POOL_SIZE, alive);
    assert TriedFrom(w.locks, k + 1, POOL_SIZE, w.now, alive) == {};
    assert locks - {} == locks;
  }

  /** What the slots after k come to is what the acquire comes to, if slot k was not leased. */
  lemma ComesToLater(w: World, w1: World, w': World, p: nat, k: nat, slot: Option<nat>, locks: Locks, alive: set<nat>, ports: set<nat>)
    requires p in w.procs && k + 1 < POOL_SIZE && w1 == Move(w, p, locks, NextSlot(k))
    requires locks == if Acquirable(w.locks, k, w.now, alive) then w.locks - {k} else w.locks
    requires Acquirable(w.locks, k, w.now, alive) ==> k !in ports
    requires ComesTo(w1, w', p, k + 1, slot, alive, ports)
    ensures ComesTo(w, w', p, k, slot, alive, ports)
  {
    hide Acquirable, Move, Leased;
    var bound := match slot case Some(s) => s case None => POOL_SIZE;
    OtherSlots(w, locks, k, bound, alive);
    TriedAlso(w, locks, k, bound, alive);
    MovedOn(w, p, locks, NextSlot(k), TriedFrom(w.locks, k + 1, bound, w.now, alive), bound);
    MoveFields(w, p, locks, NextSlot(k));
  }

  lemma MoveFields(w: World, p: nat, locks: Locks, place: Place)
    requires p in w.procs
    ensures var w1 := Move(w, p, locks, place); w1.locks == locks && w1.now == w.now && p in w1.procs
  {
  }

  /** Deciding on slot k changes nothing for the slots after it. */
  lemma OtherSlots(w: World, locks: Locks, k: nat, bound: nat, alive: set<nat>)
    requires locks == w.locks - {k} || locks == w.locks
    ensures forall s | s != k :: Acquirable(locks, s, w.now, alive) <==> Acquirable(w.locks, s, w.now, alive)
    ensures TriedFrom(locks, k + 1, bound, w.now, alive) == TriedFrom(w.locks, k + 1, bound, w.now, alive)
  {
  }

  lemma TriedAlso(w: World, locks: Locks, k: nat, bound: nat, alive: set<nat>)
    requires k < bound && locks == if Acquirable(w.locks, k, w.now, alive) then w.locks - {k} else w.locks
    ensures locks - TriedFrom(w.locks, k + 1, bound, w.now, alive) == w.locks - TriedFrom(w.locks, k, bound, w.now, alive)
  {
    assert TriedFrom(w.locks, k, bound, w.now, alive)
        == TriedFrom(w.locks, k + 1, bound, w.now, alive) + if Acquirable(w.locks, k, w.now, alive) then {k} else {};
  }

  lemma MovedOn(w: World, p: nat, locks: Locks, place: Place, tried: set<nat>, slot: nat)
    requires p in w.procs
    ensures Leased(Move(w, p, locks, place), p, locks - tried, slot) == Leased(w, p, locks - tried, slot)
    ensures Move(Move(w, p, locks, place), p, locks - tried, Failed) == Move(w, p, locks - tried, Failed)
  {
    var lock := Lock(w.now, Some(OwnerRecord(slot, w.procs[p].pid, w.nonces)));
    MoveTwice(w, p, locks, place, (locks - tried)[slot := lock], Holding(slot, w.nonces));
    MoveTwice(w, p, locks, place, locks - tried, Failed);
  }

  // ---------------------------------------------------------------- the code

  /** The world with these locks, and with the process holding the lease if there is one. */
  function Ended(w: World, p: nat, locks: Locks, lease: Option<Lease>): World
    requires p in w.procs
  {
    match lease
    case Some(l) => Move(w, p, locks, Holding(l.slot, w.nonces)).(nonces := w.nonces + 1)
    case None => Move(w, p, locks, Failed)
  }

  /** An acquire on the lock folder ends with the locks and the lease of the run in which only its process steps. */
  method AcquireIsRun(w: World, p: nat, foreign: set<nat>, ports: set<nat>) returns (root: LockRoot, lease: Option<Lease>)
    requires Live(w, p) && w.procs[p].place == Creating(0, false)
    ensures exists steps :: Goes(w, steps, Ended(w, p, root.locks, lease), p, foreign, ports)
  {
    hide Goes;
    ghost var steps, w', slot := FromSlot(w, p, 0, foreign, ports);
    root := new LockRoot(w.locks);
    var environment;
    lease, environment := root.Acquire(None, w.procs[p].pid, w.nonces, w.now, LivePids(w, foreign), ports);
    ghost var alive := LivePids(w, foreign);
    assert forall b: nat :: TriedFrom(w.locks, 0, b, w.now, alive) == Tried(w.locks, b, w.now, alive);
    assert w' == Ended(w, p, root.locks, lease);
  }

  /** A release on the lock folder is the run of the release steps. */
  method ReleaseIsRun(w: World, p: nat) returns (root: LockRoot)
    requires Live(w, p) && w.procs[p].place.Holding?
    ensures exists steps :: Goes(w, steps, Move(w, p, root.locks, Released(w.procs[p].place.slot)), p, {}, {})
  {
    hide Goes;
    var place := w.procs[p].place;
    root := new LockRoot(w.locks);
    var handle := new LeaseHandle(root, place.slot, w.procs[p].pid, place.nonce);
    handle.Release();
    ghost var w1 := Apply(w, ReleaseCheck(p));
    ghost var end := Move(w, p, root.locks, Released(place.slot));
    One(w, ReleaseCheck(p), w1, p, {}, {});
    if w1.procs[p].place.Releasing? {
      MoveTwice(w, p, w.locks, Releasing(place.slot, place.nonce), root.locks, Released(place.slot));
      Go(w, [ReleaseCheck(p)], w1, ReleaseRemove(p), end, p, {}, {});
    } else {
      assert w1 == end;
    }
  }
}
