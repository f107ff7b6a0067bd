/**
 The exclusion is exact for leases themselves: while every lease is backed by its lock, no
 slot is shared before a removal lands on a live claim, and after one some continuation
 ends with two live processes using one slot.
 */
module PortExactness {
  import opened Wrappers
  import opened PortPool
  import opened PortProtocol
  import opened PortSafety

  /** The process uses the ports of the slot: its record is written, or it inherited the slot. */
  predicate Uses(w: World, p: nat, slot: nat) {
    Live(w, p) && !w.procs[p].place.Failed? && w.procs[p].place.slot == slot
    && (w.procs[p].place.Holding? || w.procs[p].inherited)
  }

  ghost predicate SharedLease(w: World) {
    exists p, q, s :: p != q && Uses(w, p, s) && Uses(w, q, s)
  }

  /** Some run from here ends with a shared lease. */
  ghost predicate CanShare(w: World) {
    exists steps :: Possible(w, steps) && SharedLease(Run(w, steps))
  }

  lemma CanShareLater(w: World, steps: seq<Step>, w': World)
    requires Leads(w, steps, w') && CanShare(w')
    ensures CanShare(w)
  {
    hide Possible, Run, SharedLease;
    var more :| Possible(w', more) && SharedLease(Run(w', more));
    Join(w, steps, w', more, Run(w', more));
  }

  lemma SharedNow(w: World, p: nat, q: nat, s: nat)
    requires p != q && Uses(w, p, s) && Uses(w, q, s)
    ensures CanShare(w)
  {
    assert Possible(w, []) && Run(w, []) == w;
    assert SharedLease(w);
  }

  // ---------------------------------------------------------------- taking a free slot

  predicate AtFreeSlot(w: World, p: nat) {
    Live(w, p) && w.procs[p].place.Creating? && w.procs[p].place.slot !in w.locks
  }

  /** The world after the process has taken the free slot it is at. */
  function Taken(w: World, p: nat): World
    requires AtFreeSlot(w, p)
  {
    var s := w.procs[p].place.slot;
    Move(w, p, w.locks[s := Lock(w.now, Some(OwnerRecord(s, w.procs[p].pid, w.nonces)))], Holding(s, w.nonces)).(nonces := w.nonces + 1)
  }

  lemma TakesFreeSlot(w: World, p: nat)
    requires AtFreeSlot(w, p)
    ensures Leads(w, [Create(p), Probe(p, true), Write(p)], Taken(w, p))
  {
    hide Possible, Run;
    var s := w.procs[p].place.slot;
    var w1 := Move(w, p, w.locks[s := Lock(w.now, None)], Probing(s));
    OneStep(w, Create(p));
    var w2 := Move(w, p, w.locks[s := Lock(w.now, None)], Writing(s));
    assert Apply(w1, Probe(p, true)) == w2 by { MoveTwice(w, p, w1.locks, Probing(s), w1.locks, Writing(s)); }
    Then(w, [Create(p)], w1, Probe(p, true), w2);
    assert [Create(p)] + [Probe(p, true)] == [Create(p), Probe(p, true)];
    var lock := Lock(w.now, Some(OwnerRecord(s, w.procs[p].pid, w.nonces)));
    assert w2.locks[s := lock] == w.locks[s := lock];
    MoveTwice(w, p, w2.locks, Writing(s), w.locks[s := lock], Holding(s, w.nonces));
    Then(w, [Create(p), Probe(p, true)], w2, Write(p), Taken(w, p));
    assert [Create(p), Probe(p, true)] + [Write(p)] == [Create(p), Probe(p, true), Write(p)];
  }

  lemma MoveTwice(w: World, p: nat, a: Locks, x: Place, b: Locks, y: Place)
    requires p in w.procs
    ensures Move(Move(w, p, a, x), p, b, y) == Move(w, p, b, y)
  {
  }

  // ---------------------------------------------------------------- a newcomer reaches the slot

  lemma {:induction false} FreshNumber(used: set<nat>) returns (n: nat)
    ensures n !in used && forall x | x in used :: x < n
  {
    n := 0;
    if used != {} {
      var x :| x in used;
      var rest := FreshNumber(used - {x});
      assert forall y | y in used :: y == x || y in used - {x};
      n := if rest > x then rest else x + 1;
    }
  }

  /** A process at a slot that has no lock passes it by if the ports are busy. */
  lemma PassFreeSlot(w: World, p: nat)
    requires AtFreeSlot(w, p) && w.procs[p].place.slot + 1 < POOL_SIZE
    ensures Leads(w, [Create(p), Probe(p, false), BackOut(p)],
                  Move(w, p, w.locks, Creating(w.procs[p].place.slot + 1, false)))
  {
    hide Possible, Run;
    var s := w.procs[p].place.slot;
    var made := w.locks[s := Lock(w.now, None)];
    var w1 := Move(w, p, made, Probing(s));
    OneStep(w, Create(p));
    var w2 := Move(w, p, made, BackingOut(s));
    MoveTwice(w, p, made, Probing(s), made, BackingOut(s));
    Then(w, [Create(p)], w1, Probe(p, false), w2);
    assert [Create(p)] + [Probe(p, false)] == [Create(p), Probe(p, false)];
    assert made - {s} == w.locks;
    MoveTwice(w, p, made, BackingOut(s), w.locks, Creating(s + 1, false));
    Then(w, [Create(p), Probe(p, false)], w2, BackOut(p), Move(w, p, w.locks, Creating(s + 1, false)));
    assert [Create(p), Probe(p, false)] + [BackOut(p)] == [Create(p), Probe(p, false), BackOut(p)];
  }

  /** The processes outside the protocol that make an owned lock's owner look alive. */
  function OwnersOf(lock: Lock): set<nat> {
    match lock.owner case Some(owner) => {owner.pid} case None => {}
  }

  /** A process finds a lock and reads its record. */
  lemma Looked(w: World, p: nat, k: nat) returns (w': World)
    requires Live(w, p) && w.procs[p].place == Creating(k, false) && k in w.locks
    ensures w' == Move(w, p, w.locks, Judging(k, w.locks[k].owner))
    ensures Leads(w, [Create(p), Read(p)], w')
  {
    hide Possible, Run;
    var w1 := Move(w, p, w.locks, Reading(k));
    OneStep(w, Create(p));
    w' := Move(w, p, w.locks, Judging(k, w.locks[k].owner));
    MoveTwice(w, p, w.locks, Reading(k), w.locks, Judging(k, w.locks[k].owner));
    Then(w, [Create(p)], w1, Read(p), w');
    assert [Create(p)] + [Read(p)] == [Create(p), Read(p)];
  }

  /** From one slot to the next, leaving the locks of other slots alone. */
  lemma Hop(w: World, p: nat, k: nat) returns (steps: seq<Step>, locks: Locks)
    requires Live(w, p) && w.procs[p].place == Creating(k, false) && k + 1 < POOL_SIZE
    ensures Leads(w, steps, Move(w, p, locks, Creating(k + 1, false)))
    ensures locks == w.locks || locks == w.locks - {k}
  {
    hide Possible, Run;
    if k !in w.locks {
      PassFreeSlot(w, p);
      return [Create(p), Probe(p, false), BackOut(p)], w.locks;
    }
    var foreign := OwnersOf(w.locks[k]);
    var seen := w.locks[k].owner;
    var w1 := Looked(w, p, k);
    var judge := Judge(p, foreign, w.now);
    steps := [Create(p), Read(p)] + [judge];
    if !Stale(w.locks[k], w.now, LivePids(w1, foreign)) {
      MoveTwice(w, p, w.locks, Judging(k, seen), w.locks, Creating(k + 1, false));
      Then(w, [Create(p), Read(p)], w1, judge, Move(w, p, w.locks, Creating(k + 1, false)));
      return steps, w.locks;
    }
    var w2 := Move(w, p, w.locks, Removing(k));
    MoveTwice(w, p, w.locks, Judging(k, seen), w.locks, Removing(k));
    Then(w, [Create(p), Read(p)], w1, judge, w2);
    locks := w.locks - {k};
    var w3 := Move(w, p, locks, Creating(k, true));
    MoveTwice(w, p, w.locks, Removing(k), locks, Creating(k, true));
    Then(w, steps, w2, Remove(p), w3);
    PassFreeSlot(w3, p);
    MoveTwice(w, p, locks, Creating(k, true), locks, Creating(k + 1, false));
    Join(w, steps + [Remove(p)], w3, [Create(p), Probe(p, false), BackOut(p)], Move(w, p, locks, Creating(k + 1, false)));
    steps := steps + [Remove(p)] + [Create(p), Probe(p, false), BackOut(p)];
  }

  /** A process before a slot without a lock can reach it while all others stand still. */
  lemma {:induction false} Walk(w: World, p: nat, k: nat, s: nat) returns (steps: seq<Step>, locks: Locks)
    requires Live(w, p) && w.procs[p].place == Creating(k, false) && k <= s < POOL_SIZE && s !in w.locks
    ensures Leads(w, steps, Move(w, p, locks, Creating(s, false))) && s !in locks
    decreases s - k
  {
    hide Possible, Run;
    if k == s {
      assert Move(w, p, w.locks, Creating(s, false)) == w;
      assert Leads(w, [], w) by { StandStill(w); }
      return [], w.locks;
    }
    var hop, between := Hop(w, p, k);
    var w1 := Move(w, p, between, Creating(k + 1, false));
    var rest, after := Walk(w1, p, k + 1, s);
    MoveTwice(w, p, between, Creating(k + 1, false), after, Creating(s, false));
    Join(w, hop, w1, rest, Move(w, p, after, Creating(s, false)));
    return hop + rest, after;
  }

  /** A process that uses a slot without a lock can be joined by a newcomer. */
  lemma NewcomerShares(w: World, p: nat, s: nat)
    requires Uses(w, p, s) && s !in w.locks && s < POOL_SIZE
    ensures CanShare(w)
  {
    hide Possible, Run;
    var r := FreshNumber(w.procs.Keys);
    var pid := FreshNumber(LivePids(w, {}));
    var begin := Begin(r, pid);
    OneStep(w, begin);
    var w1 := Apply(w, begin);
    var steps, locks := Walk(w1, r, 0, s);
    var w2 := Move(w1, r, locks, Creating(s, false));
    TakesFreeSlot(w2, r);
    var w3 := Taken(w2, r);
    assert Uses(w3, p, s) && Uses(w3, r, s);
    SharedNow(w3, p, r, s);
    CanShareLater(w2, [Create(r), Probe(r, true), Write(r)], w3);
    CanShareLater(w1, steps, w2);
    CanShareLater(w, [begin], w1);
  }

  // ---------------------------------------------------------------- what a hit leads to

  /** A claimant whose lock was taken over by a user of the slot: it goes on, or somebody else comes. */
  lemma ClaimantGoesOn(w: World, p: nat, q: nat, s: nat)
    requires p != q && Uses(w, p, s) && Claims(w, q, s) && s in w.locks && s < POOL_SIZE
    ensures CanShare(w)
  {
    hide Possible, Run, CanShare;
    var place := w.procs[q].place;
    if place.Holding? {
      SharedNow(w, p, q, s);
    } else if place.Writing? {
      WriterShares(w, p, q, s);
    } else if place.Probing? {
      var w1 := Apply(w, Probe(q, true));
      OneStep(w, Probe(q, true));
      WriterShares(w1, p, q, s);
      CanShareLater(w, [Probe(q, true)], w1);
    } else {
      var step := if place.BackingOut? then BackOut(q) else ReleaseRemove(q);
      OneStep(w, step);
      NewcomerShares(Apply(w, step), p, s);
      CanShareLater(w, [step], Apply(w, step));
    }
  }

  lemma WriterShares(w: World, p: nat, q: nat, s: nat)
    requires p != q && Uses(w, p, s) && Live(w, q) && w.procs[q].place == Writing(s) && s in w.locks
    ensures CanShare(w)
  {
    hide Possible, Run, CanShare;
    OneStep(w, Write(q));
    SharedNow(Apply(w, Write(q)), p, q, s);
    CanShareLater(w, [Write(q)], Apply(w, Write(q)));
  }

  /**
   A removal that lands on a live claim can always be continued to a lease that two live
   processes share: for leases, too, such removals are exactly what must not happen.
   */
  lemma {:induction false} HitLeadsToSharedLease(w: World, step: Step)
    requires Enabled(w, step) && HitsLiveClaim(w, step) && w.procs[step.p].place.slot < POOL_SIZE
    ensures CanShare(Apply(w, step))
  {
    hide Possible, Run, CanShare;
    var p, s := step.p, w.procs[step.p].place.slot;
    var q :| Claims(w, q, s);
    var w1 := Apply(w, step);
    TakesFreeSlot(w1, p);
    var w2 := Taken(w1, p);
    assert Claims(w2, q, s) && Uses(w2, p, s);
    ClaimantGoesOn(w2, p, q, s);
    CanShareLater(w1, [Create(p), Probe(p, true), Write(p)], w2);
  }

  // ---------------------------------------------------------------- what the absence of hits gives

  /** Every lease is backed by its process's own lock. */
  ghost predicate Backed(w: World) {
    forall p | Live(w, p) && w.procs[p].inherited :: w.procs[p].place.Holding?
  }

  lemma StepKeepsBacked(w: World, step: Step)
    requires Backed(w) && Enabled(w, step) && LockBacked(w, step)
    ensures Backed(Apply(w, step))
  {
    hide Stale, OwnedBy;
  }

  /** Without a hit no slot is ever shared, whatever the clock and the reclaims do. */
  lemma {:induction false} NoHitNoSharedLease(w: World, steps: seq<Step>)
    requires Exclusive(w) && Backed(w) && Possible(w, steps) && OrderlyFor({LockKept}, w, steps) && NeverHits(w, steps)
    ensures !SharedLease(Run(w, steps))
    decreases |steps|
  {
    if steps == [] {
      forall p, q, s | Uses(w, p, s) && Uses(w, q, s) ensures p == q {
        assert Claims(w, p, s) && Claims(w, q, s);
      }
    } else {
      hide Enabled, Apply, Exclusive, Backed, SharedLease, HitsLiveClaim, LockBacked;
      StepKeepsExclusionIff(w, steps[0]);
      assert Met(LockKept, w, steps[0]);
      StepKeepsBacked(w, steps[0]);
      NoHitNoSharedLease(Apply(w, steps[0]), steps[1..]);
    }
  }
}
