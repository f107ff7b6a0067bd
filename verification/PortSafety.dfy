/** Safety of the lease protocol under four stated assumptions on the schedule. */
module PortSafety {
  import opened PortPool
  import opened PortProtocol

  // ---------------------------------------------------------------- assumptions

  /** Between mkdir and its owner record, or its own removal, a live creator stays within the grace period. */
  ghost predicate InGrace(w: World, p: nat)
    requires Live(w, p)
  {
    var place := w.procs[p].place;
    place.Probing? || place.BackingOut? || place.Writing? ==>
      place.slot in w.locks && w.now - w.locks[place.slot].mtime < GRACE_MS
  }

  ghost predicate Timely(w: World, step: Step) {
    step.Tick? ==> forall p | Live(w, p) :: InGrace(w, p) ==> InGrace(w.(now := w.now + step.ms), p)
  }

  /** When a process decides to remove a lock, the lock still carries the record it has read, or still none. */
  predicate JudgesWhatIsThere(w: World, step: Step) {
    step.Judge? && Enabled(w, step) ==>
      var place := w.procs[step.p].place;
      Verdict(w, place, step.foreign, step.clock).Removing? ==> place.slot in w.locks && w.locks[place.slot].owner == place.seen
  }

  /** Nobody removes a lock while another live process has decided to remove it too. */
  ghost predicate OneRemover(w: World, step: Step) {
    step.Remove? && Enabled(w, step) ==>
      forall q | q != step.p && Live(w, q) && w.procs[q].place.Removing? :: w.procs[q].place.slot != w.procs[step.p].place.slot
  }

  /** A process takes a second lease only while it holds its lock, and releases the lock only after that lease. */
  ghost predicate LockBacked(w: World, step: Step) {
    && (step.Reacquire? && Enabled(w, step) ==> w.procs[step.p].place.Holding?)
    && (step.ReleaseCheck? && Enabled(w, step) ==> !w.procs[step.p].inherited)
  }

  datatype Assumption = InTime | RecordStays | OneRemoves | LockKept

  const ALL := {InTime, RecordStays, OneRemoves, LockKept}

  ghost predicate Met(a: Assumption, w: World, step: Step) {
    match a
    case InTime => Timely(w, step)
    case RecordStays => JudgesWhatIsThere(w, step)
    case OneRemoves => OneRemover(w, step)
    case LockKept => LockBacked(w, step)
  }

  /** Every step of the run meets these assumptions. */
  ghost predicate OrderlyFor(kept: set<Assumption>, w: World, steps: seq<Step>)
    requires Possible(w, steps)
    decreases |steps|
  {
    steps == [] || ((forall a | a in kept :: Met(a, w, steps[0])) && OrderlyFor(kept, Apply(w, steps[0]), steps[1..]))
  }

  ghost predicate Orderly(w: World, steps: seq<Step>)
    requires Possible(w, steps)
  {
    OrderlyFor(ALL, w, steps)
  }

  // ---------------------------------------------------------------- the invariant

  predicate Reclaims(w: World, p: nat, slot: nat) {
    Live(w, p) && w.procs[p].place.Removing? && w.procs[p].place.slot == slot
  }

  ghost predicate Inv(w: World) {
    && Exclusive(w)
    && (forall p | Live(w, p) :: InGrace(w, p))
    && (forall p, s :: Reclaims(w, p, s) ==> s in w.locks && forall q :: !Claims(w, q, s))
    && (forall p | Live(w, p) && !w.procs[p].place.Failed? :: w.procs[p].place.slot < POOL_SIZE)
    && (forall p | Live(w, p) && w.procs[p].inherited :: w.procs[p].place.Holding?)
  }

  /** A world in which no process has started yet; any locks may be left over from the past. */
  lemma StartHolds(locks: Locks, now: int, nonces: nat)
    ensures Inv(World(locks, map[], now, nonces))
  {
  }

  /** What a live process claims never looks stale. */
  lemma LiveClaimIsNotStale(w: World, q: nat, slot: nat, foreign: set<nat>)
    requires Inv(w) && Claims(w, q, slot)
    ensures slot in w.locks && !Stale(w.locks[slot], w.now, LivePids(w, foreign))
  {
    assert Intact(w, q) && InGrace(w, q);
    assert w.procs[q].pid in LivePids(w, foreign);
  }

  /** A lock found stale has no live claimant. */
  lemma {:induction false} StaleIsUnclaimed(w: World, slot: nat, foreign: set<nat>)
    requires Inv(w) && slot in w.locks && Stale(w.locks[slot], w.now, LivePids(w, foreign))
    ensures forall q :: !Claims(w, q, slot)
  {
    forall q ensures !Claims(w, q, slot) {
      if Claims(w, q, slot) {
        LiveClaimIsNotStale(w, q, slot, foreign);
      }
    }
  }

  lemma {:induction false} StepKeepsInv(w: World, step: Step)
    requires Inv(w) && Enabled(w, step) && Timely(w, step) && JudgesWhatIsThere(w, step) && OneRemover(w, step) && LockBacked(w, step)
    ensures Inv(Apply(w, step)) && !HitsLiveClaim(w, step)
  {
    hide Exclusive, Claims, Stale, Verdict, InGrace, Timely, JudgesWhatIsThere, OneRemover, LockBacked, Intact;
    if step.Remove? {
      assert Reclaims(w, step.p, w.procs[step.p].place.slot);
    }
    StepKeepsExclusionIff(w, step);
    GraceKept(w, step);
    ReclaimKept(w, step);
    PlacesKept(w, step);
  }

  lemma PlacesKept(w: World, step: Step)
    requires Inv(w) && Enabled(w, step) && LockBacked(w, step)
    ensures var w' := Apply(w, step);
            && (forall p | Live(w', p) && !w'.procs[p].place.Failed? :: w'.procs[p].place.slot < POOL_SIZE)
            && (forall p | Live(w', p) && w'.procs[p].inherited :: w'.procs[p].place.Holding?)
  {
    hide Exclusive, HitsLiveClaim, Claims, Stale, InGrace, Timely, Intact, Reclaims, OwnedBy;
  }

  lemma GraceKept(w: World, step: Step)
    requires Inv(w) && Enabled(w, step) && Timely(w, step) && !HitsLiveClaim(w, step)
    ensures forall p | Live(Apply(w, step), p) :: InGrace(Apply(w, step), p)
  {
    var w' := Apply(w, step);
    forall p | Live(w', p) ensures InGrace(w', p) {
      if Live(w, p) {
        assert InGrace(w, p);
        var place := w.procs[p].place;
        if ClaimPlace(place) {
          assert Claims(w, p, place.slot);
          if !step.Tick? && !step.Crash? && !step.Begin? && step.p != p {
            OthersLocksUntouched(w, step, p, place.slot);
          }
        }
      }
    }
  }

  lemma ReclaimKept(w: World, step: Step)
    requires Inv(w) && Enabled(w, step) && JudgesWhatIsThere(w, step) && OneRemover(w, step) && !HitsLiveClaim(w, step)
    ensures var w' := Apply(w, step);
            forall p, s :: Reclaims(w', p, s) ==> s in w'.locks && forall q :: !Claims(w', q, s)
  {
    var w' := Apply(w, step);
    forall p, s | Reclaims(w', p, s) ensures s in w'.locks && forall q :: !Claims(w', q, s) {
      if Reclaims(w, p, s) {
        RemovalKeepsReclaimed(w, step, p, s);
      } else {
        assert step == Judge(p, step.foreign, step.clock);
        StaleIsUnclaimed(w, s, step.foreign);
        forall q ensures !Claims(w', q, s) {
          assert !Claims(w, q, s);
        }
      }
    }
  }

  /** While a reclaimer is about to remove a lock, no other step removes that lock or claims its slot. */
  lemma RemovalKeepsReclaimed(w: World, step: Step, p: nat, s: nat)
    requires Inv(w) && Enabled(w, step) && OneRemover(w, step) && !HitsLiveClaim(w, step)
    requires Reclaims(w, p, s) && Reclaims(Apply(w, step), p, s)
    ensures s in Apply(w, step).locks && forall q :: !Claims(Apply(w, step), q, s)
  {
    var w' := Apply(w, step);
    if !step.Tick? && !step.Begin? && !step.Crash? {
      var place := w.procs[step.p].place;
      if ClaimPlace(place) {
        assert Claims(w, step.p, place.slot) && !Claims(w, step.p, s);
      }
      if place.Removing? {
        assert Reclaims(w, step.p, place.slot);
      }
    }
    forall q ensures !Claims(w', q, s) {
      assert !Claims(w, q, s);
    }
  }

  lemma {:induction false} RunKeepsInv(w: World, steps: seq<Step>)
    requires Inv(w) && Possible(w, steps) && Orderly(w, steps)
    ensures Inv(Run(w, steps)) && NeverHits(w, steps)
    decreases |steps|
  {
    hide Enabled, Apply, Inv, HitsLiveClaim, Timely, JudgesWhatIsThere, OneRemover, LockBacked;
    if steps != [] {
      assert Met(InTime, w, steps[0]) && Met(RecordStays, w, steps[0]) && Met(OneRemoves, w, steps[0]) && Met(LockKept, w, steps[0]);
      StepKeepsInv(w, steps[0]);
      RunKeepsInv(Apply(w, steps[0]), steps[1..]);
    }
  }

  // ---------------------------------------------------------------- what a user of a lease gets

  /** From its record until the release is done, or by inheritance. */
  predicate Leases(w: World, p: nat, slot: nat) {
    && Live(w, p)
    && (w.procs[p].place.Holding? || w.procs[p].place.Releasing? || (w.procs[p].place.Released? && w.procs[p].inherited))
    && w.procs[p].place.slot == slot
  }

  function Ports(slot: nat): set<nat> {
    {LeaseOf(slot).frontendPort, LeaseOf(slot).operatorApiPort}
  }

  /** After any orderly run, two live lease holders share neither a front-end nor an API port. */
  lemma {:induction false} LeasesShareNoPort(locks: Locks, now: int, nonces: nat, steps: seq<Step>, p: nat, q: nat, s: nat, t: nat)
    requires var w := World(locks, map[], now, nonces); Possible(w, steps) && Orderly(w, steps)
    requires var end := Run(World(locks, map[], now, nonces), steps); p != q && Leases(end, p, s) && Leases(end, q, t)
    ensures s != t && Ports(s) !! Ports(t)
  {
    var w := World(locks, map[], now, nonces);
    StartHolds(locks, now, nonces);
    RunKeepsInv(w, steps);
    var end := Run(w, steps);
    assert Claims(end, p, s) && Claims(end, q, t);
    assert s < POOL_SIZE && t < POOL_SIZE;
  }

  /** The two ways a process deletes a lock on its own account. */
  predicate DeletesOwn(step: Step) {
    step.ReleaseRemove? || step.BackOut?
  }

  /** In an orderly run neither a release nor a back-out deletes a lock that another live process claims. */
  lemma {:induction false} ReleaseDeletesOwnLock(w: World, step: Step, q: nat, s: nat)
    requires Inv(w) && Enabled(w, step) && DeletesOwn(step)
    requires q != step.p && Claims(w, q, s)
    ensures s in Apply(w, step).locks && Apply(w, step).locks[s] == w.locks[s]
    ensures step.ReleaseRemove? ==> OwnedBy(w.locks, w.procs[step.p].place.slot, w.procs[step.p].pid, w.procs[step.p].place.nonce)
  {
    OthersLocksUntouched(w, step, q, s);
    assert Claims(w, step.p, w.procs[step.p].place.slot);
    assert Intact(w, step.p);
  }

  /** The steps of one process. */
  predicate IsStepOf(step: Step, p: nat) {
    !step.Tick? && step.p == p
  }

  /** Along the run no step of the process changes a lock. */
  ghost predicate LeavesLocks(w: World, steps: seq<Step>, p: nat)
    requires Possible(w, steps)
    decreases |steps|
  {
    steps != [] ==>
      && (IsStepOf(steps[0], p) ==> Apply(w, steps[0]).locks == w.locks)
      && LeavesLocks(Apply(w, steps[0]), steps[1..], p)
  }

  /** The process has released its lease, or is dead: nothing it can still do touches a lock. */
  ghost predicate Spent(w: World, p: nat) {
    p in w.procs && (!w.procs[p].alive || w.procs[p].place.Released?)
  }

  lemma StepKeepsSpent(w: World, step: Step, p: nat)
    requires Spent(w, p) && Enabled(w, step)
    ensures Spent(Apply(w, step), p)
    ensures IsStepOf(step, p) ==> Apply(w, step).locks == w.locks
  {
  }

  /** With no assumption at all: once a lease is released, releasing again or anything else the process does changes no lock, in any run. */
  lemma {:induction false} ReleasedTouchesNoLock(w: World, steps: seq<Step>, p: nat)
    requires Spent(w, p) && Possible(w, steps)
    ensures LeavesLocks(w, steps, p)
    decreases |steps|
  {
    hide Enabled, Apply, Spent, IsStepOf;
    if steps != [] {
      StepKeepsSpent(w, steps[0], p);
      ReleasedTouchesNoLock(Apply(w, steps[0]), steps[1..], p);
    }
  }

  /**
   With no assumption at all: a late release, whose lock now carries another record or none,
   changes no lock, and neither does any later step of its process in any run.
   */
  lemma {:induction false} LateReleaseIsHarmless(w: World, p: nat, steps: seq<Step>)
    requires Possible(w, [ReleaseCheck(p)] + steps)
    requires !OwnedBy(w.locks, w.procs[p].place.slot, w.procs[p].pid, w.procs[p].place.nonce)
    ensures LeavesLocks(w, [ReleaseCheck(p)] + steps, p)
  {
    var all := [ReleaseCheck(p)] + steps;
    assert all[0] == ReleaseCheck(p) && all[1..] == steps;
    var w' := Apply(w, ReleaseCheck(p));
    assert Spent(w', p);
    ReleasedTouchesNoLock(w', steps, p);
  }
}
