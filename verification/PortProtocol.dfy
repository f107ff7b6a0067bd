/**
 Many processes contending for the slots: one step per file-system operation, in any
 order, with crashes at any point and process ids that may be reused. A reclaim is three
 steps: it reads the owner record, judges what it read, and removes the lock. A process that
 has leased a slot once gets the same slot again on a later acquire, from its environment
 and without a lock.
 */
module PortProtocol {
  import opened Wrappers
  import opened PortPool

  /** Where a process stands. `again` marks the second mkdir, after a reclaim; `seen` is the record that was read, if any. */
  datatype Place =
    | Creating(slot: nat, again: bool)
    | Reading(slot: nat)
    | Judging(slot: nat, seen: Option<Owner>)
    | Removing(slot: nat)
    | Probing(slot: nat)
    | BackingOut(slot: nat)
    | Writing(slot: nat)
    | Holding(slot: nat, nonce: nat)
    | Releasing(slot: nat, nonce: nat)
    | Released(slot: nat)
    | Failed

  /** `inherited` is a lease on the slot of the process's place that came from its environment. */
  datatype Process = Process(pid: nat, alive: bool, place: Place, inherited: bool)

  /** The shared folder, the processes by an identity that is never reused, the clock, and the next nonce. */
  datatype World = World(locks: Locks, procs: map<nat, Process>, now: int, nonces: nat)

  datatype Step =
    | Begin(p: nat, pid: nat)
    | Retry(p: nat)
    | Create(p: nat)
    | Read(p: nat)
    | Judge(p: nat, foreign: set<nat>, clock: int)
    | Remove(p: nat)
    | Probe(p: nat, available: bool)
    | BackOut(p: nat)
    | Write(p: nat)
    | ReleaseCheck(p: nat)
    | ReleaseRemove(p: nat)
    | Reacquire(p: nat)
    | EndInherited(p: nat)
    | Crash(p: nat)
    | Tick(ms: nat)

  predicate Live(w: World, p: nat) {
    p in w.procs && w.procs[p].alive
  }

  /** The process ids in use, `foreign` being those of processes outside the protocol. */
  function LivePids(w: World, foreign: set<nat>): set<nat> {
    foreign + set p | p in w.procs && w.procs[p].alive :: w.procs[p].pid
  }

  function NextSlot(slot: nat): Place {
    if slot + 1 < POOL_SIZE then Creating(slot + 1, false) else Failed
  }

  predicate Enabled(w: World, step: Step) {
    match step
    case Begin(p, pid) => p !in w.procs && pid !in LivePids(w, {})
    case Retry(p) => Live(w, p) && w.procs[p].place.Failed?
    case Create(p) => Live(w, p) && w.procs[p].place.Creating?
    case Read(p) => Live(w, p) && w.procs[p].place.Reading?
    case Judge(p, _, clock) => Live(w, p) && w.procs[p].place.Judging? && clock <= w.now
    case Remove(p) => Live(w, p) && w.procs[p].place.Removing?
    case Probe(p, _) => Live(w, p) && w.procs[p].place.Probing?
    case BackOut(p) => Live(w, p) && w.procs[p].place.BackingOut?
    case Write(p) => Live(w, p) && w.procs[p].place.Writing?
    case ReleaseCheck(p) => Live(w, p) && w.procs[p].place.Holding?
    case ReleaseRemove(p) => Live(w, p) && w.procs[p].place.Releasing?
    case Reacquire(p) => Live(w, p) && (w.procs[p].place.Holding? || w.procs[p].place.Released?)
    case EndInherited(p) => Live(w, p) && w.procs[p].inherited
    case Crash(p) => Live(w, p)
    case Tick(_) => true
  }

  /** The record of a slot's lock; None also if there is no lock. */
  function RecordAt(locks: Locks, slot: nat): Option<Owner> {
    if slot in locks then locks[slot].owner else None
  }

  /**
   Where a judgement leads. A record counts by whether its owner is alive now, even if the
   lock no longer carries it; without a record the folder that is there now counts by its
   age, for which the clock was read before.
   */
  function Verdict(w: World, place: Place, foreign: set<nat>, clock: int): Place
    requires place.Judging?
  {
    var slot := place.slot;
    match place.seen
    case Some(owner) => if owner.pid in LivePids(w, foreign) then NextSlot(slot) else Removing(slot)
    case None =>
      if slot !in w.locks then Creating(slot, true)
      else if clock - w.locks[slot].mtime < GRACE_MS then NextSlot(slot)
      else Removing(slot)
  }

  function Move(w: World, p: nat, locks: Locks, place: Place): World
    requires p in w.procs
  {
    w.(locks := locks, procs := w.procs[p := w.procs[p].(place := place)])
  }

  function Apply(w: World, step: Step): World
    requires Enabled(w, step)
  {
    match step
    case Begin(p, pid) => w.(procs := w.procs[p := Process(pid, true, Creating(0, false), false)])
    case Retry(p) => Move(w, p, w.locks, Creating(0, false))
    case Create(p) =>
      var slot := w.procs[p].place.slot;
      if slot !in w.locks then Move(w, p, w.locks[slot := Lock(w.now, None)], Probing(slot))
      else Move(w, p, w.locks, if w.procs[p].place.again then NextSlot(slot) else Reading(slot))
    case Read(p) =>
      var slot := w.procs[p].place.slot;
      Move(w, p, w.locks, Judging(slot, RecordAt(w.locks, slot)))
    case Judge(p, foreign, clock) => Move(w, p, w.locks, Verdict(w, w.procs[p].place, foreign, clock))
    case Remove(p) =>
      var slot := w.procs[p].place.slot;
      Move(w, p, w.locks - {slot}, Creating(slot, true))
    case Probe(p, available) =>
      var slot := w.procs[p].place.slot;
      Move(w, p, w.locks, if available then Writing(slot) else BackingOut(slot))
    case BackOut(p) =>
      var slot := w.procs[p].place.slot;
      Move(w, p, w.locks - {slot}, NextSlot(slot))
    case Write(p) =>
      var slot := w.procs[p].place.slot;
      if slot in w.locks then
        Move(w, p, w.locks[slot := Lock(w.now, Some(OwnerRecord(slot, w.procs[p].pid, w.nonces)))], Holding(slot, w.nonces))
        .(nonces := w.nonces + 1)
      else Move(w, p, w.locks, Failed)
    case ReleaseCheck(p) =>
      var place := w.procs[p].place;
      Move(w, p, w.locks,
           if OwnedBy(w.locks, place.slot, w.procs[p].pid, place.nonce) then Releasing(place.slot, place.nonce) else Released(place.slot))
    case ReleaseRemove(p) =>
      Move(w, p, w.locks - {w.procs[p].place.slot}, Released(w.procs[p].place.slot))
    case Reacquire(p) => w.(procs := w.procs[p := w.procs[p].(inherited := true)])
    case EndInherited(p) => w.(procs := w.procs[p := w.procs[p].(inherited := false)])
    case Crash(p) => w.(procs := w.procs[p := w.procs[p].(alive := false)])
    case Tick(ms) => w.(now := w.now + ms)
  }

  // ---------------------------------------------------------------- claims

  /** From its successful mkdir until it removes the lock again, a process claims the slot. */
  predicate ClaimPlace(place: Place) {
    place.Probing? || place.BackingOut? || place.Writing? || place.Holding? || place.Releasing?
  }

  predicate Claims(w: World, p: nat, slot: nat) {
    Live(w, p) && ClaimPlace(w.procs[p].place) && w.procs[p].place.slot == slot
  }

  /** The lock is the one its claimant made: unowned until the record is written, then carrying it. */
  predicate Intact(w: World, p: nat)
    requires Live(w, p) && ClaimPlace(w.procs[p].place)
  {
    var place := w.procs[p].place;
    && place.slot in w.locks
    && (if place.Holding? || place.Releasing? then OwnedBy(w.locks, place.slot, w.procs[p].pid, place.nonce)
        else w.locks[place.slot].owner.None?)
  }

  /** No slot is claimed twice, every claim is backed by its own lock, and live process ids differ. */
  ghost predicate Exclusive(w: World) {
    && (forall p, q, s :: Claims(w, p, s) && Claims(w, q, s) ==> p == q)
    && (forall p, s :: Claims(w, p, s) ==> Intact(w, p))
    && (forall p, q :: Live(w, p) && Live(w, q) && w.procs[p].pid == w.procs[q].pid ==> p == q)
  }

  /** The removal half of a reclaim is about to delete a lock that a live process claims. */
  ghost predicate HitsLiveClaim(w: World, step: Step) {
    step.Remove? && step.p in w.procs && w.procs[step.p].place.Removing?
    && exists q :: Claims(w, q, w.procs[step.p].place.slot)
  }

  /**
   Exactly one kind of step can break the exclusion: a removal that lands on a live claim.
   Every other step of every process keeps it, crashes and the clock included.
   */
  lemma {:induction false} StepKeepsExclusionIff(w: World, step: Step)
    requires Exclusive(w) && Enabled(w, step)
    ensures Exclusive(Apply(w, step)) <==> !HitsLiveClaim(w, step)
  {
    var w' := Apply(w, step);
    if HitsLiveClaim(w, step) {
      var slot := w.procs[step.p].place.slot;
      var q :| Claims(w, q, slot);
      assert Claims(w', q, slot) && !Intact(w', q);
    } else if step.Tick? || step.Crash? {
      forall p, s | Claims(w', p, s) ensures Claims(w, p, s) && Intact(w', p) {
        assert Claims(w, p, s);
        assert Intact(w, p);
      }
    } else if step.Begin? {
      BeginKeeps(w, step.p, step.pid);
    } else {
      MoveKeeps(w, step);
    }
  }

  lemma BeginKeeps(w: World, p: nat, pid: nat)
    requires Exclusive(w) && Enabled(w, Begin(p, pid))
    ensures Exclusive(Apply(w, Begin(p, pid)))
  {
    var w' := Apply(w, Begin(p, pid));
    forall q | Live(w, q) ensures w.procs[q].pid != pid {
      assert w.procs[q].pid in LivePids(w, {});
    }
    forall q, s | Claims(w', q, s) ensures Claims(w, q, s) && Intact(w', q) {
      assert Claims(w, q, s);
      assert Intact(w, q);
    }
  }

  /** A step of one process touches at most its own slot, where nobody else has a claim. */
  lemma MoveKeeps(w: World, step: Step)
    requires Exclusive(w) && Enabled(w, step) && !HitsLiveClaim(w, step)
    requires !step.Tick? && !step.Crash? && !step.Begin?
    ensures Exclusive(Apply(w, step))
  {
    var w' := Apply(w, step);
    var me := step.p;
    forall q, s | q != me && Claims(w', q, s) ensures Claims(w, q, s) && Intact(w', q) {
      assert Claims(w, q, s) && Intact(w, q);
      OthersLocksUntouched(w, step, q, s);
    }
    if Live(w', me) && ClaimPlace(w'.procs[me].place) {
      var s := w'.procs[me].place.slot;
      assert Claims(w', me, s);
      MyClaim(w, step, s);
      forall q | q != me && Claims(w', q, s) ensures false {
        assert Claims(w, q, s) && Intact(w, q);
        OthersLocksUntouched(w, step, q, s);
      }
    }
    forall p, s | Claims(w', p, s) ensures Intact(w', p) {
    }
    forall p, q, s | Claims(w', p, s) && Claims(w', q, s) ensures p == q {
    }
  }

  lemma OthersLocksUntouched(w: World, step: Step, q: nat, s: nat)
    requires Exclusive(w) && Enabled(w, step) && !HitsLiveClaim(w, step)
    requires !step.Tick? && !step.Crash? && !step.Begin?
    requires q != step.p && Claims(w, q, s)
    ensures var w' := Apply(w, step);
            && s in w.locks && s in w'.locks && w'.locks[s] == w.locks[s]
            && !Claims(w', step.p, s)
  {
    assert Intact(w, q);
    var me := w.procs[step.p].place;
    if ClaimPlace(me) {
      assert Claims(w, step.p, me.slot);
      assert me.slot != s;
    }
  }

  lemma MyClaim(w: World, step: Step, s: nat)
    requires Exclusive(w) && Enabled(w, step)
    requires !step.Tick? && !step.Crash? && !step.Begin?
    requires Claims(Apply(w, step), step.p, s)
    ensures Intact(Apply(w, step), step.p)
  {
    var me := w.procs[step.p].place;
    if ClaimPlace(me) {
      assert Claims(w, step.p, me.slot);
      assert Intact(w, step.p);
    }
  }

  // ---------------------------------------------------------------- runs

  ghost predicate Possible(w: World, steps: seq<Step>)
    decreases |steps|
  {
    steps == [] || (Enabled(w, steps[0]) && Possible(Apply(w, steps[0]), steps[1..]))
  }

  ghost function Run(w: World, steps: seq<Step>): World
    requires Possible(w, steps)
    decreases |steps|
  {
    if steps == [] then w else Run(Apply(w, steps[0]), steps[1..])
  }

  ghost predicate ExclusiveThroughout(w: World, steps: seq<Step>)
    requires Possible(w, steps)
    decreases |steps|
  {
    Exclusive(w) && (steps != [] ==> ExclusiveThroughout(Apply(w, steps[0]), steps[1..]))
  }

  ghost predicate NeverHits(w: World, steps: seq<Step>)
    requires Possible(w, steps)
    decreases |steps|
  {
    steps == [] || (!HitsLiveClaim(w, steps[0]) && NeverHits(Apply(w, steps[0]), steps[1..]))
  }

  /** A run keeps the exclusion in all its states exactly when none of its removals lands on a live claim. */
  lemma {:induction false} RunKeepsExclusionIff(w: World, steps: seq<Step>)
    requires Exclusive(w) && Possible(w, steps)
    ensures ExclusiveThroughout(w, steps) <==> NeverHits(w, steps)
    decreases |steps|
  {
    if steps != [] {
      StepKeepsExclusionIff(w, steps[0]);
      if Exclusive(Apply(w, steps[0])) {
        RunKeepsExclusionIff(Apply(w, steps[0]), steps[1..]);
      }
    }
  }

  // ---------------------------------------------------------------- composing runs

  /** The steps are possible in turn and lead from the one world to the other. */
  ghost predicate Leads(w: World, steps: seq<Step>, w': World) {
    Possible(w, steps) && Run(w, steps) == w'
  }

  lemma {:induction false} Join(w: World, a: seq<Step>, mid: World, b: seq<Step>, w': World)
    requires Leads(w, a, mid) && Leads(mid, b, w')
    ensures Leads(w, a + b, w')
    decreases |a|
  {
    hide Enabled, Apply;
    if a == [] {
      assert a + b == b;
    } else {
      assert (a + b)[0] == a[0] && (a + b)[1..] == a[1..] + b;
      Join(Apply(w, a[0]), a[1..], mid, b, w');
    }
  }

  lemma StandStill(w: World)
    ensures Leads(w, [], w)
  {
  }

  lemma OneStep(w: World, step: Step)
    requires Enabled(w, step)
    ensures Leads(w, [step], Apply(w, step))
  {
    hide Enabled, Apply;
    StandStill(Apply(w, step));
    assert [step][0] == step && [step][1..] == [];
  }

  lemma Then(start: World, steps: seq<Step>, w: World, step: Step, w': World)
    requires Leads(start, steps, w) && Enabled(w, step) && Apply(w, step) == w'
    ensures Leads(start, steps + [step], w')
  {
    hide Enabled, Apply;
    OneStep(w, step);
    Join(start, steps, w, [step], w');
  }
}
