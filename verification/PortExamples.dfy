/**
 Runs that end with one slot leased to two live processes. Each meets all assumptions of
 the safety theorem but one, so none of the four can be dropped.
 */
module PortExamples {
  import opened Wrappers
  import opened PortPool
  import opened PortProtocol
  import opened PortSafety
  import opened PortExactness

  // ---------------------------------------------------------------- runs that keep some assumptions

  /** The run leads from the one world to the other and meets these assumptions all along. */
  ghost predicate Reaches(kept: set<Assumption>, w: World, steps: seq<Step>, w': World) {
    Leads(w, steps, w') && OrderlyFor(kept, w, steps)
  }

  /** No assumption says anything about such a step. */
  predicate Plain(step: Step) {
    !step.Tick? && !step.Judge? && !step.Remove? && !step.Reacquire? && !step.ReleaseCheck?
  }

  lemma {:induction false} PlainRun(kept: set<Assumption>, w: World, steps: seq<Step>)
    requires Possible(w, steps) && forall step | step in steps :: Plain(step)
    ensures OrderlyFor(kept, w, steps)
    decreases |steps|
  {
    hide Enabled, Apply;
    if steps != [] {
      assert steps[0] in steps && forall step | step in steps[1..] :: step in steps;
      assert Plain(steps[0]);
      PlainRun(kept, Apply(w, steps[0]), steps[1..]);
    }
  }

  lemma {:induction false} Chain(kept: set<Assumption>, w: World, a: seq<Step>, mid: World, b: seq<Step>, w': World)
    requires Reaches(kept, w, a, mid) && Reaches(kept, mid, b, w')
    ensures Reaches(kept, w, a + b, w')
    decreases |a|
  {
    hide Enabled, Apply, Met;
    Join(w, a, mid, b, w');
    if a == [] {
      assert a + b == b;
    } else {
      assert (a + b)[0] == a[0] && (a + b)[1..] == a[1..] + b;
      Chain(kept, Apply(w, a[0]), a[1..], mid, b, w');
    }
  }

  lemma First(kept: set<Assumption>, w: World, step: Step, w': World)
    requires Enabled(w, step) && Apply(w, step) == w'
    requires Plain(step) || forall a | a in kept :: Met(a, w, step)
    ensures Reaches(kept, w, [step], w')
  {
    hide Enabled, Apply;
    OneStep(w, step);
    assert [step][0] == step && [step][1..] == [];
    assert Possible(Apply(w, step), []) && OrderlyFor(kept, Apply(w, step), []);
    if Plain(step) {
      assert forall s | s in [step] :: s == step;
      PlainRun(kept, w, [step]);
    }
  }

  lemma Go(kept: set<Assumption>, start: World, done: seq<Step>, w: World, step: Step, w': World)
    requires Reaches(kept, start, done, w) && Enabled(w, step) && Apply(w, step) == w'
    requires Plain(step) || forall a | a in kept :: Met(a, w, step)
    ensures Reaches(kept, start, done + [step], w')
  {
    hide Enabled, Apply, Met, Reaches;
    First(kept, w, step, w');
    Chain(kept, start, done, w, [step], w');
  }

  /** A process takes the free slot it is at. */
  function Take(p: nat): seq<Step> {
    [Create(p), Probe(p, true), Write(p)]
  }

  lemma Takes(kept: set<Assumption>, start: World, done: seq<Step>, w: World, p: nat, w': World)
    requires Reaches(kept, start, done, w) && AtFreeSlot(w, p) && Taken(w, p) == w'
    ensures Reaches(kept, start, done + Take(p), w')
  {
    hide Enabled, Apply, Met;
    TakesFreeSlot(w, p);
    PlainRun(kept, w, Take(p));
    Chain(kept, start, done, w, Take(p), w');
  }

  // ---------------------------------------------------------------- worlds with slot 0

  function Record(pid: nat, nonce: nat, mtime: int): Locks {
    map[0 := Lock(mtime, Some(OwnerRecord(0, pid, nonce)))]
  }

  function Unowned(mtime: int): Locks {
    map[0 := Lock(mtime, None)]
  }

  /** A live process without a second lease. */
  function At(pid: nat, place: Place): Process {
    Process(pid, true, place, false)
  }

  function One(locks: Locks, first: Process, now: int, nonces: nat): World {
    World(locks, map[1 := first], now, nonces)
  }

  function Two(locks: Locks, first: Process, second: Process, now: int, nonces: nat): World {
    World(locks, map[1 := first, 2 := second], now, nonces)
  }

  function Three(locks: Locks, first: Process, second: Process, third: Process, now: int, nonces: nat): World {
    World(locks, map[1 := first, 2 := second, 3 := third], now, nonces)
  }

  lemma TwoUpdates()
    ensures forall x: Process, z: Process :: map[1 := x][1 := z] == map[1 := z]
    ensures forall x: Process, y: Process, z: Process :: map[1 := x, 2 := y][1 := z] == map[1 := z, 2 := y]
    ensures forall x: Process, y: Process, z: Process :: map[1 := x, 2 := y][2 := z] == map[1 := x, 2 := z]
  {
    forall x: Process, y: Process, z: Process
      ensures map[1 := x, 2 := y][1 := z] == map[1 := z, 2 := y]
      ensures map[1 := x, 2 := y][2 := z] == map[1 := x, 2 := z]
    {
    }
  }

  lemma ThreeUpdates()
    ensures forall x: Process, y: Process, u: Process, z: Process :: map[1 := x, 2 := y, 3 := u][2 := z] == map[1 := x, 2 := z, 3 := u]
    ensures forall x: Process, y: Process, u: Process, z: Process :: map[1 := x, 2 := y, 3 := u][3 := z] == map[1 := x, 2 := y, 3 := z]
  {
    forall x: Process, y: Process, u: Process, z: Process
      ensures map[1 := x, 2 := y, 3 := u][2 := z] == map[1 := x, 2 := z, 3 := u]
      ensures map[1 := x, 2 := y, 3 := u][3 := z] == map[1 := x, 2 := y, 3 := z]
    {
    }
  }

  /** A process makes the lock of slot 0 in an empty folder. */
  lemma FirstCreates(kept: set<Assumption>, start: World)
    requires start == World(map[], map[], 0, 0)
    ensures Reaches(kept, start, [Begin(1, 11)] + [Create(1)], One(Unowned(0), At(11, Probing(0)), 0, 0))
  {
    hide Reaches, Met;
    TwoUpdates();
    var w1 := One(map[], At(11, Creating(0, false)), 0, 0);
    First(kept, start, Begin(1, 11), w1);
    Go(kept, start, [Begin(1, 11)], w1, Create(1), One(Unowned(0), At(11, Probing(0)), 0, 0));
  }

  /** A process leases slot 0 of an empty folder. */
  lemma FirstLeases(kept: set<Assumption>, start: World)
    requires start == World(map[], map[], 0, 0)
    ensures Reaches(kept, start, [Begin(1, 11)] + Take(1), One(Record(11, 0, 0), At(11, Holding(0, 0)), 0, 1))
  {
    hide Reaches, Met;
    TwoUpdates();
    var w1 := One(map[], At(11, Creating(0, false)), 0, 0);
    First(kept, start, Begin(1, 11), w1);
    Takes(kept, start, [Begin(1, 11)], w1, 1, One(Record(11, 0, 0), At(11, Holding(0, 0)), 0, 1));
  }

  /** The first process finds its ports free and writes its record into the folder. */
  lemma FirstWrites(kept: set<Assumption>, start: World, done: seq<Step>, mtime: int, second: Process, now: int)
    requires Reaches(kept, start, done, Two(Unowned(mtime), At(11, Probing(0)), second, now, 0))
    ensures Reaches(kept, start, done + [Probe(1, true)] + [Write(1)],
                    Two(Record(11, 0, now), At(11, Holding(0, 0)), second, now, 1))
  {
    hide Reaches, Met;
    TwoUpdates();
    var w1 := Two(Unowned(mtime), At(11, Writing(0)), second, now, 0);
    Go(kept, start, done, Two(Unowned(mtime), At(11, Probing(0)), second, now, 0), Probe(1, true), w1);
    Go(kept, start, done + [Probe(1, true)], w1, Write(1), Two(Record(11, 0, now), At(11, Holding(0, 0)), second, now, 1));
  }

  /** A second process finds the lock and reads its record. */
  lemma SecondReads(kept: set<Assumption>, start: World, done: seq<Step>, locks: Locks, first: Process, now: int, nonces: nat)
    requires 0 in locks && first.pid == 11
    requires Reaches(kept, start, done, One(locks, first, now, nonces))
    ensures Reaches(kept, start, done + [Begin(2, 12)] + [Create(2)] + [Read(2)],
                    Two(locks, first, At(12, Judging(0, locks[0].owner)), now, nonces))
  {
    hide Reaches, Met;
    TwoUpdates();
    var w1 := Two(locks, first, At(12, Creating(0, false)), now, nonces);
    Go(kept, start, done, One(locks, first, now, nonces), Begin(2, 12), w1);
    var w2 := Two(locks, first, At(12, Reading(0)), now, nonces);
    Go(kept, start, done + [Begin(2, 12)], w1, Create(2), w2);
    Go(kept, start, done + [Begin(2, 12)] + [Create(2)], w2, Read(2),
       Two(locks, first, At(12, Judging(0, locks[0].owner)), now, nonces));
  }

  // ---------------------------------------------------------------- a creator that stalls

  /** A creator stops after its mkdir until the grace period is over, and its lock is reclaimed. */
  function LateCreator(): seq<Step> {
    [Begin(1, 11)] + [Create(1)] + [Tick(GRACE_MS)] + [Begin(2, 12)] + [Create(2)] + [Read(2)]
    + [Judge(2, {}, GRACE_MS)] + [Remove(2)] + [Create(2)] + [Probe(1, true)] + [Write(1)] + [Probe(2, true)] + [Write(2)]
  }

  lemma CreatorStalls(start: World)
    requires start == World(map[], map[], 0, 0)
    ensures Reaches(ALL - {InTime}, start,
                    [Begin(1, 11)] + [Create(1)] + [Tick(GRACE_MS)] + [Begin(2, 12)] + [Create(2)] + [Read(2)],
                    Two(Unowned(0), At(11, Probing(0)), At(12, Judging(0, None)), GRACE_MS, 0))
  {
    hide Reaches;
    var kept := ALL - {InTime};
    FirstCreates(kept, start);
    Go(kept, start, [Begin(1, 11)] + [Create(1)], One(Unowned(0), At(11, Probing(0)), 0, 0), Tick(GRACE_MS),
       One(Unowned(0), At(11, Probing(0)), GRACE_MS, 0));
    SecondReads(kept, start, [Begin(1, 11)] + [Create(1)] + [Tick(GRACE_MS)], Unowned(0), At(11, Probing(0)), GRACE_MS, 0);
  }

  lemma ItsLockIsReclaimed(start: World, done: seq<Step>)
    requires Reaches(ALL - {InTime}, start, done, Two(Unowned(0), At(11, Probing(0)), At(12, Judging(0, None)), GRACE_MS, 0))
    ensures Reaches(ALL - {InTime}, start, done + [Judge(2, {}, GRACE_MS)] + [Remove(2)] + [Create(2)],
                    Two(Unowned(GRACE_MS), At(11, Probing(0)), At(12, Probing(0)), GRACE_MS, 0))
  {
    hide Reaches;
    TwoUpdates();
    var kept := ALL - {InTime};
    var w1 := Two(Unowned(0), At(11, Probing(0)), At(12, Judging(0, None)), GRACE_MS, 0);
    var w2 := Two(Unowned(0), At(11, Probing(0)), At(12, Removing(0)), GRACE_MS, 0);
    Go(kept, start, done, w1, Judge(2, {}, GRACE_MS), w2);
    var w3 := Two(map[], At(11, Probing(0)), At(12, Creating(0, true)), GRACE_MS, 0);
    Go(kept, start, done + [Judge(2, {}, GRACE_MS)], w2, Remove(2), w3);
    Go(kept, start, done + [Judge(2, {}, GRACE_MS)] + [Remove(2)], w3, Create(2),
       Two(Unowned(GRACE_MS), At(11, Probing(0)), At(12, Probing(0)), GRACE_MS, 0));
  }

  /** Both write their owner record into the same folder. */
  lemma BothWrite(start: World, done: seq<Step>)
    requires Reaches(ALL - {InTime}, start, done, Two(Unowned(GRACE_MS), At(11, Probing(0)), At(12, Probing(0)), GRACE_MS, 0))
    ensures Reaches(ALL - {InTime}, start, done + [Probe(1, true)] + [Write(1)] + [Probe(2, true)] + [Write(2)],
                    Two(Record(12, 1, GRACE_MS), At(11, Holding(0, 0)), At(12, Holding(0, 1)), GRACE_MS, 2))
  {
    hide Reaches, Met;
    TwoUpdates();
    var kept := ALL - {InTime};
    FirstWrites(kept, start, done, GRACE_MS, At(12, Probing(0)), GRACE_MS);
    var w1 := Two(Record(11, 0, GRACE_MS), At(11, Holding(0, 0)), At(12, Probing(0)), GRACE_MS, 1);
    var w2 := Two(Record(11, 0, GRACE_MS), At(11, Holding(0, 0)), At(12, Writing(0)), GRACE_MS, 1);
    Go(kept, start, done + [Probe(1, true)] + [Write(1)], w1, Probe(2, true), w2);
    Go(kept, start, done + [Probe(1, true)] + [Write(1)] + [Probe(2, true)], w2, Write(2),
       Two(Record(12, 1, GRACE_MS), At(11, Holding(0, 0)), At(12, Holding(0, 1)), GRACE_MS, 2));
  }

  /** The grace period is needed: without it two live processes can hold one slot. */
  lemma {:induction false} LateCreatorBreaksExclusion()
    ensures var w := World(map[], map[], 0, 0);
            Possible(w, LateCreator()) && OrderlyFor(ALL - {InTime}, w, LateCreator()) && SharedLease(Run(w, LateCreator()))
  {
    hide Possible, Run, OrderlyFor;
    var start := World(map[], map[], 0, 0);
    CreatorStalls(start);
    var done := [Begin(1, 11)] + [Create(1)] + [Tick(GRACE_MS)] + [Begin(2, 12)] + [Create(2)] + [Read(2)];
    ItsLockIsReclaimed(start, done);
    BothWrite(start, done + [Judge(2, {}, GRACE_MS)] + [Remove(2)] + [Create(2)]);
    var end := Two(Record(12, 1, GRACE_MS), At(11, Holding(0, 0)), At(12, Holding(0, 1)), GRACE_MS, 2);
    assert Uses(end, 1, 0) && Uses(end, 2, 0);
  }

  // ---------------------------------------------------------------- two removals of one lock

  /** Two processes find slot 0 locked by a process that is dead, and both decide to remove the lock. */
  function OverlappingReclaims(): seq<Step> {
    [Begin(1, 11)] + [Begin(2, 12)] + [Create(1)] + [Create(2)] + [Read(1)] + [Read(2)]
    + [Judge(1, {}, 0)] + [Judge(2, {}, 0)] + [Remove(1)] + Take(1) + [Remove(2)] + Take(2)
  }

  lemma BothFindTheLock(start: World)
    requires start == World(Record(99, 0, 0), map[], 0, 1)
    ensures Reaches(ALL - {OneRemoves}, start, [Begin(1, 11)] + [Begin(2, 12)] + [Create(1)] + [Create(2)],
                    Two(Record(99, 0, 0), At(11, Reading(0)), At(12, Reading(0)), 0, 1))
  {
    hide Reaches, Met;
    TwoUpdates();
    var kept := ALL - {OneRemoves};
    var w1 := One(Record(99, 0, 0), At(11, Creating(0, false)), 0, 1);
    First(kept, start, Begin(1, 11), w1);
    var w2 := Two(Record(99, 0, 0), At(11, Creating(0, false)), At(12, Creating(0, false)), 0, 1);
    Go(kept, start, [Begin(1, 11)], w1, Begin(2, 12), w2);
    var w3 := Two(Record(99, 0, 0), At(11, Reading(0)), At(12, Creating(0, false)), 0, 1);
    Go(kept, start, [Begin(1, 11)] + [Begin(2, 12)], w2, Create(1), w3);
    Go(kept, start, [Begin(1, 11)] + [Begin(2, 12)] + [Create(1)], w3, Create(2),
       Two(Record(99, 0, 0), At(11, Reading(0)), At(12, Reading(0)), 0, 1));
  }

  lemma BothJudgeItStale(start: World, done: seq<Step>)
    requires Reaches(ALL - {OneRemoves}, start, done, Two(Record(99, 0, 0), At(11, Reading(0)), At(12, Reading(0)), 0, 1))
    ensures Reaches(ALL - {OneRemoves}, start, done + [Read(1)] + [Read(2)] + [Judge(1, {}, 0)] + [Judge(2, {}, 0)],
                    Two(Record(99, 0, 0), At(11, Removing(0)), At(12, Removing(0)), 0, 1))
  {
    hide Reaches;
    TwoUpdates();
    var kept := ALL - {OneRemoves};
    var locks, seen := Record(99, 0, 0), Some(OwnerRecord(0, 99, 0));
    var w1 := Two(locks, At(11, Reading(0)), At(12, Reading(0)), 0, 1);
    var w2 := Two(locks, At(11, Judging(0, seen)), At(12, Reading(0)), 0, 1);
    Go(kept, start, done, w1, Read(1), w2);
    var w3 := Two(locks, At(11, Judging(0, seen)), At(12, Judging(0, seen)), 0, 1);
    Go(kept, start, done + [Read(1)], w2, Read(2), w3);
    var w4 := Two(locks, At(11, Removing(0)), At(12, Judging(0, seen)), 0, 1);
    Go(kept, start, done + [Read(1)] + [Read(2)], w3, Judge(1, {}, 0), w4);
    Go(kept, start, done + [Read(1)] + [Read(2)] + [Judge(1, {}, 0)], w4, Judge(2, {}, 0),
       Two(locks, At(11, Removing(0)), At(12, Removing(0)), 0, 1));
  }

  /** The first removes it and takes the slot; the second removes the first one's lock and takes the slot too. */
  lemma BothTakeTheSlot(start: World, done: seq<Step>)
    requires Reaches(ALL - {OneRemoves}, start, done, Two(Record(99, 0, 0), At(11, Removing(0)), At(12, Removing(0)), 0, 1))
    ensures Reaches(ALL - {OneRemoves}, start, done + [Remove(1)] + Take(1) + [Remove(2)] + Take(2),
                    Two(Record(12, 2, 0), At(11, Holding(0, 1)), At(12, Holding(0, 2)), 0, 3))
  {
    hide Reaches;
    TwoUpdates();
    var kept := ALL - {OneRemoves};
    var w1 := Two(map[], At(11, Creating(0, true)), At(12, Removing(0)), 0, 1);
    Go(kept, start, done, Two(Record(99, 0, 0), At(11, Removing(0)), At(12, Removing(0)), 0, 1), Remove(1), w1);
    var w2 := Two(Record(11, 1, 0), At(11, Holding(0, 1)), At(12, Removing(0)), 0, 2);
    Takes(kept, start, done + [Remove(1)], w1, 1, w2);
    var w3 := Two(map[], At(11, Holding(0, 1)), At(12, Creating(0, true)), 0, 2);
    Go(kept, start, done + [Remove(1)] + Take(1), w2, Remove(2), w3);
    Takes(kept, start, done + [Remove(1)] + Take(1) + [Remove(2)], w3, 2,
          Two(Record(12, 2, 0), At(11, Holding(0, 1)), At(12, Holding(0, 2)), 0, 3));
  }

  /** One remover at a time is needed, though the clock never moves. */
  lemma {:induction false} OverlapBreaksExclusion()
    ensures var w := World(Record(99, 0, 0), map[], 0, 1);
            && Possible(w, OverlappingReclaims()) && OrderlyFor(ALL - {OneRemoves}, w, OverlappingReclaims())
            && SharedLease(Run(w, OverlappingReclaims()))
  {
    hide Possible, Run, OrderlyFor;
    var start := World(Record(99, 0, 0), map[], 0, 1);
    var done := [Begin(1, 11)] + [Begin(2, 12)] + [Create(1)] + [Create(2)];
    BothFindTheLock(start);
    BothJudgeItStale(start, done);
    BothTakeTheSlot(start, done + [Read(1)] + [Read(2)] + [Judge(1, {}, 0)] + [Judge(2, {}, 0)]);
    var end := Two(Record(12, 2, 0), At(11, Holding(0, 1)), At(12, Holding(0, 2)), 0, 3);
    assert Uses(end, 1, 0) && Uses(end, 2, 0);
  }

  // ---------------------------------------------------------------- a record that is out of date

  /** A process leases slot 0, and a second one reads its record. */
  function ReadWhileHeld(): seq<Step> {
    [Begin(1, 11)] + Take(1) + [Begin(2, 12)] + [Create(2)] + [Read(2)]
  }

  /** The first process releases the slot and exits, and a third one leases it; only then is the record judged. */
  function OutdatedRecord(): seq<Step> {
    ReadWhileHeld() + [ReleaseCheck(1)] + [ReleaseRemove(1)] + [Crash(1)] + [Begin(3, 13)] + Take(3)
    + [Judge(2, {}, 0)] + [Remove(2)] + Take(2)
  }

  lemma HeldAndRead(start: World)
    requires start == World(map[], map[], 0, 0)
    ensures Reaches(ALL - {RecordStays}, start, ReadWhileHeld(),
                    Two(Record(11, 0, 0), At(11, Holding(0, 0)), At(12, Judging(0, Some(OwnerRecord(0, 11, 0)))), 0, 1))
  {
    hide Reaches, Met;
    FirstLeases(ALL - {RecordStays}, start);
    SecondReads(ALL - {RecordStays}, start, [Begin(1, 11)] + Take(1), Record(11, 0, 0), At(11, Holding(0, 0)), 0, 1);
  }

  const Gone := Process(11, false, Released(0), false)

  lemma ReleasedAndGone(start: World, done: seq<Step>)
    requires Reaches(ALL - {RecordStays}, start, done,
                     Two(Record(11, 0, 0), At(11, Holding(0, 0)), At(12, Judging(0, Some(OwnerRecord(0, 11, 0)))), 0, 1))
    ensures Reaches(ALL - {RecordStays}, start, done + [ReleaseCheck(1)] + [ReleaseRemove(1)] + [Crash(1)],
                    Two(map[], Gone, At(12, Judging(0, Some(OwnerRecord(0, 11, 0)))), 0, 1))
  {
    hide Reaches;
    TwoUpdates();
    var kept := ALL - {RecordStays};
    var second := At(12, Judging(0, Some(OwnerRecord(0, 11, 0))));
    var w1 := Two(Record(11, 0, 0), At(11, Releasing(0, 0)), second, 0, 1);
    Go(kept, start, done, Two(Record(11, 0, 0), At(11, Holding(0, 0)), second, 0, 1), ReleaseCheck(1), w1);
    var w2 := Two(map[], At(11, Released(0)), second, 0, 1);
    Go(kept, start, done + [ReleaseCheck(1)], w1, ReleaseRemove(1), w2);
    Go(kept, start, done + [ReleaseCheck(1)] + [ReleaseRemove(1)], w2, Crash(1), Two(map[], Gone, second, 0, 1));
  }

  lemma TakenByTheThird(start: World, done: seq<Step>)
    requires Reaches(ALL - {RecordStays}, start, done, Two(map[], Gone, At(12, Judging(0, Some(OwnerRecord(0, 11, 0)))), 0, 1))
    ensures Reaches(ALL - {RecordStays}, start, done + [Begin(3, 13)] + Take(3),
                    Three(Record(13, 1, 0), Gone, At(12, Judging(0, Some(OwnerRecord(0, 11, 0)))), At(13, Holding(0, 1)), 0, 2))
  {
    hide Reaches, Met;
    ThreeUpdates();
    var kept := ALL - {RecordStays};
    var second := At(12, Judging(0, Some(OwnerRecord(0, 11, 0))));
    var w1 := Three(map[], Gone, second, At(13, Creating(0, false)), 0, 1);
    Go(kept, start, done, Two(map[], Gone, second, 0, 1), Begin(3, 13), w1);
    Takes(kept, start, done + [Begin(3, 13)], w1, 3, Three(Record(13, 1, 0), Gone, second, At(13, Holding(0, 1)), 0, 2));
  }

  lemma TakenFromTheThird(start: World, done: seq<Step>)
    requires Reaches(ALL - {RecordStays}, start, done,
                     Three(Record(13, 1, 0), Gone, At(12, Judging(0, Some(OwnerRecord(0, 11, 0)))), At(13, Holding(0, 1)), 0, 2))
    ensures Reaches(ALL - {RecordStays}, start, done + [Judge(2, {}, 0)] + [Remove(2)] + Take(2),
                    Three(Record(12, 2, 0), Gone, At(12, Holding(0, 2)), At(13, Holding(0, 1)), 0, 3))
  {
    hide Reaches;
    ThreeUpdates();
    var kept := ALL - {RecordStays};
    var third := At(13, Holding(0, 1));
    var w1 := Three(Record(13, 1, 0), Gone, At(12, Judging(0, Some(OwnerRecord(0, 11, 0)))), third, 0, 2);
    var w2 := Three(Record(13, 1, 0), Gone, At(12, Removing(0)), third, 0, 2);
    Go(kept, start, done, w1, Judge(2, {}, 0), w2);
    var w3 := Three(map[], Gone, At(12, Creating(0, true)), third, 0, 2);
    Go(kept, start, done + [Judge(2, {}, 0)], w2, Remove(2), w3);
    Takes(kept, start, done + [Judge(2, {}, 0)] + [Remove(2)], w3, 2,
          Three(Record(12, 2, 0), Gone, At(12, Holding(0, 2)), third, 0, 3));
  }

  /** The judged record must still be there, though only one process ever reclaims and the clock never moves. */
  lemma {:induction false} OutdatedRecordBreaksExclusion()
    ensures var w := World(map[], map[], 0, 0);
            && Possible(w, OutdatedRecord()) && OrderlyFor(ALL - {RecordStays}, w, OutdatedRecord())
            && SharedLease(Run(w, OutdatedRecord()))
  {
    hide Possible, Run, OrderlyFor;
    var start := World(map[], map[], 0, 0);
    HeldAndRead(start);
    ReleasedAndGone(start, ReadWhileHeld());
    var done := ReadWhileHeld() + [ReleaseCheck(1)] + [ReleaseRemove(1)] + [Crash(1)];
    TakenByTheThird(start, done);
    TakenFromTheThird(start, done + [Begin(3, 13)] + Take(3));
    var end := Three(Record(12, 2, 0), Gone, At(12, Holding(0, 2)), At(13, Holding(0, 1)), 0, 3);
    assert Uses(end, 2, 0) && Uses(end, 3, 0);
  }

  // ---------------------------------------------------------------- a record that came later

  /** A lock is read before its creator writes the record, and judged by its age long after. */
  function RecordCameLater(): seq<Step> {
    [Begin(1, 11)] + [Create(1)] + [Begin(2, 12)] + [Create(2)] + [Read(2)]
    + [Probe(1, true)] + [Write(1)] + [Tick(GRACE_MS)] + [Judge(2, {}, GRACE_MS)] + [Remove(2)] + Take(2)
  }

  lemma ReadBeforeWritten(start: World)
    requires start == World(map[], map[], 0, 0)
    ensures Reaches(ALL - {RecordStays}, start, [Begin(1, 11)] + [Create(1)] + [Begin(2, 12)] + [Create(2)] + [Read(2)],
                    Two(Unowned(0), At(11, Probing(0)), At(12, Judging(0, None)), 0, 0))
  {
    hide Reaches, Met;
    FirstCreates(ALL - {RecordStays}, start);
    SecondReads(ALL - {RecordStays}, start, [Begin(1, 11)] + [Create(1)], Unowned(0), At(11, Probing(0)), 0, 0);
  }

  lemma WrittenInTime(start: World, done: seq<Step>)
    requires Reaches(ALL - {RecordStays}, start, done, Two(Unowned(0), At(11, Probing(0)), At(12, Judging(0, None)), 0, 0))
    ensures Reaches(ALL - {RecordStays}, start, done + [Probe(1, true)] + [Write(1)] + [Tick(GRACE_MS)],
                    Two(Record(11, 0, 0), At(11, Holding(0, 0)), At(12, Judging(0, None)), GRACE_MS, 1))
  {
    hide Reaches;
    FirstWrites(ALL - {RecordStays}, start, done, 0, At(12, Judging(0, None)), 0);
    var w := Two(Record(11, 0, 0), At(11, Holding(0, 0)), At(12, Judging(0, None)), 0, 1);
    Go(ALL - {RecordStays}, start, done + [Probe(1, true)] + [Write(1)], w, Tick(GRACE_MS),
       Two(Record(11, 0, 0), At(11, Holding(0, 0)), At(12, Judging(0, None)), GRACE_MS, 1));
  }

  lemma JudgedByAge(start: World, done: seq<Step>)
    requires Reaches(ALL - {RecordStays}, start, done,
                     Two(Record(11, 0, 0), At(11, Holding(0, 0)), At(12, Judging(0, None)), GRACE_MS, 1))
    ensures Reaches(ALL - {RecordStays}, start, done + [Judge(2, {}, GRACE_MS)] + [Remove(2)] + Take(2),
                    Two(Record(12, 1, GRACE_MS), At(11, Holding(0, 0)), At(12, Holding(0, 1)), GRACE_MS, 2))
  {
    hide Reaches;
    TwoUpdates();
    var kept := ALL - {RecordStays};
    var first := At(11, Holding(0, 0));
    var w1 := Two(Record(11, 0, 0), first, At(12, Removing(0)), GRACE_MS, 1);
    Go(kept, start, done, Two(Record(11, 0, 0), first, At(12, Judging(0, None)), GRACE_MS, 1), Judge(2, {}, GRACE_MS), w1);
    var w2 := Two(map[], first, At(12, Creating(0, true)), GRACE_MS, 1);
    Go(kept, start, done + [Judge(2, {}, GRACE_MS)], w1, Remove(2), w2);
    Takes(kept, start, done + [Judge(2, {}, GRACE_MS)] + [Remove(2)], w2, 2,
          Two(Record(12, 1, GRACE_MS), first, At(12, Holding(0, 1)), GRACE_MS, 2));
  }

  /**
   That nobody else removes the lock in between is not enough: here the record is written in
   between, in good time, and the only removal of the whole run is that of a live lock.
   */
  lemma {:induction false} LateRecordBreaksExclusion()
    ensures var w := World(map[], map[], 0, 0);
            && Possible(w, RecordCameLater()) && OrderlyFor(ALL - {RecordStays}, w, RecordCameLater())
            && SharedLease(Run(w, RecordCameLater()))
    ensures forall step | step in RecordCameLater() :: !step.BackOut? && !step.ReleaseRemove? && (step.Remove? ==> step.p == 2)
  {
    hide Possible, Run, OrderlyFor;
    var start := World(map[], map[], 0, 0);
    var done := [Begin(1, 11)] + [Create(1)] + [Begin(2, 12)] + [Create(2)] + [Read(2)];
    ReadBeforeWritten(start);
    WrittenInTime(start, done);
    JudgedByAge(start, done + [Probe(1, true)] + [Write(1)] + [Tick(GRACE_MS)]);
    var end := Two(Record(12, 1, GRACE_MS), At(11, Holding(0, 0)), At(12, Holding(0, 1)), GRACE_MS, 2);
    assert Uses(end, 1, 0) && Uses(end, 2, 0);
  }

  // ---------------------------------------------------------------- leases without a lock

  /** A process leases slot 0, releases it, and another process takes it over. */
  function Handover(): seq<Step> {
    [Begin(1, 11)] + Take(1) + [ReleaseCheck(1)] + [ReleaseRemove(1)] + [Begin(2, 12)] + Take(2)
  }

  /** The same, but the first process has acquired a second time before its release. */
  function HandoverWhileLeased(): seq<Step> {
    [Begin(1, 11)] + Take(1) + [Reacquire(1)] + [ReleaseCheck(1)] + [ReleaseRemove(1)] + [Begin(2, 12)] + Take(2)
  }

  /** The holder releases the lock, whatever second lease it still has. */
  lemma LetGo(start: World, done: seq<Step>, leased: bool)
    requires Reaches(ALL - {LockKept}, start, done, One(Record(11, 0, 0), Process(11, true, Holding(0, 0), leased), 0, 1))
    ensures Reaches(ALL - {LockKept}, start, done + [ReleaseCheck(1)] + [ReleaseRemove(1)],
                    One(map[], Process(11, true, Released(0), leased), 0, 1))
  {
    hide Reaches;
    TwoUpdates();
    var kept := ALL - {LockKept};
    var w1 := One(Record(11, 0, 0), Process(11, true, Releasing(0, 0), leased), 0, 1);
    Go(kept, start, done, One(Record(11, 0, 0), Process(11, true, Holding(0, 0), leased), 0, 1), ReleaseCheck(1), w1);
    Go(kept, start, done + [ReleaseCheck(1)], w1, ReleaseRemove(1), One(map[], Process(11, true, Released(0), leased), 0, 1));
  }

  /** A second process leases the slot. */
  lemma HandedOver(start: World, done: seq<Step>, leased: bool)
    requires Reaches(ALL - {LockKept}, start, done, One(Record(11, 0, 0), Process(11, true, Holding(0, 0), leased), 0, 1))
    ensures Reaches(ALL - {LockKept}, start, done + [ReleaseCheck(1)] + [ReleaseRemove(1)] + [Begin(2, 12)] + Take(2),
                    Two(Record(12, 1, 0), Process(11, true, Released(0), leased), At(12, Holding(0, 1)), 0, 2))
  {
    hide Reaches, Met;
    TwoUpdates();
    var kept := ALL - {LockKept};
    LetGo(start, done, leased);
    var w1 := Two(map[], Process(11, true, Released(0), leased), At(12, Creating(0, false)), 0, 1);
    Go(kept, start, done + [ReleaseCheck(1)] + [ReleaseRemove(1)],
       One(map[], Process(11, true, Released(0), leased), 0, 1), Begin(2, 12), w1);
    Takes(kept, start, done + [ReleaseCheck(1)] + [ReleaseRemove(1)] + [Begin(2, 12)], w1, 2,
          Two(Record(12, 1, 0), Process(11, true, Released(0), leased), At(12, Holding(0, 1)), 0, 2));
  }

  /** Both processes use slot 0, the first without a lock. */
  const Unbacked := Two(Record(12, 1, 0), Process(11, true, Released(0), true), At(12, Holding(0, 1)), 0, 2)

  lemma AcquiresAfterRelease(start: World)
    requires start == World(map[], map[], 0, 0)
    ensures Reaches(ALL - {LockKept}, start, Handover() + [Reacquire(1)], Unbacked)
  {
    hide Reaches;
    TwoUpdates();
    FirstLeases(ALL - {LockKept}, start);
    HandedOver(start, [Begin(1, 11)] + Take(1), false);
    Go(ALL - {LockKept}, start, Handover(), Two(Record(12, 1, 0), At(11, Released(0)), At(12, Holding(0, 1)), 0, 2),
       Reacquire(1), Unbacked);
  }

  lemma ReleasesWhileLeased(start: World)
    requires start == World(map[], map[], 0, 0)
    ensures Reaches(ALL - {LockKept}, start, HandoverWhileLeased(), Unbacked)
  {
    hide Reaches;
    TwoUpdates();
    FirstLeases(ALL - {LockKept}, start);
    var held := One(Record(11, 0, 0), At(11, Holding(0, 0)), 0, 1);
    Go(ALL - {LockKept}, start, [Begin(1, 11)] + Take(1), held, Reacquire(1),
       One(Record(11, 0, 0), Process(11, true, Holding(0, 0), true), 0, 1));
    HandedOver(start, [Begin(1, 11)] + Take(1) + [Reacquire(1)], true);
  }

  /**
   Leases must be backed by the lock, though nothing is ever reclaimed: a process that
   acquires again after its release, or releases its lock before a second lease has ended,
   uses the slot without a lock.
   */
  lemma {:induction false} UnbackedLeaseBreaksExclusion()
    ensures var w, steps := World(map[], map[], 0, 0), Handover() + [Reacquire(1)];
            Possible(w, steps) && OrderlyFor(ALL - {LockKept}, w, steps) && SharedLease(Run(w, steps))
    ensures var w, steps := World(map[], map[], 0, 0), HandoverWhileLeased();
            Possible(w, steps) && OrderlyFor(ALL - {LockKept}, w, steps) && SharedLease(Run(w, steps))
  {
    hide Possible, Run, OrderlyFor;
    var start := World(map[], map[], 0, 0);
    AcquiresAfterRelease(start);
    ReleasesWhileLeased(start);
    assert Uses(Unbacked, 1, 0) && Uses(Unbacked, 2, 0);
  }
}
