/**
 The port-slot pool as one process sees it: a directory of lock folders, each with a
 modification time and, once its creator has written it, an owner record.
 */
module PortPool {
  import opened Wrappers

  const POOL_SIZE: nat := 10
  const FRONTEND_PORT_START: nat := 5274
  const OPERATOR_API_PORT_START: nat := 8020
  const GRACE_MS: nat := 30000

  datatype Owner = Owner(pid: nat, nonce: nat, frontendPort: nat, operatorApiPort: nat)

  /** A lock folder. `owner` is None while no readable owner record is in it. */
  datatype Lock = Lock(mtime: int, owner: Option<Owner>)

  type Locks = map<nat, Lock>

  function OwnerRecord(slot: nat, pid: nat, nonce: nat): Owner {
    Owner(pid, nonce, FRONTEND_PORT_START + slot, OPERATOR_API_PORT_START + slot)
  }

  /** A lock may be reclaimed when its owner is dead, or nobody wrote a record within the grace period. */
  predicate Stale(lock: Lock, now: int, alive: set<nat>) {
    match lock.owner
    case Some(owner) => owner.pid !in alive
    case None => now - lock.mtime >= GRACE_MS
  }

  /** A slot that one acquire attempt can take over, ports aside. */
  predicate Acquirable(locks: Locks, slot: nat, now: int, alive: set<nat>) {
    slot in locks ==> Stale(locks[slot], now, alive)
  }

  predicate OwnedBy(locks: Locks, slot: nat, pid: nat, nonce: nat) {
    slot in locks && locks[slot].owner.Some?
    && locks[slot].owner.value.pid == pid && locks[slot].owner.value.nonce == nonce
  }

  /** What an acquire returns: the slot and its two ports. */
  datatype Lease = Lease(slot: nat, frontendPort: nat, operatorApiPort: nat)

  /** The slots below the bound that could be taken. */
  function Tried(locks: Locks, bound: nat, now: int, alive: set<nat>): set<nat> {
    set slot | 0 <= slot < bound && Acquirable(locks, slot, now, alive)
  }

  class LockRoot {
    var locks: Locks

    constructor (locks: Locks)
      ensures this.locks == locks
    {
      this.locks := locks;
    }

    method CreateLock(slot: nat, now: int) returns (created: bool)
      modifies this
      ensures created == (slot !in old(locks))
      ensures locks == if created then old(locks)[slot := Lock(now, None)] else old(locks)
    {
      created := slot !in locks;
      if created {
        locks := locks[slot := Lock(now, None)];
      }
    }

    method ReadOwner(slot: nat) returns (owner: Option<Owner>)
      ensures owner == if slot in locks then locks[slot].owner else None
    {
      if slot in locks {
        owner := locks[slot].owner;
      } else {
        owner := None;
      }
    }

    method ReclaimStaleLock(slot: nat, now: int, alive: set<nat>) returns (reclaimed: bool)
      modifies this
      ensures reclaimed <==>
                || slot !in old(locks)
                || (old(locks)[slot].owner.Some? && old(locks)[slot].owner.value.pid !in alive)
                || (old(locks)[slot].owner.None? && now - old(locks)[slot].mtime >= 30_000)
      ensures locks == if reclaimed then old(locks) - {slot} else old(locks)
    {
      var owner := ReadOwner(slot);
      if owner.Some? {
        if owner.value.pid in alive { return false; }
      } else if slot in locks {
        if now - locks[slot].mtime < GRACE_MS { return false; }
      } else {
        return true;
      }
      locks := locks - {slot};
      return true;
    }

    /**
     Acquire without interference: the first slot that is free or stale and whose ports are
     free. Every takeable slot passed over on the way is left without a lock.
     */
    method Acquire(environment: Option<int>, pid: nat, nonce: nat, now: int, alive: set<nat>, portsAvailable: set<nat>)
      returns (lease: Option<Lease>, environment': Option<int>)
      modifies this
      ensures var inherits := environment.Some? && 0 <= environment.value < POOL_SIZE;
              inherits ==>
                && lease == Some(Lease(environment.value, 5274 + environment.value, 8020 + environment.value))
                && environment' == environment && locks == old(locks)
      ensures var inherits := environment.Some? && 0 <= environment.value < POOL_SIZE;
              !inherits && lease.Some? ==>
                var slot := lease.value.slot;
                && slot < POOL_SIZE && lease.value == Lease(slot, 5274 + slot, 8020 + slot)
                && slot in portsAvailable && Acquirable(old(locks), slot, now, alive)
                && (forall s :: 0 <= s < slot && Acquirable(old(locks), s, now, alive) ==> s !in portsAvailable)
                && locks == (old(locks) - Tried(old(locks), slot, now, alive))[slot := Lock(now, Some(OwnerRecord(slot, pid, nonce)))]
                && environment' == Some(slot)
      ensures lease.None? ==>
                && (forall s :: 0 <= s < POOL_SIZE && Acquirable(old(locks), s, now, alive) ==> s !in portsAvailable)
                && locks == old(locks) - Tried(old(locks), POOL_SIZE, now, alive)
                && environment' == environment
    {
      hide Stale, Acquirable;
      if environment.Some? && 0 <= environment.value < POOL_SIZE {
        return Some(LeaseOf(environment.value)), environment;
      }
      var slot := 0;
      while slot < POOL_SIZE
        invariant 0 <= slot <= POOL_SIZE
        invariant locks == old(locks) - Tried(old(locks), slot, now, alive)
        invariant forall s :: 0 <= s < slot && Acquirable(old(locks), s, now, alive) ==> s !in portsAvailable
      {
        ghost var before := locks;
        assert slot in before <==> slot in old(locks);
        var created := CreateLock(slot, now);
        if !created {
          var reclaimed := ReclaimStaleLock(slot, now, alive);
          if reclaimed {
            created := CreateLock(slot, now);
          }
        }
        WhatIsTakeable(old(locks), slot, now, alive);
        assert created == Acquirable(old(locks), slot, now, alive);
        if created {
          assert locks == before[slot := Lock(now, None)];
          if slot !in portsAvailable {
            locks := locks - {slot};
            assert locks == before - {slot};
          } else {
            locks := locks[slot := Lock(now, Some(OwnerRecord(slot, pid, nonce)))];
            return Some(LeaseOf(slot)), Some(slot);
          }
        } else {
          assert locks == before;
        }
        TriedNext(old(locks), slot, now, alive);
        slot := slot + 1;
      }
      return None, environment;
    }
  }

  function LeaseOf(slot: nat): Lease {
    Lease(slot, FRONTEND_PORT_START + slot, OPERATOR_API_PORT_START + slot)
  }

  lemma WhatIsTakeable(locks: Locks, slot: nat, now: int, alive: set<nat>)
    ensures Acquirable(locks, slot, now, alive) <==>
              || slot !in locks
              || (locks[slot].owner.Some? && locks[slot].owner.value.pid !in alive)
              || (locks[slot].owner.None? && now - locks[slot].mtime >= 30_000)
  {
  }

  lemma TriedNext(locks: Locks, slot: nat, now: int, alive: set<nat>)
    ensures Tried(locks, slot + 1, now, alive) ==
            Tried(locks, slot, now, alive) + if Acquirable(locks, slot, now, alive) then {slot} else {}
  {
  }

  /** The release closure of one lease. */
  class LeaseHandle {
    const root: LockRoot
    const slot: nat
    const pid: nat
    const nonce: nat
    var released: bool

    constructor (root: LockRoot, slot: nat, pid: nat, nonce: nat)
      ensures this.root == root && this.slot == slot && this.pid == pid && this.nonce == nonce && !released
    {
      this.root, this.slot, this.pid, this.nonce, this.released := root, slot, pid, nonce, false;
    }

    /** Release removes the lock once, and only while its record is this lease's own. */
    method Release()
      modifies this, root
      ensures released
      ensures root.locks ==
              if !old(released) && slot in old(root.locks) && old(root.locks)[slot].owner.Some?
                 && old(root.locks)[slot].owner.value.pid == pid && old(root.locks)[slot].owner.value.nonce == nonce
              then old(root.locks) - {slot} else old(root.locks)
    {
      if released { return; }
      released := true;
      var owner := root.ReadOwner(slot);
      if owner.Some? && owner.value.pid == pid && owner.value.nonce == nonce {
        root.locks := root.locks - {slot};
      }
    }
  }
}
