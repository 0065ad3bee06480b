/** The named mutex that serialises mutations, and one process's handle on it. */
module MutationLock {
  import opened Wrappers
  import Establishment
  import Identity

  /** The kernel object: at most one owner; an owner that dies leaves it abandoned. */
  class KernelMutex {
    var owner: Option<nat>
    var abandoned: bool

    constructor ()
      ensures owner.None? && !abandoned
    {
      owner, abandoned := None, false;
    }

    /** The owning process ends without releasing: what a crash of the owner does in the whole system. */
    method Abandon()
      requires owner.Some?
      modifies this
      ensures owner.None? && abandoned
      ensures forall observer, w: Establishment.World
                | w.owner == old(owner) && Establishment.Enabled(observer, w, Establishment.Crash(old(owner).value)) ::
                Establishment.Apply(observer, w, Establishment.Crash(old(owner).value)).owner == owner
    {
      owner, abandoned := None, true;
    }
  }

  datatype Creation = Created | CreationDenied | CreationFailed

  /** How a wait ends when the mutex never becomes free, or the wait itself breaks. */
  datatype Setback = NoSetback | TimedOut | WaitFailed

  datatype Wait = WaitObject0 | WaitAbandoned | WaitTimeout | WaitError

  /** What an attempt to acquire means for the owner. */
  predicate Transfers(process: nat, before: Option<nat>, outcome: Identity.LockOutcome, after: Option<nat>) {
    if outcome.Acquired? then before.None? && after == Some(process) else after == before
  }

  /** Every attempt is a step that the whole system allows, with the same effect on the owner. */
  lemma AcquireIsPossible(
      observer: bool, w: Establishment.World, process: nat, outcome: Identity.LockOutcome, after: Option<nat>)
    requires Transfers(process, w.owner, outcome, after)
    ensures Establishment.Possible(observer, w, Identity.AcquireLock, Identity.Locked(outcome), false)
    ensures Establishment.Effect(w, process, Identity.AcquireLock, Identity.Locked(outcome), false).owner == after
  {
  }

  class WindowsMutationLock {
    const mutex: KernelMutex
    const process: nat
    var open: bool
    var owned: bool

    ghost predicate Valid()
      reads this, mutex
    {
      (owned ==> open) && (owned <==> mutex.owner == Some(process))
    }

    constructor (mutex: KernelMutex, process: nat)
      requires mutex.owner != Some(process)
      ensures Valid() && !open && this.mutex == mutex && this.process == process
    {
      this.mutex, this.process := mutex, process;
      open, owned := false, false;
    }

    /** The kernel's answer: the mutex is granted only while it has no owner. */
    method WaitForMutex(setback: Setback) returns (wait: Wait)
      modifies mutex
      ensures wait.WaitObject0? || wait.WaitAbandoned? ==> old(mutex.owner).None? && mutex.owner == Some(process)
      ensures wait.WaitAbandoned? <==> setback.NoSetback? && old(mutex.owner).None? && old(mutex.abandoned)
      ensures wait.WaitTimeout? || wait.WaitError? ==> mutex.owner == old(mutex.owner)
      ensures wait.WaitError? <==> setback.WaitFailed?
      ensures wait.WaitTimeout? <==> !setback.WaitFailed? && (setback.TimedOut? || old(mutex.owner).Some?)
    {
      if setback.WaitFailed? {
        return WaitError;
      }
      if setback.TimedOut? || mutex.owner.Some? {
        return WaitTimeout;
      }
      wait := if mutex.abandoned then WaitAbandoned else WaitObject0;
      mutex.owner, mutex.abandoned := Some(process), false;
    }

    /**
     * Success means this process is the only owner, whether the previous owner
     * released the mutex or died; every failure leaves the mutex as it was.
     */
    method Acquire(descriptorOk: bool, creation: Creation, setback: Setback) returns (outcome: Identity.LockOutcome)
      requires Valid()
      modifies this, mutex
      ensures Valid()
      ensures outcome.Acquired? <==>
              !old(open) && descriptorOk && creation.Created? && setback.NoSetback? && old(mutex.owner).None?
      ensures outcome.Acquired? ==> mutex.owner == Some(process) && owned
      ensures !outcome.Acquired? ==> mutex.owner == old(mutex.owner) && open == old(open) && owned == old(owned)
      ensures outcome.Busy? <==> !old(open) && descriptorOk && creation.Created? && !setback.WaitFailed?
                                 && (setback.TimedOut? || old(mutex.owner).Some?)
      ensures outcome.LockDenied? <==> !old(open) && descriptorOk && creation.CreationDenied?
      ensures Transfers(process, old(mutex.owner), outcome, mutex.owner)
    {
      if open {
        return Identity.LockFailure;
      }
      if !descriptorOk {
        return Identity.LockFailure;
      }
      if !creation.Created? {
        return if creation.CreationDenied? then Identity.LockDenied else Identity.LockFailure;
      }
      open := true;
      var wait := WaitForMutex(setback);
      if wait.WaitObject0? || wait.WaitAbandoned? {
        owned := true;
        return Identity.Acquired;
      }
      open := false;
      if wait.WaitTimeout? {
        return Identity.Busy;
      }
      return Identity.LockFailure;
    }

    /** Gives up what was owned and never frees a mutex of another process. */
    method Release()
      requires Valid()
      modifies this, mutex
      ensures Valid() && !open && !owned
      ensures mutex.owner == if old(owned) then None else old(mutex.owner)
      ensures mutex.abandoned == old(mutex.abandoned)
      ensures forall w: Establishment.World | old(owned) && w.owner == old(mutex.owner) ::
                Establishment.Effect(w, process, Identity.ReleaseLock, Identity.Done, false).owner == mutex.owner
    {
      if !open {
        return;
      }
      if owned {
        mutex.owner := None;
      }
      open, owned := false, false;
    }
  }
}
