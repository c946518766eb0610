/**
 * `RUNNING_SLOTS`, the bounded semaphore that admits at most
 * `MAX_CONCURRENT_JOBS` workers into processing. A timed-out `acquire` is a
 * refused `TryAcquire`; the blocking itself is not part of this model.
 */
module Slots {

  /** The counter behind the semaphore: its initial value and the slots held. */
  datatype GateState = GateState(capacity: int, inUse: int)

  class Gate {
    /** The semaphore's initial value. */
    var capacity: int
    /** Slots currently held. */
    var inUse: int

    function State(): GateState
      reads this
    {
      GateState(capacity, inUse)
    }

    predicate Valid()
      reads this
    {
      1 <= capacity && 0 <= inUse <= capacity
    }

    /** `threading.BoundedSemaphore(max(1, limit))`, as `_set_max_concurrent_jobs` builds it. */
    constructor(limit: int)
      ensures Valid()
      ensures capacity == (if limit < 1 then 1 else limit) && inUse == 0
    {
      capacity := if limit < 1 then 1 else limit;
      inUse := 0;
    }

    /** `acquire(timeout=...)`: succeeds exactly when a slot is free. */
    method TryAcquire() returns (ok: bool)
      requires Valid()
      modifies this
      ensures Valid()
      ensures ok <==> old(inUse) < capacity
      ensures capacity == old(capacity)
      ensures inUse == if ok then old(inUse) + 1 else old(inUse)
    {
      ok := inUse < capacity;
      if ok {
        inUse := inUse + 1;
      }
    }

    /**
     * `release()`: a bounded semaphore refuses (with `ValueError`) to rise
     * above its initial value, i.e. to release a slot nobody holds.
     */
    method Release() returns (ok: bool)
      requires Valid()
      modifies this
      ensures Valid()
      ensures ok <==> old(inUse) > 0
      ensures capacity == old(capacity)
      ensures inUse == if ok then old(inUse) - 1 else old(inUse)
    {
      ok := inUse > 0;
      if ok {
        inUse := inUse - 1;
      }
    }

    /**
     * `_set_max_concurrent_jobs`: the global is replaced by a fresh
     * semaphore, so slots held in the old one are forgotten.
     */
    method Resize(limit: int)
      modifies this
      ensures Valid()
      ensures capacity == (if limit < 1 then 1 else limit) && inUse == 0
    {
      capacity := if limit < 1 then 1 else limit;
      inUse := 0;
    }
  }
}
