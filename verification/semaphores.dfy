/**
  The counting semaphore (seastar's named_semaphore) that bounds how many
  token ranges a shard repairs in parallel.

  Blocking is not modelled: a wait is admitted only when enough units are
  free (the caller would otherwise be suspended until they are), and the
  queue order of waiters is left out. What is kept is the conservation of
  units: no more than the capacity is ever held, and a scoped holder gives
  back exactly what it took.
 */
module Semaphores {

  class NamedSemaphore {
    /** The number of units the semaphore was created with. */
    const capacity: nat
    /** Units currently taken by holders. */
    var held: nat

    ghost predicate Valid()
      reads this
    {
      held <= capacity
    }

    constructor (count: nat)
      ensures Valid()
      ensures capacity == count && held == 0
    {
      capacity := count;
      held := 0;
    }

    /** available_units(): the units not held by anyone. */
    function AvailableUnits(): (n: nat)
      reads this
      requires Valid()
      ensures n + held == capacity
    {
      capacity - held
    }

    /** wait(units), admitted when that many units are free. */
    method Wait(units: nat)
      requires Valid()
      requires units <= AvailableUnits()
      modifies this
      ensures Valid()
      ensures held == old(held) + units
    {
      held := held + units;
    }

    /** try_wait(units): takes the units only if they are free right now. */
    method TryWait(units: nat) returns (ok: bool)
      requires Valid()
      modifies this
      ensures Valid()
      ensures ok <==> old(held) + units <= capacity
      ensures held == if ok then old(held) + units else old(held)
    {
      ok := held + units <= capacity;
      if ok {
        held := held + units;
      }
    }

    /** signal(units): gives back units taken earlier. */
    method Signal(units: nat)
      requires Valid()
      requires units <= held
      modifies this
      ensures Valid()
      ensures held == old(held) - units
    {
      held := held - units;
    }

    /**
      with_semaphore(units, work): takes the units, runs the work (whose
      outcome is `workSucceeded`) and gives the units back on either outcome.
     */
    method WithSemaphore(units: nat, workSucceeded: bool) returns (ok: bool)
      requires Valid()
      requires units <= AvailableUnits()
      modifies this
      ensures Valid()
      ensures held == old(held)
      ensures ok == workSucceeded
    {
      Wait(units);
      ok := workSucceeded;
      Signal(units);
    }
  }
}
