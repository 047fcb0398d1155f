/** The code of one process on the files of one ref, between the turns of all others (store/fs/refs.go). */
module RefStore {
  import opened Common
  import opened Objects
  import opened RefLock

  // ----- the turns of the others --------------------------------------------------------------

  /** What a process shares with the others: the two files, whether another live process is inside, and the log. */
  datatype Shared = Shared(ref: Option<Id>, lock: bool, taken: bool, log: seq<Effect>)

  /** What one turn of the others may change, seen by `me`, who may be inside. */
  ghost predicate Turn(me: nat, inside: bool, before: Shared, after: Shared) {
    && (after.taken ==> after.lock)
    && (inside ==> after.ref == before.ref && after.lock && !after.taken)
    && ((after.log == before.log && after.ref == before.ref) || OneEffect(me, before, after))
  }

  /** Another process had one effect. */
  ghost predicate OneEffect(me: nat, before: Shared, after: Shared) {
    && |after.log| == |before.log| + 1 && after.log[..|before.log|] == before.log
    && var e := after.log[|before.log|];
       e.process != me && Meets(e) && e.before == before.ref && e.after == after.ref
  }

  /** A state of the step system, seen by one of its processes. */
  ghost function SharedIn(s: State, me: nat): Shared {
    Shared(s.ref, s.lock, exists q :: 0 <= q < |s.processes| && q != me && Inside(s.processes[q]), s.log)
  }

  /** Every move of another process is such a turn. */
  lemma OthersTakeTurns(s: State, me: nat, q: nat, s': State, first: Option<Id>)
    requires Inv(s, first) && Moves(s, q, s') && me < |s.processes| && me != q
    ensures Turn(me, Inside(s.processes[me]), SharedIn(s, me), SharedIn(s', me)) && s'.processes[me] == s.processes[me]
  {
    MoveKeepsInv(s, q, s', first);
    assert Knows(s.ref, s.processes[q]) && Accounted(s.log, q, s.processes[q]);
    if Step(s, q, s') {
      StepEffect(s, q, s');
      StepKeepsExclusion(s, q, s');
    }
  }

  // ----- the code -----------------------------------------------------------------------------

  /** The files of one ref, shared with any number of other processes. */
  class RefFile {
    const me: nat
    ghost const first: Option<Id>
    var ref: Option<Id>
    var lock: bool
    var mine: bool
    var taken: bool            // another live process is inside
    ghost var log: seq<Effect>

    ghost predicate Valid()
      reads this
    {
      Sequential(log, first, ref) && (taken ==> lock) && (mine ==> lock && !taken)
    }

    ghost function Now(): Shared
      reads this
    {
      Shared(ref, lock, taken, log)
    }

    constructor (process: nat, value: Option<Id>)
      ensures Valid() && !mine && me == process && first == ref == value && log == []
    {
      me, first, ref, log := process, value, value, [];
      lock, mine, taken := false, false, false;
    }

    /** What this process has been returned, or nothing yet, since the log had `since` entries. */
    ghost predicate Answered(op: Op, since: nat, outcome: Outcome)
      reads this
    {
      TookEffect(log, me, op, since, outcome)
    }

    /** The turns of the others, between any two file operations of this process. */
    method Others()
      requires Valid()
      modifies this
      ensures Valid() && mine == old(mine) && old(log) <= log
      ensures mine ==> ref == old(ref)
      ensures forall i | |old(log)| <= i < |log| :: log[i].process != me
    {
      var turns: int := *;
      while turns > 0
        invariant Valid() && mine == old(mine) && old(log) <= log
        invariant mine ==> ref == old(ref)
        invariant forall i | |old(log)| <= i < |log| :: log[i].process != me
      {
        OneTurn();
        turns := turns - 1;
      }
    }

    /** Any turn at all. */
    method OneTurn()
      requires Valid()
      modifies this
      ensures Valid() && mine == old(mine) && Turn(me, mine, old(Now()), Now()) && old(log) <= log
    {
      var e: Effect := *;
      if e.process != me && Meets(e) && e.before == ref && (mine ==> e.after == ref) {
        SequentialGrows(log, first, e);
        ref := e.after;
        log := log + [e];
      }
      if !mine {
        lock, taken := *, *;
        taken := taken && lock;
      }
    }

    /** The call takes effect here. */
    method Take(op: Op, ghost since: nat, outcome: Outcome, after: Option<Id>)
      requires Valid() && Pending(log, me, since) && Meets(Effect(me, op, outcome, ref, after))
      modifies this
      ensures Valid() && mine == old(mine) && lock == old(lock) && ref == after
      ensures log == old(log) + [Effect(me, op, outcome, old(ref), after)] && Answered(op, since, outcome)
    {
      ghost var e := Effect(me, op, outcome, ref, after);
      TakesEffect(log, me, op, since, e);
      SequentialGrows(log, first, e);
      ref := after;
      log := log + [e];
    }

    /** acquireFileLock. Only the lock file of a process that died is broken. */
    method AcquireFileLock() returns (refusal: Option<Outcome>)
      requires Valid() && !mine
      modifies this
      ensures Valid() && old(log) <= log && mine == refusal.None?
      ensures refusal == None || refusal == Some(Busy) || refusal == Some(Failed)
      ensures forall i | |old(log)| <= i < |log| :: log[i].process != me
    {
      for attempt := 0 to LOCK_ATTEMPTS
        invariant Valid() && old(log) <= log && !mine
        invariant forall i | |old(log)| <= i < |log| :: log[i].process != me
      {
        Others();
        var broken: bool := *;
        if broken {
          return Some(Failed);
        }
        if !lock {
          lock, mine := true, true;
          return None;
        }
        Others();
        var stale: bool := *;
        if stale && lock && !taken {
          lock := false;
        }
      }
      return Some(Busy);
    }

    method Unlock()
      requires Valid() && mine
      modifies this
      ensures Valid() && !mine && ref == old(ref) && log == old(log)
    {
      mine := false;
      var removed: bool := *;
      if removed {
        lock := false;
      }
    }

    /** CompareAndSwap: exactly one effect, and the answer is that effect's. */
    method CompareAndSwap(expected: Option<Id>, next: Option<Id>) returns (outcome: Outcome)
      requires Valid() && !mine
      modifies this
      ensures Valid() && !mine && old(log) <= log
      ensures Answered(Swap(expected, next), |old(log)|, outcome)
    {
      var op := Swap(expected, next);
      ghost var since := |log|;
      if next.None? {
        Take(op, since, Refused, ref);
        return Refused;
      }
      var refusal := AcquireFileLock();
      if refusal.Some? {
        Take(op, since, refusal.value, ref);
        return refusal.value;
      }
      Others();
      var unread: bool := *;
      if unread {
        outcome := Failed;
        Take(op, since, outcome, ref);
      } else if ref != expected {
        outcome := Conflict;
        Take(op, since, outcome, ref);
      } else {
        Others();
        var written: bool := *;
        outcome := if written then Swapped else Failed;
        Take(op, since, outcome, if written then next else ref);
      }
      Unlock();
    }

    /** Delete */
    method DeleteRef() returns (outcome: Outcome)
      requires Valid() && !mine
      modifies this
      ensures Valid() && !mine && old(log) <= log
      ensures Answered(Delete, |old(log)|, outcome)
    {
      ghost var since := |log|;
      var refusal := AcquireFileLock();
      if refusal.Some? {
        Take(Delete, since, refusal.value, ref);
        return refusal.value;
      }
      Others();
      var removed: bool := *;
      outcome := if removed then Removed else Failed;
      Take(Delete, since, outcome, if removed then None else ref);
      Unlock();
    }
  }
}
