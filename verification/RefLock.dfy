/**
 One ref under the lock file of store/fs/refs.go: any number of processes, interleaving at the single
 file operations (exclusive create, read, rename, remove), each of which may fail, in a process that
 may die at any point.

 The in-process mutex of the original only removes interleavings, so it plays no part here.
 */
module RefLock {
  import opened Common
  import opened Objects
  import opened Runs

  const LOCK_ATTEMPTS: nat := 50

  /** A call on the ref. The zero VersionID, which stands for "no such ref", is None. */
  datatype Op = Get | Swap(expected: Option<Id>, next: Option<Id>) | Delete

  datatype Outcome =
    | Read(value: Option<Id>)
    | Swapped
    | Conflict   // the ref does not hold the expected value
    | Removed
    | Busy       // fifty attempts found the lock taken
    | Refused    // a swap to the zero version
    | Failed     // an I/O error

  /** When a call takes effect: what the ref held just before and just after. */
  datatype Effect = Effect(process: nat, op: Op, outcome: Outcome, before: Option<Id>, after: Option<Id>)

  /** The sequential specification of one call on an atomic ref. */
  predicate Meets(e: Effect) {
    match e.outcome
    case Read(v) => e.op.Get? && v == e.before && e.after == e.before
    case Swapped => e.op.Swap? && e.op.next.Some? && e.before == e.op.expected && e.after == e.op.next
    case Conflict => e.op.Swap? && e.before != e.op.expected && e.after == e.before
    case Removed => e.op.Delete? && e.after == None
    case Busy => !e.op.Get? && e.after == e.before
    case Refused => e.op.Swap? && e.op.next.None? && e.after == e.before
    case Failed => e.after == e.before
  }

  /** A sequential execution from `first` to `last`: each effect starts from what the previous one left. */
  ghost predicate Sequential(log: seq<Effect>, first: Option<Id>, last: Option<Id>) {
    && (forall i | 0 <= i < |log| :: Meets(log[i]))
    && (forall i | 0 < i < |log| :: log[i - 1].after == log[i].before)
    && (if log == [] then first == last else log[0].before == first && log[|log| - 1].after == last)
  }

  /** Where a process is. `since` is the length of the log when it made its call. */
  datatype Pc =
    | Idle
    | Trying(op: Op, since: nat, attempt: nat)    // about to create the lock file, or to read for a Get
    | Judging(op: Op, since: nat, attempt: nat)   // found the lock file too old, and is about to remove it
    | Holding(op: Op, since: nat)                 // created the lock file
    | Matched(op: Op, since: nat)                 // read the ref and found the expected value
    | Leaving(op: Op, since: nat, outcome: Outcome)
    | Returned(op: Op, since: nat, outcome: Outcome)
    | Dead

  datatype State = State(ref: Option<Id>, lock: bool, processes: seq<Pc>, log: seq<Effect>)

  /** Between the exclusive create and the remove. */
  predicate Inside(pc: Pc) {
    pc.Holding? || pc.Matched? || pc.Leaving?
  }

  // ----- steps --------------------------------------------------------------------------------

  function Moved(s: State, p: nat, pc: Pc): State
    requires p < |s.processes|
  {
    s.(processes := s.processes[p := pc])
  }

  /** The step at which the call of `p` takes effect. */
  function Effected(s: State, p: nat, pc: Pc, op: Op, outcome: Outcome, after: Option<Id>): State
    requires p < |s.processes|
  {
    State(after, s.lock, s.processes[p := pc], s.log + [Effect(p, op, outcome, s.ref, after)])
  }

  /** A swap to the zero version is refused before anything is touched. */
  function Called(s: State, p: nat, op: Op): State
    requires p < |s.processes|
  {
    if op.Swap? && op.next.None? then Effected(s, p, Returned(op, |s.log|, Refused), op, Refused, s.ref)
    else Moved(s, p, Trying(op, |s.log|, 0))
  }

  /** The next attempt, if there is one. */
  function TriedAgain(s: State, p: nat): State
    requires p < |s.processes| && (s.processes[p].Trying? || s.processes[p].Judging?)
  {
    var op, since, n := s.processes[p].op, s.processes[p].since, s.processes[p].attempt;
    if n + 1 < LOCK_ATTEMPTS then Moved(s, p, Trying(op, since, n + 1))
    else Effected(s, p, Returned(op, since, Busy), op, Busy, s.ref)
  }

  /** One attempt of acquireFileLock, with a lock that is not stale. A Get reads without a lock. */
  function Tried(s: State, p: nat): State
    requires p < |s.processes| && s.processes[p].Trying?
  {
    var Trying(op, since, n) := s.processes[p];
    if op.Get? then Effected(s, p, Returned(op, since, Read(s.ref)), op, Read(s.ref), s.ref)
    else if !s.lock then Moved(s, p, Holding(op, since)).(lock := true)
    else TriedAgain(s, p)
  }

  /** The first half of breakStaleLock: the lock file is there, and looks old. */
  predicate Judged(s: State, p: nat, s': State) {
    && p < |s.processes| && s.processes[p].Trying? && !s.processes[p].op.Get? && s.lock
    && s' == Moved(s, p, Judging(s.processes[p].op, s.processes[p].since, s.processes[p].attempt))
  }

  /** checkCurrent of CompareAndSwap, or the removal of Delete. */
  function Checked(s: State, p: nat): State
    requires p < |s.processes| && s.processes[p].Holding?
  {
    var Holding(op, since) := s.processes[p];
    if !op.Swap? then Effected(s, p, Leaving(op, since, Removed), op, Removed, None)
    else if s.ref == op.expected then Moved(s, p, Matched(op, since))
    else Effected(s, p, Leaving(op, since, Conflict), op, Conflict, s.ref)
  }

  /** The rename of write. */
  function Renamed(s: State, p: nat): State
    requires p < |s.processes| && s.processes[p].Matched? && s.processes[p].op.Swap?
  {
    var Matched(op, since) := s.processes[p];
    Effected(s, p, Leaving(op, since, Swapped), op, Swapped, op.next)
  }

  /** An I/O error ends the call; under the lock, the lock is given back first. */
  function Broken(s: State, p: nat): State
    requires p < |s.processes| && (s.processes[p].Trying? || s.processes[p].Holding? || s.processes[p].Matched?)
  {
    var op, since := s.processes[p].op, s.processes[p].since;
    var after := if s.processes[p].Trying? then Returned(op, since, Failed) else Leaving(op, since, Failed);
    Effected(s, p, after, op, Failed, s.ref)
  }

  /** unlock: the error of the remove is dropped, so the lock file may stay behind. */
  function Unlocked(s: State, p: nat, removed: bool): State
    requires p < |s.processes| && s.processes[p].Leaving?
  {
    var Leaving(op, since, outcome) := s.processes[p];
    var left := Moved(s, p, Returned(op, since, outcome));
    if removed then left.(lock := false) else left
  }

  ghost predicate Step(s: State, p: nat, s': State) {
    p < |s.processes| &&
    match s.processes[p]
    case Idle => exists op :: s' == Called(s, p, op)
    case Trying(_, _, _) => s' == Tried(s, p) || s' == Broken(s, p) || s' == Moved(s, p, Dead) || Judged(s, p, s')
    case Judging(_, _, _) => s' == TriedAgain(s, p) || s' == Moved(s, p, Dead)
    case Holding(_, _) => s' == Checked(s, p) || s' == Broken(s, p) || s' == Moved(s, p, Dead)
    case Matched(op, _) => (op.Swap? && s' == Renamed(s, p)) || s' == Broken(s, p) || s' == Moved(s, p, Dead)
    case Leaving(_, _, _) => s' == Unlocked(s, p, true) || s' == Unlocked(s, p, false) || s' == Moved(s, p, Dead)
    case Returned(_, _, _) => s' == Moved(s, p, Idle)
    case Dead => false
  }

  /** The second half: the lock file is removed, whoever created it, and whenever. */
  predicate Breaks(s: State, p: nat, s': State) {
    p < |s.processes| && s.processes[p].Judging? && s.lock && s' == TriedAgain(s, p).(lock := false)
  }

  /** No live process is past the create: if there is a lock file, its creator died. */
  predicate Abandoned(s: State) {
    forall q | 0 <= q < |s.processes| :: !Inside(s.processes[q])
  }

  predicate Initial(s: State) {
    !s.lock && s.log == [] && forall p | 0 <= p < |s.processes| :: s.processes[p].Idle?
  }

  /** A step, or the removal of a lock file whose creator is dead. */
  ghost predicate Moves(s: State, p: nat, s': State) {
    Step(s, p, s') || (Breaks(s, p, s') && Abandoned(s))
  }

  /** Only abandoned locks are broken. */
  ghost predicate Run(states: seq<State>, movers: seq<nat>) {
    && |states| == |movers| + 1 && Initial(states[0])
    && forall i | 0 <= i < |movers| :: Moves(states[i], movers[i], states[i + 1])
  }

  // ----- what every step keeps ----------------------------------------------------------------

  /** At most one process is inside, and then the lock file exists. */
  ghost predicate Exclusive(s: State) {
    && (forall p | 0 <= p < |s.processes| && Inside(s.processes[p]) :: s.lock)
    && forall p, q | 0 <= p < q < |s.processes| :: !(Inside(s.processes[p]) && Inside(s.processes[q]))
  }

  /** What a process knows about its call and about the ref. */
  predicate Knows(ref: Option<Id>, pc: Pc) {
    match pc
    case Trying(op, _, _) => op.Swap? ==> op.next.Some?
    case Judging(op, _, _) => !op.Get? && (op.Swap? ==> op.next.Some?)
    case Holding(op, _) => !op.Get? && (op.Swap? ==> op.next.Some?)
    case Matched(op, _) => op.Swap? && op.next.Some? && ref == op.expected
    case _ => true
  }

  /** `p` has had no effect since its call. */
  ghost predicate Pending(log: seq<Effect>, p: nat, since: nat) {
    since <= |log| && forall i | since <= i < |log| :: log[i].process != p
  }

  /** `p` has had exactly one effect since its call, and it returns what that effect says. */
  ghost predicate TookEffect(log: seq<Effect>, p: nat, op: Op, since: nat, outcome: Outcome) {
    since <= |log| && exists k :: since <= k < |log| && IsTheEffect(log, p, op, since, outcome, k)
  }

  ghost predicate IsTheEffect(log: seq<Effect>, p: nat, op: Op, since: nat, outcome: Outcome, k: nat)
    requires since <= k < |log|
  {
    && log[k].process == p && log[k].op == op && log[k].outcome == outcome
    && forall i | since <= i < |log| && log[i].process == p :: i == k
  }

  ghost predicate Accounted(log: seq<Effect>, p: nat, pc: Pc) {
    match pc
    case Trying(_, since, _) => Pending(log, p, since)
    case Judging(_, since, _) => Pending(log, p, since)
    case Holding(_, since) => Pending(log, p, since)
    case Matched(_, since) => Pending(log, p, since)
    case Leaving(op, since, outcome) => TookEffect(log, p, op, since, outcome)
    case Returned(op, since, outcome) => TookEffect(log, p, op, since, outcome)
    case _ => true
  }

  ghost predicate Inv(s: State, first: Option<Id>) {
    && Exclusive(s) && Sequential(s.log, first, s.ref)
    && forall p | 0 <= p < |s.processes| :: Knows(s.ref, s.processes[p]) && Accounted(s.log, p, s.processes[p])
  }

  /** Only the holder of the lock changes the ref, and nobody else can be past the create. */
  lemma StepKeepsExclusion(s: State, p: nat, s': State)
    requires Step(s, p, s') && Exclusive(s)
    ensures Exclusive(s')
    ensures s'.ref != s.ref ==> Inside(s.processes[p])
    ensures forall q | 0 <= q < |s.processes| && q != p :: s'.processes[q] == s.processes[q]
  {
  }

  lemma LogGrows(log: seq<Effect>, e: Effect, q: nat, pc: Pc)
    requires Accounted(log, q, pc) && e.process != q
    ensures Accounted(log + [e], q, pc)
  {
    if (pc.Leaving? || pc.Returned?) {
      var k :| pc.since <= k < |log| && IsTheEffect(log, q, pc.op, pc.since, pc.outcome, k);
      assert IsTheEffect(log + [e], q, pc.op, pc.since, pc.outcome, k);
    }
  }

  lemma TakesEffect(log: seq<Effect>, p: nat, op: Op, since: nat, e: Effect)
    requires Pending(log, p, since) && e.process == p && e.op == op
    ensures TookEffect(log + [e], p, op, since, e.outcome)
  {
    assert IsTheEffect(log + [e], p, op, since, e.outcome, |log|);
  }

  lemma SequentialGrows(log: seq<Effect>, first: Option<Id>, e: Effect)
    requires Sequential(log, first, e.before) && Meets(e)
    ensures Sequential(log + [e], first, e.after)
  {
  }

  /** What the mover did: nothing visible, or the one effect of its call. */
  ghost predicate Behaves(s: State, p: nat, s': State) {
    && p < |s'.processes| && (Silent(s, s') || Visible(s, p, s'))
    && Knows(s'.ref, s'.processes[p]) && Accounted(s'.log, p, s'.processes[p])
  }

  lemma StepEffect(s: State, p: nat, s': State)
    requires Step(s, p, s') && Knows(s.ref, s.processes[p]) && Accounted(s.log, p, s.processes[p])
    ensures Behaves(s, p, s')
  {
    if !Silent(s, s') {
      EffectIsPending(s, p, s');
      EffectedStep(s, p, s'.processes[p], s'.ref);
    }
  }

  /** A step that shows is the effect of a call that was pending. */
  lemma EffectIsPending(s: State, p: nat, s': State)
    requires Step(s, p, s') && Knows(s.ref, s.processes[p]) && Accounted(s.log, p, s.processes[p])
    requires !Silent(s, s')
    ensures var pc' := s'.processes[p];
      && (pc'.Leaving? || pc'.Returned?) && Pending(s.log, p, pc'.since)
      && s' == Effected(s, p, pc', pc'.op, pc'.outcome, s'.ref)
      && Meets(Effect(p, pc'.op, pc'.outcome, s.ref, s'.ref))
  {
  }

  lemma EffectedStep(s: State, p: nat, pc: Pc, after: Option<Id>)
    requires p < |s.processes| && (pc.Leaving? || pc.Returned?) && Pending(s.log, p, pc.since)
    requires Meets(Effect(p, pc.op, pc.outcome, s.ref, after))
    ensures Behaves(s, p, Effected(s, p, pc, pc.op, pc.outcome, after))
  {
    TakesEffect(s.log, p, pc.op, pc.since, Effect(p, pc.op, pc.outcome, s.ref, after));
  }

  predicate Silent(s: State, s': State) {
    s'.log == s.log && s'.ref == s.ref
  }

  /** One effect of `p`, from what the ref held to what it holds now. */
  predicate Visible(s: State, p: nat, s': State) {
    && |s'.log| == |s.log| + 1 && s'.log[..|s.log|] == s.log
    && var e := s'.log[|s.log|]; Meets(e) && e.process == p && e.before == s.ref && e.after == s'.ref
  }

  /** What holds of the log and of the processes goes on to hold, if only one process moves. */
  lemma BehavingKeepsInv(s: State, p: nat, s': State, first: Option<Id>)
    requires Inv(s, first) && Exclusive(s') && Behaves(s, p, s') && |s'.processes| == |s.processes|
    requires forall q | 0 <= q < |s.processes| && q != p :: s'.processes[q] == s.processes[q]
    requires s'.ref != s.ref ==> Inside(s.processes[p])
    ensures Inv(s', first)
  {
    if !Silent(s, s') {
      var e := s'.log[|s.log|];
      assert s'.log == s.log + [e];
      SequentialGrows(s.log, first, e);
      forall q | 0 <= q < |s.processes| && q != p
        ensures Knows(s'.ref, s'.processes[q]) && Accounted(s'.log, q, s'.processes[q])
      {
        LogGrows(s.log, e, q, s.processes[q]);
        assert Knows(s.ref, s.processes[q]);
      }
    }
  }

  lemma StepKeepsInv(s: State, p: nat, s': State, first: Option<Id>)
    requires Step(s, p, s') && Inv(s, first)
    ensures Inv(s', first)
  {
    StepKeepsExclusion(s, p, s');
    StepEffect(s, p, s');
    BehavingKeepsInv(s, p, s', first);
  }

  /** Nobody is inside: taking the lock file away changes nothing for anybody. */
  lemma BreakingAnAbandonedLockKeepsInv(s: State, p: nat, s': State, first: Option<Id>)
    requires Inv(s, first) && Breaks(s, p, s') && Abandoned(s)
    ensures Inv(s', first)
  {
    assert Knows(s.ref, s.processes[p]) && Accounted(s.log, p, s.processes[p]);
    if !Silent(s, s') {
      var pc' := s'.processes[p];
      EffectedStep(s, p, pc', s.ref);
    }
    BehavingKeepsInv(s, p, s', first);
  }

  lemma MoveKeepsInv(s: State, p: nat, s': State, first: Option<Id>)
    requires Moves(s, p, s') && Inv(s, first)
    ensures Inv(s', first) && |s'.processes| == |s.processes|
  {
    if Step(s, p, s') {
      StepKeepsInv(s, p, s', first);
    } else {
      BreakingAnAbandonedLockKeepsInv(s, p, s', first);
    }
  }

  lemma {:induction false} RunKeepsInv(states: seq<State>, movers: seq<nat>, n: nat)
    requires Run(states, movers) && n < |states|
    ensures Inv(states[n], states[0].ref) && |states[n].processes| == |states[0].processes|
  {
    if n > 0 {
      RunKeepsInv(states, movers, n - 1);
      MoveKeepsInv(states[n - 1], movers[n - 1], states[n], states[0].ref);
    }
  }

  // ----- the main results ---------------------------------------------------------------------

  /** At every point of every run at most one process is between the create and the remove. */
  lemma AtMostOneHolder(states: seq<State>, movers: seq<nat>, n: nat, p: nat, q: nat)
    requires Run(states, movers) && n < |states| && p < |states[n].processes| && q < |states[n].processes|
    requires Inside(states[n].processes[p]) && Inside(states[n].processes[q])
    ensures p == q
  {
    RunKeepsInv(states, movers, n);
  }

  /**
   Every run is linearizable: its effects form a sequential execution of an atomic ref that ends in
   what the file holds, and every call that has returned had exactly one effect, between its start and
   its return, and returned what that effect says.
   */
  lemma RunsAreLinearizable(states: seq<State>, movers: seq<nat>, n: nat)
    requires Run(states, movers) && n < |states|
    ensures Sequential(states[n].log, states[0].ref, states[n].ref)
    ensures forall p | 0 <= p < |states[n].processes| && states[n].processes[p].Returned? ::
              var pc := states[n].processes[p];
              TookEffect(states[n].log, p, pc.op, pc.since, pc.outcome)
  {
    RunKeepsInv(states, movers, n);
  }

  /** No lost update: of two swaps that replaced the same value, the value came back in between. */
  lemma OneWinnerPerValue(states: seq<State>, movers: seq<nat>, n: nat, i: nat, j: nat)
    requires Run(states, movers) && n < |states|
    requires i < j < |states[n].log| && states[n].log[i].outcome.Swapped? && states[n].log[j].outcome.Swapped?
    requires states[n].log[i].before == states[n].log[j].before != states[n].log[i].after
    ensures exists k :: i < k < j && states[n].log[k].after == states[n].log[i].before != states[n].log[k].before
  {
    RunKeepsInv(states, movers, n);
    ValueComesBack(states[n].log, i, j, states[n].log[i].before);
  }

  lemma {:induction false} ValueComesBack(log: seq<Effect>, i: nat, j: nat, v: Option<Id>)
    requires i < j < |log| && (forall k | 0 < k < |log| :: log[k - 1].after == log[k].before)
    requires log[i].after != v && log[j].before == v
    ensures exists k :: i < k < j && log[k].after == v != log[k].before
  {
    if log[j - 1].before == v {
      ValueComesBack(log, i, j - 1, v);
    }
  }

  /** While `p` is inside, a step of anybody else leaves the ref and the lock file alone. */
  lemma OthersRespectTheHolder(s: State, p: nat, q: nat, s': State)
    requires Exclusive(s) && Step(s, q, s') && p < |s.processes| && p != q && Inside(s.processes[p])
    ensures s'.ref == s.ref && s'.lock && Inside(s'.processes[p])
    ensures forall i | |s.log| <= i < |s'.log| :: s'.log[i].process == q
  {
    StepKeepsExclusion(s, q, s');
  }

  // ----- breaking a lock ----------------------------------------------------------------------

  ghost function MovesOf(): (State, nat, State) -> bool {
    (s: State, p: nat, t: State) => Moves(s, p, t)
  }

  /** A process that is inside gives up, removes the lock file that is there, and makes its next call. */
  lemma Leaves(s: State, p: nat) returns (movers: seq<nat>, t: State)
    requires p < |s.processes| && Inside(s.processes[p])
    ensures Leads(MovesOf(), s, movers, t) && s.log <= t.log
    ensures t.ref == s.ref && !t.lock && t.processes == s.processes[p := Idle]
  {
    var s1 := if s.processes[p].Leaving? then s else Broken(s, p);
    var s2 := Unlocked(s1, p, true);
    t := Moved(s2, p, Idle);
    TwoSteps(MovesOf(), s1, p, s2, p, t);
    if s.processes[p].Leaving? {
      return [p, p], t;
    }
    LeadsFrom(MovesOf(), s, p, s1, [p, p], t);
    return [p] + [p, p], t;
  }

  /** And gets in, if there is no lock file. */
  lemma Enters(s: State, p: nat, op: Op) returns (t: State)
    requires p < |s.processes| && s.processes[p].Idle? && !s.lock && op.Swap? && op.next.Some?
    ensures Leads(MovesOf(), s, [p, p], t)
    ensures t == s.(lock := true, processes := s.processes[p := Holding(op, |s.log|)])
  {
    var s1 := Called(s, p, op);
    t := Tried(s1, p);
    TwoSteps(MovesOf(), s, p, s1, p, t);
  }

  lemma LeavesAndEnters(s: State, p: nat, op: Op) returns (movers: seq<nat>, t: State)
    requires p < |s.processes| && Inside(s.processes[p]) && op.Swap? && op.next.Some?
    ensures Leads(MovesOf(), s, movers, t) && s.log <= t.log && t.ref == s.ref && |t.processes| == |s.processes|
    ensures t.processes[p].Holding? && t.processes[p].op == op
    ensures forall q | 0 <= q < |s.processes| && q != p :: t.processes[q] == s.processes[q]
  {
    var s1;
    movers, s1 := Leaves(s, p);
    t := Enters(s1, p, op);
    LeadsOn(MovesOf(), s, movers, s1, [p, p], t);
    movers := movers + [p, p];
  }

  /** Once a lock file is broken, the one who broke it gets in. */
  lemma BreakerGetsIn(s: State, p: nat, s': State) returns (movers: seq<nat>, t: State)
    requires Breaks(s, p, s') && Knows(s.ref, s.processes[p])
    ensures Leads(MovesOf(), s', movers, t) && s'.log <= t.log && t.ref == s.ref && |t.processes| == |s.processes|
    ensures Inside(t.processes[p])
    ensures forall q | 0 <= q < |s.processes| && q != p :: t.processes[q] == s.processes[q]
  {
    if s'.processes[p].Trying? {
      t := Tried(s', p);
      movers := [p];
      assert Leads(MovesOf(), t, [], t);
      LeadsFrom(MovesOf(), s', p, t, [], t);
      assert [p] + [] == [p];
    } else {
      var s1 := Moved(s', p, Idle);
      t := Enters(s1, p, Swap(None, Some("")));
      LeadsFrom(MovesOf(), s', p, s1, [p, p], t);
      movers := [p] + [p, p];
    }
  }

  /** Two swaps that expected the same value, and the second replaced the value of the first. */
  predicate LosesAnUpdate(log: seq<Effect>) {
    |log| >= 2 &&
    var won, lost := log[|log| - 1], log[|log| - 2];
    && won.outcome.Swapped? && lost.outcome.Swapped? && won.op.Swap? && lost.op.Swap?
    && won.op.expected == lost.op.expected == lost.before && won.before == lost.after != won.op.expected
  }

  lemma BothSwap(s: State, p: nat, q: nat) returns (t: State)
    requires p < |s.processes| && q < |s.processes| && p != q && s.processes[p].Holding? && s.processes[q].Holding?
    requires s.processes[p].op.Swap? && s.processes[q].op.Swap?
    requires s.processes[p].op.expected == s.processes[q].op.expected == s.ref != s.processes[p].op.next
    ensures Leads(MovesOf(), s, [p, q, p, q], t) && LosesAnUpdate(t.log)
  {
    var s1 := Checked(s, p);
    var s2 := Checked(s1, q);
    var s3 := Renamed(s2, p);
    t := Renamed(s3, q);
    FourSteps(MovesOf(), s, p, s1, q, s2, p, s3, q, t);
  }

  /** The lock file of a live process is broken: two processes are inside at a time ... */
  lemma BreakingALiveLockAdmitsTwo(s: State, p: nat, s': State, first: Option<Id>)
    returns (movers: seq<nat>, t: State, q: nat)
    requires Inv(s, first) && Breaks(s, p, s') && !Abandoned(s)
    ensures Leads(MovesOf(), s', movers, t) && p < |t.processes| && q < |t.processes| && p != q
    ensures Inside(t.processes[p]) && Inside(t.processes[q])
  {
    q :| q < |s.processes| && Inside(s.processes[q]);
    movers, t := BreakerGetsIn(s, p, s');
  }

  /** ... and an update can be lost. */
  lemma BreakingALiveLockLosesAnUpdate(s: State, p: nat, s': State, first: Option<Id>)
    returns (movers: seq<nat>, t: State)
    requires Inv(s, first) && Breaks(s, p, s') && !Abandoned(s)
    ensures Leads(MovesOf(), s', movers, t) && LosesAnUpdate(t.log)
  {
    var q :| 0 <= q < |s.processes| && Inside(s.processes[q]);
    var other := if s.ref == Some("") then Some("a") else Some("");
    var m1, s1 := BreakerGetsIn(s, p, s');
    var m2, s2 := LeavesAndEnters(s1, q, Swap(s.ref, other));
    var m3, s3 := LeavesAndEnters(s2, p, Swap(s.ref, other));
    t := BothSwap(s3, q, p);
    LeadsOn<State, nat>(MovesOf(), s', m1, s1, m2, s2);
    LeadsOn<State, nat>(MovesOf(), s', m1 + m2, s2, m3, s3);
    LeadsOn<State, nat>(MovesOf(), s', m1 + m2 + m3, s3, [q, p, q, p], t);
    movers := m1 + m2 + m3 + [q, p, q, p];
  }

  lemma LosingIsNotSequential(log: seq<Effect>, first: Option<Id>, last: Option<Id>)
    requires LosesAnUpdate(log)
    ensures !Sequential(log, first, last)
  {
    assert !Meets(log[|log| - 1]);
  }

  lemma AfterAnAbandonedBreak(s: State, p: nat, s': State, first: Option<Id>, movers: seq<nat>, t: State)
    requires Inv(s, first) && Breaks(s, p, s') && Abandoned(s) && Leads(MovesOf(), s', movers, t)
    ensures Sequential(t.log, first, t.ref)
  {
    BreakingAnAbandonedLockKeepsInv(s, p, s', first);
    var inv := (u: State) => Inv(u, first);
    forall x, a, y | inv(x) && MovesOf()(x, a, y) ensures inv(y) {
      MoveKeepsInv(x, a, y, first);
    }
    LeadsKeeps(MovesOf(), inv, s', movers, t);
  }

  /** Breaking a lock leaves every continuation a sequential execution exactly when no live process is inside. */
  lemma BreakingIsSafeIffAbandoned(s: State, p: nat, s': State, first: Option<Id>)
    requires Inv(s, first) && Breaks(s, p, s')
    ensures (forall movers: seq<nat>, t | Leads(MovesOf(), s', movers, t) :: Sequential(t.log, first, t.ref)) <==>
            Abandoned(s)
  {
    if Abandoned(s) {
      forall movers: seq<nat>, t | Leads(MovesOf(), s', movers, t) ensures Sequential(t.log, first, t.ref) {
        AfterAnAbandonedBreak(s, p, s', first, movers, t);
      }
    } else {
      var movers: seq<nat>, t := BreakingALiveLockLosesAnUpdate(s, p, s', first);
      LosingIsNotSequential(t.log, first, t.ref);
      assert Leads(MovesOf(), s', movers, t);
    }
  }

  // ----- two breakers of one lock -------------------------------------------------------------

  /** A lock is only judged old if its creator is dead. Nothing is said of the moment of the removal. */
  ghost predicate JudgesWell(s: State, p: nat, s': State) {
    Moves(s, p, s') && (Judged(s, p, s') ==> Abandoned(s))
  }

  ghost function JudgesWellOf(): (State, nat, State) -> bool {
    (s: State, p: nat, t: State) => JudgesWell(s, p, t)
  }

  /** One process dies inside, and two others find its lock file old. */
  lemma TwoJudge(s: State, op: Op) returns (t: State)
    requires Initial(s) && |s.processes| >= 3 && op.Swap? && op.next.Some?
    ensures Leads(JudgesWellOf(), s, [0, 0, 0] + [1, 1] + [2, 2], t)
    ensures t == s.(lock := true, processes := s.processes[0 := Dead][1 := Judging(op, 0, 0)][2 := Judging(op, 0, 0)])
  {
    var s3 := DiesInside(s, 0, op);
    var s5 := Judges(s3, 1, op);
    t := Judges(s5, 2, op);
    LeadsOn(JudgesWellOf(), s, [0, 0, 0], s3, [1, 1], s5);
    LeadsOn(JudgesWellOf(), s, [0, 0, 0] + [1, 1], s5, [2, 2], t);
  }

  lemma DiesInside(s: State, p: nat, op: Op) returns (t: State)
    requires p < |s.processes| && s.processes[p].Idle? && !s.lock && op.Swap? && op.next.Some?
    ensures Leads(JudgesWellOf(), s, [p, p, p], t) && t == s.(lock := true, processes := s.processes[p := Dead])
  {
    var s1 := Called(s, p, op);
    var s2 := Tried(s1, p);
    t := Moved(s2, p, Dead);
    ThreeSteps(JudgesWellOf(), s, p, s1, p, s2, p, t);
  }

  lemma Judges(s: State, p: nat, op: Op) returns (t: State)
    requires p < |s.processes| && s.processes[p].Idle? && s.lock && Abandoned(s) && op.Swap? && op.next.Some?
    ensures Leads(JudgesWellOf(), s, [p, p], t) && t == s.(processes := s.processes[p := Judging(op, |s.log|, 0)])
    ensures Abandoned(t)
  {
    var s1 := Called(s, p, op);
    t := Moved(s1, p, Judging(op, |s.log|, 0));
    TwoSteps(JudgesWellOf(), s, p, s1, p, t);
  }

  /**
   Between the look at the age of a lock file and its removal, another process may have removed it and
   created its own: then a live lock is broken although every lock was judged well.
   */
  lemma TwoBreakersOfOneLock(s: State, op: Op) returns (movers: seq<nat>, t: State, t': State)
    requires Initial(s) && |s.processes| >= 3 && op.Swap? && op.next.Some?
    ensures Leads(JudgesWellOf(), s, movers, t) && Inv(t, s.ref)
    ensures Breaks(t, 2, t') && !Abandoned(t)
  {
    var s1 := TwoJudge(s, op);
    var s2 := TriedAgain(s1, 1).(lock := false);
    t := Tried(s2, 1);
    TwoSteps(JudgesWellOf(), s1, 1, s2, 1, t);
    LeadsOn(JudgesWellOf(), s, [0, 0, 0] + [1, 1] + [2, 2], s1, [1, 1], t);
    movers := [0, 0, 0] + [1, 1] + [2, 2] + [1, 1];
    assert Inside(t.processes[1]);
    t' := TriedAgain(t, 2).(lock := false);
    assert Sequential(t.log, s.ref, t.ref);
    forall p | 0 <= p < |t.processes| ensures Knows(t.ref, t.processes[p]) && Accounted(t.log, p, t.processes[p]) {
      assert p > 2 ==> t.processes[p] == s.processes[p];
    }
  }
}
