/**
 Linear history: for any number of spaces and any interleaving, the values of a ref outside the
 snapshot timeline are exactly a parent chain.
 */
module History {
  import opened Common
  import opened Protocol

  /** What the parent of an unpublished version is. */
  ghost predicate PlansLinearly(sp: Space) {
    match sp.pc
    case Adopting(job, _, parent) => parent == if job.Commit? then BaseOf(sp) else None
    case Publishing(job, v, parent) =>
      && parent == (if job.Commit? then BaseOf(sp) else None)
      && v.parents == ParentsOf(parent) && (v.expires <==> job.Snap?)
    case Keeping(v) => v.parents == [] && !v.expires
    case Promoting(v) => v.parents == [] && !v.expires
    case _ => true
  }

  ghost predicate AllPlanLinearly(s: State) {
    forall i | 0 <= i < |s.spaces| :: PlansLinearly(s.spaces[i])
  }

  lemma SpacePlansOn(l: Layout, refs: map<Name, Ver>, objects: set<Obj>, sp: Space, a: Action)
    requires !a.Expire? && !a.Collect? && SpaceEnabled(l, refs, objects, sp, a) && PlansLinearly(sp)
    ensures PlansLinearly(SpaceAfter(l, refs, sp, a))
  {
  }

  lemma StepPlansLinearly(l: Layout, s: State, a: Action)
    requires Enabled(l, s, a) && AllPlanLinearly(s)
    ensures AllPlanLinearly(Next(l, s, a))
  {
    if !a.Expire? && !a.Collect? {
      SpacePlansOn(l, s.refs, s.objects, s.spaces[a.i], a);
    }
  }

  /**
   The core of the protocol: a ref outside `snapshots/` moves only from its value to a version whose
   sole parent is that value; and if it moved from a value, that value was the base of the space.
   */
  lemma RefMovesToItsChild(l: Layout, s: State, a: Action, name: Name)
    requires Enabled(l, s, a) && AllPlanLinearly(s) && !OnTimeline(name)
    ensures var before, after := RefAt(s.refs, name), RefAt(Next(l, s, a).refs, name);
      after == before || (after.Some? && after.value.parents == ParentsOf(before) && !after.value.expires)
    ensures var before, after := RefAt(s.refs, name), RefAt(Next(l, s, a).refs, name);
      after != before && before.Some? ==> a.Publish? && BaseOf(s.spaces[a.i]) == before
  {
    if a.Publish? {
      assert PlansLinearly(s.spaces[a.i]);
    }
  }

  /** A version, preceded by its parent, the parent of that, and so on. */
  function Line(v: Ver): (line: seq<Ver>)
    ensures line != [] && line[|line| - 1] == v
  {
    if v.parents == [] then [v] else Line(v.parents[0]) + [v]
  }

  /** Nothing in the history of `v` has more than one parent. */
  predicate IsChain(v: Ver) {
    |v.parents| <= 1 && forall p | p in v.parents :: IsChain(p)
  }

  /** The successive values of a ref. */
  function Taken(states: seq<State>, name: Name): seq<Ver>
    requires states != []
  {
    var now := RefAt(states[|states| - 1].refs, name);
    if |states| == 1 then ParentsOf(now)
    else
      var earlier := states[..|states| - 1];
      Taken(earlier, name) + if now == RefAt(earlier[|earlier| - 1].refs, name) then [] else ParentsOf(now)
  }

  lemma {:induction false} RunPlansLinearly(l: Layout, states: seq<State>, actions: seq<Action>, n: nat)
    requires Run(l, states, actions) && n < |states|
    ensures AllPlanLinearly(states[n])
  {
    if n > 0 {
      RunPlansLinearly(l, states, actions, n - 1);
      StepPlansLinearly(l, states[n - 1], actions[n - 1]);
    }
  }

  /** History as a ref tells it: `v` descends through sole parents, and `line` is the way there. */
  ghost predicate Tells(value: Option<Ver>, line: seq<Ver>) {
    match value
    case None => line == []
    case Some(v) => IsChain(v) && line == Line(v)
  }

  /** A ref stays, or moves to a version whose sole parent is its value. */
  predicate Descends(before: Option<Ver>, after: Option<Ver>) {
    after == before || (after.Some? && after.value.parents == ParentsOf(before))
  }

  lemma RefDescends(l: Layout, states: seq<State>, actions: seq<Action>, name: Name, n: nat)
    requires Run(l, states, actions) && !OnTimeline(name) && n < |actions|
    ensures Descends(RefAt(states[n].refs, name), RefAt(states[n + 1].refs, name))
  {
    RunPlansLinearly(l, states, actions, n);
    RefMovesToItsChild(l, states[n], actions[n], name);
  }

  lemma DescendantTells(before: Option<Ver>, after: Option<Ver>, line: seq<Ver>)
    requires Tells(before, line) && Descends(before, after)
    ensures Tells(after, line + if after == before then [] else ParentsOf(after))
  {
    if after == before {
      assert line + [] == line;
    }
  }

  /**
   In every run, the successive values of a ref outside `snapshots/` are exactly the parent chain of
   its last value.
   */
  lemma {:induction false} HistoryIsLinear(l: Layout, states: seq<State>, actions: seq<Action>, name: Name, n: nat)
    requires Run(l, states, actions) && !OnTimeline(name) && n < |states|
    ensures Tells(RefAt(states[n].refs, name), Taken(states[..n + 1], name))
  {
    if n > 0 {
      HistoryIsLinear(l, states, actions, name, n - 1);
      RefDescends(l, states, actions, name, n - 1);
      DescendantTells(RefAt(states[n - 1].refs, name), RefAt(states[n].refs, name), Taken(states[..n], name));
      assert states[..n + 1][..n] == states[..n];
    }
  }

  /** `after` has all of the history of `before`. */
  predicate Continues(before: Option<Ver>, after: Option<Ver>) {
    before.Some? ==> after.Some? && Line(before.value) <= Line(after.value)
  }

  lemma DescendantContinues(first: Option<Ver>, before: Option<Ver>, after: Option<Ver>)
    requires Continues(first, before) && Descends(before, after)
    ensures Continues(first, after)
  {
  }

  lemma {:induction false} DescentContinues(values: seq<Option<Ver>>, i: nat, j: nat)
    requires i <= j < |values| && forall n | 0 <= n < |values| - 1 :: Descends(values[n], values[n + 1])
    ensures Continues(values[i], values[j])
  {
    if i < j {
      DescentContinues(values, i, j - 1);
      assert Descends(values[j - 1], values[j - 1 + 1]);
      DescendantContinues(values[i], values[j - 1], values[j]);
    }
  }

  /** No published version ever stops being an ancestor of the ref. */
  lemma PublishedVersionsStay(l: Layout, states: seq<State>, actions: seq<Action>, name: Name, i: nat, j: nat)
    requires Run(l, states, actions) && !OnTimeline(name) && i <= j < |states|
    ensures Continues(RefAt(states[i].refs, name), RefAt(states[j].refs, name))
  {
    var values := seq(|states|, n requires 0 <= n < |states| => RefAt(states[n].refs, name));
    forall n | 0 <= n < |values| - 1 ensures Descends(values[n], values[n + 1]) {
      RefDescends(l, states, actions, name, n);
    }
    DescentContinues(values, i, j);
  }

  // ----- the timeline -------------------------------------------------------------------------

  /** No space stands on a ref of the timeline. */
  predicate NoHeadOnTimeline(s: State) {
    forall i | 0 <= i < |s.spaces| :: !OnTimeline(CurrentRef(s.spaces[i]))
  }

  /** A ref of the timeline holds a snapshot: a version with an expiry, and without a parent. */
  predicate TimelineHoldsSnapshots(s: State) {
    forall name | name in s.refs && OnTimeline(name) :: s.refs[name].expires && s.refs[name].parents == []
  }

  /** A commit goes through on a ref of the timeline. */
  predicate CommitsOnTimeline(s: State, a: Action) {
    && a.Publish? && a.i < |s.spaces| && OnTimeline(a.name)
    && var sp := s.spaces[a.i]; sp.pc.Publishing? && sp.pc.job.Commit? && RefAt(s.refs, a.name) == sp.pc.parent
  }

  lemma PromotedIsOffTimeline(name: Name)
    requires PROMOTED <= name
    ensures !OnTimeline(name)
  {
    assert PROMOTED[0] != SNAPSHOTS[0];
  }

  /** Nothing but such a commit brings a deliberate version onto the timeline. */
  lemma TimelineBreaksIff(l: Layout, s: State, a: Action)
    requires Enabled(l, s, a) && AllPlanLinearly(s) && TimelineHoldsSnapshots(s)
    ensures TimelineHoldsSnapshots(Next(l, s, a)) <==> !CommitsOnTimeline(s, a)
  {
    var next := Next(l, s, a);
    if a.Publish? {
      assert PlansLinearly(s.spaces[a.i]);
      assert CommitsOnTimeline(s, a) ==> a.name in next.refs && !next.refs[a.name].expires;
    } else if a.PublishPromoted? {
      PromotedIsOffTimeline(a.name);
    }
  }

  /** What holds at first, and is kept by exactly the steps that are `ok`, always holds iff all steps are. */
  lemma {:induction false} AlwaysIff(good: seq<bool>, ok: seq<bool>, n: nat)
    requires |good| == |ok| + 1 && n <= |ok| && good[0]
    requires forall i | 0 <= i < |ok| && good[i] :: good[i + 1] <==> ok[i]
    ensures (forall i | 0 <= i <= n :: good[i]) <==> (forall i | 0 <= i < n :: ok[i])
  {
    if n > 0 {
      AlwaysIff(good, ok, n - 1);
      assert good[n - 1] ==> (good[n - 1 + 1] <==> ok[n - 1]);
    }
  }

  /**
   So expiry, which deletes refs of the timeline only, never meets a deliberate version exactly as long
   as none is committed there.
   */
  lemma TimelineHoldsOnlySnapshotsIff(l: Layout, states: seq<State>, actions: seq<Action>, n: nat)
    requires Run(l, states, actions) && n < |states|
    ensures (forall i | 0 <= i <= n :: TimelineHoldsSnapshots(states[i])) <==>
            (forall i | 0 <= i < n :: !CommitsOnTimeline(states[i], actions[i]))
  {
    var good := seq(|states|, i requires 0 <= i < |states| => TimelineHoldsSnapshots(states[i]));
    var ok := seq(|actions|, i requires 0 <= i < |actions| => !CommitsOnTimeline(states[i], actions[i]));
    forall i | 0 <= i < |ok| && good[i] ensures good[i + 1] <==> ok[i] {
      RunPlansLinearly(l, states, actions, i);
      TimelineBreaksIff(l, states[i], actions[i]);
    }
    AlwaysIff(good, ok, n);
    assert forall i | 0 <= i <= n :: good[i] == TimelineHoldsSnapshots(states[i]);
    assert forall i | 0 <= i < n :: ok[i] == !CommitsOnTimeline(states[i], actions[i]);
  }

  /** In particular while no space stands on a ref of the timeline. */
  lemma TimelineHoldsOnlySnapshots(l: Layout, states: seq<State>, actions: seq<Action>, n: nat)
    requires Run(l, states, actions) && n < |states| && forall i | 0 <= i < n :: NoHeadOnTimeline(states[i])
    ensures TimelineHoldsSnapshots(states[n])
  {
    TimelineHoldsOnlySnapshotsIff(l, states, actions, n);
    forall i | 0 <= i < n ensures !CommitsOnTimeline(states[i], actions[i]) {
      assert Enabled(l, states[i], actions[i]);
    }
  }
}
