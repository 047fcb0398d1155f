/** Runs of any step relation, one action after the other. */
module Runs {

  /** The actions can be taken one after the other from `s`, and end in `t`. */
  ghost predicate Leads<S(!new), A>(step: (S, A, S) -> bool, s: S, actions: seq<A>, t: S)
    decreases |actions|
  {
    if actions == [] then s == t else exists u :: step(s, actions[0], u) && Leads(step, u, actions[1..], t)
  }

  lemma LeadsFrom<S(!new), A>(step: (S, A, S) -> bool, s: S, a: A, t: S, actions: seq<A>, u: S)
    requires step(s, a, t) && Leads(step, t, actions, u)
    ensures Leads(step, s, [a] + actions, u)
  {
    assert ([a] + actions)[1..] == actions;
  }

  lemma {:induction false} LeadsOn<S(!new), A>(step: (S, A, S) -> bool, s: S, first: seq<A>, t: S, second: seq<A>, u: S)
    requires Leads(step, s, first, t) && Leads(step, t, second, u)
    ensures Leads(step, s, first + second, u)
    decreases |first|
  {
    if first == [] {
      assert first + second == second;
    } else {
      var next :| step(s, first[0], next) && Leads(step, next, first[1..], t);
      LeadsOn(step, next, first[1..], t, second, u);
      assert (first + second)[1..] == first[1..] + second;
    }
  }

  lemma LeadsOneMore<S(!new), A>(step: (S, A, S) -> bool, s: S, actions: seq<A>, t: S, a: A, u: S)
    requires Leads(step, s, actions, t) && step(t, a, u)
    ensures Leads(step, s, actions + [a], u)
  {
    assert Leads(step, u, [], u);
    LeadsFrom(step, t, a, u, [], u);
    assert [a] + [] == [a];
    LeadsOn(step, s, actions, t, [a], u);
  }

  /** Two, three and four steps in a row. */
  lemma TwoSteps<S(!new), A>(step: (S, A, S) -> bool, s: S, a: A, t: S, b: A, u: S)
    requires step(s, a, t) && step(t, b, u)
    ensures Leads(step, s, [a, b], u)
  {
    assert Leads(step, u, [], u);
    LeadsFrom(step, t, b, u, [], u);
    LeadsFrom(step, s, a, t, [b] + [], u);
    assert [a] + ([b] + []) == [a, b];
  }

  lemma ThreeSteps<S(!new), A>(step: (S, A, S) -> bool, s: S, a: A, t: S, b: A, u: S, c: A, v: S)
    requires step(s, a, t) && step(t, b, u) && step(u, c, v)
    ensures Leads(step, s, [a, b, c], v)
  {
    TwoSteps(step, t, b, u, c, v);
    LeadsFrom(step, s, a, t, [b, c], v);
    assert [a] + [b, c] == [a, b, c];
  }

  lemma FourSteps<S(!new), A>(step: (S, A, S) -> bool, s: S, a: A, t: S, b: A, u: S, c: A, v: S, d: A, w: S)
    requires step(s, a, t) && step(t, b, u) && step(u, c, v) && step(v, d, w)
    ensures Leads(step, s, [a, b, c, d], w)
  {
    ThreeSteps(step, t, b, u, c, v, d, w);
    LeadsFrom(step, s, a, t, [b, c, d], w);
    assert [a] + [b, c, d] == [a, b, c, d];
  }

  /** What every step keeps, a run keeps. */
  lemma {:induction false} LeadsKeeps<S(!new), A(!new)>(step: (S, A, S) -> bool, inv: S -> bool, s: S, actions: seq<A>,
                                                        t: S)
    requires Leads(step, s, actions, t) && inv(s)
    requires forall x, a, y | inv(x) && step(x, a, y) :: inv(y)
    ensures inv(t)
    decreases |actions|
  {
    if actions != [] {
      var u :| step(s, actions[0], u) && Leads(step, u, actions[1..], t);
      LeadsKeeps(step, inv, u, actions[1..], t);
    }
  }
}
