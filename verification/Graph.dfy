/** Reachability along edges, as the walks over versions and objects need it. */
module Graph {

  ghost predicate Path<K(!new)>(edges: K -> set<K>, p: seq<K>) {
    p != [] && forall i | 0 < i < |p| :: p[i] in edges(p[i - 1])
  }

  ghost predicate Leads<K(!new)>(edges: K -> set<K>, roots: set<K>, p: seq<K>, k: K) {
    Path(edges, p) && p[0] in roots && p[|p| - 1] == k
  }

  /** `k` is a root, or can be got at from one. */
  ghost predicate Reaches<K(!new)>(edges: K -> set<K>, roots: set<K>, k: K) {
    exists p :: Leads(edges, roots, p, k)
  }

  lemma RootIsReached<K(!new)>(edges: K -> set<K>, roots: set<K>, k: K)
    requires k in roots
    ensures Reaches(edges, roots, k)
  {
    assert Leads(edges, roots, [k], k);
  }

  lemma EdgeIsReached<K(!new)>(edges: K -> set<K>, roots: set<K>, k: K, next: K)
    requires Reaches(edges, roots, k) && next in edges(k)
    ensures Reaches(edges, roots, next)
  {
    var p :| Leads(edges, roots, p, k);
    assert Leads(edges, roots, p + [next], next);
  }

  /** A set that holds the roots and whatever its members point at holds all that is reachable. */
  lemma {:induction false} ClosedSetHoldsPath<K(!new)>(edges: K -> set<K>, closed: set<K>, p: seq<K>)
    requires Path(edges, p) && p[0] in closed && forall k | k in closed :: edges(k) <= closed
    ensures p[|p| - 1] in closed
  {
    if |p| > 1 {
      ClosedSetHoldsPath(edges, closed, p[..|p| - 1]);
    }
  }

  lemma ClosedSetHoldsReached<K(!new)>(edges: K -> set<K>, roots: set<K>, closed: set<K>, k: K)
    requires roots <= closed && (forall c | c in closed :: edges(c) <= closed) && Reaches(edges, roots, k)
    ensures k in closed
  {
    var p :| Leads(edges, roots, p, k);
    ClosedSetHoldsPath(edges, closed, p);
  }

  lemma MoreEdgesReachMore<K(!new)>(edges: K -> set<K>, edges': K -> set<K>, roots: set<K>, k: K)
    requires Reaches(edges, roots, k) && forall x :: edges(x) <= edges'(x)
    ensures Reaches(edges', roots, k)
  {
    var p :| Leads(edges, roots, p, k);
    assert Leads(edges', roots, p, k);
  }

  /** What is reached from something an edge leads to is reached from where the edge begins. */
  lemma ReachedThroughEdge<K(!new)>(edges: K -> set<K>, first: K, next: K, k: K)
    requires next in edges(first) && Reaches(edges, {next}, k)
    ensures Reaches(edges, {first}, k)
  {
    var p :| Leads(edges, {next}, p, k);
    var q := [first] + p;
    forall i | 0 < i < |q| ensures q[i] in edges(q[i - 1]) {
    }
    assert Leads(edges, {first}, q, k);
  }

  /** Edges that agree on all that is reachable reach the same. */
  lemma {:induction false} SameEdgesSamePath<K(!new)>(edges: K -> set<K>, edges': K -> set<K>, roots: set<K>, p: seq<K>)
    requires Path(edges, p) && p[0] in roots
    requires forall k | Reaches(edges, roots, k) :: edges'(k) == edges(k)
    ensures Path(edges', p) && Reaches(edges, roots, p[|p| - 1])
  {
    if |p| > 1 {
      SameEdgesSamePath(edges, edges', roots, p[..|p| - 1]);
    }
    assert Leads(edges, roots, p, p[|p| - 1]);
  }
}
