/** The bytewise order manifests are sorted by (path.Less, E8.5). */
module Paths {
  import opened Common

  /** Go's `a < b` on strings. */
  predicate Less(a: Bytes, b: Bytes) {
    if b == "" then false
    else if a == "" then true
    else a[0] < b[0] || (a[0] == b[0] && Less(a[1..], b[1..]))
  }

  /** Where two paths first differ the smaller byte comes first, and a path comes before its extensions. */
  predicate FirstDifferAt(a: Bytes, b: Bytes, k: nat) {
    k <= |a| && k < |b| && a[..k] == b[..k] && (k == |a| || a[k] < b[k])
  }

  /** The order as it is defined, apart from how it is computed: bytewise and ascending. */
  ghost predicate Precedes(a: Bytes, b: Bytes) {
    exists k: nat :: FirstDifferAt(a, b, k)
  }

  lemma {:induction false} LessIsBytewise(a: Bytes, b: Bytes)
    ensures Less(a, b) <==> Precedes(a, b)
  {
    if b == "" || a == "" {
      assert b != "" ==> FirstDifferAt(a, b, 0);
    } else {
      LessIsBytewise(a[1..], b[1..]);
      if a[0] == b[0] && Less(a[1..], b[1..]) {
        var k: nat :| FirstDifferAt(a[1..], b[1..], k);
        assert a[..k + 1] == [a[0]] + a[1..][..k] && b[..k + 1] == [b[0]] + b[1..][..k];
        assert FirstDifferAt(a, b, k + 1);
      } else if a[0] < b[0] {
        assert FirstDifferAt(a, b, 0);
      }
      if k: nat :| FirstDifferAt(a, b, k) && k > 0 {
        assert a[..k][0] == a[0] && b[..k][0] == b[0];
        assert a[1..][..k - 1] == a[..k][1..] && b[1..][..k - 1] == b[..k][1..];
        assert FirstDifferAt(a[1..], b[1..], k - 1);
      }
    }
  }

  lemma {:induction false} LessIsTotal(a: Bytes, b: Bytes)
    ensures Less(a, b) || Less(b, a) || a == b
    ensures !(Less(a, b) && Less(b, a))
    ensures Less(a, b) ==> a != b
  {
    if a != "" && b != "" {
      LessIsTotal(a[1..], b[1..]);
      assert a == [a[0]] + a[1..] && b == [b[0]] + b[1..];
    }
  }

  lemma {:induction false} LessIsTransitive(a: Bytes, b: Bytes, c: Bytes)
    requires Less(a, b) && Less(b, c)
    ensures Less(a, c)
  {
    if a != "" && a[0] == b[0] == c[0] {
      LessIsTransitive(a[1..], b[1..], c[1..]);
    }
  }

  /** Sorted, and no path twice. */
  predicate Ascending(ps: seq<Bytes>) {
    forall i, j | 0 <= i < j < |ps| :: Less(ps[i], ps[j])
  }

  /** The sorted list of a set of paths is unique: map iteration order cannot show. */
  lemma {:induction false} AscendingIsUnique(ps: seq<Bytes>, qs: seq<Bytes>)
    requires Ascending(ps) && Ascending(qs)
    requires forall p :: p in ps <==> p in qs
    ensures ps == qs
  {
    if ps == [] {
      var first := if qs == [] then "" else qs[0];
      assert first in qs ==> first in ps;
    } else {
      var p := ps[0];
      assert p in qs;
      var q := qs[0];
      assert q in ps;
      FirstIsLeast(ps, q);
      FirstIsLeast(qs, p);
      LessIsTotal(p, q);
      forall x ensures x in ps[1..] <==> x in qs[1..] {
        TailOmitsHead(ps, x);
        TailOmitsHead(qs, x);
      }
      AscendingIsUnique(ps[1..], qs[1..]);
      assert ps == [p] + ps[1..] && qs == [q] + qs[1..];
    }
  }

  lemma FirstIsLeast(ps: seq<Bytes>, x: Bytes)
    requires Ascending(ps) && x in ps
    ensures x == ps[0] || Less(ps[0], x)
  {
  }

  lemma TailOmitsHead(ps: seq<Bytes>, x: Bytes)
    requires Ascending(ps) && ps != []
    ensures x in ps[1..] <==> x in ps && x != ps[0]
  {
    LessIsTotal(ps[0], ps[0]);
    if x in ps[1..] {
      var i :| 0 <= i < |ps| - 1 && ps[1..][i] == x;
      assert ps[i + 1] == x && Less(ps[0], ps[i + 1]);
    }
  }

  /** The place of `p` in a sorted list: everything before it is smaller. */
  method Place(ps: seq<Bytes>, p: Bytes) returns (i: nat)
    requires Ascending(ps) && p !in ps
    ensures i <= |ps|
    ensures Ascending(ps[..i] + [p] + ps[i..])
  {
    i := |ps|;
    while i > 0 && Less(p, ps[i - 1])
      invariant 0 <= i <= |ps|
      invariant forall j | i <= j < |ps| :: Less(p, ps[j])
    {
      i := i - 1;
    }
    if i > 0 {
      LessIsTotal(p, ps[i - 1]);
      forall j | 0 <= j < i ensures Less(ps[j], p) {
        if j < i - 1 {
          LessIsTransitive(ps[j], ps[i - 1], p);
        }
      }
    }
  }

  lemma Inserted(ps: seq<Bytes>, i: nat, p: Bytes)
    requires i <= |ps|
    ensures forall x :: x in ps[..i] + [p] + ps[i..] <==> x in ps || x == p
  {
    assert ps == ps[..i] + ps[i..];
  }

  /** unionOfPaths' second half: the collected paths, visited in any order, come out sorted. */
  method SortPaths(paths: set<Bytes>) returns (ps: seq<Bytes>)
    ensures Ascending(ps) && forall i, j | 0 <= i < j < |ps| :: Precedes(ps[i], ps[j])
    ensures forall p :: p in ps <==> p in paths
  {
    ps := [];
    var left := paths;
    while left != {}
      invariant left <= paths && Ascending(ps)
      invariant forall p :: p in ps <==> p in paths - left
      decreases |left|
    {
      var p :| p in left;
      var i := Place(ps, p);
      Inserted(ps, i, p);
      ps := ps[..i] + [p] + ps[i..];
      left := left - {p};
    }
    forall i, j | 0 <= i < j < |ps| ensures Precedes(ps[i], ps[j]) {
      LessIsBytewise(ps[i], ps[j]);
    }
  }
}
