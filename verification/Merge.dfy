/** The three-way merge of manifest/merge.go. */
module Merge {
  import opened Common
  import opened Objects
  import opened Paths

  type Manifest = seq<Entry>

  // ----- manifests as maps --------------------------------------------------------------------

  function PathsOf(m: Manifest): (ps: seq<Bytes>)
    ensures |ps| == |m| && forall i | 0 <= i < |m| :: ps[i] == m[i].path
  {
    seq(|m|, i requires 0 <= i < |m| => m[i].path)
  }

  /** A manifest's entries are sorted bytewise by path and unique. */
  predicate Sorted(m: Manifest) {
    Ascending(PathsOf(m))
  }

  /** Sorted is: in bytewise order, ascending, without duplicates. */
  lemma SortedIsBytewise(m: Manifest)
    ensures Sorted(m) <==> forall i, j | 0 <= i < j < |m| :: Precedes(m[i].path, m[j].path)
  {
    forall i, j | 0 <= i < j < |m| ensures Less(m[i].path, m[j].path) <==> Precedes(m[i].path, m[j].path) {
      LessIsBytewise(m[i].path, m[j].path);
    }
    if forall i, j | 0 <= i < j < |m| :: Precedes(m[i].path, m[j].path) {
      forall i, j | 0 <= i < j < |m| ensures Less(PathsOf(m)[i], PathsOf(m)[j]) {
        assert Precedes(m[i].path, m[j].path);
      }
    }
    forall i, j | Sorted(m) && 0 <= i < j < |m| ensures Less(m[i].path, m[j].path) {
      assert Less(PathsOf(m)[i], PathsOf(m)[j]);
    }
  }

  /** byPath: the last entry of a path wins. */
  function ByPath(m: Manifest): map<Bytes, Entry> {
    if m == [] then map[] else ByPath(m[..|m| - 1])[m[|m| - 1].path := m[|m| - 1]]
  }

  function At(index: map<Bytes, Entry>, p: Bytes): Option<Entry> {
    if p in index then Some(index[p]) else None
  }

  /** What the merge compares: the content at a path, or its absence. */
  function ContentOf(e: Option<Entry>): Option<Id> {
    if e.Some? then Some(e.value.file) else None
  }

  function Content(m: Manifest, p: Bytes): Option<Id> {
    ContentOf(At(ByPath(m), p))
  }

  lemma {:induction false} ByPathNamesItself(m: Manifest, p: Bytes)
    requires p in ByPath(m)
    ensures ByPath(m)[p].path == p && ByPath(m)[p] in m
  {
    var init, last := m[..|m| - 1], m[|m| - 1];
    if p != last.path {
      ByPathNamesItself(init, p);
    }
  }

  lemma {:induction false} ByPathCovers(m: Manifest, i: nat)
    requires i < |m|
    ensures m[i].path in ByPath(m)
  {
    if i < |m| - 1 {
      ByPathCovers(m[..|m| - 1], i);
    }
  }

  /** In a sorted manifest every entry is found under its path. */
  lemma {:induction false} ByPathFinds(m: Manifest, i: nat)
    requires Sorted(m) && i < |m|
    ensures m[i].path in ByPath(m) && ByPath(m)[m[i].path] == m[i]
  {
    var init := m[..|m| - 1];
    if i < |m| - 1 {
      assert PathsOf(init) == PathsOf(m)[..|m| - 1];
      ByPathFinds(init, i);
      assert Less(PathsOf(m)[i], PathsOf(m)[|m| - 1]);
      LessIsTotal(m[i].path, m[|m| - 1].path);
    }
  }

  // ----- one path -----------------------------------------------------------------------------

  datatype ConflictKind = BothChanged | ChangedDeleted | DeletedChanged | BothAdded

  datatype Conflict = Conflict(path: Bytes, kind: ConflictKind, ours: Option<Entry>, theirs: Option<Entry>)

  datatype Resolution = Resolution(keep: Option<Entry>, conflict: Option<Conflict>)

  /** threeWay.resolve */
  function Resolve(path: Bytes, base: Option<Entry>, ours: Option<Entry>, theirs: Option<Entry>): Resolution {
    if ours.None? && theirs.None? then Resolution(None, None)
    else if base.None? then ResolveAdded(path, ours, theirs)
    else if ours.Some? && theirs.Some? then ResolveEdited(path, base.value, ours.value, theirs.value)
    else if ours.Some? then
      if ours.value.file == base.value.file then Resolution(None, None)
      else Resolution(ours, Some(Conflict(path, ChangedDeleted, ours, None)))
    else
      if theirs.value.file == base.value.file then Resolution(None, None)
      else Resolution(theirs, Some(Conflict(path, DeletedChanged, None, theirs)))
  }

  function ResolveAdded(path: Bytes, ours: Option<Entry>, theirs: Option<Entry>): Resolution
    requires ours.Some? || theirs.Some?
  {
    if ours.Some? && theirs.Some? then
      if ours.value.file == theirs.value.file then Resolution(ours, None)
      else Resolution(ours, Some(Conflict(path, BothAdded, ours, theirs)))
    else if ours.Some? then Resolution(ours, None)
    else Resolution(theirs, None)
  }

  function ResolveEdited(path: Bytes, base: Entry, ours: Entry, theirs: Entry): Resolution {
    if ours.file == theirs.file then Resolution(Some(ours), None)
    else if ours.file == base.file then Resolution(Some(theirs), None)
    else if theirs.file == base.file then Resolution(Some(ours), None)
    else Resolution(Some(ours), Some(Conflict(path, BothChanged, Some(ours), Some(theirs))))
  }

  /** The rule of thumb the case analysis implements, with absence as one more value. */
  function ThreeWay(base: Option<Id>, ours: Option<Id>, theirs: Option<Id>): Option<Id> {
    if ours == theirs then ours
    else if ours == base then theirs
    else if theirs == base then ours
    else if ours.Some? then ours
    else theirs
  }

  /** All three sides hold something else: nobody can decide but the user. */
  predicate Undecidable(base: Option<Id>, ours: Option<Id>, theirs: Option<Id>) {
    base != ours && ours != theirs && theirs != base
  }

  /** The nine cases of the code are the three-way rule, and a conflict is exactly what it cannot decide. */
  lemma ResolveIsThreeWay(path: Bytes, base: Option<Entry>, ours: Option<Entry>, theirs: Option<Entry>)
    ensures var r := Resolve(path, base, ours, theirs);
      var b, o, t := ContentOf(base), ContentOf(ours), ContentOf(theirs);
      && ContentOf(r.keep) == ThreeWay(b, o, t)
      && (r.keep.Some? ==> r.keep == ours || r.keep == theirs)
      && (r.conflict.Some? <==> Undecidable(b, o, t))
      && (r.conflict.Some? ==>
          && r.conflict.value.path == path && r.conflict.value.ours == ours && r.conflict.value.theirs == theirs
          && (r.conflict.value.kind == BothAdded <==> base.None?)
          && (r.conflict.value.kind == ChangedDeleted <==> theirs.None?)
          && (r.conflict.value.kind == DeletedChanged <==> ours.None?))
  {
  }

  // ----- the whole manifest -------------------------------------------------------------------

  /** What the merge of three manifests decides at one path. */
  function ResolveAt(base: Manifest, ours: Manifest, theirs: Manifest, p: Bytes): Resolution {
    Resolve(p, At(ByPath(base), p), At(ByPath(ours), p), At(ByPath(theirs), p))
  }

  /** The decisions along a list of paths, collected in its order. */
  function KeptAlong(base: Manifest, ours: Manifest, theirs: Manifest, ps: seq<Bytes>): Manifest {
    if ps == [] then []
    else
      var k := ResolveAt(base, ours, theirs, ps[|ps| - 1]).keep;
      KeptAlong(base, ours, theirs, ps[..|ps| - 1]) + if k.Some? then [k.value] else []
  }

  function ConflictsAlong(base: Manifest, ours: Manifest, theirs: Manifest, ps: seq<Bytes>): seq<Conflict> {
    if ps == [] then []
    else
      var c := ResolveAt(base, ours, theirs, ps[|ps| - 1]).conflict;
      ConflictsAlong(base, ours, theirs, ps[..|ps| - 1]) + if c.Some? then [c.value] else []
  }

  /** The user is asked about this path. */
  ghost predicate Reported(conflicts: seq<Conflict>, p: Bytes) {
    exists c :: c in conflicts && c.path == p
  }

  /** Every path of any side. */
  function UnionOf(base: Manifest, ours: Manifest, theirs: Manifest): set<Bytes> {
    ByPath(base).Keys + ByPath(ours).Keys + ByPath(theirs).Keys
  }

  /** The merge as a relation: what Merge returns, and by `MergeIsUnique` nothing else. */
  ghost predicate Merges(base: Manifest, ours: Manifest, theirs: Manifest, merged: Manifest, conflicts: seq<Conflict>) {
    exists ps :: IsUnion(base, ours, theirs, ps)
      && merged == KeptAlong(base, ours, theirs, ps) && conflicts == ConflictsAlong(base, ours, theirs, ps)
  }

  ghost predicate IsUnion(base: Manifest, ours: Manifest, theirs: Manifest, ps: seq<Bytes>) {
    Ascending(ps) && forall p :: p in ps <==> p in UnionOf(base, ours, theirs)
  }

  /** Merge */
  method MergeManifests(base: Manifest, ours: Manifest, theirs: Manifest)
    returns (merged: Manifest, conflicts: seq<Conflict>)
    ensures Merges(base, ours, theirs, merged, conflicts)
  {
    var baseByPath, oursByPath, theirsByPath := ByPath(base), ByPath(ours), ByPath(theirs);
    var ps := SortPaths(baseByPath.Keys + oursByPath.Keys + theirsByPath.Keys);
    merged, conflicts := [], [];
    for i := 0 to |ps|
      invariant merged == KeptAlong(base, ours, theirs, ps[..i])
      invariant conflicts == ConflictsAlong(base, ours, theirs, ps[..i])
    {
      assert ps[..i + 1][..i] == ps[..i];
      var p := ps[i];
      var r := Resolve(p, At(baseByPath, p), At(oursByPath, p), At(theirsByPath, p));
      if r.keep.Some? {
        merged := merged + [r.keep.value];
      }
      if r.conflict.Some? {
        conflicts := conflicts + [r.conflict.value];
      }
    }
    assert ps[..|ps|] == ps;
    assert IsUnion(base, ours, theirs, ps);
  }

  lemma MergeIsUnique(base: Manifest, ours: Manifest, theirs: Manifest,
                      m: Manifest, cs: seq<Conflict>, m': Manifest, cs': seq<Conflict>)
    requires Merges(base, ours, theirs, m, cs) && Merges(base, ours, theirs, m', cs')
    ensures m == m' && cs == cs'
  {
    var ps :| IsUnion(base, ours, theirs, ps)
      && m == KeptAlong(base, ours, theirs, ps) && cs == ConflictsAlong(base, ours, theirs, ps);
    var qs :| IsUnion(base, ours, theirs, qs)
      && m' == KeptAlong(base, ours, theirs, qs) && cs' == ConflictsAlong(base, ours, theirs, qs);
    AscendingIsUnique(ps, qs);
  }

  lemma ResolvedEntryIsAtPath(base: Manifest, ours: Manifest, theirs: Manifest, p: Bytes)
    ensures var r := ResolveAt(base, ours, theirs, p);
      && (r.keep.Some? ==> r.keep.value.path == p)
      && (r.conflict.Some? ==> r.conflict.value.path == p)
  {
    ResolveIsThreeWay(p, At(ByPath(base), p), At(ByPath(ours), p), At(ByPath(theirs), p));
    if p in ByPath(ours) {
      ByPathNamesItself(ours, p);
    }
    if p in ByPath(theirs) {
      ByPathNamesItself(theirs, p);
    }
  }

  lemma AppendEntry(m: Manifest, e: Entry, p: Bytes)
    ensures At(ByPath(m + [e]), p) == if p == e.path then Some(e) else At(ByPath(m), p)
  {
    assert (m + [e])[..|m|] == m;
  }

  /** Along a sorted list of paths, what is kept is sorted ... */
  lemma {:induction false} KeptAlongIsSorted(base: Manifest, ours: Manifest, theirs: Manifest, ps: seq<Bytes>)
    requires Ascending(ps)
    ensures var m := KeptAlong(base, ours, theirs, ps);
            Sorted(m) && forall i | 0 <= i < |m| :: m[i].path in ps
  {
    if ps != [] {
      var init, p := ps[..|ps| - 1], ps[|ps| - 1];
      KeptAlongIsSorted(base, ours, theirs, init);
      ResolvedEntryIsAtPath(base, ours, theirs, p);
      assert ps == init + [p];
    }
  }

  /** ... and holds the decision of each path. */
  lemma {:induction false} KeptAlongIs(base: Manifest, ours: Manifest, theirs: Manifest, ps: seq<Bytes>, p: Bytes)
    requires Ascending(ps)
    ensures At(ByPath(KeptAlong(base, ours, theirs, ps)), p) ==
            if p in ps then ResolveAt(base, ours, theirs, p).keep else None
  {
    if ps != [] {
      var init, last := ps[..|ps| - 1], ps[|ps| - 1];
      KeptAlongIs(base, ours, theirs, init, p);
      ResolvedEntryIsAtPath(base, ours, theirs, last);
      var m, k := KeptAlong(base, ours, theirs, init), ResolveAt(base, ours, theirs, last).keep;
      LessIsTotal(p, p);
      assert ps == init + [last];
      if k.Some? {
        AppendEntry(m, k.value, p);
      } else {
        assert m + [] == m;
      }
    }
  }

  /** Conflicts in path order, one per undecidable path of `ps` and no other. */
  ghost predicate ConflictsOf(base: Manifest, ours: Manifest, theirs: Manifest, ps: seq<Bytes>, cs: seq<Conflict>) {
    && (forall c | c in cs :: c.path in ps && ResolveAt(base, ours, theirs, c.path).conflict == Some(c))
    && (forall i, j | 0 <= i < j < |cs| :: Less(cs[i].path, cs[j].path))
    && (forall p | p in ps && ResolveAt(base, ours, theirs, p).conflict.Some? ::
          ResolveAt(base, ours, theirs, p).conflict.value in cs)
  }

  lemma ConflictsSnoc(base: Manifest, ours: Manifest, theirs: Manifest, ps: seq<Bytes>, p: Bytes, cs: seq<Conflict>)
    requires ConflictsOf(base, ours, theirs, ps, cs) && forall q | q in ps :: Less(q, p)
    ensures var c := ResolveAt(base, ours, theirs, p).conflict;
      ConflictsOf(base, ours, theirs, ps + [p], cs + if c.Some? then [c.value] else [])
  {
    ResolvedEntryIsAtPath(base, ours, theirs, p);
    var c := ResolveAt(base, ours, theirs, p).conflict;
    var cs' := cs + if c.Some? then [c.value] else [];
    forall i, j | 0 <= i < j < |cs'| ensures Less(cs'[i].path, cs'[j].path) {
      assert cs'[i] == cs[i] && cs[i] in cs;
    }
    forall q | q in ps + [p] && ResolveAt(base, ours, theirs, q).conflict.Some?
      ensures ResolveAt(base, ours, theirs, q).conflict.value in cs'
    {
      if q in ps {
        assert ResolveAt(base, ours, theirs, q).conflict.value in cs;
      }
    }
  }

  lemma {:induction false} ConflictsAlongAre(base: Manifest, ours: Manifest, theirs: Manifest, ps: seq<Bytes>)
    requires Ascending(ps)
    ensures ConflictsOf(base, ours, theirs, ps, ConflictsAlong(base, ours, theirs, ps))
  {
    if ps != [] {
      var init, p := ps[..|ps| - 1], ps[|ps| - 1];
      ConflictsAlongAre(base, ours, theirs, init);
      ConflictsSnoc(base, ours, theirs, init, p, ConflictsAlong(base, ours, theirs, init));
      assert ps == init + [p];
    }
  }

  /**
   Merge refines the pointwise rule: the result is a sorted manifest that holds, at every path of the
   world, the three-way decision of the three contents there.
   */
  lemma MergeIsPointwise(base: Manifest, ours: Manifest, theirs: Manifest, merged: Manifest,
                         conflicts: seq<Conflict>, p: Bytes)
    requires Merges(base, ours, theirs, merged, conflicts)
    ensures Sorted(merged)
    ensures At(ByPath(merged), p) == ResolveAt(base, ours, theirs, p).keep
    ensures Content(merged, p) == ThreeWay(Content(base, p), Content(ours, p), Content(theirs, p))
  {
    var ps :| IsUnion(base, ours, theirs, ps)
      && merged == KeptAlong(base, ours, theirs, ps) && conflicts == ConflictsAlong(base, ours, theirs, ps);
    KeptAlongIsSorted(base, ours, theirs, ps);
    KeptAlongIs(base, ours, theirs, ps, p);
    ResolveIsThreeWay(p, At(ByPath(base), p), At(ByPath(ours), p), At(ByPath(theirs), p));
  }

  /** A path is reported exactly when the three sides are pairwise different there, with both entries. */
  lemma ConflictsAreExact(base: Manifest, ours: Manifest, theirs: Manifest, merged: Manifest,
                          conflicts: seq<Conflict>, p: Bytes)
    requires Merges(base, ours, theirs, merged, conflicts)
    ensures Reported(conflicts, p) <==>
            Undecidable(Content(base, p), Content(ours, p), Content(theirs, p))
    ensures forall c | c in conflicts && c.path == p ::
            c.ours == At(ByPath(ours), p) && c.theirs == At(ByPath(theirs), p)
    ensures forall i, j | 0 <= i < j < |conflicts| :: Less(conflicts[i].path, conflicts[j].path)
  {
    var ps :| IsUnion(base, ours, theirs, ps)
      && merged == KeptAlong(base, ours, theirs, ps) && conflicts == ConflictsAlong(base, ours, theirs, ps);
    ConflictsAlongAre(base, ours, theirs, ps);
    ResolveIsThreeWay(p, At(ByPath(base), p), At(ByPath(ours), p), At(ByPath(theirs), p));
    ResolvedEntryIsAtPath(base, ours, theirs, p);
    if Undecidable(Content(base, p), Content(ours, p), Content(theirs, p)) {
      var c := ResolveAt(base, ours, theirs, p).conflict.value;
      assert p in ps && c in conflicts && c.path == p;
    }
    if Reported(conflicts, p) {
      var c :| c in conflicts && c.path == p;
      assert ResolveAt(base, ours, theirs, p).conflict == Some(c);
    }
  }

  // ----- laws ---------------------------------------------------------------------------------

  /** Two sorted manifests with the same entry at every path are the same manifest. */
  lemma SortedManifestsAgree(m: Manifest, m': Manifest)
    requires Sorted(m) && Sorted(m')
    requires forall p :: At(ByPath(m), p) == At(ByPath(m'), p)
    ensures m == m'
  {
    forall i | 0 <= i < |m| ensures m[i].path in PathsOf(m') {
      ByPathFinds(m, i);
      InPaths(m', m[i].path, m[i]);
    }
    forall i | 0 <= i < |m'| ensures m'[i].path in PathsOf(m) {
      ByPathFinds(m', i);
      InPaths(m, m'[i].path, m'[i]);
    }
    AscendingIsUnique(PathsOf(m), PathsOf(m'));
    assert |m| == |PathsOf(m)| == |m'|;
    forall i | 0 <= i < |m| ensures m[i] == m'[i] {
      assert PathsOf(m)[i] == PathsOf(m')[i];
      ByPathFinds(m, i);
      ByPathFinds(m', i);
      assert At(ByPath(m), m[i].path) == At(ByPath(m'), m[i].path);
    }
  }

  lemma SomeConflict(conflicts: seq<Conflict>)
    ensures conflicts != [] ==> Reported(conflicts, conflicts[0].path)
  {
    if conflicts != [] {
      assert conflicts[0] in conflicts;
    }
  }

  lemma InPaths(m: Manifest, p: Bytes, e: Entry)
    requires At(ByPath(m), p) == Some(e)
    ensures p in PathsOf(m)
  {
    ByPathNamesItself(m, p);
    var i :| 0 <= i < |m| && m[i] == e;
    assert PathsOf(m)[i] == p;
  }

  /** Entries of two manifests that name the same content are the same line: a size follows from a FileID. */
  ghost predicate SizesFollow(m: Manifest, m': Manifest) {
    forall p :: Content(m, p) == Content(m', p) ==> At(ByPath(m), p) == At(ByPath(m'), p)
  }

  /** Where we changed nothing, the merge is exactly their manifest, and there are no conflicts. */
  lemma MergeFastForwards(base: Manifest, theirs: Manifest, merged: Manifest, conflicts: seq<Conflict>)
    requires Merges(base, base, theirs, merged, conflicts)
    requires Sorted(theirs) && SizesFollow(base, theirs)
    ensures conflicts == [] && merged == theirs
  {
    forall p ensures At(ByPath(merged), p) == At(ByPath(theirs), p) && !Reported(conflicts, p) {
      MergeIsPointwise(base, base, theirs, merged, conflicts, p);
      ConflictsAreExact(base, base, theirs, merged, conflicts, p);
      ResolveIsThreeWay(p, At(ByPath(base), p), At(ByPath(base), p), At(ByPath(theirs), p));
    }
    SomeConflict(conflicts);
    MergeIsPointwise(base, base, theirs, merged, conflicts, "");
    SortedManifestsAgree(merged, theirs);
  }

  /** Where they changed nothing, our manifest stays, byte for byte. */
  lemma MergeKeepsOurs(base: Manifest, ours: Manifest, merged: Manifest, conflicts: seq<Conflict>)
    requires Merges(base, ours, base, merged, conflicts) && Sorted(ours)
    ensures merged == ours && conflicts == []
  {
    forall p ensures At(ByPath(merged), p) == At(ByPath(ours), p) && !Reported(conflicts, p) {
      MergeIsPointwise(base, ours, base, merged, conflicts, p);
      ConflictsAreExact(base, ours, base, merged, conflicts, p);
      ResolveIsThreeWay(p, At(ByPath(base), p), At(ByPath(ours), p), At(ByPath(base), p));
    }
    SomeConflict(conflicts);
    MergeIsPointwise(base, ours, base, merged, conflicts, "");
    SortedManifestsAgree(merged, ours);
  }

  /** Two sides that made the same change agree on it. */
  lemma MergeOfEqualSides(base: Manifest, ours: Manifest, merged: Manifest, conflicts: seq<Conflict>)
    requires Merges(base, ours, ours, merged, conflicts) && Sorted(ours)
    ensures merged == ours && conflicts == []
  {
    forall p ensures At(ByPath(merged), p) == At(ByPath(ours), p) && !Reported(conflicts, p) {
      MergeIsPointwise(base, ours, ours, merged, conflicts, p);
      ConflictsAreExact(base, ours, ours, merged, conflicts, p);
    }
    SomeConflict(conflicts);
    MergeIsPointwise(base, ours, ours, merged, conflicts, "");
    SortedManifestsAgree(merged, ours);
  }

  /** The two sides may be exchanged: the same paths conflict, and every undisputed path agrees. */
  lemma MergeIsSymmetric(base: Manifest, ours: Manifest, theirs: Manifest,
                         m: Manifest, cs: seq<Conflict>, m': Manifest, cs': seq<Conflict>, p: Bytes)
    requires Merges(base, ours, theirs, m, cs) && Merges(base, theirs, ours, m', cs')
    ensures Reported(cs, p) <==> Reported(cs', p)
    ensures !Reported(cs, p) ==> Content(m, p) == Content(m', p)
  {
    MergeIsPointwise(base, ours, theirs, m, cs, p);
    MergeIsPointwise(base, theirs, ours, m', cs', p);
    ConflictsAreExact(base, ours, theirs, m, cs, p);
    ConflictsAreExact(base, theirs, ours, m', cs', p);
  }

  /**
   No content is lost: whatever one side changed is in the result, or the path was reported, and then
   our entry is in the result whenever we have one and theirs is in the report whenever they have one.
   */
  lemma MergeLosesNothing(base: Manifest, ours: Manifest, theirs: Manifest, merged: Manifest,
                          conflicts: seq<Conflict>, p: Bytes)
    requires Merges(base, ours, theirs, merged, conflicts)
    ensures Content(ours, p) != Content(base, p) && Content(ours, p).Some? ==> Content(merged, p) == Content(ours, p)
    ensures Content(theirs, p) != Content(base, p) ==>
            || Content(merged, p) == Content(theirs, p)
            || exists c :: c in conflicts && c.path == p && c.theirs == At(ByPath(theirs), p)
  {
    MergeIsPointwise(base, ours, theirs, merged, conflicts, p);
    ConflictsAreExact(base, ours, theirs, merged, conflicts, p);
  }
}
