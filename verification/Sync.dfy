/** Moving a working directory onto the merged state (client/sync.go). */
module Sync {
  import opened Common
  import opened Objects
  import opened Merge
  import opened Diff

  /** The content of every file of a directory, by path. */
  type Tree = map<Bytes, Id>

  function FileAt(tree: Tree, p: Bytes): Option<Id> {
    if p in tree then Some(tree[p]) else None
  }

  /** Writing a list of entries, and deleting a list of paths, in order. */
  function Written(tree: Tree, es: seq<Entry>): Tree {
    if es == [] then tree
    else Written(tree, es[..|es| - 1])[es[|es| - 1].path := es[|es| - 1].file]
  }

  function Deleted(tree: Tree, es: seq<Entry>): Tree {
    if es == [] then tree
    else Deleted(tree, es[..|es| - 1]) - {es[|es| - 1].path}
  }

  /** The directory after the whole patch. */
  function Patched(tree: Tree, ours: Manifest, merged: Manifest): Tree {
    Deleted(Written(tree, Incoming(DiffOf(ours, merged))), Outgoing(DiffOf(ours, merged)))
  }

  lemma {:induction false} WrittenAt(tree: Tree, es: seq<Entry>, p: Bytes)
    ensures !HasPath(es, p) ==> FileAt(Written(tree, es), p) == FileAt(tree, p)
    ensures HasPath(es, p) ==> exists e :: e in es && e.path == p && FileAt(Written(tree, es), p) == Some(e.file)
  {
    if es != [] {
      var init, last := es[..|es| - 1], es[|es| - 1];
      WrittenAt(tree, init, p);
      assert es == init + [last];
      assert HasPath(init, p) ==> HasPath(es, p);
      if last.path == p {
        assert last in es;
      }
    }
  }

  lemma {:induction false} DeletedAt(tree: Tree, es: seq<Entry>, p: Bytes)
    ensures FileAt(Deleted(tree, es), p) == if HasPath(es, p) then None else FileAt(tree, p)
  {
    if es != [] {
      var init, last := es[..|es| - 1], es[|es| - 1];
      DeletedAt(tree, init, p);
      assert es == init + [last];
      assert HasPath(es, p) <==> HasPath(init, p) || last.path == p;
    }
  }

  /**
   Applying the difference realises the merge: every path on which the manifests differ ends up as the
   merged manifest has it, every other path stays as it is on disk.
   */
  lemma PatchRealisesMerge(tree: Tree, ours: Manifest, merged: Manifest, p: Bytes)
    requires Sorted(ours) && Sorted(merged)
    ensures FileAt(Patched(tree, ours, merged), p) ==
            if Content(ours, p) == Content(merged, p) then FileAt(tree, p) else Content(merged, p)
  {
    var incoming, outgoing := Incoming(DiffOf(ours, merged)), Outgoing(DiffOf(ours, merged));
    var written := Written(tree, incoming);
    PatchTouchesOnlyDifferences(ours, merged, p);
    WrittenAt(tree, incoming, p);
    DeletedAt(written, outgoing, p);
    if HasPath(incoming, p) {
      var e :| e in incoming && e.path == p && FileAt(written, p) == Some(e.file);
      IncomingIsExact(ours, merged, e);
      SortedLookup(merged, e);
    }
    if HasPath(outgoing, p) {
      var e :| e in outgoing && e.path == p;
      OutgoingIsExact(ours, merged, e);
    }
  }

  /** The tree a manifest describes. */
  ghost predicate Describes(m: Manifest, tree: Tree) {
    forall p :: Content(m, p) == FileAt(tree, p)
  }

  /** From a directory equal to `ours`, exactly the merged tree. */
  lemma CleanPatchYieldsMerged(tree: Tree, ours: Manifest, merged: Manifest)
    requires Sorted(ours) && Sorted(merged) && Describes(ours, tree)
    ensures Describes(merged, Patched(tree, ours, merged))
  {
    forall p ensures Content(merged, p) == FileAt(Patched(tree, ours, merged), p) {
      PatchRealisesMerge(tree, ours, merged, p);
    }
  }

  // ----- sync, then commit --------------------------------------------------------------------

  /** The scan sees every file the ignore rules let through. */
  ghost predicate Scanned(m: Manifest, tree: Tree, ignored: Bytes -> bool) {
    Sorted(m) && forall p :: Content(m, p) == if ignored(p) then None else FileAt(tree, p)
  }

  /** One sync of `tree` onto `theirs`, and the manifest a commit of the result records. */
  ghost predicate SyncedAndCommitted(base: Manifest, theirs: Manifest, tree: Tree, ignored: Bytes -> bool,
                                     conflicts: seq<Conflict>, after: Tree, committed: Manifest) {
    exists ours, merged ::
      && Scanned(ours, tree, ignored)
      && Merges(base, ours, theirs, merged, conflicts)
      && after == Patched(tree, ours, merged)
      && Scanned(committed, after, ignored)
  }

  /** What the other side did at `p` is in the committed manifest, or the user was asked about it. */
  ghost predicate TheirsKept(base: Manifest, theirs: Manifest, conflicts: seq<Conflict>, committed: Manifest, p: Bytes)
  {
    Content(theirs, p) != Content(base, p) ==>
      || Content(committed, p) == Content(theirs, p)
      || (exists c :: c in conflicts && c.path == p && ContentOf(c.theirs) == Content(theirs, p))
  }

  lemma CommittedContent(base: Manifest, ours: Manifest, theirs: Manifest, merged: Manifest, tree: Tree,
                         ignored: Bytes -> bool, conflicts: seq<Conflict>, after: Tree, committed: Manifest, p: Bytes)
    requires Scanned(ours, tree, ignored) && Merges(base, ours, theirs, merged, conflicts)
    requires after == Patched(tree, ours, merged)
    requires Scanned(committed, after, ignored)
    ensures Content(committed, p) ==
            if ignored(p) then None else ThreeWay(Content(base, p), Content(ours, p), Content(theirs, p))
  {
    MergeIsPointwise(base, ours, theirs, merged, conflicts, p);
    PatchRealisesMerge(tree, ours, merged, p);
  }

  /**
   A path that is not ignored: neither side's work is lost. Ours gives way without a report only where
   we deleted what they edited, and that is reported too.
   */
  lemma SyncThenCommitLosesNothing(base: Manifest, theirs: Manifest, tree: Tree, ignored: Bytes -> bool,
                                   conflicts: seq<Conflict>, after: Tree, committed: Manifest, p: Bytes)
    requires SyncedAndCommitted(base, theirs, tree, ignored, conflicts, after, committed)
    requires !ignored(p)
    ensures TheirsKept(base, theirs, conflicts, committed, p)
    ensures FileAt(tree, p) != Content(base, p) ==>
            || Content(committed, p) == FileAt(tree, p)
            || (FileAt(tree, p) == None && Reported(conflicts, p))
  {
    var ours, merged :| Scanned(ours, tree, ignored) && Merges(base, ours, theirs, merged, conflicts)
      && after == Patched(tree, ours, merged);
    CommittedContent(base, ours, theirs, merged, tree, ignored, conflicts, after, committed, p);
    ConflictsAreExact(base, ours, theirs, merged, conflicts, p);
  }

  /** The other side added a path that our ignore rules hide. */
  ghost predicate AddsIgnored(base: Manifest, theirs: Manifest, ignored: Bytes -> bool, p: Bytes) {
    ignored(p) && Content(base, p) == None && Content(theirs, p) != None
  }

  /** All of their work survives exactly when they added no path that our ignore rules hide. */
  lemma TheirsKeptUnlessIgnored(base: Manifest, theirs: Manifest, tree: Tree, ignored: Bytes -> bool,
                                conflicts: seq<Conflict>, after: Tree, committed: Manifest)
    requires SyncedAndCommitted(base, theirs, tree, ignored, conflicts, after, committed)
    ensures (forall p :: TheirsKept(base, theirs, conflicts, committed, p)) <==>
            (forall p :: !AddsIgnored(base, theirs, ignored, p))
  {
    var ours, merged :| Scanned(ours, tree, ignored) && Merges(base, ours, theirs, merged, conflicts)
      && after == Patched(tree, ours, merged);
    forall p ensures TheirsKept(base, theirs, conflicts, committed, p) <==> !AddsIgnored(base, theirs, ignored, p) {
      CommittedContent(base, ours, theirs, merged, tree, ignored, conflicts, after, committed, p);
      ConflictsAreExact(base, ours, theirs, merged, conflicts, p);
    }
  }

  /**
   A file of ours that our rules hide is left alone exactly if they did nothing at its path, have no file
   there, or the same one; and overwriting it is reported exactly if the base had a file there.
   */
  lemma IgnoredLeftAloneIff(base: Manifest, theirs: Manifest, tree: Tree, ignored: Bytes -> bool,
                            conflicts: seq<Conflict>, after: Tree, committed: Manifest, p: Bytes)
    requires SyncedAndCommitted(base, theirs, tree, ignored, conflicts, after, committed) && ignored(p)
    ensures FileAt(after, p) == FileAt(tree, p) <==> Content(theirs, p) in {Content(base, p), None, FileAt(tree, p)}
    ensures FileAt(after, p) != FileAt(tree, p) ==> (Reported(conflicts, p) <==> Content(base, p).Some?)
  {
    var ours, merged :| Scanned(ours, tree, ignored) && Merges(base, ours, theirs, merged, conflicts)
      && after == Patched(tree, ours, merged);
    MergeIsPointwise(base, ours, theirs, merged, conflicts, p);
    PatchRealisesMerge(tree, ours, merged, p);
    ConflictsAreExact(base, ours, theirs, merged, conflicts, p);
  }

  /** They add a file at a path that our rules hide, whatever we have there. */
  lemma AdditionIsSynced(e: Entry, ignored: Bytes -> bool, tree: Tree)
    requires ignored(e.path) && tree.Keys <= {e.path}
    ensures SyncedAndCommitted([], [e], tree, ignored, [], map[e.path := e.file], [])
  {
    OneEntry(e);
    AdditionMerges(e);
    var after := Patched(tree, [], [e]);
    forall p ensures FileAt(after, p) == if p == e.path then Some(e.file) else None {
      PatchRealisesMerge(tree, [], [e], p);
    }
    assert forall p :: p in after <==> FileAt(after, p).Some?;
    assert after == map[e.path := e.file];
    assert Scanned([], tree, ignored) && Scanned([], after, ignored);
  }

  /** It is gone from our next commit without a report ... */
  lemma IgnoredAdditionIsLost(e: Entry, ignored: Bytes -> bool)
    requires ignored(e.path)
    ensures SyncedAndCommitted([], [e], map[], ignored, [], map[e.path := e.file], [])
    ensures !TheirsKept([], [e], [], [], e.path)
  {
    OneEntry(e);
    AdditionIsSynced(e, ignored, map[]);
  }

  /** ... and so is the file we had there. */
  lemma IgnoredFileIsOverwritten(e: Entry, ignored: Bytes -> bool, mine: Id)
    requires ignored(e.path) && mine != e.file
    ensures var tree, after := map[e.path := mine], map[e.path := e.file];
      SyncedAndCommitted([], [e], tree, ignored, [], after, []) && FileAt(after, e.path) != FileAt(tree, e.path)
  {
    AdditionIsSynced(e, ignored, map[e.path := mine]);
  }

  lemma OneEntry(e: Entry)
    ensures Sorted([e]) && ByPath([e]) == map[e.path := e]
  {
    assert [e][..0] == [];
  }

  lemma AdditionMerges(e: Entry)
    ensures Merges([], [], [e], [e], [])
  {
    OneEntry(e);
    var ps := [e.path];
    assert ps[..|ps| - 1] == [] && ps[|ps| - 1] == e.path;
    assert IsUnion([], [], [e], ps);
    var r := ResolveAt([], [], [e], e.path);
    assert r.keep == Some(e) && r.conflict == None;
    assert KeptAlong([], [], [e], ps) == KeptAlong([], [], [e], []) + [e];
    assert ConflictsAlong([], [], [e], ps) == ConflictsAlong([], [], [e], []) + [];
  }
}
