/** The two views of a collection agree: what the mark reaches in the store is the closure of the step system. */
module Marks {
  import opened Objects
  import opened Common
  import opened Graph
  import Catalog
  import Gc
  import P = Protocol
  import Store

  /** The graph a version refers to; the step system has no such objects. */
  function GraphOf(f: Store.Format, objects: Store.Contents, k: Store.Key): set<Store.Key> {
    if k.kind == Store.VersionKind && Catalog.VersionAt(f, objects, k.id).Some?
    then Gc.GraphKeys(Catalog.VersionAt(f, objects, k.id).value) else {}
  }

  /**
   A naming of the step system's objects by store keys: what the key of an object of the closure points at
   in the store are the names of what the object needs, and the graph of a version.
   */
  ghost predicate Named(f: Store.Format, objects: Store.Contents, l: P.Layout, name: P.Obj -> Store.Key,
                        roots: set<P.Ver>)
  {
    forall o | o in P.RootsClosure(l, roots) ::
      Gc.Children(f, objects, name(o)) == Names(name, P.Needs(l, o)) + GraphOf(f, objects, name(o))
  }

  /** The names of the closure, and the graphs of its versions. */
  function Marked(f: Store.Format, objects: Store.Contents, l: P.Layout, name: P.Obj -> Store.Key,
                  roots: set<P.Ver>): set<Store.Key>
  {
    var closure := P.RootsClosure(l, roots);
    Names(name, closure) + set o, k | o in closure && k in GraphOf(f, objects, name(o)) :: k
  }

  function Names(name: P.Obj -> Store.Key, os: set<P.Obj>): set<Store.Key> {
    set o | o in os :: name(o)
  }

  lemma FilesAreClosed(l: P.Layout, content: Bytes, o: P.Obj)
    requires o in P.FileClosure(l, content)
    ensures P.Needs(l, o) <= P.FileClosure(l, content)
  {
  }

  lemma ManifestsAreClosed(l: P.Layout, m: P.Listing, o: P.Obj)
    requires o in P.ManifestClosure(l, m)
    ensures P.Needs(l, o) <= P.ManifestClosure(l, m)
  {
    if file :| file in m && o in P.FileClosure(l, file.content) {
      FilesAreClosed(l, file.content, o);
    }
  }

  /** The closure of a version holds what its members need. */
  lemma {:induction false} VersionsAreClosed(l: P.Layout, v: P.Ver, o: P.Obj)
    requires o in P.VersionClosure(l, v)
    ensures P.Needs(l, o) <= P.VersionClosure(l, v)
    decreases v
  {
    if o == P.VersionObj(v) {
      forall p | p in v.parents ensures P.VersionObj(p) in P.VersionClosure(l, v) {
        assert P.VersionObj(p) in P.VersionClosure(l, p);
      }
    } else if o in P.ManifestClosure(l, v.manifest) {
      ManifestsAreClosed(l, v.manifest, o);
    } else {
      var p :| p in v.parents && o in P.VersionClosure(l, p);
      VersionsAreClosed(l, p, o);
    }
  }

  lemma RootsAreClosed(l: P.Layout, roots: set<P.Ver>, o: P.Obj)
    requires o in P.RootsClosure(l, roots)
    ensures P.Needs(l, o) <= P.RootsClosure(l, roots)
  {
    var v :| v in roots && o in P.VersionClosure(l, v);
    VersionsAreClosed(l, v, o);
  }

  /** The keys of the versions the collection read. */
  function RootNames(name: P.Obj -> Store.Key, roots: set<P.Ver>): set<Store.Key> {
    set v | v in roots :: name(P.VersionObj(v))
  }

  /** The walk from the roots reaches the object. */
  ghost predicate Reached(f: Store.Format, objects: Store.Contents, name: P.Obj -> Store.Key, roots: set<P.Ver>,
                          o: P.Obj)
  {
    Reaches(Gc.Edges(f, objects), RootNames(name, roots), name(o))
  }

  /** What is reached leads to all it needs. */
  ghost predicate Follows(l: P.Layout, closure: set<P.Obj>, reached: P.Obj -> bool) {
    forall o | o in closure && reached(o) :: forall x | x in P.Needs(l, o) :: reached(x)
  }

  lemma ManifestIsReached(l: P.Layout, closure: set<P.Obj>, reached: P.Obj -> bool, m: P.Listing, o: P.Obj)
    requires Follows(l, closure, reached) && P.ManifestClosure(l, m) <= closure
    requires reached(P.ManifestObj(m)) && o in P.ManifestClosure(l, m)
    ensures reached(o)
  {
    if file :| file in m && o in P.FileClosure(l, file.content) {
      var listed := P.FileObj(file.content);
      assert listed in P.Needs(l, P.ManifestObj(m)) && reached(listed);
    }
  }

  lemma {:induction false} VersionIsReached(l: P.Layout, closure: set<P.Obj>, reached: P.Obj -> bool, v: P.Ver,
                                            o: P.Obj)
    requires Follows(l, closure, reached) && P.VersionClosure(l, v) <= closure
    requires reached(P.VersionObj(v)) && o in P.VersionClosure(l, v)
    ensures reached(o)
    decreases v
  {
    if o in P.ManifestClosure(l, v.manifest) {
      assert P.ManifestObj(v.manifest) in P.Needs(l, P.VersionObj(v));
      ManifestIsReached(l, closure, reached, v.manifest, o);
    } else if o != P.VersionObj(v) {
      var p :| p in v.parents && o in P.VersionClosure(l, p);
      assert P.VersionObj(p) in P.Needs(l, P.VersionObj(v));
      ParentClosureIsWithin(l, v, p);
      VersionIsReached(l, closure, reached, p, o);
    }
  }

  lemma ParentClosureIsWithin(l: P.Layout, v: P.Ver, p: P.Ver)
    requires p in v.parents
    ensures P.VersionClosure(l, p) <= P.VersionClosure(l, v)
  {
  }

  lemma NeedIsReached(f: Store.Format, objects: Store.Contents, l: P.Layout, name: P.Obj -> Store.Key,
                      roots: set<P.Ver>, o: P.Obj, x: P.Obj)
    requires Named(f, objects, l, name, roots) && o in P.RootsClosure(l, roots) && x in P.Needs(l, o)
    requires Reached(f, objects, name, roots, o)
    ensures Reached(f, objects, name, roots, x)
  {
    assert name(x) in Names(name, P.Needs(l, o));
    EdgeIsReached(Gc.Edges(f, objects), RootNames(name, roots), name(o), name(x));
  }

  lemma RootsAreReached(f: Store.Format, objects: Store.Contents, l: P.Layout, name: P.Obj -> Store.Key,
                        roots: set<P.Ver>, o: P.Obj)
    requires Named(f, objects, l, name, roots) && o in P.RootsClosure(l, roots)
    ensures Reached(f, objects, name, roots, o)
  {
    var closure, reached := P.RootsClosure(l, roots), (x: P.Obj) => Reached(f, objects, name, roots, x);
    forall y, x | y in closure && reached(y) && x in P.Needs(l, y) ensures reached(x) {
      NeedIsReached(f, objects, l, name, roots, y, x);
    }
    var v :| v in roots && o in P.VersionClosure(l, v);
    RootIsReached(Gc.Edges(f, objects), RootNames(name, roots), name(P.VersionObj(v)));
    assert forall x | x in P.VersionClosure(l, v) :: x in closure;
    VersionIsReached(l, closure, reached, v, o);
  }

  lemma MarkedIsClosed(f: Store.Format, objects: Store.Contents, l: P.Layout, name: P.Obj -> Store.Key,
                       roots: set<P.Ver>, k: Store.Key)
    requires Named(f, objects, l, name, roots) && k in Marked(f, objects, l, name, roots)
    ensures Gc.Children(f, objects, k) <= Marked(f, objects, l, name, roots)
  {
    if o :| o in P.RootsClosure(l, roots) && name(o) == k {
      NeedsAreMarked(f, objects, l, name, roots, o);
      GraphsAreMarked(f, objects, l, name, roots, o);
    } else {
      GraphHasNoChildren(f, objects, k);
    }
  }

  lemma NeedsAreMarked(f: Store.Format, objects: Store.Contents, l: P.Layout, name: P.Obj -> Store.Key,
                       roots: set<P.Ver>, o: P.Obj)
    requires o in P.RootsClosure(l, roots)
    ensures Names(name, P.Needs(l, o)) <= Marked(f, objects, l, name, roots)
  {
    RootsAreClosed(l, roots, o);
    forall x | x in P.Needs(l, o) ensures name(x) in Names(name, P.RootsClosure(l, roots)) {
    }
  }

  lemma GraphsAreMarked(f: Store.Format, objects: Store.Contents, l: P.Layout, name: P.Obj -> Store.Key,
                        roots: set<P.Ver>, o: P.Obj)
    requires o in P.RootsClosure(l, roots)
    ensures GraphOf(f, objects, name(o)) <= Marked(f, objects, l, name, roots)
  {
  }

  lemma GraphHasNoChildren(f: Store.Format, objects: Store.Contents, k: Store.Key)
    requires k.kind == Store.GraphKind
    ensures Gc.Children(f, objects, k) == {}
  {
  }

  lemma GraphsAreReached(f: Store.Format, objects: Store.Contents, l: P.Layout, name: P.Obj -> Store.Key,
                         roots: set<P.Ver>, o: P.Obj, k: Store.Key)
    requires Named(f, objects, l, name, roots) && o in P.RootsClosure(l, roots) && k in GraphOf(f, objects, name(o))
    ensures Reaches(Gc.Edges(f, objects), RootNames(name, roots), k)
  {
    RootsAreReached(f, objects, l, name, roots, o);
    EdgeIsReached(Gc.Edges(f, objects), RootNames(name, roots), name(o), k);
  }

  /**
   The keys the mark finds live are exactly the names of the closure of the versions it read, and the graphs
   of those: what a collection of the step system may doom is what the sweep finds unmarked.
   */
  lemma MarkIsRootsClosure(f: Store.Format, objects: Store.Contents, l: P.Layout, name: P.Obj -> Store.Key,
                           roots: set<P.Ver>, refs: seq<Id>, k: Store.Key)
    requires Named(f, objects, l, name, roots) && Gc.Roots(refs) == RootNames(name, roots)
    ensures Gc.Live(f, objects, refs, k) <==> k in Marked(f, objects, l, name, roots)
  {
    var closed := Marked(f, objects, l, name, roots);
    if Gc.Live(f, objects, refs, k) {
      forall c | c in closed ensures Gc.Edges(f, objects)(c) <= closed {
        MarkedIsClosed(f, objects, l, name, roots, c);
      }
      forall v | v in roots ensures name(P.VersionObj(v)) in closed {
        assert P.VersionObj(v) in P.VersionClosure(l, v);
      }
      ClosedSetHoldsReached(Gc.Edges(f, objects), Gc.Roots(refs), closed, k);
    }
    forall o | o in P.RootsClosure(l, roots) && (name(o) == k || k in GraphOf(f, objects, name(o)))
      ensures Gc.Live(f, objects, refs, k)
    {
      if name(o) == k {
        RootsAreReached(f, objects, l, name, roots, o);
      } else {
        GraphsAreReached(f, objects, l, name, roots, o, k);
      }
    }
  }
}
