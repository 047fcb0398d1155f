/**
 Closure: wherever the commands are interrupted, everything a ref needs is in the store; and exactly
 which deletions of a collection, running beside the commands, leave it so.
 */
module Closure {
  import opened Common
  import opened Protocol
  import opened History

  function Elements(todo: seq<Obj>): set<Obj> {
    set o | o in todo
  }

  predicate NoVersions(todo: seq<Obj>) {
    forall o | o in todo :: !o.VersionObj?
  }

  /** What a command has read into the directory, and the cache is about to vouch for. */
  function Owed(sp: Space): set<Bytes> {
    (if sp.pc.Merged? then sp.pc.read else {}) +
    if sp.checkout.Some? && sp.checkout.value.restored && !sp.checkout.value.cached
    then Contents(sp.checkout.value.target.manifest) else {}
  }

  /** What the cache vouches for, or is about to. */
  function Counted(sp: Space): set<Bytes> {
    sp.cache + Owed(sp)
  }

  /** What a space relies on is in the store: what its cache vouches for, and what its command wrote. */
  ghost predicate Backed(l: Layout, objects: set<Obj>, sp: Space) {
    && (forall c | c in Counted(sp) :: FileClosure(l, c) <= objects)
    && match sp.pc
       case Uploading(_, m, todo) => ManifestClosure(l, m) <= objects + Elements(todo) && NoVersions(todo)
       case Merging(_, todo) => NoVersions(todo)
       case Adopting(_, m, parent) =>
         ManifestClosure(l, m) <= objects && (parent.Some? ==> VersionClosure(l, parent.value) <= objects)
       case Publishing(_, v, _) => VersionClosure(l, v) <= objects
       case Recording(_, v) => VersionClosure(l, v) <= objects
       case Caching(m) => ManifestClosure(l, m) <= objects
       case Keeping(v) => ManifestClosure(l, v.manifest) <= objects && v.parents == []
       case Promoting(v) => VersionClosure(l, v) <= objects
       case _ => true
  }

  /** Every ref has its full closure in the store. */
  ghost predicate RefsComplete(l: Layout, s: State) {
    forall name | name in s.refs :: VersionClosure(l, s.refs[name]) <= s.objects
  }

  /** And so has everything the next publications build on. */
  ghost predicate Held(l: Layout, s: State) {
    RefsComplete(l, s) && forall i | 0 <= i < |s.spaces| :: Backed(l, s.objects, s.spaces[i])
  }

  /** Every snapshot in the store has its full closure there, so that it could be promoted. */
  ghost predicate Intact(l: Layout, s: State) {
    forall v | VersionObj(v) in s.objects && v.expires :: VersionClosure(l, v) <= s.objects
  }

  ghost predicate Complete(l: Layout, s: State) {
    Held(l, s) && Intact(l, s)
  }

  lemma ElementsAppend(xs: seq<Obj>, ys: seq<Obj>)
    ensures Elements(xs + ys) == Elements(xs) + Elements(ys)
  {
  }

  /** The scan stores every file, or the cache vouches for it. */
  ghost predicate FilesStored(l: Layout, m: Listing, objects: set<Obj>) {
    forall f | f in m :: FileClosure(l, f.content) <= objects
  }

  lemma {:induction false} ScanStoresFiles(l: Layout, m: Listing, vouched: seq<bool>, objects: set<Obj>,
                                           cache: set<Bytes>)
    requires |vouched| == |m| && forall i | 0 <= i < |m| && vouched[i] :: m[i].content in cache
    requires forall c | c in cache :: FileClosure(l, c) <= objects
    ensures FilesStored(l, m, objects + Elements(ScanWrites(l, m, vouched)))
    ensures NoVersions(ScanWrites(l, m, vouched))
  {
    if m != [] {
      var n := |m| - 1;
      var scan, last := ScanWrites(l, m[..n], vouched[..n]), if vouched[n] then [] else FileWrites(l, m[n].content);
      ScanStoresFiles(l, m[..n], vouched[..n], objects, cache);
      ElementsAppend(scan, last);
      FileWritesAreClosed(l, m[n].content);
      OneMoreFile(l, m, objects + Elements(scan), objects + Elements(ScanWrites(l, m, vouched)));
    }
  }

  lemma OneMoreFile(l: Layout, m: Listing, objects: set<Obj>, more: set<Obj>)
    requires m != [] && FilesStored(l, m[..|m| - 1], objects) && objects <= more
    requires FileClosure(l, m[|m| - 1].content) <= more
    ensures FilesStored(l, m, more)
  {
    assert m == m[..|m| - 1] + [m[|m| - 1]];
  }

  lemma ChunksAre(pieces: seq<Bytes>)
    ensures Elements(Chunks(pieces)) == set p | p in pieces :: ChunkObj(p)
  {
    forall p | p in pieces ensures ChunkObj(p) in Chunks(pieces) {
      var i :| 0 <= i < |pieces| && pieces[i] == p;
      assert Chunks(pieces)[i] == ChunkObj(p);
    }
  }

  lemma FileWritesAreClosed(l: Layout, content: Bytes)
    ensures Elements(FileWrites(l, content)) == FileClosure(l, content)
  {
    ChunksAre(l.filePieces(content));
    assert Elements(FileWrites(l, content)) == Elements(Chunks(l.filePieces(content))) + {FileObj(content)};
  }

  /** The writes of a record, on top of what the cache vouches for, make the manifest complete. */
  lemma RecordWritesAll(l: Layout, m: Listing, vouched: seq<bool>, objects: set<Obj>, cache: set<Bytes>)
    requires |vouched| == |m| && forall i | 0 <= i < |m| && vouched[i] :: m[i].content in cache
    requires forall c | c in cache :: FileClosure(l, c) <= objects
    ensures ManifestClosure(l, m) <= objects + Elements(ScanWrites(l, m, vouched) + ManifestWrites(l, m))
    ensures NoVersions(ScanWrites(l, m, vouched) + ManifestWrites(l, m))
  {
    ScanStoresFiles(l, m, vouched, objects, cache);
    ChunksAre(l.manifestPieces(m));
    var scan, own := ScanWrites(l, m, vouched), ManifestWrites(l, m);
    assert Elements(scan + own) == Elements(scan) + Elements(own);
    assert Elements(own) == Elements(Chunks(l.manifestPieces(m))) + {ManifestObj(m)};
    forall o | o in ManifestClosure(l, m) ensures o in objects + Elements(scan) + Elements(own) {
      if f :| f in m && o in FileClosure(l, f.content) {
      }
    }
  }

  /** More objects never hurt. */
  lemma MoreObjects(l: Layout, objects: set<Obj>, more: set<Obj>, sp: Space)
    requires Backed(l, objects, sp)
    ensures Backed(l, objects + more, sp)
  {
  }

  lemma FilesOfManifest(l: Layout, m: Listing, objects: set<Obj>)
    requires ManifestClosure(l, m) <= objects
    ensures forall c | c in Contents(m) :: FileClosure(l, c) <= objects
  {
    forall c | c in Contents(m) ensures FileClosure(l, c) <= objects {
      var f :| f in m && f.content == c;
      assert forall o | o in FileClosure(l, c) :: f in m && o in FileClosure(l, f.content);
    }
  }

  lemma NewVersionIsComplete(l: Layout, objects: set<Obj>, v: Ver)
    requires ManifestClosure(l, v.manifest) <= objects
    requires forall p | p in v.parents :: VersionClosure(l, p) <= objects
    ensures VersionClosure(l, v) <= objects + {VersionObj(v)}
  {
  }

  lemma ParentIsComplete(l: Layout, s: State, i: nat)
    requires RefsComplete(l, s) && i < |s.spaces|
    requires BaseOf(s.spaces[i]) == RefAt(s.refs, CurrentRef(s.spaces[i]))
    ensures BaseOf(s.spaces[i]).Some? ==> VersionClosure(l, BaseOf(s.spaces[i]).value) <= s.objects
  {
  }

  lemma StoredMoves(todo: seq<Obj>, objects: set<Obj>)
    requires todo != []
    ensures objects + Elements(todo) == (objects + {todo[0]}) + Elements(todo[1..])
  {
    assert todo == [todo[0]] + todo[1..];
  }

  // ----- what a step needs, exactly -----------------------------------------------------------

  predicate Deletes(a: Action) {
    a.Collect? && a.step.Delete?
  }

  /** What a command in flight has stored, or found stored, and still relies on. */
  function Pinned(l: Layout, pc: Pc): set<Obj> {
    match pc
    case Uploading(_, m, todo) => ManifestClosure(l, m) - Elements(todo)
    case Adopting(_, m, parent) => ManifestClosure(l, m) + if parent.Some? then VersionClosure(l, parent.value) else {}
    case Publishing(_, v, _) => VersionClosure(l, v)
    case Recording(_, v) => VersionClosure(l, v)
    case Caching(m) => ManifestClosure(l, m)
    case Keeping(v) => ManifestClosure(l, v.manifest)
    case Promoting(v) => VersionClosure(l, v)
    case _ => {}
  }

  /** A space relies on what its cache vouches for, and on what its command will not write again. */
  ghost predicate SpaceRelies(l: Layout, sp: Space, o: Obj) {
    (exists c :: c in Counted(sp) && o in FileClosure(l, c)) || o in Pinned(l, sp.pc)
  }

  ghost predicate RefsRely(l: Layout, refs: map<Name, Ver>, o: Obj) {
    exists name :: name in refs && o in VersionClosure(l, refs[name])
  }

  ghost predicate Relies(l: Layout, s: State, o: Obj) {
    RefsRely(l, s.refs, o) || exists i :: 0 <= i < |s.spaces| && SpaceRelies(l, s.spaces[i], o)
  }

  /** Deleting what something relies on does harm, and promoting a snapshot of which something is deleted. */
  ghost predicate Harmless(l: Layout, s: State, a: Action) {
    && (Deletes(a) ==> !Relies(l, s, a.step.o))
    && (a.StartPromote? ==> ManifestClosure(l, a.snapshot.manifest) <= s.objects)
  }

  /** The space that moves still has all it relies on. */
  lemma MoverIsBacked(l: Layout, s: State, a: Action)
    requires !a.Expire? && !a.Collect? && Enabled(l, s, a) && Held(l, s) && AllPlanLinearly(s) && Harmless(l, s, a)
    ensures Backed(l, s.objects + Stored(s.spaces[a.i], a), SpaceAfter(l, s.refs, s.spaces[a.i], a))
  {
    var sp := s.spaces[a.i];
    assert Backed(l, s.objects, sp) && PlansLinearly(sp);
    match a
    case StartRecord(_, job, m, vouched) => RecordWritesAll(l, m, vouched, s.objects, sp.cache);
    case StartSync(_, m, vouched) => ScanStoresFiles(l, m, vouched, s.objects, sp.cache);
    case StoreNext(_) => StoredMoves(sp.pc.todo, s.objects);
    case AdoptParent(i) =>
      if sp.pc.job.Commit? && BaseOf(sp) == RefAt(s.refs, CurrentRef(sp)) {
        ParentIsComplete(l, s, i);
      }
    case PutVersion(_, note) => NewVersionIsComplete(l, s.objects, NewVersion(sp.pc.job, sp.pc.m, sp.pc.parent, note));
    case PutPromoted(_) => NewVersionIsComplete(l, s.objects, sp.pc.v);
    case SaveCache(_) => FilesOfManifest(l, sp.pc.m, s.objects);
    case _ =>
  }

  lemma SpaceStepHolds(l: Layout, s: State, a: Action)
    requires !a.Expire? && !a.Collect? && Enabled(l, s, a) && Held(l, s) && AllPlanLinearly(s) && Harmless(l, s, a)
    ensures Held(l, Next(l, s, a))
  {
    MoverIsBacked(l, s, a);
    forall i | 0 <= i < |s.spaces| && i != a.i ensures Backed(l, Next(l, s, a).objects, s.spaces[i]) {
      MoreObjects(l, s.objects, Stored(s.spaces[a.i], a), s.spaces[i]);
    }
    PublishedVersionIsComplete(l, s, a);
  }

  /** A publication names the version of the command in flight. */
  predicate PublishedIs(sp: Space, v: Ver) {
    (sp.pc.Publishing? || sp.pc.Promoting?) && v == sp.pc.v
  }

  lemma RefIsKeptOrPublished(refs: map<Name, Ver>, sp: Space, a: Action, name: Name)
    requires name in RefsAfter(refs, sp, a)
    ensures RefAt(refs, name) == Some(RefsAfter(refs, sp, a)[name]) || PublishedIs(sp, RefsAfter(refs, sp, a)[name])
  {
  }

  /** A ref names a version after everything it needs is stored. */
  lemma PublishedVersionIsComplete(l: Layout, s: State, a: Action)
    requires !a.Expire? && !a.Collect? && Enabled(l, s, a) && Held(l, s)
    ensures forall name | name in Next(l, s, a).refs :: VersionClosure(l, Next(l, s, a).refs[name]) <= s.objects
  {
    var sp := s.spaces[a.i];
    var refs := RefsAfter(s.refs, sp, a);
    assert Backed(l, s.objects, sp);
    forall name | name in refs ensures VersionClosure(l, refs[name]) <= s.objects {
      RefIsKeptOrPublished(s.refs, sp, a, name);
    }
  }

  lemma BackedWithout(l: Layout, objects: set<Obj>, sp: Space, o: Obj)
    requires Backed(l, objects, sp)
    ensures Backed(l, objects - {o}, sp) <==> !SpaceRelies(l, sp, o)
  {
    assert forall c | c in Counted(sp) :: FileClosure(l, c) <= objects;
  }

  lemma RefsWithout(l: Layout, s: State, o: Obj)
    requires RefsComplete(l, s)
    ensures (forall name | name in s.refs :: VersionClosure(l, s.refs[name]) <= s.objects - {o}) <==>
            !RefsRely(l, s.refs, o)
  {
  }

  /** A deletion leaves everything held if and only if nothing relies on the object. */
  lemma DeletionHoldsIff(l: Layout, s: State, k: nat, o: Obj)
    requires Enabled(l, s, Collect(k, Delete(o))) && Held(l, s)
    ensures Held(l, Next(l, s, Collect(k, Delete(o)))) <==> !Relies(l, s, o)
  {
    var next := Next(l, s, Collect(k, Delete(o)));
    assert next.objects == s.objects - {o} && next.refs == s.refs && next.spaces == s.spaces;
    RefsWithout(l, s, o);
    forall i | 0 <= i < |s.spaces|
      ensures Backed(l, next.objects, next.spaces[i]) <==> !SpaceRelies(l, s.spaces[i], o)
    {
      BackedWithout(l, s.objects, s.spaces[i], o);
    }
  }

  lemma OtherStepsOfACollectionHold(l: Layout, s: State, k: nat, step: GcStep)
    requires Enabled(l, s, Collect(k, step)) && Held(l, s) && !step.Delete?
    ensures Held(l, Next(l, s, Collect(k, step))) && Next(l, s, Collect(k, step)).objects == s.objects
  {
    assert s.objects - {} == s.objects;
  }

  /** A promotion starts on firm ground if and only if the snapshot's manifest is whole. */
  lemma PromotionHoldsIff(l: Layout, s: State, i: nat, snapshot: Ver, note: Bytes)
    requires Enabled(l, s, StartPromote(i, snapshot, note)) && Held(l, s) && AllPlanLinearly(s)
    ensures Held(l, Next(l, s, StartPromote(i, snapshot, note))) <==> ManifestClosure(l, snapshot.manifest) <= s.objects
  {
    var a := StartPromote(i, snapshot, note);
    if Harmless(l, s, a) {
      SpaceStepHolds(l, s, a);
    } else {
      var next := Next(l, s, a);
      assert next.objects == s.objects + {} == s.objects;
      assert !Backed(l, next.objects, next.spaces[i]);
    }
  }

  /** A step leaves everything held exactly if it is harmless. */
  lemma StepHoldsIff(l: Layout, s: State, a: Action)
    requires Enabled(l, s, a) && Held(l, s) && AllPlanLinearly(s)
    ensures Held(l, Next(l, s, a)) <==> Harmless(l, s, a)
  {
    if a.Expire? {
      ExpiryHolds(l, s, a.name);
    } else if Deletes(a) {
      DeletionHoldsIff(l, s, a.k, a.step.o);
    } else if a.Collect? {
      OtherStepsOfACollectionHold(l, s, a.k, a.step);
    } else if a.StartPromote? {
      PromotionHoldsIff(l, s, a.i, a.snapshot, a.note);
    } else {
      SpaceStepHolds(l, s, a);
    }
  }

  lemma ExpiryHolds(l: Layout, s: State, name: Name)
    requires Enabled(l, s, Expire(name)) && Held(l, s)
    ensures Held(l, Next(l, s, Expire(name)))
  {
  }

  lemma NothingIsComplete(l: Layout, s: State)
    requires Initial(s)
    ensures Complete(l, s)
  {
  }

  /** All along a run everything is held if and only if every step of it is harmless. */
  lemma RunHoldsIff(l: Layout, states: seq<State>, actions: seq<Action>, n: nat)
    requires Run(l, states, actions) && n < |states|
    ensures (forall i | 0 <= i <= n :: Held(l, states[i])) <==>
            (forall i | 0 <= i < n :: Harmless(l, states[i], actions[i]))
  {
    var good := seq(|states|, i requires 0 <= i < |states| => Held(l, states[i]));
    var ok := seq(|actions|, i requires 0 <= i < |actions| => Harmless(l, states[i], actions[i]));
    NothingIsComplete(l, states[0]);
    forall i | 0 <= i < |ok| && good[i] ensures good[i + 1] <==> ok[i] {
      RunPlansLinearly(l, states, actions, i);
      StepHoldsIff(l, states[i], actions[i]);
    }
    AlwaysIff(good, ok, n);
    assert forall i | 0 <= i <= n :: good[i] == Held(l, states[i]);
    assert forall i | 0 <= i < n :: ok[i] == Harmless(l, states[i], actions[i]);
  }

  /**
   Wherever the commands are interrupted: every ref points at a version whose parents, manifest,
   manifest chunks, file objects and chunks are all stored, and every cache entry can be restored.
   */
  lemma RefsAreCompleteAtEveryCrashPoint(l: Layout, states: seq<State>, actions: seq<Action>, n: nat)
    requires Run(l, states, actions) && n < |states| && forall i | 0 <= i < n :: Harmless(l, states[i], actions[i])
    ensures RefsComplete(l, states[n])
    ensures forall i, c | 0 <= i < |states[n].spaces| && c in states[n].spaces[i].cache ::
            Restorable(l, states[n].objects, c)
  {
    RunHoldsIff(l, states, actions, n);
    forall i, c | 0 <= i < |states[n].spaces| && c in states[n].spaces[i].cache
      ensures Restorable(l, states[n].objects, c)
    {
      assert Backed(l, states[n].objects, states[n].spaces[i]);
    }
  }

  // ----- without deletions --------------------------------------------------------------------

  /** A version object appears in the store after everything it needs. */
  lemma StoredVersionIsComplete(l: Layout, s: State, a: Action)
    requires !a.Expire? && !a.Collect? && Enabled(l, s, a) && Complete(l, s) && AllPlanLinearly(s) && Harmless(l, s, a)
    ensures Intact(l, Next(l, s, a))
  {
    var sp := s.spaces[a.i];
    assert Backed(l, s.objects, sp);
    MoverIsBacked(l, s, a);
    assert a.StoreNext? ==> sp.pc.todo[0] in sp.pc.todo && !sp.pc.todo[0].VersionObj?;
    assert forall v | VersionObj(v) in Stored(sp, a) ::
      (a.PutVersion? || a.PutPromoted?) && SpaceAfter(l, s.refs, sp, a).pc.v == v;
  }

  /** As long as nothing is deleted, every step is harmless: every snapshot that can be named is whole. */
  lemma StepKeepsComplete(l: Layout, s: State, a: Action)
    requires Enabled(l, s, a) && Complete(l, s) && AllPlanLinearly(s) && !Deletes(a)
    ensures Harmless(l, s, a) && Complete(l, Next(l, s, a))
  {
    assert a.StartPromote? ==> ManifestClosure(l, a.snapshot.manifest) <= VersionClosure(l, a.snapshot);
    StepHoldsIff(l, s, a);
    if a.Collect? {
      OtherStepsOfACollectionHold(l, s, a.k, a.step);
    } else if !a.Expire? {
      StoredVersionIsComplete(l, s, a);
    }
  }

  lemma {:induction false} RunKeepsComplete(l: Layout, states: seq<State>, actions: seq<Action>, n: nat)
    requires Run(l, states, actions) && n < |states| && forall i | 0 <= i < n :: !Deletes(actions[i])
    ensures Complete(l, states[n])
  {
    if n == 0 {
      NothingIsComplete(l, states[0]);
    } else {
      RunKeepsComplete(l, states, actions, n - 1);
      RunPlansLinearly(l, states, actions, n - 1);
      StepKeepsComplete(l, states[n - 1], actions[n - 1]);
    }
  }

  // ----- collection ---------------------------------------------------------------------------

  /** The objects a step makes its space rely on, though nothing may have relied on them before. */
  function Revived(l: Layout, sp: Space, a: Action): set<Obj> {
    match a
    case ApplyMerge(_, cache) => set c, o | c in cache - sp.cache && o in FileClosure(l, c) :: o
    case Restore(_) =>
      if sp.checkout.None? then {}
      else set f, o | f in sp.checkout.value.target.manifest && o in FileClosure(l, f.content) :: o
    case StartPromote(_, snapshot, _) => ManifestClosure(l, snapshot.manifest)
    case _ => Stored(sp, a)
  }

  /** A step writes the object, writes a file of its content into a directory, or promotes a snapshot made of it. */
  ghost predicate Revives(l: Layout, s: State, a: Action, o: Obj) {
    !a.Expire? && !a.Collect? && a.i < |s.spaces| && o in Revived(l, s.spaces[a.i], a)
  }

  function CachedClosure(l: Layout, cache: set<Bytes>): set<Obj> {
    set c, o | c in cache && o in FileClosure(l, c) :: o
  }

  /** What a record does not write, the cache vouches for. */
  lemma RecordReliesOnTheCache(l: Layout, m: Listing, vouched: seq<bool>, cache: set<Bytes>)
    requires |vouched| == |m| && forall i | 0 <= i < |m| && vouched[i] :: m[i].content in cache
    ensures ManifestClosure(l, m) - Elements(ScanWrites(l, m, vouched) + ManifestWrites(l, m)) <=
            CachedClosure(l, cache)
  {
    forall c | c in cache ensures FileClosure(l, c) <= CachedClosure(l, cache) {
    }
    RecordWritesAll(l, m, vouched, CachedClosure(l, cache), cache);
  }

  lemma FilesAreOfManifest(l: Layout, m: Listing, c: Bytes)
    requires c in Contents(m)
    ensures FileClosure(l, c) <= ManifestClosure(l, m)
  {
    FilesOfManifest(l, m, ManifestClosure(l, m));
  }

  /** What a space comes to rely on it revived, or it or a ref relied on it before. */
  lemma MoverReliesOn(l: Layout, s: State, a: Action, o: Obj)
    requires !a.Expire? && !a.Collect? && Enabled(l, s, a) && AllPlanLinearly(s)
    requires SpaceRelies(l, SpaceAfter(l, s.refs, s.spaces[a.i], a), o)
    ensures o in Revived(l, s.spaces[a.i], a) || SpaceRelies(l, s.spaces[a.i], o) || RefsRely(l, s.refs, o)
  {
    var sp := s.spaces[a.i];
    var sp' := SpaceAfter(l, s.refs, sp, a);
    if c :| c in Counted(sp') && o in FileClosure(l, c) {
      CacheReliesOn(l, s, sp, a, o, c);
    } else {
      CommandReliesOn(l, s, sp, a, o);
    }
  }

  lemma CacheReliesOn(l: Layout, s: State, sp: Space, a: Action, o: Obj, c: Bytes)
    requires !a.Expire? && !a.Collect? && SpaceEnabled(l, s.refs, s.objects, sp, a)
    requires c in Counted(SpaceAfter(l, s.refs, sp, a)) && o in FileClosure(l, c)
    ensures o in Revived(l, sp, a) || SpaceRelies(l, sp, o)
  {
    if c !in Counted(sp) {
      if a.SaveCache? {
        FilesAreOfManifest(l, sp.pc.m, c);
      } else if a.Restore? {
        var f :| f in sp.checkout.value.target.manifest && f.content == c;
      } else {
        assert a.ApplyMerge? && c in a.cache - sp.cache;
      }
    }
  }

  lemma CommandReliesOn(l: Layout, s: State, sp: Space, a: Action, o: Obj)
    requires !a.Expire? && !a.Collect? && SpaceEnabled(l, s.refs, s.objects, sp, a) && PlansLinearly(sp)
    requires o in Pinned(l, SpaceAfter(l, s.refs, sp, a).pc)
    ensures o in Revived(l, sp, a) || SpaceRelies(l, sp, o) || RefsRely(l, s.refs, o)
  {
    if a.StartRecord? {
      RecordReliesOnTheCache(l, a.m, a.vouched, sp.cache);
      var c :| c in sp.cache && o in FileClosure(l, c);
    } else if a.StoreNext? {
      StoredMoves(sp.pc.todo, {});
    } else if a.AdoptParent? {
      AdoptionReliesOn(l, s, sp, a, o);
    } else if a.PutVersion? || a.PutPromoted? {
      PuttingReliesOn(l, s.refs, sp, a, o);
    } else {
      assert o in Pinned(l, sp.pc) || o in Revived(l, sp, a);
    }
  }

  lemma PuttingReliesOn(l: Layout, refs: map<Name, Ver>, sp: Space, a: Action, o: Obj)
    requires (a.PutVersion? && sp.pc.Adopting?) || (a.PutPromoted? && sp.pc.Keeping? && sp.pc.v.parents == [])
    requires o in Pinned(l, SpaceAfter(l, refs, sp, a).pc)
    ensures o in Stored(sp, a) || o in Pinned(l, sp.pc)
  {
    VersionReliesOn(l, if a.PutVersion? then NewVersion(sp.pc.job, sp.pc.m, sp.pc.parent, a.note) else sp.pc.v, o);
  }

  lemma VersionReliesOn(l: Layout, v: Ver, o: Obj)
    requires o in VersionClosure(l, v)
    ensures o == VersionObj(v) || o in ManifestClosure(l, v.manifest) ||
            exists p :: p in v.parents && o in VersionClosure(l, p)
  {
  }

  lemma AdoptionReliesOn(l: Layout, s: State, sp: Space, a: Action, o: Obj)
    requires a.AdoptParent? && SpaceEnabled(l, s.refs, s.objects, sp, a)
    requires o in Pinned(l, SpaceAfter(l, s.refs, sp, a).pc)
    ensures o in Pinned(l, sp.pc) || RefsRely(l, s.refs, o)
  {
    assert Elements(sp.pc.todo) == {};
    if o !in ManifestClosure(l, sp.pc.m) {
      assert CurrentRef(sp) in s.refs && o in VersionClosure(l, s.refs[CurrentRef(sp)]);
    }
  }

  lemma RefsRelyOn(l: Layout, refs: map<Name, Ver>, sp: Space, a: Action, o: Obj)
    requires RefsRely(l, RefsAfter(refs, sp, a), o)
    ensures SpaceRelies(l, sp, o) || RefsRely(l, refs, o)
  {
    var name :| name in RefsAfter(refs, sp, a) && o in VersionClosure(l, RefsAfter(refs, sp, a)[name]);
    RefIsKeptOrPublished(refs, sp, a, name);
    var v := RefsAfter(refs, sp, a)[name];
    if PublishedIs(sp, v) {
      PublishedIsPinned(l, sp, v);
    } else {
      RefReliesOn(l, refs, name, v, o);
    }
  }

  lemma PublishedIsPinned(l: Layout, sp: Space, v: Ver)
    requires PublishedIs(sp, v)
    ensures Pinned(l, sp.pc) == VersionClosure(l, v)
  {
    match sp.pc
    case Publishing(_, _, _) =>
    case Promoting(_) =>
  }

  lemma RefReliesOn(l: Layout, refs: map<Name, Ver>, name: Name, v: Ver, o: Obj)
    requires RefAt(refs, name) == Some(v) && o in VersionClosure(l, v)
    ensures RefsRely(l, refs, o)
  {
  }

  /** Nothing is relied on anew unless a step revives it. */
  lemma NothingElseIsReliedOn(l: Layout, s: State, a: Action, o: Obj)
    requires Enabled(l, s, a) && AllPlanLinearly(s) && !Relies(l, s, o) && !Revives(l, s, a, o)
    ensures !Relies(l, Next(l, s, a), o)
  {
    var next := Next(l, s, a);
    if RefsRely(l, next.refs, o) {
      if !a.Expire? && !a.Collect? {
        RefsRelyOn(l, s.refs, s.spaces[a.i], a, o);
      }
      assert false;
    }
    forall i | 0 <= i < |next.spaces| ensures !SpaceRelies(l, next.spaces[i], o) {
      if SpaceRelies(l, next.spaces[i], o) && !a.Expire? && !a.Collect? && i == a.i {
        MoverReliesOn(l, s, a, o);
        assert false;
      }
    }
  }

  lemma {:induction false} StaysTrue(good: seq<bool>, i: nat, j: nat)
    requires i <= j < |good| && good[i] && forall n | i <= n < j && good[n] :: good[n + 1]
    ensures good[j]
  {
    if i < j {
      StaysTrue(good, i, j - 1);
      assert good[j - 1] && good[j - 1 + 1];
    }
  }

  lemma UnreliedStays(l: Layout, states: seq<State>, actions: seq<Action>, i: nat, j: nat, o: Obj)
    requires Run(l, states, actions) && i <= j < |states| && !Relies(l, states[i], o)
    requires forall n | i <= n < j :: !Revives(l, states[n], actions[n], o)
    ensures !Relies(l, states[j], o)
  {
    var good := seq(|states|, n requires 0 <= n < |states| => !Relies(l, states[n], o));
    forall n | i <= n < j && good[n] ensures good[n + 1] {
      RunPlansLinearly(l, states, actions, n);
      NothingElseIsReliedOn(l, states[n], actions[n], o);
    }
    StaysTrue(good, i, j);
  }

  /** The collection has read every ref as it is. */
  ghost predicate HasRead(c: Collector, refs: map<Name, Ver>) {
    c.Reading? && forall name | name in refs :: refs[name] in c.roots
  }

  lemma WalkSparesWhatWasRead(l: Layout, s: State, k: nat, doomed: set<Obj>, o: Obj)
    requires Enabled(l, s, Collect(k, Walk(doomed))) && HasRead(s.collectors[k], s.refs) && o in doomed
    ensures !RefsRely(l, s.refs, o)
  {
    var roots := s.collectors[k].roots;
    forall name | name in s.refs ensures o !in VersionClosure(l, s.refs[name]) {
      assert s.refs[name] in roots && o !in RootsClosure(l, roots);
    }
  }

  /**
   What the grace period is for. A deletion is harmless if at the walk the refs were still as they were
   read, if no cache and no command relied on the object then, and if no step has revived it since.
   */
  lemma DeletionIsHarmlessUnlessRevived(l: Layout, states: seq<State>, actions: seq<Action>, w: nat, d: nat, k: nat,
                                        doomed: set<Obj>, o: Obj)
    requires Run(l, states, actions) && w < d < |actions| && actions[w] == Collect(k, Walk(doomed)) && o in doomed
    requires actions[d] == Collect(k, Delete(o))
    requires HasRead(states[w].collectors[k], states[w].refs)
    requires forall i | 0 <= i < |states[w].spaces| :: !SpaceRelies(l, states[w].spaces[i], o)
    requires forall n | w < n < d :: !Revives(l, states[n], actions[n], o)
    ensures Harmless(l, states[d], actions[d])
  {
    WalkSparesWhatWasRead(l, states[w], k, doomed, o);
    UnreliedStays(l, states, actions, w, d, o);
  }

  // ----- write order --------------------------------------------------------------------------

  /** Each object of `todo` is written after all it needs. */
  ghost predicate Ordered(l: Layout, have: set<Obj>, todo: seq<Obj>)
    decreases |todo|
  {
    todo == [] || (Needs(l, todo[0]) <= have && Ordered(l, have + {todo[0]}, todo[1..]))
  }

  lemma {:induction false} OrderedWithMore(l: Layout, have: set<Obj>, more: set<Obj>, todo: seq<Obj>)
    requires Ordered(l, have, todo) && have <= more
    ensures Ordered(l, more, todo)
    decreases |todo|
  {
    if todo != [] {
      OrderedWithMore(l, have + {todo[0]}, more + {todo[0]}, todo[1..]);
    }
  }

  lemma {:induction false} OrderedAppend(l: Layout, have: set<Obj>, first: seq<Obj>, second: seq<Obj>)
    requires Ordered(l, have, first) && Ordered(l, have + Elements(first), second)
    ensures Ordered(l, have, first + second)
    decreases |first|
  {
    if first == [] {
      assert first + second == second && have + Elements(first) == have;
    } else {
      StoredMoves(first, have);
      OrderedAppend(l, have + {first[0]}, first[1..], second);
      assert (first + second)[1..] == first[1..] + second;
    }
  }

  lemma {:induction false} ChunksAreOrdered(l: Layout, have: set<Obj>, chunks: seq<Obj>)
    requires forall o | o in chunks :: o.ChunkObj?
    ensures Ordered(l, have, chunks)
    decreases |chunks|
  {
    if chunks != [] {
      ChunksAreOrdered(l, have + {chunks[0]}, chunks[1..]);
    }
  }

  /** Chunks first, then the object that lists them. */
  lemma ListingAfterChunks(l: Layout, have: set<Obj>, pieces: seq<Bytes>, listing: Obj)
    requires Needs(l, listing) <= have + set p | p in pieces :: ChunkObj(p)
    ensures Ordered(l, have, Chunks(pieces) + [listing])
  {
    ChunksAre(pieces);
    ChunksAreOrdered(l, have, Chunks(pieces));
    OrderedAppend(l, have, Chunks(pieces), [listing]);
  }

  lemma {:induction false} ScanIsOrdered(l: Layout, have: set<Obj>, m: Listing, vouched: seq<bool>)
    requires |vouched| == |m|
    ensures Ordered(l, have, ScanWrites(l, m, vouched))
  {
    if m != [] {
      var n := |m| - 1;
      var scan := ScanWrites(l, m[..n], vouched[..n]);
      ScanIsOrdered(l, have, m[..n], vouched[..n]);
      if !vouched[n] {
        ListingAfterChunks(l, have + Elements(scan), l.filePieces(m[n].content), FileObj(m[n].content));
        OrderedAppend(l, have, scan, FileWrites(l, m[n].content));
      } else {
        assert ScanWrites(l, m, vouched) == scan;
      }
    }
  }

  lemma RecordIsOrdered(l: Layout, m: Listing, vouched: seq<bool>, objects: set<Obj>, cache: set<Bytes>)
    requires |vouched| == |m| && forall i | 0 <= i < |m| && vouched[i] :: m[i].content in cache
    requires forall c | c in cache :: FileClosure(l, c) <= objects
    ensures Ordered(l, objects, ScanWrites(l, m, vouched) + ManifestWrites(l, m))
  {
    var scan := ScanWrites(l, m, vouched);
    ScanIsOrdered(l, objects, m, vouched);
    ScanStoresFiles(l, m, vouched, objects, cache);
    forall f | f in m ensures FileObj(f.content) in objects + Elements(scan) {
      assert FileObj(f.content) in FileClosure(l, f.content);
    }
    ListingAfterChunks(l, objects + Elements(scan), l.manifestPieces(m), ManifestObj(m));
    OrderedAppend(l, objects, scan, ManifestWrites(l, m));
  }

  ghost predicate WritesInOrder(l: Layout, objects: set<Obj>, sp: Space) {
    sp.pc.Uploading? || sp.pc.Merging? ==> Ordered(l, objects, sp.pc.todo)
  }

  /** Every object in the store finds what it refers to there. */
  ghost predicate NothingDangles(l: Layout, s: State) {
    && (forall o | o in s.objects :: Needs(l, o) <= s.objects)
    && (forall i | 0 <= i < |s.spaces| :: WritesInOrder(l, s.objects, s.spaces[i]))
  }

  lemma MoverWritesInOrder(l: Layout, s: State, a: Action)
    requires !a.Expire? && !a.Collect? && Enabled(l, s, a) && Complete(l, s)
    requires WritesInOrder(l, s.objects, s.spaces[a.i])
    ensures WritesInOrder(l, s.objects + Stored(s.spaces[a.i], a), SpaceAfter(l, s.refs, s.spaces[a.i], a))
  {
    var sp := s.spaces[a.i];
    assert Backed(l, s.objects, sp) && s.objects + {} == s.objects;
    if a.StartRecord? {
      RecordIsOrdered(l, a.m, a.vouched, s.objects, sp.cache);
    } else if a.StartSync? {
      ScanIsOrdered(l, s.objects, a.m, a.vouched);
    } else if a.StoreNext? {
      assert Ordered(l, s.objects + {sp.pc.todo[0]}, sp.pc.todo[1..]);
    }
  }

  lemma OthersWriteInOrder(l: Layout, objects: set<Obj>, more: set<Obj>, sp: Space)
    requires WritesInOrder(l, objects, sp)
    ensures WritesInOrder(l, objects + more, sp)
  {
    if sp.pc.Uploading? || sp.pc.Merging? {
      OrderedWithMore(l, objects, objects + more, sp.pc.todo);
    }
  }

  lemma StepLeavesNothingDangling(l: Layout, s: State, a: Action)
    requires !Deletes(a) && Enabled(l, s, a) && Complete(l, s) && AllPlanLinearly(s) && NothingDangles(l, s)
    ensures NothingDangles(l, Next(l, s, a))
  {
    if a.Collect? {
      OtherStepsOfACollectionHold(l, s, a.k, a.step);
    } else if !a.Expire? {
      SpaceLeavesNothingDangling(l, s, a);
    }
  }

  lemma SpaceLeavesNothingDangling(l: Layout, s: State, a: Action)
    requires !a.Expire? && !a.Collect? && Enabled(l, s, a) && Complete(l, s) && AllPlanLinearly(s)
    requires NothingDangles(l, s)
    ensures NothingDangles(l, Next(l, s, a))
  {
    var sp := s.spaces[a.i];
    var more := Stored(sp, a);
    assert Backed(l, s.objects, sp) && WritesInOrder(l, s.objects, sp) && PlansLinearly(sp);
    forall o | o in more ensures Needs(l, o) <= s.objects {
      StoredNeedsAreThere(l, s.objects, sp, a, o);
    }
    MoverWritesInOrder(l, s, a);
    forall i | 0 <= i < |s.spaces| && i != a.i ensures WritesInOrder(l, s.objects + more, s.spaces[i]) {
      OthersWriteInOrder(l, s.objects, more, s.spaces[i]);
    }
  }

  lemma StoredNeedsAreThere(l: Layout, objects: set<Obj>, sp: Space, a: Action, o: Obj)
    requires Backed(l, objects, sp) && WritesInOrder(l, objects, sp) && PlansLinearly(sp) && o in Stored(sp, a)
    ensures Needs(l, o) <= objects
  {
    if o.VersionObj? && sp.pc.Adopting? && sp.pc.parent.Some? {
      assert VersionObj(sp.pc.parent.value) in VersionClosure(l, sp.pc.parent.value);
    }
  }

  /** As long as nothing was deleted, no crash leaves an object behind whose parts are missing. */
  lemma {:induction false} NothingDanglesBeforeADeletion(l: Layout, states: seq<State>, actions: seq<Action>, n: nat)
    requires Run(l, states, actions) && n < |states| && forall i | 0 <= i < n :: !Deletes(actions[i])
    ensures NothingDangles(l, states[n])
  {
    if n > 0 {
      NothingDanglesBeforeADeletion(l, states, actions, n - 1);
      RunKeepsComplete(l, states, actions, n - 1);
      RunPlansLinearly(l, states, actions, n - 1);
      StepLeavesNothingDangling(l, states[n - 1], actions[n - 1]);
    }
  }
}
