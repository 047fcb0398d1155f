/** What a command achieves if nothing disturbs it, and the runs in which a collection or an expiry does. */
module Progress {
  import opened Common
  import opened Protocol
  import opened Closure
  import opened Runs

  ghost function StepOf(l: Layout): (State, Action, State) -> bool {
    (s, a, t) => Enabled(l, s, a) && t == Next(l, s, a)
  }

  function Drained(pc: Pc): Pc
    requires pc.Uploading? || pc.Merging?
  {
    if pc.Uploading? then Uploading(pc.job, pc.m, []) else Merging(pc.target, [])
  }

  /** The remaining writes of an upload, one after the other. */
  lemma {:induction false} UploadFinishes(l: Layout, s: State, i: nat, todo: seq<Obj>)
    returns (actions: seq<Action>, t: State)
    requires i < |s.spaces| && (s.spaces[i].pc.Uploading? || s.spaces[i].pc.Merging?) && s.spaces[i].pc.todo == todo
    ensures Leads(StepOf(l), s, actions, t)
    ensures t == With(s.(objects := s.objects + Elements(todo)), i, s.spaces[i].(pc := Drained(s.spaces[i].pc)))
    decreases |todo|
  {
    if todo == [] {
      assert s.objects + Elements(todo) == s.objects;
      return [], s;
    }
    StoredMoves(todo, s.objects);
    var next := Next(l, s, StoreNext(i));
    actions, t := UploadFinishes(l, next, i, todo[1..]);
    LeadsFrom(StepOf(l), s, StoreNext(i), next, actions, t);
    actions := [StoreNext(i)] + actions;
  }

  /** The head, and the base, of an idle space whose ref has not moved since. */
  predicate UpToDate(s: State, i: nat) {
    && i < |s.spaces| && s.spaces[i].pc.Idle? && s.spaces[i].checkout.None?
    && BaseOf(s.spaces[i]) == RefAt(s.refs, CurrentRef(s.spaces[i]))
  }

  /** The ref a record publishes on: the space's own, or a new one on the timeline. */
  predicate PublishesOn(s: State, sp: Space, job: Job, name: Name) {
    if job.Commit? then name == CurrentRef(sp) else OnTimeline(name) && name !in s.refs && name != CurrentRef(sp)
  }

  /** The version a record makes. */
  function Made(sp: Space, job: Job, m: Listing, note: Bytes): Ver {
    NewVersion(job, m, if job.Commit? then BaseOf(sp) else None, note)
  }

  /** A record, once everything is uploaded, up to its publication. */
  lemma UploadedRecordPublishes(l: Layout, s: State, i: nat, name: Name, note: Bytes) returns (t: State)
    requires i < |s.spaces| && s.spaces[i].pc.Uploading? && s.spaces[i].pc.todo == []
    requires PublishesOn(s, s.spaces[i], s.spaces[i].pc.job, name)
    requires s.spaces[i].pc.job.Commit? ==> BaseOf(s.spaces[i]) == RefAt(s.refs, CurrentRef(s.spaces[i]))
    ensures Leads(StepOf(l), s, [AdoptParent(i), PutVersion(i, note), Publish(i, name)], t)
    ensures var sp := s.spaces[i];
      var v := Made(sp, sp.pc.job, sp.pc.m, note);
      t == With(s.(refs := s.refs[name := v], objects := s.objects + {VersionObj(v)}), i,
                sp.(pc := Recording(sp.pc.job, v)))
  {
    var s1 := Next(l, s, AdoptParent(i));
    var s2 := Next(l, s1, PutVersion(i, note));
    t := Next(l, s2, Publish(i, name));
    ThreeSteps(StepOf(l), s, AdoptParent(i), s1, PutVersion(i, note), s2, Publish(i, name), t);
  }

  /** And from there to the end. */
  lemma PublishedRecordFinishes(l: Layout, s: State, i: nat) returns (t: State)
    requires i < |s.spaces| && s.spaces[i].pc.Recording? && s.spaces[i].checkout.None?
    requires RefAt(s.refs, CurrentRef(s.spaces[i])) ==
      if s.spaces[i].pc.job.Commit? then Some(s.spaces[i].pc.v) else BaseOf(s.spaces[i])
    ensures Leads(StepOf(l), s, [RecordHead(i), SaveCache(i)], t)
    ensures UpToDate(t, i) && t.refs == s.refs && t.objects == s.objects
    ensures t.spaces[i].cache == Contents(s.spaces[i].pc.v.manifest)
    ensures CurrentRef(t.spaces[i]) == CurrentRef(s.spaces[i]) && |t.spaces| == |s.spaces|
    ensures t.collectors == s.collectors
  {
    var s1 := Next(l, s, RecordHead(i));
    t := Next(l, s1, SaveCache(i));
    assert s.objects + {} == s.objects;
    TwoSteps(StepOf(l), s, RecordHead(i), s1, SaveCache(i), t);
  }

  lemma StartsAndUploads(l: Layout, s: State, i: nat, job: Job, m: Listing, vouched: seq<bool>)
    returns (actions: seq<Action>, t: State)
    requires UpToDate(s, i) && Vouches(s.spaces[i], m, vouched)
    ensures Leads(StepOf(l), s, actions, t)
    ensures t == With(s.(objects := s.objects + Elements(ScanWrites(l, m, vouched) + ManifestWrites(l, m))), i,
                      s.spaces[i].(pc := Uploading(job, m, [])))
  {
    var start := StartRecord(i, job, m, vouched);
    assert s.objects + {} == s.objects;
    var begun := Next(l, s, start);
    actions, t := UploadFinishes(l, begun, i, ScanWrites(l, m, vouched) + ManifestWrites(l, m));
    LeadsFrom(StepOf(l), s, start, begun, actions, t);
    actions := [start] + actions;
  }

  /**
   An undisturbed commit or snapshot of an up-to-date space goes through, whatever it records, and
   leaves the space up to date: a commit because the base moves along, a snapshot because it does not.
   */
  lemma RecordGoesThrough(l: Layout, s: State, i: nat, job: Job, name: Name, m: Listing, vouched: seq<bool>,
                          note: Bytes)
    returns (actions: seq<Action>, t: State)
    requires UpToDate(s, i) && Vouches(s.spaces[i], m, vouched) && PublishesOn(s, s.spaces[i], job, name)
    ensures Leads(StepOf(l), s, actions, t) && UpToDate(t, i)
    ensures var v := Made(s.spaces[i], job, m, note);
      && t.refs == s.refs[name := v] && t.spaces[i].cache == Contents(m)
      && t.objects == s.objects + Elements(ScanWrites(l, m, vouched) + ManifestWrites(l, m)) + {VersionObj(v)}
      && CurrentRef(t.spaces[i]) == CurrentRef(s.spaces[i]) && |t.spaces| == |s.spaces| && t.collectors == s.collectors
  {
    actions, t := StartsAndUploads(l, s, i, job, m, vouched);
    var t1 := UploadedRecordPublishes(l, t, i, name, note);
    var t2 := PublishedRecordFinishes(l, t1, i);
    var publish, finish := [AdoptParent(i), PutVersion(i, note), Publish(i, name)], [RecordHead(i), SaveCache(i)];
    LeadsOn(StepOf(l), s, actions, t, publish, t1);
    LeadsOn(StepOf(l), s, actions + publish, t1, finish, t2);
    actions, t := actions + publish + finish, t2;
  }

  /** What is left of a sync once the scan is uploaded. */
  lemma ScannedSyncSettles(l: Layout, s: State, i: nat, cache: set<Bytes>) returns (t: State)
    requires i < |s.spaces| && s.spaces[i].pc.Merging? && s.spaces[i].pc.todo == [] && s.spaces[i].checkout.None?
    requires RefAt(s.refs, CurrentRef(s.spaces[i])) == Some(s.spaces[i].pc.target)
    requires forall c | c in cache :: c in s.spaces[i].cache || Restorable(l, s.objects, c)
    ensures Leads(StepOf(l), s, [ApplyMerge(i, cache), SaveMerged(i), Settle(i)], t)
    ensures UpToDate(t, i) && t.refs == s.refs && t.spaces[i].cache == cache
  {
    var s1 := MergeApplies(l, s, i, cache);
    var s2 := MergeIsSaved(l, s1, i);
    t := SyncSettles(l, s2, i);
    ThreeSteps(StepOf(l), s, ApplyMerge(i, cache), s1, SaveMerged(i), s2, Settle(i), t);
  }

  lemma MergeApplies(l: Layout, s: State, i: nat, cache: set<Bytes>) returns (t: State)
    requires i < |s.spaces| && s.spaces[i].pc.Merging? && s.spaces[i].pc.todo == []
    requires forall c | c in cache :: c in s.spaces[i].cache || Restorable(l, s.objects, c)
    ensures StepOf(l)(s, ApplyMerge(i, cache), t)
    ensures t == With(s, i, s.spaces[i].(pc := Merged(s.spaces[i].pc.target, cache)))
  {
    assert s.objects + {} == s.objects;
    t := Next(l, s, ApplyMerge(i, cache));
  }

  lemma MergeIsSaved(l: Layout, s: State, i: nat) returns (t: State)
    requires i < |s.spaces| && s.spaces[i].pc.Merged?
    ensures StepOf(l)(s, SaveMerged(i), t)
    ensures t == With(s, i, s.spaces[i].(cache := s.spaces[i].pc.read, pc := Settling(s.spaces[i].pc.target)))
  {
    assert s.objects + {} == s.objects;
    t := Next(l, s, SaveMerged(i));
  }

  lemma SyncSettles(l: Layout, s: State, i: nat) returns (t: State)
    requires i < |s.spaces| && s.spaces[i].pc.Settling?
    ensures StepOf(l)(s, Settle(i), t)
    ensures var sp, target := s.spaces[i], s.spaces[i].pc.target;
      t == With(s, i, sp.(head := Some(Head(CurrentRef(sp), target, Some(target))), pc := Idle))
  {
    assert s.objects + {} == s.objects;
    t := Next(l, s, Settle(i));
  }

  /** After an undisturbed sync the next commit goes through, wherever the space stood before. */
  lemma SyncMakesUpToDate(l: Layout, s: State, i: nat, m: Listing, vouched: seq<bool>)
    returns (actions: seq<Action>, t: State)
    requires i < |s.spaces| && s.spaces[i].pc.Idle? && s.spaces[i].checkout.None? && Vouches(s.spaces[i], m, vouched)
    requires CurrentRef(s.spaces[i]) in s.refs
    ensures Leads(StepOf(l), s, actions, t) && UpToDate(t, i) && t.refs == s.refs
  {
    var sp := s.spaces[i];
    if BaseOf(sp) == RefAt(s.refs, CurrentRef(sp)) {
      return [], s;
    }
    var start := StartSync(i, m, vouched);
    assert s.objects + {} == s.objects;
    var begun := Next(l, s, start);
    actions, t := UploadFinishes(l, begun, i, ScanWrites(l, m, vouched));
    LeadsFrom(StepOf(l), s, start, begun, actions, t);
    var t1 := ScannedSyncSettles(l, t, i, sp.cache);
    LeadsOn(StepOf(l), s, [start] + actions, t, [ApplyMerge(i, sp.cache), SaveMerged(i), Settle(i)], t1);
    actions, t := [start] + actions + [ApplyMerge(i, sp.cache), SaveMerged(i), Settle(i)], t1;
  }

  lemma CheckoutStarts(l: Layout, s: State, i: nat, target: Ver, name: Name) returns (t: State)
    requires i < |s.spaces| && s.spaces[i].pc.Idle? && s.spaces[i].checkout.None? && VersionObj(target) in s.objects
    ensures StepOf(l)(s, StartCheckout(i, target, name), t)
    ensures t == With(s, i, s.spaces[i].(checkout := Some(Checkout(target, name, false, false))))
  {
    assert s.objects + {} == s.objects;
    t := Next(l, s, StartCheckout(i, target, name));
  }

  lemma CheckoutRestores(l: Layout, s: State, i: nat, target: Ver, name: Name) returns (t: State)
    requires i < |s.spaces| && s.spaces[i].pc.Idle?
    requires s.spaces[i].checkout == Some(Checkout(target, name, false, false))
    requires VersionObj(target) in s.objects && forall f | f in target.manifest :: Restorable(l, s.objects, f.content)
    ensures StepOf(l)(s, Restore(i), t)
    ensures t == With(s, i, s.spaces[i].(checkout := Some(Checkout(target, name, true, false))))
  {
    assert s.objects + {} == s.objects;
    t := Next(l, s, Restore(i));
  }

  lemma CheckoutCaches(l: Layout, s: State, i: nat, target: Ver, name: Name) returns (t: State)
    requires i < |s.spaces| && s.spaces[i].pc.Idle? && s.spaces[i].checkout == Some(Checkout(target, name, true, false))
    ensures StepOf(l)(s, SaveRestored(i), t)
    ensures t == With(s, i, s.spaces[i].(cache := Contents(target.manifest),
                                         checkout := Some(Checkout(target, name, true, true))))
  {
    assert s.objects + {} == s.objects;
    t := Next(l, s, SaveRestored(i));
  }

  lemma CheckoutPoints(l: Layout, s: State, i: nat, target: Ver, name: Name) returns (t: State)
    requires i < |s.spaces| && s.spaces[i].pc.Idle? && s.spaces[i].checkout == Some(Checkout(target, name, true, true))
    requires RefAt(s.refs, name) == Some(target)
    ensures StepOf(l)(s, PointHead(i), t)
    ensures UpToDate(t, i) && CurrentRef(t.spaces[i]) == name && t.refs == s.refs && t.objects == s.objects
  {
    assert s.objects + {} == s.objects;
    t := Next(l, s, PointHead(i));
  }

  /** An undisturbed checkout of a ref moves the space onto it and makes it up to date there. */
  lemma CheckoutMakesUpToDate(l: Layout, s: State, i: nat, name: Name) returns (t: State)
    requires i < |s.spaces| && s.spaces[i].pc.Idle? && s.spaces[i].checkout.None?
    requires name in s.refs && VersionClosure(l, s.refs[name]) <= s.objects
    ensures Leads(StepOf(l), s, [StartCheckout(i, s.refs[name], name), Restore(i), SaveRestored(i), PointHead(i)], t)
    ensures UpToDate(t, i) && CurrentRef(t.spaces[i]) == name && t.refs == s.refs && t.objects == s.objects
  {
    var target := s.refs[name];
    CheckedOutFilesAreThere(l, target, s.objects);
    var s1 := CheckoutStarts(l, s, i, target, name);
    var s2 := CheckoutRestores(l, s1, i, target, name);
    var s3 := CheckoutCaches(l, s2, i, target, name);
    t := CheckoutPoints(l, s3, i, target, name);
    FourSteps(StepOf(l), s, StartCheckout(i, target, name), s1, Restore(i), s2, SaveRestored(i), s3, PointHead(i), t);
  }

  lemma CheckedOutFilesAreThere(l: Layout, v: Ver, objects: set<Obj>)
    requires VersionClosure(l, v) <= objects
    ensures VersionObj(v) in objects && forall f | f in v.manifest :: Restorable(l, objects, f.content)
  {
    FilesOfManifest(l, v.manifest, objects);
    forall f | f in v.manifest ensures Restorable(l, objects, f.content) {
      assert f.content in Contents(v.manifest);
    }
  }

  // ----- what may go wrong --------------------------------------------------------------------

  lemma DefaultIsOffTimeline()
    ensures !OnTimeline(DEFAULT_REF)
  {
    assert DEFAULT_REF[0] != SNAPSHOTS[0];
  }

  function Snapshot(m: Listing, note: Bytes): Ver {
    Ver(m, [], true, note)
  }

  /** The first snapshot. */
  lemma SnapshotIsTaken(l: Layout, s: State, m: Listing, name: Name, note: Bytes)
    returns (actions: seq<Action>, t: State)
    requires Initial(s) && s.spaces != [] && OnTimeline(name)
    ensures Leads(StepOf(l), s, actions, t) && UpToDate(t, 0) && CurrentRef(t.spaces[0]) == DEFAULT_REF
    ensures t.refs == map[name := Snapshot(m, note)] && VersionClosure(l, Snapshot(m, note)) <= t.objects
    ensures t.spaces[0].cache == Contents(m) && t.collectors == s.collectors && |t.spaces| == |s.spaces|
  {
    DefaultIsOffTimeline();
    var vouched := seq(|m|, _ => false);
    actions, t := RecordGoesThrough(l, s, 0, Snap, name, m, vouched, note);
    RecordWritesAll(l, m, vouched, {}, {});
    assert s.objects + Elements(ScanWrites(l, m, vouched) + ManifestWrites(l, m)) <= t.objects;
    NewVersionIsComplete(l, t.objects, Snapshot(m, note));
  }

  /** A snapshot has expired, and a collection has walked the store and found all of it to be garbage. */
  ghost predicate Condemned(l: Layout, s: State, v: Ver) {
    && UpToDate(s, 0) && CurrentRef(s.spaces[0]) == DEFAULT_REF && s.refs == map[]
    && s.spaces[0].cache == Contents(v.manifest)
    && v.expires && VersionClosure(l, v) <= s.objects
    && s.collectors != [] && s.collectors[0] == Sweeping({}, s.objects)
  }

  lemma SnapshotExpires(l: Layout, s: State, v: Ver, name: Name) returns (t: State)
    requires s.refs == map[name := v] && OnTimeline(name) && UpToDate(s, 0) && CurrentRef(s.spaces[0]) == DEFAULT_REF
    ensures StepOf(l)(s, Expire(name), t) && t == s.(refs := map[]) && UpToDate(t, 0)
  {
    DefaultIsOffTimeline();
    t := Next(l, s, Expire(name));
    assert s.refs - {name} == map[];
  }

  /** With no ref to read, a collection may doom everything there is. */
  lemma EverythingIsDoomed(l: Layout, s: State) returns (t: State)
    requires s.refs == map[] && s.collectors != [] && s.collectors[0] == Resting
    ensures Leads(StepOf(l), s, [Collect(0, Begin), Collect(0, Walk(s.objects))], t)
    ensures t == s.(collectors := s.collectors[0 := Sweeping({}, s.objects)])
  {
    assert s.objects - {} == s.objects;
    var s1 := Next(l, s, Collect(0, Begin));
    assert s1.collectors[0] == Reading({}, {});
    t := Next(l, s1, Collect(0, Walk(s.objects)));
    TwoSteps(StepOf(l), s, Collect(0, Begin), s1, Collect(0, Walk(s.objects)), t);
  }

  lemma SnapshotIsCondemned(l: Layout, s: State, m: Listing, name: Name, note: Bytes)
    returns (actions: seq<Action>, t: State)
    requires Initial(s) && s.spaces != [] && s.collectors != [] && OnTimeline(name)
    ensures Leads(StepOf(l), s, actions, t) && Condemned(l, t, Snapshot(m, note))
  {
    var s1, s2;
    actions, s1 := SnapshotIsTaken(l, s, m, name, note);
    s2 := SnapshotExpires(l, s1, Snapshot(m, note), name);
    t := EverythingIsDoomed(l, s2);
    var collect := [Collect(0, Begin), Collect(0, Walk(s2.objects))];
    LeadsFrom(StepOf(l), s1, Expire(name), s2, collect, t);
    LeadsOn(StepOf(l), s, actions, s1, [Expire(name)] + collect, t);
    actions := actions + ([Expire(name)] + collect);
  }

  /** The sweep takes one object. */
  lemma SweepTakes(l: Layout, s: State, o: Obj) returns (t: State)
    requires s.collectors != [] && s.collectors[0].Sweeping? && o in s.collectors[0].doomed
    ensures StepOf(l)(s, Collect(0, Delete(o)), t) && t.refs == s.refs && t.spaces == s.spaces
    ensures t.objects == s.objects - {o}
  {
    t := Next(l, s, Collect(0, Delete(o)));
  }

  lemma PromotionStarts(l: Layout, s: State, v: Ver, note: Bytes) returns (t: State)
    requires UpToDate(s, 0) && VersionObj(v) in s.objects && v.expires
    ensures StepOf(l)(s, StartPromote(0, v, note), t)
    ensures t == With(s, 0, s.spaces[0].(pc := Keeping(Ver(v.manifest, [], false, note))))
  {
    assert s.objects + {} == s.objects;
    t := Next(l, s, StartPromote(0, v, note));
  }

  lemma PromotedIsStored(l: Layout, s: State) returns (t: State)
    requires s.spaces != [] && s.spaces[0].pc.Keeping?
    ensures StepOf(l)(s, PutPromoted(0), t) && t.refs == s.refs && t.collectors == s.collectors
    ensures t.spaces != [] && t.spaces[0].pc == Promoting(s.spaces[0].pc.v)
  {
    t := Next(l, s, PutPromoted(0));
  }

  lemma PromotedIsPublished(l: Layout, s: State, name: Name) returns (t: State)
    requires s.spaces != [] && s.spaces[0].pc.Promoting? && PROMOTED <= name && name !in s.refs
    ensures StepOf(l)(s, PublishPromoted(0, name), t)
    ensures t.refs == s.refs[name := s.spaces[0].pc.v] && t.collectors == s.collectors
  {
    t := Next(l, s, PublishPromoted(0, name));
  }

  lemma PromotionGoesThrough(l: Layout, s: State, v: Ver, note: Bytes, name: Name) returns (t: State)
    requires Condemned(l, s, v) && PROMOTED <= name
    ensures Leads(StepOf(l), s, [StartPromote(0, v, note), PutPromoted(0), PublishPromoted(0, name)], t)
    ensures name in t.refs && t.refs[name].manifest == v.manifest && t.collectors == s.collectors
  {
    var s1 := PromotionStarts(l, s, v, note);
    var s2 := PromotedIsStored(l, s1);
    t := PromotedIsPublished(l, s2, name);
    ThreeSteps(StepOf(l), s, StartPromote(0, v, note), s1, PutPromoted(0), s2, PublishPromoted(0, name), t);
  }

  /**
   Promote reads the version object of a snapshot and nothing else of it. If a collection doomed the
   snapshot before, the promoted ref names a manifest that the sweep goes on to delete.
   */
  lemma PromotedSnapshotCanBeSwept(l: Layout, s: State, m: Listing, name: Name, promoted: Name, note: Bytes)
    returns (actions: seq<Action>, t: State)
    requires Initial(s) && s.spaces != [] && s.collectors != [] && OnTimeline(name) && PROMOTED <= promoted
    ensures Leads(StepOf(l), s, actions, t) && promoted in t.refs && !(VersionClosure(l, t.refs[promoted]) <= t.objects)
  {
    var s1, s2;
    actions, s1 := SnapshotIsCondemned(l, s, m, name, note);
    s2 := PromotionGoesThrough(l, s1, Snapshot(m, note), note, promoted);
    var promote := [StartPromote(0, Snapshot(m, note), note), PutPromoted(0), PublishPromoted(0, promoted)];
    assert ManifestObj(m) in VersionClosure(l, Snapshot(m, note));
    t := SweepTakes(l, s2, ManifestObj(m));
    LeadsOn(StepOf(l), s, actions, s1, promote, s2);
    LeadsOneMore(StepOf(l), s, actions + promote, s2, Collect(0, Delete(ManifestObj(m))), t);
    actions := actions + promote + [Collect(0, Delete(ManifestObj(m)))];
    assert ManifestObj(m) in VersionClosure(l, t.refs[promoted]);
  }

  /** A deletion that takes a file object away from a cache breaks the next commit of that file. */
  lemma CollectionMustSpareCachedFiles(l: Layout, s: State, i: nat, path: Bytes, content: Bytes)
    returns (actions: seq<Action>, t: State)
    requires UpToDate(s, i) && content in s.spaces[i].cache && FileObj(content) !in s.objects
    ensures Leads(StepOf(l), s, actions, t)
    ensures var name := CurrentRef(s.spaces[i]); name in t.refs && !(VersionClosure(l, t.refs[name]) <= t.objects)
  {
    var m := [File(path, content)];
    actions, t := RecordGoesThrough(l, s, i, Commit, CurrentRef(s.spaces[i]), m, [true], "");
    var v := t.refs[CurrentRef(s.spaces[i])];
    assert ScanWrites(l, m, [true]) == [];
    assert FileObj(content) !in t.objects;
    FileOfVersion(l, v, m[0]);
  }

  lemma FileOfVersion(l: Layout, v: Ver, f: File)
    requires f in v.manifest
    ensures FileObj(f.content) in VersionClosure(l, v)
  {
    assert FileObj(f.content) in FileClosure(l, f.content);
    assert FileObj(f.content) in ManifestClosure(l, v.manifest);
  }

  /** And it comes to that: the cache still vouches for a file whose only snapshot has expired. */
  lemma CachedFileCanBeSwept(l: Layout, s: State, name: Name, path: Bytes, content: Bytes)
    returns (actions: seq<Action>, t: State)
    requires Initial(s) && s.spaces != [] && s.collectors != [] && OnTimeline(name)
    ensures Leads(StepOf(l), s, actions, t)
    ensures DEFAULT_REF in t.refs && !(VersionClosure(l, t.refs[DEFAULT_REF]) <= t.objects)
  {
    var m := [File(path, content)];
    var s1, commit;
    actions, s1 := SnapshotIsCondemned(l, s, m, name, "");
    FileOfVersion(l, Snapshot(m, ""), m[0]);
    var s2 := SweepTakes(l, s1, FileObj(content));
    LeadsOneMore(StepOf(l), s, actions, s1, Collect(0, Delete(FileObj(content))), s2);
    assert m[0].content in Contents(m);
    commit, t := CollectionMustSpareCachedFiles(l, s2, 0, path, content);
    LeadsOn(StepOf(l), s, actions + [Collect(0, Delete(FileObj(content)))], s2, commit, t);
    actions := actions + [Collect(0, Delete(FileObj(content)))] + commit;
  }

  /**
   Nor does it help to write the object again: the walk saw the old one, and the sweep deletes what was
   stored meanwhile under the same key.
   */
  lemma FileStoredAgainCanBeSwept(l: Layout, s: State, name: Name, path: Bytes, content: Bytes)
    returns (actions: seq<Action>, t: State)
    requires Initial(s) && s.spaces != [] && s.collectors != [] && OnTimeline(name)
    ensures Leads(StepOf(l), s, actions, t)
    ensures DEFAULT_REF in t.refs && !(VersionClosure(l, t.refs[DEFAULT_REF]) <= t.objects)
  {
    var m := [File(path, content)];
    var s1, s2, commit;
    actions, s1 := SnapshotIsCondemned(l, s, m, name, "");
    FileOfVersion(l, Snapshot(m, ""), m[0]);
    commit, s2 := RecordGoesThrough(l, s1, 0, Commit, DEFAULT_REF, m, [false], "");
    LeadsOn(StepOf(l), s, actions, s1, commit, s2);
    t := SweepTakes(l, s2, FileObj(content));
    LeadsOneMore(StepOf(l), s, actions + commit, s2, Collect(0, Delete(FileObj(content))), t);
    actions := actions + commit + [Collect(0, Delete(FileObj(content)))];
    FileOfVersion(l, t.refs[DEFAULT_REF], m[0]);
  }

  /** A space that stands on a ref of the timeline can commit there, and then expiry can delete the commit. */
  lemma CommitOnTimelineCanExpire(l: Layout, s: State, i: nat, m: Listing, vouched: seq<bool>, note: Bytes)
    returns (actions: seq<Action>, t: State)
    requires UpToDate(s, i) && Vouches(s.spaces[i], m, vouched) && OnTimeline(CurrentRef(s.spaces[i]))
    ensures Leads(StepOf(l), s, actions, t)
    ensures var name := CurrentRef(s.spaces[i]);
      && name in t.refs && !t.refs[name].expires && Enabled(l, t, Expire(name))
      && name !in Next(l, t, Expire(name)).refs
  {
    actions, t := RecordGoesThrough(l, s, i, Commit, CurrentRef(s.spaces[i]), m, vouched, note);
  }

  /** And it gets there by checking its own snapshot out. */
  lemma DeliberateVersionCanExpire(l: Layout, s: State, m: Listing, name: Name, note: Bytes)
    returns (actions: seq<Action>, t: State)
    requires Initial(s) && s.spaces != [] && OnTimeline(name)
    ensures Leads(StepOf(l), s, actions, t)
    ensures name in t.refs && !t.refs[name].expires && Enabled(l, t, Expire(name))
    ensures name !in Next(l, t, Expire(name)).refs
  {
    var s1, commit;
    actions, s1 := SnapshotIsTaken(l, s, m, name, note);
    var checkout := [StartCheckout(0, s1.refs[name], name), Restore(0), SaveRestored(0), PointHead(0)];
    var s2 := CheckoutMakesUpToDate(l, s1, 0, name);
    LeadsOn(StepOf(l), s, actions, s1, checkout, s2);
    commit, t := CommitOnTimelineCanExpire(l, s2, 0, m, seq(|m|, _ => false), note);
    LeadsOn(StepOf(l), s, actions + checkout, s2, commit, t);
    actions := actions + checkout + commit;
  }
}
