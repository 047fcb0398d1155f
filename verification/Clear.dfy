/** The deletion gate: the check before a file is deleted, and clearing (client/dirty.go, client/clear.go). */
module Clear {
  import opened Common
  import opened Objects
  import opened Graph
  import opened Paths
  import opened Merge
  import opened Store
  import opened Catalog
  import opened Cache
  import opened Space
  import Cut
  import Sync

  // ----- what a ref leads to ------------------------------------------------------------------

  function FilesOf(m: Manifest): set<Id> {
    set e | e in m :: e.file
  }

  ghost predicate RefersTo(f: Format, objects: Contents, version: Id, file: Id) {
    var m := VersionManifest(f, objects, version);
    m.Some? && file in FilesOf(m.value)
  }

  /** A version in the history of a head names the file. */
  ghost predicate Versioned(f: Format, objects: Contents, heads: set<Id>, file: Id) {
    exists version :: InHistory(f, objects, heads, version) && RefersTo(f, objects, version, file)
  }

  // ----- reachableFiles -----------------------------------------------------------------------

  type FileMap = map<Id, File>

  ghost predicate FilesAreRead(f: Format, objects: Contents, files: FileMap) {
    forall id | id in files :: FileAt(f, objects, id) == Some(files[id])
  }

  lemma FilesOfSnoc(m: Manifest, i: nat)
    requires i < |m|
    ensures FilesOf(m[..i + 1]) == FilesOf(m[..i]) + {m[i].file}
  {
    assert m[..i + 1] == m[..i] + [m[i]];
  }

  /** collectManifestFiles */
  method CollectManifestFiles(store: ObjectStore, version: Id, files: FileMap) returns (files': Option<FileMap>)
    requires FilesAreRead(store.f, store.objects, files)
    ensures files'.Some? ==> FilesAreRead(store.f, store.objects, files'.value)
    ensures files'.Some? ==> VersionManifest(store.f, store.objects, version).Some?
    ensures files'.Some? ==>
      files'.value.Keys == files.Keys + FilesOf(VersionManifest(store.f, store.objects, version).value)
  {
    var v := GetVersion(store, version);
    if v.None? {
      return None;
    }
    var entries := GetEntries(store, v.value.manifest);
    if entries.None? {
      return None;
    }
    var m := entries.value;
    var collected := files;
    for i := 0 to |m|
      invariant FilesAreRead(store.f, store.objects, collected)
      invariant collected.Keys == files.Keys + FilesOf(m[..i])
    {
      FilesOfSnoc(m, i);
      if m[i].file !in collected {
        var file := GetFile(store, FileKey(m[i].file));
        if file.None? {
          return None;
        }
        collected := collected[m[i].file := file.value];
      }
    }
    assert m[..|m|] == m;
    return Some(collected);
  }

  /** What is seen or pending is in the history. */
  ghost predicate Within(f: Format, objects: Contents, heads: set<Id>, pending: seq<Id>, seen: set<Id>) {
    forall id | id in seen || id in pending :: InHistory(f, objects, heads, id)
  }

  /** The parents of what is seen are seen or pending. */
  ghost predicate Followed(f: Format, objects: Contents, pending: seq<Id>, seen: set<Id>) {
    forall id, p | id in seen && p in ParentsOf(f, objects, id) :: p in seen || p in pending
  }

  /** `files` are the files that the manifests of the seen versions name. */
  ghost predicate Gathered(f: Format, objects: Contents, seen: set<Id>, files: FileMap) {
    && FilesAreRead(f, objects, files)
    && (forall id :: id in files <==> exists version :: version in seen && RefersTo(f, objects, version, id))
  }

  ghost predicate Walking(f: Format, objects: Contents, heads: set<Id>, pending: seq<Id>, seen: set<Id>, files: FileMap)
  {
    Within(f, objects, heads, pending, seen) && Followed(f, objects, pending, seen) && Gathered(f, objects, seen, files)
  }

  lemma GatheredOneMore(f: Format, objects: Contents, current: Id, seen: set<Id>, files: FileMap, files': FileMap)
    requires Gathered(f, objects, seen, files) && FilesAreRead(f, objects, files')
    requires VersionManifest(f, objects, current).Some?
    requires files'.Keys == files.Keys + FilesOf(VersionManifest(f, objects, current).value)
    ensures Gathered(f, objects, seen + {current}, files')
  {
    forall id
      ensures id in files' <==> exists version :: version in seen + {current} && RefersTo(f, objects, version, id)
    {
      if id in files {
        var version :| version in seen && RefersTo(f, objects, version, id);
        assert version in seen + {current};
      } else if id in files'.Keys {
        assert RefersTo(f, objects, current, id);
      }
    }
  }

  lemma WalkedOneMore(f: Format, objects: Contents, heads: set<Id>, rest: seq<Id>, current: Id, seen: set<Id>)
    requires Within(f, objects, heads, rest + [current], seen) && Followed(f, objects, rest + [current], seen)
    requires VersionAt(f, objects, current).Some?
    ensures var pending := rest + VersionAt(f, objects, current).value.parents;
      Within(f, objects, heads, pending, seen + {current}) && Followed(f, objects, pending, seen + {current})
  {
    var parents := VersionAt(f, objects, current).value.parents;
    assert current in rest + [current];
    forall id | id in rest + parents ensures InHistory(f, objects, heads, id) {
      if id in parents {
        EdgeIsReached(ParentEdges(f, objects), heads, current, id);
      } else {
        assert id in rest + [current];
      }
    }
  }

  lemma WalkedAlready(f: Format, objects: Contents, heads: set<Id>, rest: seq<Id>, current: Id, seen: set<Id>)
    requires Within(f, objects, heads, rest + [current], seen) && Followed(f, objects, rest + [current], seen)
    requires current in seen
    ensures Within(f, objects, heads, rest, seen) && Followed(f, objects, rest, seen)
  {
    assert forall id | id in rest :: id in rest + [current];
  }

  function VersionIds(objects: Contents): set<Id> {
    set k | k in objects && k.kind == VersionKind :: k.id
  }

  /** walkVersions, from one head, on top of what earlier heads led to. */
  method WalkVersions(store: ObjectStore, head: Id, seen: set<Id>, files: FileMap, ghost heads: set<Id>)
    returns (result: Option<(set<Id>, FileMap)>)
    requires Walking(store.f, store.objects, heads, [], seen, files) && head in heads
    ensures result.Some? ==> Walking(store.f, store.objects, heads, [], result.value.0, result.value.1)
    ensures result.Some? ==> seen + {head} <= result.value.0
  {
    var walked, collected, pending := seen, files, [head];
    RootIsReached(ParentEdges(store.f, store.objects), heads, head);
    while pending != []
      invariant Walking(store.f, store.objects, heads, pending, walked, collected)
      invariant seen <= walked && (head in walked || head in pending)
      decreases VersionIds(store.objects) - walked, |pending|
    {
      var current, rest := pending[|pending| - 1], pending[..|pending| - 1];
      assert pending == rest + [current];
      if current in walked {
        WalkedAlready(store.f, store.objects, heads, rest, current, walked);
        pending := rest;
      } else {
        var more := CollectManifestFiles(store, current, collected);
        if more.None? {
          return None;
        }
        WalkedOneMore(store.f, store.objects, heads, rest, current, walked);
        GatheredOneMore(store.f, store.objects, current, walked, collected, more.value);
        assert VersionKey(current) in store.objects;
        var v := GetVersion(store, current);
        walked, collected, pending := walked + {current}, more.value, rest + v.value.parents;
      }
    }
    return Some((walked, collected));
  }

  /** reachableFiles: the file objects of exactly the files that some version in the history names. */
  method ReachableFiles(store: ObjectStore, heads: seq<Id>) returns (files: Option<FileMap>)
    ensures files.Some? ==> FilesAreRead(store.f, store.objects, files.value)
    ensures files.Some? ==> forall id :: id in files.value <==> Versioned(store.f, store.objects, IdSet(heads), id)
  {
    var seen: set<Id>, collected: FileMap := {}, map[];
    for i := 0 to |heads|
      invariant Walking(store.f, store.objects, IdSet(heads), [], seen, collected)
      invariant forall k | 0 <= k < i :: heads[k] in seen
    {
      var walked := WalkVersions(store, heads[i], seen, collected, IdSet(heads));
      if walked.None? {
        return None;
      }
      seen, collected := walked.value.0, walked.value.1;
    }
    HistoryIsWalked(store.f, store.objects, IdSet(heads), seen, collected);
    return Some(collected);
  }

  lemma HistoryIsWalked(f: Format, objects: Contents, heads: set<Id>, seen: set<Id>, files: FileMap)
    requires Walking(f, objects, heads, [], seen, files) && heads <= seen
    ensures forall id :: id in files <==> Versioned(f, objects, heads, id)
  {
    forall id | InHistory(f, objects, heads, id) ensures id in seen {
      ClosedSetHoldsReached(ParentEdges(f, objects), heads, seen, id);
    }
  }

  // ----- the three checks ---------------------------------------------------------------------

  datatype Problem =
    | HeadUnavailable
    | StoreUnreadable
    | UnreadFile(path: Bytes)
    | Unconfirmed
    | ChunksMissing(path: Bytes)

  /** Paths by the hash of their content. */
  type Candidates = map<Id, seq<Bytes>>

  predicate InGroup(candidates: Candidates, id: Id, p: Bytes) {
    id in candidates && p in candidates[id]
  }

  function HashOnDisk(f: Format, disk: Disk, p: Bytes): Id
    requires p in disk
  {
    f.hash(FileKind, disk[p].content)
  }

  /** Of the paths looked at, each is a problem, unversioned, or grouped with the paths of equal content. */
  ghost predicate Sifted(f: Format, disk: Disk, files: FileMap, ps: seq<Bytes>, candidates: Candidates,
                         unversioned: seq<Bytes>, unread: seq<Problem>) {
    && (forall p | p in ps :: p in disk)
    && (forall id | id in candidates :: id in files && candidates[id] != [])
    && (forall id, p | InGroup(candidates, id, p) :: p in ps && HashOnDisk(f, disk, p) == id)
    && (forall p | p in unversioned :: p in ps && HashOnDisk(f, disk, p) !in files)
    && (forall p | p in ps ::
          UnreadFile(p) in unread || p in unversioned || InGroup(candidates, HashOnDisk(f, disk, p), p))
  }

  lemma SiftedMore(f: Format, disk: Disk, files: FileMap, ps: seq<Bytes>, i: nat, candidates: Candidates,
                   unversioned: seq<Bytes>, unread: seq<Problem>)
    requires i < |ps| && ps[i] in disk && Sifted(f, disk, files, ps[..i], candidates, unversioned, unread)
    ensures Sifted(f, disk, files, ps[..i + 1], candidates, unversioned, unread + [UnreadFile(ps[i])])
    ensures var id := HashOnDisk(f, disk, ps[i]);
      && (id !in files ==> Sifted(f, disk, files, ps[..i + 1], candidates, unversioned + [ps[i]], unread))
      && (id in files ==> Sifted(f, disk, files, ps[..i + 1], Grouped(candidates, id, ps[i]), unversioned, unread))
  {
    assert ps[..i + 1] == ps[..i] + [ps[i]];
    SiftedPath(candidates, HashOnDisk(f, disk, ps[i]), ps[i]);
  }

  /** candidates[id] = append(candidates[id], path) */
  function Grouped(candidates: Candidates, id: Id, p: Bytes): Candidates {
    candidates[id := (if id in candidates then candidates[id] else []) + [p]]
  }

  lemma SiftedPath(candidates: Candidates, id: Id, p: Bytes)
    ensures forall other, q :: InGroup(Grouped(candidates, id, p), other, q) <==>
      InGroup(candidates, other, q) || (other == id && q == p)
  {
  }

  /** rehashAll: every file is read and hashed again, whatever the cache says. */
  method RehashAll(f: Format, disk: Disk, files: FileMap, ps: seq<Bytes>)
    returns (candidates: Candidates, unversioned: seq<Bytes>, unread: seq<Problem>)
    requires forall p | p in ps :: p in disk
    ensures Sifted(f, disk, files, ps, candidates, unversioned, unread)
  {
    candidates, unversioned, unread := map[], [], [];
    for i := 0 to |ps|
      invariant Sifted(f, disk, files, ps[..i], candidates, unversioned, unread)
    {
      SiftedMore(f, disk, files, ps, i, candidates, unversioned, unread);
      var readable: bool := *;
      if !readable {
        unread := unread + [UnreadFile(ps[i])];
      } else {
        var id := f.hash(FileKind, disk[ps[i]].content);
        if id !in files {
          unversioned := unversioned + [ps[i]];
        } else {
          candidates := Grouped(candidates, id, ps[i]);
        }
      }
    }
    assert ps[..|ps|] == ps;
  }

  function ChunkKeysOf(file: File): set<Key> {
    set ref | ref in file.chunks :: Key(ChunkKind, ref.id)
  }

  /** A candidate whose file lists the key. */
  ghost predicate Depends(candidates: Candidates, files: FileMap, key: Key, p: Bytes) {
    exists id :: InGroup(candidates, id, p) && id in files && key in ChunkKeysOf(files[id])
  }

  /** The batch: each key once, with paths that depend on it. */
  datatype Batch = Batch(index: map<Key, nat>, keys: seq<Key>, owners: seq<seq<Bytes>>)
  {
    ghost predicate Valid(candidates: Candidates, files: FileMap) {
      && |keys| == |owners|
      && (forall k | k in index :: index[k] < |keys| && keys[index[k]] == k)
      && (forall i | 0 <= i < |keys| :: keys[i] in index && index[keys[i]] == i)
      && (forall i | 0 <= i < |owners| :: OwnedBy(candidates, files, keys[i], owners[i]))
    }
  }

  ghost predicate OwnedBy(candidates: Candidates, files: FileMap, key: Key, ps: seq<Bytes>) {
    ps != [] && forall p | p in ps :: Depends(candidates, files, key, p)
  }

  /** Only the first path of each content is recorded: equal contents lose the same chunks. */
  function Own(b: Batch, key: Key, owner: Bytes): Batch
    requires key in b.index ==> b.index[key] < |b.owners|
  {
    if key in b.index then b.(owners := b.owners[b.index[key] := b.owners[b.index[key]] + [owner]])
    else Batch(b.index[key := |b.keys|], b.keys + [key], b.owners + [[owner]])
  }

  lemma OwnedMore(b: Batch, candidates: Candidates, files: FileMap, key: Key, owner: Bytes)
    requires b.Valid(candidates, files) && Depends(candidates, files, key, owner)
    ensures Own(b, key, owner).Valid(candidates, files)
    ensures Own(b, key, owner).index.Keys == b.index.Keys + {key}
  {
    forall ps | ps == [] || OwnedBy(candidates, files, key, ps) ensures OwnedBy(candidates, files, key, ps + [owner]) {
    }
  }

  /** chunkKeysOf */
  method CollectChunkKeys(candidates: Candidates, files: FileMap, ids: seq<Id>) returns (b: Batch)
    requires forall id | id in ids :: id in candidates && id in files && candidates[id] != []
    ensures b.Valid(candidates, files)
    ensures forall i, j | 0 <= i < j < |b.keys| :: b.keys[i] != b.keys[j]
    ensures forall id | id in ids :: ChunkKeysOf(files[id]) <= b.index.Keys
  {
    b := Batch(map[], [], []);
    for i := 0 to |ids|
      invariant b.Valid(candidates, files)
      invariant forall k | 0 <= k < i :: ChunkKeysOf(files[ids[k]]) <= b.index.Keys
    {
      assert InGroup(candidates, ids[i], candidates[ids[i]][0]);
      b := OwnAll(b, candidates, files, ids[i], candidates[ids[i]][0]);
    }
  }

  /** One round of that loop: the chunks of one file. */
  method OwnAll(batch: Batch, ghost candidates: Candidates, files: FileMap, id: Id, owner: Bytes) returns (b: Batch)
    requires batch.Valid(candidates, files) && InGroup(candidates, id, owner) && id in files
    ensures b.Valid(candidates, files) && batch.index.Keys + ChunkKeysOf(files[id]) <= b.index.Keys
  {
    b := batch;
    var refs := files[id].chunks;
    for j := 0 to |refs|
      invariant b.Valid(candidates, files)
      invariant batch.index.Keys <= b.index.Keys && forall k | 0 <= k < j :: Key(ChunkKind, refs[k].id) in b.index.Keys
    {
      assert refs[j] in files[id].chunks && Key(ChunkKind, refs[j].id) in ChunkKeysOf(files[id]);
      OwnedMore(b, candidates, files, Key(ChunkKind, refs[j].id), owner);
      b := Own(b, Key(ChunkKind, refs[j].id), owner);
    }
  }

  /** Exists, asked for a whole batch. */
  method ExistsAll(store: ObjectStore, keys: seq<Key>) returns (present: Option<seq<bool>>)
    ensures present.Some? ==> |present.value| == |keys|
    ensures present.Some? ==> forall i | 0 <= i < |keys| :: present.value[i] <==> keys[i] in store.objects
  {
    var reachable: bool := *;
    if !reachable {
      return None;
    }
    var answer := [];
    for i := 0 to |keys|
      invariant |answer| == i
      invariant forall k | 0 <= k < i :: answer[k] <==> keys[k] in store.objects
    {
      answer := answer + [keys[i] in store.objects];
    }
    return Some(answer);
  }

  /** The paths recorded for chunks that are not there. */
  method MissingOwners(b: Batch, present: seq<bool>, ghost candidates: Candidates, ghost files: FileMap)
    returns (missing: set<Bytes>)
    requires b.Valid(candidates, files) && |present| == |b.keys|
    ensures forall p :: p in missing <==> exists i :: 0 <= i < |present| && !present[i] && p in b.owners[i]
    ensures missing == {} ==> forall i | 0 <= i < |present| :: present[i]
  {
    missing := {};
    for i := 0 to |present|
      invariant forall p :: p in missing <==> exists k :: 0 <= k < i && !present[k] && p in b.owners[k]
    {
      if !present[i] {
        missing := missing + set p | p in b.owners[i];
      }
    }
    forall i | 0 <= i < |present| && !present[i] ensures missing != {} {
      assert b.owners[i][0] in b.owners[i] && b.owners[i][0] in missing;
    }
  }

  ghost predicate Listed(candidates: Candidates, ids: seq<Id>, p: Bytes) {
    exists id :: id in ids && InGroup(candidates, id, p)
  }

  lemma ListedSnoc(candidates: Candidates, ids: seq<Id>, i: nat)
    requires i < |ids|
    ensures forall p :: Listed(candidates, ids[..i + 1], p) <==>
            Listed(candidates, ids[..i], p) || InGroup(candidates, ids[i], p)
  {
    assert ids[..i + 1] == ids[..i] + [ids[i]];
    forall p | InGroup(candidates, ids[i], p) ensures Listed(candidates, ids[..i + 1], p) {
      assert ids[i] in ids[..i + 1];
    }
    forall p | Listed(candidates, ids[..i], p) ensures Listed(candidates, ids[..i + 1], p) {
      var id :| id in ids[..i] && InGroup(candidates, id, p);
      assert id in ids[..i + 1];
    }
  }

  /** Every path of every group is safe, or one of its chunks is reported missing. */
  method Judge(candidates: Candidates, ids: seq<Id>, missing: set<Bytes>)
    returns (safe: seq<Bytes>, problems: seq<Problem>)
    requires forall id | id in ids :: id in candidates
    ensures forall p :: p in safe <==> p !in missing && Listed(candidates, ids, p)
    ensures forall q :: q in problems <==> q.ChunksMissing? && q.path in missing && Listed(candidates, ids, q.path)
  {
    safe, problems := [], [];
    for i := 0 to |ids|
      invariant forall p :: p in safe <==> p !in missing && Listed(candidates, ids[..i], p)
      invariant forall q :: q in problems <==>
                q.ChunksMissing? && q.path in missing && Listed(candidates, ids[..i], q.path)
    {
      var ps := candidates[ids[i]];
      var good, bad := Split(ps, missing);
      ListedSnoc(candidates, ids, i);
      safe, problems := safe + good, problems + bad;
    }
    assert ids[..|ids|] == ids;
  }

  method Split(ps: seq<Bytes>, missing: set<Bytes>) returns (good: seq<Bytes>, bad: seq<Problem>)
    ensures forall p :: p in good <==> p in ps && p !in missing
    ensures forall q :: q in bad <==> q.ChunksMissing? && q.path in missing && q.path in ps
  {
    good, bad := [], [];
    for i := 0 to |ps|
      invariant forall p :: p in good <==> p in ps[..i] && p !in missing
      invariant forall q :: q in bad <==> q.ChunksMissing? && q.path in missing && q.path in ps[..i]
    {
      assert ps[..i + 1] == ps[..i] + [ps[i]];
      if ps[i] in missing {
        bad := bad + [ChunksMissing(ps[i])];
      } else {
        good := good + [ps[i]];
      }
    }
    assert ps[..|ps|] == ps;
  }

  /** confirmChunks: if it reports no problem, every path is safe and every chunk behind it is in the store. */
  method ConfirmChunks(store: ObjectStore, candidates: Candidates, files: FileMap)
    returns (safe: seq<Bytes>, problems: seq<Problem>)
    requires forall id | id in candidates :: id in files && candidates[id] != []
    ensures problems == [] ==> forall p :: p in safe <==> exists id :: InGroup(candidates, id, p)
    ensures problems == [] ==> forall id, k | id in candidates && k in ChunkKeysOf(files[id]) :: k in store.objects
  {
    var ids := SortPaths(candidates.Keys);
    var b := CollectChunkKeys(candidates, files, ids);
    if b.keys == [] {
      // Only empty files: nothing to confirm, and nothing to lose.
      safe, problems := Judge(candidates, ids, {});
      return;
    }
    var present := ExistsAll(store, b.keys);
    if present.None? {
      return [], [Unconfirmed];
    }
    var missing := MissingOwners(b, present.value, candidates, files);
    safe, problems := Judge(candidates, ids, missing);
    forall p | p in missing ensures ChunksMissing(p) in problems {
      var i :| 0 <= i < |b.owners| && p in b.owners[i];
      assert Depends(candidates, files, b.keys[i], p);
      assert Listed(candidates, ids, p);
    }
  }

  // ----- CheckClear ---------------------------------------------------------------------------

  datatype ClearCheck = ClearCheck(safe: seq<Bytes>, unversioned: seq<Bytes>, problems: seq<Problem>)

  /** The list of the file can be read, and every chunk of it is in the store. */
  ghost predicate Present(f: Format, objects: Contents, file: Id) {
    FileAt(f, objects, file).Some? && ChunkKeysOf(FileAt(f, objects, file).value) <= objects.Keys
  }

  /** What the check looks at: a version in the history of a ref names the file, and its chunks are there. */
  ghost predicate Confirmed(f: Format, objects: Contents, refs: map<Bytes, Id>, file: Id) {
    Versioned(f, objects, refs.Values, file) && Present(f, objects, file)
  }

  /** What it is for: the file can be got back. */
  ghost predicate Recoverable(f: Format, objects: Contents, refs: map<Bytes, Id>, file: Id) {
    Versioned(f, objects, refs.Values, file) && Restorable(f, objects, file)
  }

  /** What a check without problems says of the directory. */
  ghost predicate Vouches(f: Format, objects: Contents, refs: map<Bytes, Id>, disk: Disk, ignored: Bytes -> bool,
                          check: ClearCheck)
  {
    && Ascending(check.safe) && Ascending(check.unversioned)
    && (forall p :: p in disk && !ignored(p) <==> p in check.safe || p in check.unversioned)
    && (forall p | p in check.safe :: p in disk && Confirmed(f, objects, refs, HashOnDisk(f, disk, p)))
    && (forall p | p in check.unversioned :: p in disk && !Versioned(f, objects, refs.Values, HashOnDisk(f, disk, p)))
  }

  /** In an honest store a listed file whose chunks are all present can be put together. */
  lemma PresentChunksSuffice(f: Format, objects: Contents, id: Id)
    requires Sound(f, objects) && CollisionFree(f) && Honest(f, objects) && Present(f, objects, id)
    ensures Restorable(f, objects, id)
  {
    var cs :| Lists(f, objects, id, cs);
    var file := FileAt(f, objects, id).value;
    PiecesOccur(f, cs);
    forall i | 0 <= i < |cs| ensures ChunkKey(f, cs[i]) in objects && objects[ChunkKey(f, cs[i])] == cs[i] {
      var key := Key(ChunkKind, file.chunks[i].id);
      assert key in ChunkKeysOf(file) && key in objects;
      assert Verifies(f, key, objects[key]);
    }
    assert Holds(f, objects, cs);
  }

  // ----- what the gate does not look at -------------------------------------------------------

  /** VerifyFileContent would accept the list that is stored under the ID. */
  ghost predicate ContentVerifies(f: Format, objects: Contents, id: Id) {
    FileAt(f, objects, id).Some? &&
    var data := ReadChunks(f, objects, FileAt(f, objects, id).value.chunks);
    data.Some? && f.hash(FileKind, data.value) == id
  }

  /** What a chunk list reads as are the chunks it names. */
  lemma {:induction false} ReadChunksAre(f: Format, objects: Contents, refs: seq<ChunkRef>) returns (cs: seq<Bytes>)
    requires ReadChunks(f, objects, refs).Some?
    ensures Refs(f, cs) == refs && Holds(f, objects, cs) && ReadChunks(f, objects, refs) == Some(Cut.Concat(cs))
  {
    if refs == [] {
      return [];
    }
    var init, ref := refs[..|refs| - 1], refs[|refs| - 1];
    var c := Fetch(f, objects, Key(ChunkKind, ref.id)).value;
    cs := ReadChunksAre(f, objects, init);
    RefsSnoc(f, cs, c);
    Cut.ConcatSnoc(cs, c);
    HoldsSnoc(f, objects, cs, c);
    cs := cs + [c];
    assert refs == init + [ref];
  }

  /**
   Without the assumption that lists belong to their IDs: a file can be put together exactly if
   VerifyFileContent would accept its list, which the check never asks.
   */
  lemma RestorableIffVerified(f: Format, objects: Contents, id: Id)
    requires Sound(f, objects) && CollisionFree(f) && FileAt(f, objects, id).Some?
    requires forall data | ReadChunks(f, objects, FileAt(f, objects, id).value.chunks) == Some(data) :: f.occurs(data)
    ensures Restorable(f, objects, id) <==> ContentVerifies(f, objects, id)
  {
    var refs := FileAt(f, objects, id).value.chunks;
    if Restorable(f, objects, id) {
      var cs :| Lists(f, objects, id, cs) && Holds(f, objects, cs);
      ReadChunksOfRefs(f, objects, cs);
    }
    if ContentVerifies(f, objects, id) {
      var cs := ReadChunksAre(f, objects, refs);
      assert Lists(f, objects, id, cs);
    }
  }

  /** A file object is no part of what reading a manifest or a version looks at. */
  lemma {:induction false} ChunksReadTheSame(f: Format, objects: Contents, id: Id, data: Bytes, refs: seq<ChunkRef>)
    ensures ReadChunks(f, objects[FileKey(id) := data], refs) == ReadChunks(f, objects, refs)
  {
    if refs != [] {
      ChunksReadTheSame(f, objects, id, data, refs[..|refs| - 1]);
    }
  }

  lemma ManifestsReadTheSame(f: Format, objects: Contents, id: Id, data: Bytes, version: Id)
    ensures VersionManifest(f, objects[FileKey(id) := data], version) == VersionManifest(f, objects, version)
    ensures ParentsOf(f, objects[FileKey(id) := data], version) == ParentsOf(f, objects, version)
  {
    var v := VersionAt(f, objects, version);
    if v.Some? && ManifestObjectAt(f, objects, v.value.manifest).Some? {
      ChunksReadTheSame(f, objects, id, data, ManifestObjectAt(f, objects, v.value.manifest).value.chunks);
    }
  }

  lemma HistoryStays(f: Format, objects: Contents, id: Id, data: Bytes, heads: set<Id>, file: Id)
    requires Versioned(f, objects, heads, file)
    ensures Versioned(f, objects[FileKey(id) := data], heads, file)
  {
    var version :| InHistory(f, objects, heads, version) && RefersTo(f, objects, version, file);
    AncestorsStay(f, objects, id, data, heads, version);
    ManifestsReadTheSame(f, objects, id, data, version);
    assert RefersTo(f, objects[FileKey(id) := data], version, file);
  }

  lemma AncestorsStay(f: Format, objects: Contents, id: Id, data: Bytes, heads: set<Id>, version: Id)
    requires InHistory(f, objects, heads, version)
    ensures InHistory(f, objects[FileKey(id) := data], heads, version)
  {
    var edges, edges' := ParentEdges(f, objects), ParentEdges(f, objects[FileKey(id) := data]);
    var path :| Leads(edges, heads, path, version);
    forall k ensures edges'(k) == edges(k) {
      ManifestsReadTheSame(f, objects, id, data, k);
    }
    SameEdgesSamePath(edges, edges', heads, path);
    assert Leads(edges', heads, path, version);
  }

  /** Chunks that are stored, listed under an ID that is not the hash of what they make up. */
  ghost predicate WrongList(f: Format, objects: Contents, id: Id, data: Bytes, cs: seq<Bytes>) {
    && f.decodeFile(data).Some? && f.decodeFile(data).value.chunks == Refs(f, cs) && Holds(f, objects, cs)
    && f.hash(FileKind, Cut.Concat(cs)) != id
  }

  lemma WrongListIsPresent(f: Format, objects: Contents, id: Id, data: Bytes, cs: seq<Bytes>)
    requires WrongList(f, objects, id, data, cs)
    ensures var after := objects[FileKey(id) := data]; Present(f, after, id) && !Restorable(f, after, id)
  {
    var after := objects[FileKey(id) := data];
    assert FileAt(f, after, id) == f.decodeFile(data);
    forall k | k in ChunkKeysOf(FileAt(f, after, id).value) ensures k in after {
      var i :| 0 <= i < |cs| && k == Key(ChunkKind, Refs(f, cs)[i].id);
      assert ChunkKey(f, cs[i]) in objects;
    }
    if cs' :| Lists(f, after, id, cs') && Holds(f, after, cs') {
      SameListSameChunks(f, after, cs, cs');
      assert false;
    }
  }

  lemma SameListSameChunks(f: Format, objects: Contents, cs: seq<Bytes>, cs': seq<Bytes>)
    requires Refs(f, cs) == Refs(f, cs') && Holds(f, objects, cs) && Holds(f, objects, cs')
    ensures cs == cs'
  {
    assert |Refs(f, cs)| == |cs| && |Refs(f, cs')| == |cs'|;
    forall i | 0 <= i < |cs| ensures cs[i] == cs'[i] {
      assert Refs(f, cs)[i] == Refs(f, cs')[i];
      assert ChunkKey(f, cs[i]) == ChunkKey(f, cs'[i]);
    }
  }

  /**
   The store takes such a list, and the gate passes it: a file that some history names is called safe, and
   cannot be given back.
   */
  lemma WrongListPassesTheGate(f: Format, objects: Contents, refs: map<Bytes, Id>, ignored: Bytes -> bool, p: Bytes,
                               d: OnDisk, data: Bytes, cs: seq<Bytes>)
    requires !ignored(p) && Sound(f, objects) && Versioned(f, objects, refs.Values, f.hash(FileKind, d.content))
    requires WrongList(f, objects, f.hash(FileKind, d.content), data, cs)
    ensures var id := f.hash(FileKind, d.content);
      var after := objects[FileKey(id) := data];
      && Verifies(f, FileKey(id), data) && Sound(f, after)
      && Vouches(f, after, refs, map[p := d], ignored, ClearCheck([p], [], [])) && !Restorable(f, after, id)
  {
    var id := f.hash(FileKind, d.content);
    HistoryStays(f, objects, id, data, refs.Values, id);
    WrongListIsPresent(f, objects, id, data, cs);
    assert HashOnDisk(f, map[p := d], p) == id;
  }

  method Heads(refs: map<Bytes, Id>) returns (heads: seq<Id>)
    ensures IdSet(heads) == refs.Values
  {
    var names := SortPaths(refs.Keys);
    heads := [];
    for i := 0 to |names|
      invariant |heads| == i && forall k | 0 <= k < i :: heads[k] == refs[names[k]]
    {
      heads := heads + [refs[names[i]]];
    }
    forall id | id in refs.Values ensures id in IdSet(heads) {
      var name :| name in refs && refs[name] == id;
      var k :| 0 <= k < |names| && names[k] == name;
      assert heads[k] == id;
    }
  }

  /** confirmStoreHoldsHead: the one question whose answer is known tells a lost store from an empty one. */
  method ConfirmStoreHoldsHead(store: ObjectStore, head: Option<Head>) returns (ok: bool)
    ensures ok <==> head.Some? ==> Fetch(store.f, store.objects, VersionKey(head.value.version)).Some?
  {
    if head.None? {
      return true;
    }
    var data := store.Get(VersionKey(head.value.version));
    return data.Some?;
  }

  lemma SiftedAndConfirmed(f: Format, objects: Contents, refs: map<Bytes, Id>, disk: Disk, ignored: Bytes -> bool,
                           ps: seq<Bytes>, files: FileMap, candidates: Candidates, unversioned: seq<Bytes>,
                           safe: seq<Bytes>, check: ClearCheck)
    requires Covers(disk, ignored, ps)
    requires FilesAreRead(f, objects, files) && forall id :: id in files <==> Versioned(f, objects, refs.Values, id)
    requires Sifted(f, disk, files, ps, candidates, unversioned, [])
    requires forall p :: p in safe <==> exists id :: InGroup(candidates, id, p)
    requires forall id, k | id in candidates && k in ChunkKeysOf(files[id]) :: k in objects
    requires Ascending(check.safe) && (forall p :: p in check.safe <==> p in safe)
    requires Ascending(check.unversioned) && (forall p :: p in check.unversioned <==> p in unversioned)
    ensures Vouches(f, objects, refs, disk, ignored, check)
  {
    SiftedIsPartitioned(f, disk, ignored, ps, files, candidates, unversioned, safe);
    forall p | p in check.safe ensures p in disk && Confirmed(f, objects, refs, HashOnDisk(f, disk, p)) {
      var id :| InGroup(candidates, id, p);
      assert p in ps && HashOnDisk(f, disk, p) == id;
      CandidateIsPresent(f, objects, files, candidates, id);
    }
  }

  /** Every file of the scan is safe or unversioned, and nothing else is either. */
  lemma SiftedIsPartitioned(f: Format, disk: Disk, ignored: Bytes -> bool, ps: seq<Bytes>, files: FileMap,
                            candidates: Candidates, unversioned: seq<Bytes>, safe: seq<Bytes>)
    requires Covers(disk, ignored, ps) && Sifted(f, disk, files, ps, candidates, unversioned, [])
    requires forall p :: p in safe <==> exists id :: InGroup(candidates, id, p)
    ensures forall p :: p in disk && !ignored(p) <==> p in safe || p in unversioned
  {
    forall p ensures p in ps <==> p in safe || p in unversioned {
      if p in ps && p !in unversioned {
        assert InGroup(candidates, HashOnDisk(f, disk, p), p);
      }
    }
  }

  lemma CandidateIsPresent(f: Format, objects: Contents, files: FileMap, candidates: Candidates, id: Id)
    requires FilesAreRead(f, objects, files) && id in candidates && id in files
    requires forall k | k in ChunkKeysOf(files[id]) :: k in objects
    ensures Present(f, objects, id)
  {
    assert FileAt(f, objects, id) == Some(files[id]);
  }

  /** CheckClear. It asks the disk and the store, and trusts neither the cache nor what was recorded before. */
  method CheckClear<W(!new)>(s: Space<W>, ignored: Bytes -> bool) returns (check: ClearCheck)
    ensures check.problems == [] ==> Vouches(s.store.f, s.store.objects, s.refs, s.disk, ignored, check)
  {
    var holds := ConfirmStoreHoldsHead(s.store, s.head);
    if !holds {
      return ClearCheck([], [], [HeadUnavailable]);
    }
    var heads := Heads(s.refs);
    var files := ReachableFiles(s.store, heads);
    if files.None? {
      return ClearCheck([], [], [StoreUnreadable]);
    }
    check := CheckFiles(s.store, s.refs, s.disk, ignored, files.value);
  }

  /** The second half of CheckClear, once the files of the history are known. */
  method CheckFiles(store: ObjectStore, ghost refs: map<Bytes, Id>, disk: Disk, ignored: Bytes -> bool, files: FileMap)
    returns (check: ClearCheck)
    requires FilesAreRead(store.f, store.objects, files)
    requires forall id :: id in files <==> Versioned(store.f, store.objects, refs.Values, id)
    ensures check.problems == [] ==> Vouches(store.f, store.objects, refs, disk, ignored, check)
  {
    var ps := SortPaths(set p | p in disk && !ignored(p));
    var candidates, unversioned, unread := RehashAll(store.f, disk, files, ps);
    var safe, problems := ConfirmChunks(store, candidates, files);
    var safePaths := SortPaths(set p | p in safe);
    var unversionedPaths := SortPaths(set p | p in unversioned);
    check := ClearCheck(safePaths, unversionedPaths, unread + problems);
    if check.problems == [] {
      assert unread == [] && problems == [];
      SiftedAndConfirmed(store.f, store.objects, refs, disk, ignored, ps, files, candidates, unversioned, safe, check);
    }
  }

  // ----- Clear --------------------------------------------------------------------------------

  datatype ClearResult =
    | Refused(problems: seq<Problem>)
    | NotSnapshotted
    | StillUnversioned
    | Interrupted
    | Cleared(snapshotted: nat)

  /** One ref more, or again: it names a snapshot of `m`. */
  ghost predicate SnapshotOf(f: Format, objects: Contents, before: map<Bytes, Id>, after: map<Bytes, Id>, ref: Bytes,
                             draft: Draft, m: Manifest) {
    exists id :: after == before[ref := id] && RecordedAs(f, objects, id, Snapshotting(ref), None, draft, m)
  }

  /** snapshotUnversioned: record the directory, then ask the store again rather than trust the snapshot. */
  method SnapshotUnversioned<W(!new)>(s: Space<W>, ignored: Bytes -> bool, draft: Draft, ref: Bytes)
    returns (result: ClearResult, check: ClearCheck)
    requires s.Usable() && Recordable(s.store.f, s.disk, s.saved, ignored, Snapshotting(ref), s.head, draft)
    modifies s`refs, s`head, s`checkedOut, s`saved, s.store
    ensures s.Usable() && (old(s.Trusted()) ==> s.Trusted()) && !result.Interrupted?
    ensures CurrentRef(s.head) == CurrentRef(old(s.head))
    ensures result.Cleared? ==>
            Vouches(s.store.f, s.store.objects, s.refs, s.disk, ignored, check) && check.unversioned == []
    ensures result.Cleared? ==>
            s.checkedOut.Some? && Scans(s.store.f, s.disk, old(s.saved), ignored, s.checkedOut.value)
    ensures result.Cleared? ==>
      SnapshotOf(s.store.f, s.store.objects, old(s.refs), s.refs, ref, draft, s.checkedOut.value)
    ensures result.Cleared? && old(s.Trusted()) ==> Rehashed(s.store.f, s.disk, ignored, s.checkedOut.value)
  {
    check := ClearCheck([], [], []);
    var version := s.Record(Snapshotting(ref), ignored, draft);
    if version.None? {
      return NotSnapshotted, check;
    }
    check := CheckClear(s, ignored);
    if check.problems != [] {
      return Refused(check.problems), check;
    }
    if check.unversioned != [] {
      return StillUnversioned, check;
    }
    return Cleared(0), check;
  }

  /** Deleted files are gone, every other path is as it was. */
  ghost predicate DeletedOnly(before: Disk, after: Disk, ps: seq<Bytes>) {
    forall p :: DiskAt(after, p) == if p in ps then None else DiskAt(before, p)
  }

  /** The deletion loop of Clear, up to the first failure. */
  method DeletePaths<W(!new)>(s: Space<W>, ps: seq<Bytes>) returns (ok: bool, n: nat)
    requires s.Usable()
    modifies s`disk
    ensures s.Usable() && n <= |ps| && (ok ==> n == |ps|)
    ensures DeletedOnly(old(s.disk), s.disk, ps[..n])
  {
    n := 0;
    while n < |ps|
      invariant s.Usable() && n <= |ps| && DeletedOnly(old(s.disk), s.disk, ps[..n])
    {
      ok := s.DeleteFile(ps[n]);
      if !ok {
        return;
      }
      assert ps[..n + 1] == ps[..n] + [ps[n]];
      n := n + 1;
    }
    ok := true;
  }

  /** The paths to keep are as they were, all others are gone. */
  ghost predicate IsCleared(before: Disk, cleared: Disk, keep: Bytes -> bool) {
    forall p :: DiskAt(cleared, p) == if keep(p) then DiskAt(before, p) else None
  }

  /** A path that Clear may delete: proven recoverable, or ignored and asked for. */
  ghost predicate MayGo(f: Format, objects: Contents, refs: map<Bytes, Id>, disk: Disk, ignored: Bytes -> bool,
                        includeIgnored: bool, p: Bytes) {
    p in disk && if ignored(p) then includeIgnored else Recoverable(f, objects, refs, HashOnDisk(f, disk, p))
  }

  /**
   Clear. Whatever is deleted, even before a failure, the store can give back, whatever the status cache
   says. If it goes through, every file that is not ignored is gone; and if anything was unversioned and
   the cache told the truth, the local manifest now lists exactly the directory as it was.
   */
  method ClearSpace<W(!new)>(s: Space<W>, ignored: Bytes -> bool, includeIgnored: bool, draft: Draft, ref: Bytes)
    returns (result: ClearResult)
    requires s.Usable() && Recordable(s.store.f, s.disk, s.saved, ignored, Snapshotting(ref), s.head, draft)
    modifies s, s.store
    ensures s.Usable() && (old(s.Trusted()) ==> s.Trusted())
    ensures forall p | DiskAt(s.disk, p) != DiskAt(old(s.disk), p) ::
      p !in s.disk && MayGo(s.store.f, s.store.objects, s.refs, old(s.disk), ignored, includeIgnored, p)
    ensures !result.Interrupted? && !result.Cleared? ==> s.disk == old(s.disk)
    ensures result.Cleared? ==> IsCleared(old(s.disk), s.disk, p => ignored(p) && !includeIgnored)
    ensures result.Cleared? && result.snapshotted > 0 ==>
      s.checkedOut.Some? && Scans(s.store.f, old(s.disk), old(s.saved), ignored, s.checkedOut.value)
    ensures result.Cleared? && result.snapshotted > 0 ==>
      SnapshotOf(s.store.f, s.store.objects, old(s.refs), s.refs, ref, draft, s.checkedOut.value)
    ensures result.Cleared? && result.snapshotted == 0 ==> s.refs == old(s.refs)
    ensures result.Cleared? && result.snapshotted > 0 && old(s.Trusted()) ==>
      Rehashed(s.store.f, old(s.disk), ignored, s.checkedOut.value)
    ensures result.Cleared? && result.snapshotted == 0 ==> s.checkedOut == old(s.checkedOut)
  {
    var check := CheckClear(s, ignored);
    if check.problems != [] {
      return Refused(check.problems);
    }
    var snapshotted := |check.unversioned|;
    if snapshotted > 0 {
      result, check := SnapshotUnversioned(s, ignored, draft, ref);
      if !result.Cleared? {
        return;
      }
    }
    var ok := DeleteSafe(s, ignored, includeIgnored, check);
    result := if ok then Cleared(snapshotted) else Interrupted;
  }

  lemma SafeIsRecoverable(f: Format, objects: Contents, refs: map<Bytes, Id>, disk: Disk, ignored: Bytes -> bool,
                          check: ClearCheck)
    requires StoreOk(f, objects) && Vouches(f, objects, refs, disk, ignored, check)
    ensures forall p | p in check.safe :: Recoverable(f, objects, refs, HashOnDisk(f, disk, p))
  {
    forall p | p in check.safe ensures Recoverable(f, objects, refs, HashOnDisk(f, disk, p)) {
      PresentChunksSuffice(f, objects, HashOnDisk(f, disk, p));
    }
  }

  /** The second half of Clear: what a clean check calls safe goes, and what is ignored, if asked for. */
  method DeleteSafe<W(!new)>(s: Space<W>, ignored: Bytes -> bool, includeIgnored: bool, check: ClearCheck)
    returns (ok: bool)
    requires s.Usable() && Vouches(s.store.f, s.store.objects, s.refs, s.disk, ignored, check)
    requires check.unversioned == []
    modifies s`disk
    ensures s.Usable()
    ensures forall p | DiskAt(s.disk, p) != DiskAt(old(s.disk), p) ::
      p !in s.disk && MayGo(s.store.f, s.store.objects, s.refs, old(s.disk), ignored, includeIgnored, p)
    ensures ok ==> IsCleared(old(s.disk), s.disk, p => ignored(p) && !includeIgnored)
  {
    var ps := Deletable(s.store.f, s.store.objects, s.refs, s.disk, ignored, includeIgnored, check);
    ghost var n;
    ok, n := DeletePaths(s, ps);
    OnlyTheseWent(old(s.disk), s.disk, ps, n, p => ignored(p) && !includeIgnored);
  }

  /** The list Clear deletes from. */
  method Deletable(ghost f: Format, ghost objects: Contents, ghost refs: map<Bytes, Id>, disk: Disk,
                   ignored: Bytes -> bool, includeIgnored: bool, check: ClearCheck)
    returns (ps: seq<Bytes>)
    requires StoreOk(f, objects) && Vouches(f, objects, refs, disk, ignored, check) && check.unversioned == []
    ensures forall p | p in ps :: MayGo(f, objects, refs, disk, ignored, includeIgnored, p)
    ensures forall p :: p in ps <==> p in disk && !(ignored(p) && !includeIgnored)
  {
    SafeIsRecoverable(f, objects, refs, disk, ignored, check);
    ps := check.safe;
    if includeIgnored {
      var also := SortPaths(set p | p in disk && ignored(p));
      ps := ps + also;
    }
  }

  lemma OnlyTheseWent(before: Disk, after: Disk, ps: seq<Bytes>, n: nat, keep: Bytes -> bool)
    requires n <= |ps| && DeletedOnly(before, after, ps[..n])
    ensures forall p | DiskAt(after, p) != DiskAt(before, p) :: p !in after && p in ps
    ensures n == |ps| && (forall p | p in ps :: !keep(p)) && (forall p | p in before && p !in ps :: keep(p)) ==>
      IsCleared(before, after, keep)
  {
    assert ps[..|ps|] == ps && forall p | p in ps[..n] :: p in ps;
  }

  // ----- against a cache that lies --------------------------------------------------------------

  lemma OneRef(refs: map<Bytes, Id>, ref: Bytes, id: Id)
    requires refs == map[][ref := id]
    ensures refs.Values == {id}
  {
    assert refs[ref] == id && ref in refs.Keys;
  }

  /** The history of a snapshot is the snapshot, and names the files of its manifest. */
  lemma SnapshotNamesItsFiles(f: Format, objects: Contents, refs: map<Bytes, Id>, ref: Bytes, draft: Draft, m: Manifest,
                              file: Id)
    requires SnapshotOf(f, objects, map[], refs, ref, draft, m)
    ensures Versioned(f, objects, refs.Values, file) <==> file in FilesOf(m)
  {
    var id :| refs == map[][ref := id] && RecordedAs(f, objects, id, Snapshotting(ref), None, draft, m);
    OneRef(refs, ref, id);
    assert ParentsOf(f, objects, id) == {};
    RootIsReached(ParentEdges(f, objects), {id}, id);
    forall version | InHistory(f, objects, {id}, version) ensures version == id {
      ClosedSetHoldsReached(ParentEdges(f, objects), {id}, {id}, version);
    }
    assert VersionManifest(f, objects, id) == Some(m);
    assert RefersTo(f, objects, id, file) <==> file in FilesOf(m);
  }

  /**
   The cache takes the one file of the directory for what it was before. The snapshot goes through and
   records that; the second check hashes the file, and finds it still unversioned.
   */
  lemma LyingCacheIsCaught(f: Format, objects: Contents, ignored: Bytes -> bool, p: Bytes, d: OnDisk, e: CacheEntry,
                           refs: map<Bytes, Id>, ref: Bytes, draft: Draft, m: Manifest)
    requires !ignored(p) && e.Matches(d) && e.file != f.hash(FileKind, d.content)
    requires Scans(f, map[p := d], map[p := e], ignored, m) && SnapshotOf(f, objects, map[], refs, ref, draft, m)
    ensures Vouches(f, objects, refs, map[p := d], ignored, ClearCheck([], [p], []))
    ensures forall check | Vouches(f, objects, refs, map[p := d], ignored, check) :: p in check.unversioned
  {
    var disk := map[p := d];
    var ps :| Covers(disk, ignored, ps) && m == GlanceListing(f, disk, map[p := e], ps);
    assert forall x | x in m :: x.file == e.file;
    SnapshotNamesItsFiles(f, objects, refs, ref, draft, m, f.hash(FileKind, d.content));
    assert HashOnDisk(f, disk, p) == f.hash(FileKind, d.content);
  }

  /** So Clear does not delete a file for which the cache lies, as long as no other file has its content. */
  method ClearAgainstALyingCache<W(!new)>(s: Space<W>, ignored: Bytes -> bool, draft: Draft, ref: Bytes, p: Bytes)
    returns (result: ClearResult)
    requires s.Usable() && Recordable(s.store.f, s.disk, s.saved, ignored, Snapshotting(ref), s.head, draft)
    requires s.refs == map[] && p in s.disk && !ignored(p)
    requires forall q | q in s.disk :: Glance(s.store.f, s.saved, q, s.disk[q]).file != HashOnDisk(s.store.f, s.disk, p)
    modifies s, s.store
    ensures s.Usable() && !result.Cleared?
  {
    result := ClearSpace(s, ignored, false, draft, ref);
    if result.Cleared? {
      assert DiskAt(s.disk, p) != DiskAt(old(s.disk), p);
      var m := if result.snapshotted > 0 then s.checkedOut.value else [];
      LyingCacheNamesNothing(s.store.f, s.store.objects, old(s.disk), old(s.saved), ignored, s.refs, result.snapshotted,
                             ref, draft, m, HashOnDisk(s.store.f, old(s.disk), p));
      assert false;
    }
  }

  lemma LyingCacheNamesNothing(f: Format, objects: Contents, disk: Disk, cache: Entries, ignored: Bytes -> bool,
                               refs: map<Bytes, Id>, snapshotted: nat, ref: Bytes, draft: Draft, m: Manifest, file: Id)
    requires forall q | q in disk :: Glance(f, cache, q, disk[q]).file != file
    requires snapshotted == 0 ==> refs == map[]
    requires snapshotted > 0 ==> Scans(f, disk, cache, ignored, m) && SnapshotOf(f, objects, map[], refs, ref, draft, m)
    ensures !Versioned(f, objects, refs.Values, file)
  {
    if snapshotted == 0 {
      NothingIsVersioned(f, objects, file);
    } else {
      SnapshotNamesItsFiles(f, objects, refs, ref, draft, m, file);
      if file in FilesOf(m) {
        ScanNamesWhatItSees(f, disk, cache, ignored, m, file);
        assert false;
      }
    }
  }

  lemma NothingIsVersioned(f: Format, objects: Contents, file: Id)
    ensures !Versioned(f, objects, {}, file)
  {
    forall version ensures !InHistory(f, objects, {}, version) {
      if InHistory(f, objects, {}, version) {
        ClosedSetHoldsReached(ParentEdges(f, objects), {}, {}, version);
      }
    }
  }

  lemma ScanNamesWhatItSees(f: Format, disk: Disk, cache: Entries, ignored: Bytes -> bool, m: Manifest, file: Id)
    requires Scans(f, disk, cache, ignored, m) && file in FilesOf(m)
    ensures exists q :: q in disk && Glance(f, cache, q, disk[q]).file == file
  {
    var ps :| Covers(disk, ignored, ps) && m == GlanceListing(f, disk, cache, ps);
    var i :| 0 <= i < |m| && m[i].file == file;
    assert ps[i] in ps;
  }

  // ----- clear, then restore ------------------------------------------------------------------

  function ContentAt(disk: Disk, p: Bytes): Option<Bytes> {
    if p in disk then Some(disk[p].content) else None
  }

  /** `after` is `before`, cleared, with the entries of `m` written back. */
  ghost predicate ClearedAndRestored(f: Format, objects: Contents, before: Disk, cleared: Disk, after: Disk,
                                     ignored: Bytes -> bool, m: Manifest) {
    && IsCleared(before, cleared, ignored)
    && SameElsewhere(cleared, after, PathSet(m)) && Restored(f, objects, after, m)
  }

  lemma RestoredContent(f: Format, objects: Contents, before: Disk, cleared: Disk, after: Disk,
                        ignored: Bytes -> bool, m: Manifest, p: Bytes)
    requires Sorted(m) && ClearedAndRestored(f, objects, before, cleared, after, ignored, m)
    ensures Content(m, p).Some? ==> p in after && Content(m, p) == Some(HashOnDisk(f, after, p))
    ensures Content(m, p).None? ==> DiskAt(after, p) == if ignored(p) then DiskAt(before, p) else None
  {
    if p in ByPath(m) {
      ByPathNamesItself(m, p);
    } else if e :| e in m && e.path == p {
      var i :| 0 <= i < |m| && m[i] == e;
      ByPathCovers(m, i);
      assert false;
    } else {
      assert DiskAt(after, p) == DiskAt(cleared, p);
    }
  }

  /** Clear, then Restore gives back every file that is not ignored exactly if the local manifest listed those files. */
  lemma RestoreUndoesClearIff(f: Format, objects: Contents, before: Disk, cleared: Disk, after: Disk,
                              ignored: Bytes -> bool, m: Manifest)
    requires CollisionFree(f) && AtHand(f, before) && AtHand(f, after)
    requires Sorted(m) && ClearedAndRestored(f, objects, before, cleared, after, ignored, m)
    ensures (forall p | !ignored(p) :: ContentAt(after, p) == ContentAt(before, p)) <==>
            (forall p | !ignored(p) :: Content(m, p) == Sync.FileAt(TreeOf(f, before), p))
  {
    forall p | !ignored(p)
      ensures ContentAt(after, p) == ContentAt(before, p) <==> Content(m, p) == Sync.FileAt(TreeOf(f, before), p)
    {
      RestoredContent(f, objects, before, cleared, after, ignored, m, p);
    }
  }

  /**
   And it need not have listed them: Clear takes no snapshot of a file whose content some history has,
   so a copy of it that the local manifest does not list is deleted, and no Restore brings it back.
   */
  lemma RestoreMissesWhatIsNotListed(f: Format, objects: Contents, refs: map<Bytes, Id>, ignored: Bytes -> bool,
                                     p: Bytes, d: OnDisk)
    requires !ignored(p) && Confirmed(f, objects, refs, f.hash(FileKind, d.content))
    ensures Vouches(f, objects, refs, map[p := d], ignored, ClearCheck([p], [], []))
    ensures Sorted([]) && ClearedAndRestored(f, objects, map[p := d], map[], map[], ignored, [])
    ensures ContentAt(map[], p) != ContentAt(map[p := d], p)
  {
    assert HashOnDisk(f, map[p := d], p) == f.hash(FileKind, d.content);
  }

  /** In particular after the snapshot that unversioned files force: then everything is as it was. */
  lemma SnapshotClearRestore(f: Format, objects: Contents, before: Disk, cleared: Disk, after: Disk,
                             ignored: Bytes -> bool, m: Manifest, p: Bytes)
    requires CollisionFree(f) && AtHand(f, before) && AtHand(f, after)
    requires ClearedAndRestored(f, objects, before, cleared, after, ignored, m) && Rehashed(f, before, ignored, m)
    ensures ContentAt(after, p) == ContentAt(before, p)
    ensures ignored(p) ==> DiskAt(after, p) == DiskAt(before, p)
  {
    RehashedIsScanned(f, before, ignored, m);
    RestoredContent(f, objects, before, cleared, after, ignored, m, p);
  }

  // ----- the commands as a whole --------------------------------------------------------------

  /**
   Clear, then Restore. The directory is as it was, ignored files aside, exactly if the local manifest lists
   it; and that it does, if anything had to be snapshotted and the cache told the truth.
   */
  method ClearThenRestore<W(!new)>(s: Space<W>, ignored: Bytes -> bool, draft: Draft, ref: Bytes)
    returns (cleared: ClearResult, restored: bool)
    requires s.Usable() && Recordable(s.store.f, s.disk, s.saved, ignored, Snapshotting(ref), s.head, draft)
    requires s.checkedOut.Some? ==> Sorted(s.checkedOut.value)
    modifies s, s.store
    ensures s.Usable() && (restored ==> s.Trusted() && cleared.Cleared? && s.checkedOut.Some?)
    ensures restored ==>
      ((forall p | !ignored(p) :: ContentAt(s.disk, p) == ContentAt(old(s.disk), p)) <==>
       (forall p | !ignored(p) :: Content(s.checkedOut.value, p) == Sync.FileAt(TreeOf(s.store.f, old(s.disk)), p)))
    ensures restored && cleared.snapshotted > 0 && old(s.Trusted()) ==>
      forall p :: ContentAt(s.disk, p) == ContentAt(old(s.disk), p)
  {
    restored := false;
    cleared := ClearSpace(s, ignored, false, draft, ref);
    if !cleared.Cleared? || s.checkedOut.None? {
      return;
    }
    ghost var gone := s.disk;
    assert IsCleared(old(s.disk), gone, ignored);
    if cleared.snapshotted > 0 {
      ListingFromScan(s.store.f, old(s.disk), old(s.saved), ignored, s.checkedOut.value);
    }
    restored := s.RestoreManifest(s.checkedOut.value);
    if restored {
      ComesBack(s.store.f, s.store.objects, old(s.disk), gone, s.disk, ignored, s.checkedOut.value);
    }
  }

  lemma ComesBack(f: Format, objects: Contents, before: Disk, cleared: Disk, after: Disk, ignored: Bytes -> bool,
                  m: Manifest)
    requires CollisionFree(f) && AtHand(f, before) && AtHand(f, after) && Sorted(m)
    requires ClearedAndRestored(f, objects, before, cleared, after, ignored, m)
    ensures (forall p | !ignored(p) :: ContentAt(after, p) == ContentAt(before, p)) <==>
            (forall p | !ignored(p) :: Content(m, p) == Sync.FileAt(TreeOf(f, before), p))
    ensures Rehashed(f, before, ignored, m) ==> forall p :: ContentAt(after, p) == ContentAt(before, p)
  {
    RestoreUndoesClearIff(f, objects, before, cleared, after, ignored, m);
    if Rehashed(f, before, ignored, m) {
      forall p ensures ContentAt(after, p) == ContentAt(before, p) {
        SnapshotClearRestore(f, objects, before, cleared, after, ignored, m, p);
      }
    }
  }

  /**
   Checkout, behind its gate. Whatever it changes or deletes, even before a failure, the store can give
   back; or it is an ignored file at a path the target names.
   */
  method Checkout<W(!new)>(s: Space<W>, target: Id, name: Bytes, ignored: Bytes -> bool, draft: Draft, ref: Bytes)
    returns (ok: bool)
    requires s.Usable() && Recordable(s.store.f, s.disk, s.saved, ignored, Snapshotting(ref), s.head, draft)
    modifies s, s.store
    ensures s.Usable() && (ok || old(s.Trusted()) ==> s.Trusted())
    ensures forall p | p in old(s.disk) && DiskAt(s.disk, p) != DiskAt(old(s.disk), p) ::
      if ignored(p) then Names(s.store.f, s.store.objects, target, p)
      else Recoverable(s.store.f, s.store.objects, s.refs, HashOnDisk(s.store.f, old(s.disk), p))
    ensures ok ==> s.checkedOut.Some? && s.checkedOut == VersionManifest(s.store.f, s.store.objects, target)
    ensures ok ==> Materialised(s.store.f, s.store.objects, old(s.disk), s.disk, ignored, s.checkedOut.value)
    ensures ok ==> s.head == Some(Head(if name in s.refs then name else CurrentRef(old(s.head)), target, Some(target)))
  {
    ok := PassGate(s, ignored, draft, ref);
    if ok {
      ok := s.CheckoutVersion(target, name, ignored);
    }
  }

  /** The gate: once it is passed, every file that is not ignored can be given back. */
  method PassGate<W(!new)>(s: Space<W>, ignored: Bytes -> bool, draft: Draft, ref: Bytes) returns (ok: bool)
    requires s.Usable() && Recordable(s.store.f, s.disk, s.saved, ignored, Snapshotting(ref), s.head, draft)
    modifies s`refs, s`head, s`checkedOut, s`saved, s.store
    ensures s.Usable() && (old(s.Trusted()) ==> s.Trusted()) && CurrentRef(s.head) == CurrentRef(old(s.head))
    ensures ok ==> forall p | p in s.disk && !ignored(p) ::
      Recoverable(s.store.f, s.store.objects, s.refs, HashOnDisk(s.store.f, s.disk, p))
  {
    var check := CheckClear(s, ignored);
    if check.problems != [] {
      return false;
    }
    if check.unversioned != [] {
      var result;
      result, check := SnapshotUnversioned(s, ignored, draft, ref);
      if !result.Cleared? {
        return false;
      }
    }
    SafeIsRecoverable(s.store.f, s.store.objects, s.refs, s.disk, ignored, check);
    return true;
  }
}
