/**
 One working space: its directory, its status cache and its local record of where it stands, driven
 through scan, snapshot, commit, restore, sync and checkout (client/).
 */
module Space {
  import opened Common
  import opened Objects
  import opened Values
  import opened Paths
  import opened Merge
  import opened Diff
  import opened Store
  import opened Splitter
  import opened Catalog
  import opened Cache
  import Cut
  import Sync

  // ----- the directory as a manifest ----------------------------------------------------------

  function EntryFor(f: Format, p: Bytes, d: OnDisk): Entry {
    Entry(p, f.hash(FileKind, d.content), |d.content|)
  }

  function Listing(f: Format, disk: Disk, ps: seq<Bytes>): (m: Manifest)
    requires forall p | p in ps :: p in disk
    ensures PathsOf(m) == ps
  {
    seq(|ps|, i requires 0 <= i < |ps| => EntryFor(f, ps[i], disk[ps[i]]))
  }

  predicate Covers(disk: Disk, ignored: Bytes -> bool, ps: seq<Bytes>) {
    Ascending(ps) && (forall p | p in ps :: p in disk && !ignored(p)) && forall p | p in disk && !ignored(p) :: p in ps
  }

  /** The manifest that reading and hashing every file of the directory gives. */
  ghost predicate Rehashed(f: Format, disk: Disk, ignored: Bytes -> bool, m: Manifest) {
    exists ps :: Covers(disk, ignored, ps) && m == Listing(f, disk, ps)
  }

  lemma RehashIsUnique(f: Format, disk: Disk, ignored: Bytes -> bool, m: Manifest, m': Manifest)
    requires Rehashed(f, disk, ignored, m) && Rehashed(f, disk, ignored, m')
    ensures m == m'
  {
    var ps :| Covers(disk, ignored, ps) && m == Listing(f, disk, ps);
    var ps' :| Covers(disk, ignored, ps') && m' == Listing(f, disk, ps');
    AscendingIsUnique(ps, ps');
  }

  /** The content of every file, by path. */
  function TreeOf(f: Format, disk: Disk): Sync.Tree {
    map p | p in disk :: f.hash(FileKind, disk[p].content)
  }

  /** So a scan is what the merge and the sync theorems take it to be. */
  lemma RehashedIsScanned(f: Format, disk: Disk, ignored: Bytes -> bool, m: Manifest)
    requires Rehashed(f, disk, ignored, m)
    ensures Sync.Scanned(m, TreeOf(f, disk), ignored)
  {
    var ps :| Covers(disk, ignored, ps) && m == Listing(f, disk, ps);
    forall p ensures Content(m, p) == if ignored(p) then None else Sync.FileAt(TreeOf(f, disk), p) {
      if p in ps {
        var i :| 0 <= i < |ps| && ps[i] == p;
        ByPathFinds(m, i);
      } else if p in ByPath(m) {
        ByPathNamesItself(m, p);
        InPaths(m, p, ByPath(m)[p]);
      }
    }
  }

  // ----- growing the store --------------------------------------------------------------------

  /** Versions, file objects and chunks are as before, except for new versions and chunks. */
  ghost predicate FilesKept(before: Contents, after: Contents) {
    && (forall k | k in before && (k.kind == FileKind || k.kind == ChunkKind) :: k in after && after[k] == before[k])
    && (forall k | k in after && k !in before :: k.kind != FileKind)
    && VersionsKept(before, after)
  }

  /** Whatever could be restored still can be, and every version is still there. */
  ghost predicate Kept(f: Format, before: Contents, after: Contents) {
    (forall id | Restorable(f, before, id) :: Restorable(f, after, id)) && VersionsKept(before, after)
  }

  lemma FilesKeptSuffices(f: Format, before: Contents, after: Contents)
    requires FilesKept(before, after)
    ensures Kept(f, before, after) && (Honest(f, before) ==> Honest(f, after))
  {
    forall id | Restorable(f, before, id) ensures Restorable(f, after, id) {
      var cs :| Lists(f, before, id, cs) && Holds(f, before, cs);
      assert Lists(f, after, id, cs) && Holds(f, after, cs);
    }
    if Honest(f, before) {
      forall id | Key(FileKind, id) in after ensures exists cs :: Lists(f, after, id, cs) {
        var cs :| Lists(f, before, id, cs);
        assert Lists(f, after, id, cs);
      }
    }
  }

  ghost predicate StoreOk(f: Format, objects: Contents) {
    && Sound(f, objects) && CollisionFree(f) && FilesRoundTrip(f) && WhatIsWrittenReadsBack(f) && ManifestsAreSorted(f)
    && Honest(f, objects)
  }

  lemma HoldsStays(f: Format, before: Contents, key: Key, data: Bytes, cs: seq<Bytes>)
    requires Holds(f, before, cs) && key.kind != ChunkKind
    ensures Holds(f, before[key := data], cs)
  {
  }

  lemma ListStays(f: Format, before: Contents, key: Key, data: Bytes, id: Id, cs: seq<Bytes>)
    requires Lists(f, before, id, cs) && key != Key(FileKind, id)
    ensures Lists(f, before[key := data], id, cs)
  {
  }

  /** Storing the list of a content just built keeps every other list, and replaces its own by its equal. */
  lemma FileStored(f: Format, before: Contents, cs: seq<Bytes>, encoded: Bytes, own: Id)
    requires Honest(f, before) && Holds(f, before, cs) && |Cut.Concat(cs)| <= MAX_INT64 && f.occurs(Cut.Concat(cs))
    requires own == f.hash(FileKind, Cut.Concat(cs))
    requires Verifies(f, Key(FileKind, own), encoded) && f.decodeFile(encoded) == Some(FileOf(f, cs))
    ensures var after := before[Key(FileKind, own) := encoded];
      Honest(f, after) && Restorable(f, after, own) && Kept(f, before, after)
  {
    var key := Key(FileKind, own);
    var after := before[key := encoded];
    assert Lists(f, after, own, cs);
    HoldsStays(f, before, key, encoded, cs);
    forall id | Key(FileKind, id) in after ensures exists cs' :: Lists(f, after, id, cs') {
      if id != own {
        var cs' :| Lists(f, before, id, cs');
        ListStays(f, before, key, encoded, id, cs');
      }
    }
    forall id | Restorable(f, before, id) ensures Restorable(f, after, id) {
      if id != own {
        var cs' :| Lists(f, before, id, cs') && Holds(f, before, cs');
        ListStays(f, before, key, encoded, id, cs');
        HoldsStays(f, before, key, encoded, cs');
      }
    }
  }

  /** The cache a scan writes. */
  function Remembered(f: Format, disk: Disk, ps: seq<Bytes>): Entries {
    map p | p in ps && p in disk :: Remember(f, p, disk[p])
  }

  /** A cache of what is on disk is true. */
  lemma RememberedIsSound(f: Format, disk: Disk, clock: int, seen: Sightings, ps: seq<Bytes>)
    requires Sighted(disk, clock, seen)
    ensures CacheSound(f, Remembered(f, disk, ps), seen)
  {
  }

  /** And backed, if every file of it can be restored. */
  lemma BackedByFiles(f: Format, objects: Contents, disk: Disk, m: Manifest)
    requires forall e | e in m :: e.path in disk && e.file == f.hash(FileKind, disk[e.path].content)
    requires forall e | e in m :: Restorable(f, objects, e.file)
    ensures Backed(f, objects, Remembered(f, disk, PathsOf(m)))
  {
    var cache := Remembered(f, disk, PathsOf(m));
    forall p | p in cache ensures Restorable(f, objects, cache[p].file) {
      var i :| 0 <= i < |m| && PathsOf(m)[i] == p;
      assert m[i] in m;
    }
  }

  /** A version object is stored under its own hash, so an earlier one under that key is the same. */
  lemma VersionPut(f: Format, before: Contents, id: Id, data: Bytes)
    requires Sound(f, before) && CollisionFree(f) && f.occurs(data) && id == f.hash(VersionKind, data)
    ensures var after := before[VersionKey(id) := data];
      && Grows(before, after) && Kept(f, before, after) && (Honest(f, before) ==> Honest(f, after))
      && VersionAt(f, after, id) == f.decodeVersion(data)
  {
    var after := before[VersionKey(id) := data];
    assert VersionKey(id) in before ==> Verifies(f, VersionKey(id), before[VersionKey(id)]);
    FilesKeptSuffices(f, before, after);
  }

  lemma ManifestStays(f: Format, before: Contents, after: Contents, id: Id)
    requires Grows(before, after) && ManifestAt(f, before, id).Some?
    ensures ManifestAt(f, after, id) == ManifestAt(f, before, id)
  {
    ReadManifestFrame(f, before, after, id);
  }

  lemma ListingFromScan(f: Format, disk: Disk, cache: Entries, ignored: Bytes -> bool, m: Manifest)
    requires Scans(f, disk, cache, ignored, m) && WellKeyed(cache)
    ensures Sorted(m) && WellKeyed(Glanced(f, disk, cache, PathsOf(m)))
  {
  }

  lemma ListingFromDisk(f: Format, disk: Disk, ignored: Bytes -> bool, m: Manifest)
    requires Rehashed(f, disk, ignored, m)
    ensures Sorted(m)
    ensures forall e | e in m :: e.path in disk && e == EntryFor(f, e.path, disk[e.path])
  {
  }

  /** The cache a scan writes is true and backed. */
  lemma ScannedCacheIsGood(f: Format, objects: Contents, disk: Disk, clock: int, seen: Sightings,
                           ignored: Bytes -> bool, m: Manifest)
    requires Sighted(disk, clock, seen) && Rehashed(f, disk, ignored, m)
    requires forall e | e in m :: Restorable(f, objects, e.file)
    ensures var cache := Remembered(f, disk, PathsOf(m)); CacheSound(f, cache, seen) && Backed(f, objects, cache)
  {
    ListingFromDisk(f, disk, ignored, m);
    RememberedIsSound(f, disk, clock, seen, PathsOf(m));
    BackedByFiles(f, objects, disk, m);
  }

  // ----- what a scan reports, whatever the cache holds ------------------------------------------

  /** The cache vouches for the file, so the scan does not read it. */
  predicate Vouched(cache: Entries, p: Bytes, d: OnDisk) {
    p in cache && cache[p].Matches(d)
  }

  /** What a scan takes a file for. */
  function Glance(f: Format, cache: Entries, p: Bytes, d: OnDisk): CacheEntry {
    if Vouched(cache, p, d) then cache[p] else Remember(f, p, d)
  }

  function Glanced(f: Format, disk: Disk, cache: Entries, ps: seq<Bytes>): Entries {
    map p | p in ps && p in disk :: Glance(f, cache, p, disk[p])
  }

  function GlanceListing(f: Format, disk: Disk, cache: Entries, ps: seq<Bytes>): (m: Manifest)
    requires forall p | p in ps :: p in disk
    ensures PathsOf(m) == ps
  {
    seq(|ps|, i requires 0 <= i < |ps| =>
      Entry(ps[i], Glance(f, cache, ps[i], disk[ps[i]]).file, Glance(f, cache, ps[i], disk[ps[i]]).size))
  }

  /** The manifest a scan gives: that of the directory as far as it was read, that of the cache where it was not. */
  ghost predicate Scans(f: Format, disk: Disk, cache: Entries, ignored: Bytes -> bool, m: Manifest) {
    exists ps :: Covers(disk, ignored, ps) && m == GlanceListing(f, disk, cache, ps)
  }

  lemma GlancedSnoc(f: Format, disk: Disk, cache: Entries, ps: seq<Bytes>, i: nat)
    requires i < |ps| && forall p | p in ps :: p in disk
    ensures var e := Glance(f, cache, ps[i], disk[ps[i]]);
      && Glanced(f, disk, cache, ps[..i + 1]) == Glanced(f, disk, cache, ps[..i])[ps[i] := e]
      && GlanceListing(f, disk, cache, ps[..i + 1]) ==
         GlanceListing(f, disk, cache, ps[..i]) + [Entry(ps[i], e.file, e.size)]
  {
    assert ps[..i + 1] == ps[..i] + [ps[i]];
  }

  /** If the cache tells the truth, a scan is a full re-hash. */
  lemma SoundScanRehashes(f: Format, disk: Disk, clock: int, cache: Entries, seen: Sightings, ignored: Bytes -> bool,
                          m: Manifest)
    requires Sighted(disk, clock, seen) && CacheSound(f, cache, seen) && Scans(f, disk, cache, ignored, m)
    ensures Rehashed(f, disk, ignored, m) && Glanced(f, disk, cache, PathsOf(m)) == Remembered(f, disk, PathsOf(m))
  {
    var ps :| Covers(disk, ignored, ps) && m == GlanceListing(f, disk, cache, ps);
    forall p | p in disk ensures Glance(f, cache, p, disk[p]) == Remember(f, p, disk[p]) {
      if Vouched(cache, p, disk[p]) {
        MatchingEntryIsTrue(f, disk, clock, cache, seen, p);
      }
    }
    assert m == Listing(f, disk, ps);
  }

  /** Whatever the scan has read can be restored. */
  ghost predicate ReadIsBacked(f: Format, objects: Contents, disk: Disk, cache: Entries, m: Manifest) {
    forall e | e in m :: (e.path in disk && Vouched(cache, e.path, disk[e.path])) || Restorable(f, objects, e.file)
  }

  ghost predicate AllRestorable(f: Format, objects: Contents, m: Manifest) {
    forall e | e in m :: Restorable(f, objects, e.file)
  }

  lemma BackedScanIsRestorable(f: Format, objects: Contents, disk: Disk, cache: Entries, ignored: Bytes -> bool,
                               m: Manifest)
    requires Scans(f, disk, cache, ignored, m) && ReadIsBacked(f, objects, disk, cache, m) && Backed(f, objects, cache)
    ensures AllRestorable(f, objects, m)
  {
    forall e | e in m ensures Restorable(f, objects, e.file) {
      if e.path in disk && Vouched(cache, e.path, disk[e.path]) {
        assert e.file == cache[e.path].file;
      }
    }
  }

  /** What a scan gives in any case: the manifest, and the cache that vouches for it from then on. */
  ghost predicate ScanGives(f: Format, objects: Contents, disk: Disk, cache: Entries, ignored: Bytes -> bool,
                            m: Manifest, next: Entries) {
    && Scans(f, disk, cache, ignored, m) && next == Glanced(f, disk, cache, PathsOf(m))
    && ReadIsBacked(f, objects, disk, cache, m)
  }

  /** And if the cache is true. */
  ghost predicate TruthGives(f: Format, objects: Contents, disk: Disk, ignored: Bytes -> bool, m: Manifest,
                             next: Entries)
  {
    Rehashed(f, disk, ignored, m) && next == Remembered(f, disk, PathsOf(m)) && AllRestorable(f, objects, m)
  }

  lemma ScanIsTrue(f: Format, before: Contents, objects: Contents, disk: Disk, clock: int, cache: Entries,
                   seen: Sightings, ignored: Bytes -> bool, m: Manifest, next: Entries)
    requires Sighted(disk, clock, seen) && ScanGives(f, objects, disk, cache, ignored, m, next)
    requires CacheSound(f, cache, seen) && Backed(f, before, cache) && Kept(f, before, objects)
    ensures TruthGives(f, objects, disk, ignored, m, next)
  {
    SoundScanRehashes(f, disk, clock, cache, seen, ignored, m);
    BackedStays(f, before, objects, cache);
    BackedScanIsRestorable(f, objects, disk, cache, ignored, m);
  }

  /** The cache of a scan, in place of the old one. */
  lemma NewCacheIsAsGood(f: Format, objects: Contents, disk: Disk, clock: int, cache: Entries, seen: Sightings,
                         ignored: Bytes -> bool, m: Manifest, next: Entries)
    requires Sighted(disk, clock, seen) && WellKeyed(cache) && ScanGives(f, objects, disk, cache, ignored, m, next)
    ensures WellKeyed(next)
    ensures TruthGives(f, objects, disk, ignored, m, next) ==> CacheSound(f, next, seen) && Backed(f, objects, next)
  {
    ListingFromScan(f, disk, cache, ignored, m);
    if TruthGives(f, objects, disk, ignored, m, next) {
      ScannedCacheIsGood(f, objects, disk, clock, seen, ignored, m);
    }
  }

  lemma BackedStays(f: Format, before: Contents, after: Contents, cache: Entries)
    requires Kept(f, before, after) && Backed(f, before, cache)
    ensures Backed(f, after, cache)
  {
  }

  // ----- the space ----------------------------------------------------------------------------

  /** What the space records about where it stands; no `base` means it never committed. */
  datatype Head = Head(ref: Bytes, version: Id, base: Option<Id>)

  const DEFAULT_REF: Bytes := "main"

  function CurrentRef(head: Option<Head>): Bytes {
    if head.Some? then head.value.ref else DEFAULT_REF
  }

  function BaseOf(head: Option<Head>): Option<Id> {
    if head.Some? then head.value.base else None
  }

  function RefAt(refs: map<Bytes, Id>, name: Bytes): Option<Id> {
    if name in refs then Some(refs[name]) else None
  }

  /** The fields of a version that come from the user. */
  datatype Draft = Draft(author: Bytes, time: Stamp, expiry: Stamp, message: Bytes)

  datatype Job = Snapshotting(ref: Bytes) | Committing

  /** A snapshot has an expiry, no message and no parent; a commit has a message, and its base as parent. */
  function NewVersion(job: Job, manifest: Id, parent: Option<Id>, draft: Draft): Version {
    Version(manifest, if parent.Some? then [parent.value] else [], draft.author, draft.time,
            if job.Committing? then ZERO_TIME else draft.expiry, ZeroId(),
            if job.Committing? then draft.message else "")
  }

  /** A snapshot has no parent, a commit has its base. */
  function Parent(job: Job, head: Option<Head>): Option<Id> {
    if job.Committing? then BaseOf(head) else None
  }

  /** The version and its manifest can be read back. */
  ghost predicate Recorded(f: Format, objects: Contents, id: Id, v: Version, m: Manifest) {
    VersionAt(f, objects, id) == Some(v) && ManifestAt(f, objects, v.manifest) == Some(m)
  }

  ghost predicate RecordedAs(f: Format, objects: Contents, id: Id, job: Job, parent: Option<Id>, draft: Draft,
                             m: Manifest)
  {
    exists v: Version :: Recorded(f, objects, id, v, m) && WrittenFor(v, job, parent, draft)
  }

  /** What a command writes into a version, field by field. */
  predicate WrittenFor(v: Version, job: Job, parent: Option<Id>, draft: Draft) {
    && (parent.Some? ==> v.parents == [parent.value]) && (parent.None? ==> v.parents == [])
    && v.author == draft.author && v.time == draft.time && v.graph == ZeroId()
    && (job.Committing? ==> v.message == draft.message && v.expiry == ZERO_TIME)
    && (job.Snapshotting? ==> v.message == "" && v.expiry == draft.expiry)
  }

  predicate Moves(job: Job, before: Option<Head>, refs: map<Bytes, Id>, after: Option<Head>, refs': map<Bytes, Id>,
                  id: Id)
  {
    match job
    case Committing => CommitMoves(before, refs, after, refs', id)
    case Snapshotting(name) => SnapshotMoves(name, before, refs, after, refs', id)
  }

  lemma WrittenIsRecorded(f: Format, objects: Contents, id: Id, v: Version, job: Job, parent: Option<Id>, draft: Draft,
                          m: Manifest)
    requires Recorded(f, objects, id, v, m) && v == NewVersion(job, v.manifest, parent, draft)
    ensures RecordedAs(f, objects, id, job, parent, draft, m)
  {
    assert WrittenFor(v, job, parent, draft);
  }

  /** Whatever a record does to the refs, they go on. */
  lemma RecordContinues(f: Format, before: Contents, after: Contents, job: Job, head: Option<Head>, draft: Draft,
                        m: Manifest, refs: map<Bytes, Id>, head': Option<Head>, refs': map<Bytes, Id>, id: Id, ok: bool)
    requires VersionsKept(before, after) && RecordedAs(f, after, id, job, Parent(job, head), draft, m)
    requires if ok then Moves(job, head, refs, head', refs', id) else refs' == refs
    ensures RefsContinue(f, before, after, refs, refs')
  {
    if ok {
      MovedRefContinues(f, before, after, refs, if job.Committing? then CurrentRef(head) else job.ref, id);
    } else {
      RefsStay(f, before, after, refs);
    }
  }

  /** A commit: from the base of the space, and only from there, its ref moves on, and the space with it. */
  predicate CommitMoves(before: Option<Head>, refs: map<Bytes, Id>, after: Option<Head>, refs': map<Bytes, Id>, id: Id)
  {
    match before
    case None => "main" !in refs && refs' == refs["main" := id] && after == Some(Head("main", id, Some(id)))
    case Some(h) =>
      && (if h.base.Some? then h.ref in refs && refs[h.ref] == h.base.value else h.ref !in refs)
      && refs' == refs[h.ref := id] && after == Some(Head(h.ref, id, Some(id)))
  }

  /** A snapshot: a ref of its own, and the space stays where it was, on the base it had. */
  predicate SnapshotMoves(name: Bytes, before: Option<Head>, refs: map<Bytes, Id>, after: Option<Head>,
                          refs': map<Bytes, Id>, id: Id) {
    && (name in refs ==> refs[name] == id) && refs' == refs[name := id]
    && after == match before
                case None => Some(Head("main", id, None))
                case Some(h) => Some(Head(h.ref, id, h.base))
  }

  /** What recording `m` puts into the store under the hash of its own bytes is at hand. */
  ghost predicate WritesAtHand(f: Format, m: Manifest, job: Job, parent: Option<Id>, draft: Draft) {
    var data := f.encodeManifest(m);
    data.Some? ==>
      && f.occurs(data.value)
      && var version := f.encodeVersion(NewVersion(job, f.hash(ManifestKind, data.value), parent, draft));
         version.Some? ==> f.occurs(version.value)
  }

  /** Every file of the directory is at hand. */
  ghost predicate AtHand(f: Format, disk: Disk) {
    forall p | p in disk :: f.occurs(disk[p].content)
  }

  /** Recording the directory keeps to the contents at hand. */
  ghost predicate Recordable(f: Format, disk: Disk, cache: Entries, ignored: Bytes -> bool, job: Job,
                             head: Option<Head>, draft: Draft)
  {
    forall m | Scans(f, disk, cache, ignored, m) :: WritesAtHand(f, m, job, Parent(job, head), draft)
  }

  /** The same of a directory whose cache is true. */
  ghost predicate TruthRecordable(f: Format, disk: Disk, ignored: Bytes -> bool, job: Job, head: Option<Head>,
                                  draft: Draft)
  {
    forall m | Rehashed(f, disk, ignored, m) :: WritesAtHand(f, m, job, Parent(job, head), draft)
  }

  lemma TruthSuffices(f: Format, disk: Disk, clock: int, cache: Entries, seen: Sightings, ignored: Bytes -> bool,
                      job: Job, head: Option<Head>, draft: Draft)
    requires Sighted(disk, clock, seen) && CacheSound(f, cache, seen)
    requires TruthRecordable(f, disk, ignored, job, head, draft)
    ensures Recordable(f, disk, cache, ignored, job, head, draft)
  {
    forall m | Scans(f, disk, cache, ignored, m) ensures WritesAtHand(f, m, job, Parent(job, head), draft) {
      SoundScanRehashes(f, disk, clock, cache, seen, ignored, m);
    }
  }

  /** Cache.Put files an entry under its path. */
  predicate WellKeyed(cache: Entries) {
    forall p | p in cache :: cache[p].path == p
  }

  class Space<W(!new)> {
    const store: ObjectStore
    const fileCutter: Cut.Cutter<W>
    const manifestCutter: Cut.Cutter<W>
    var disk: Disk
    var clock: int             // later than every modification time so far
    var saved: Entries         // the status cache, as last written
    var head: Option<Head>
    var checkedOut: Option<Manifest>
    var refs: map<Bytes, Id>   // of the store, as this process sees them
    var copies: map<Bytes, Bytes>  // the conflict directory
    var seen: Sightings        // history: no decision but the file system's choice of a time looks at it

    /** The store is in order and the directory at hand. Nothing is said of the status cache. */
    ghost predicate Usable()
      reads this, store
    {
      && StoreOk(store.f, store.objects) && Cut.Valid(fileCutter) && Cut.Valid(manifestCutter) && AtHand(store.f, disk)
      && Sighted(disk, clock, seen) && WellKeyed(saved)
    }

    /** The status cache tells the truth, and vouches for nothing the store has lost. */
    ghost predicate Trusted()
      reads this, store
    {
      CacheSound(store.f, saved, seen) && Backed(store.f, store.objects, saved)
    }

    ghost predicate Valid()
      reads this, store
    {
      Usable() && Trusted()
    }

    /** A space on an empty directory. */
    constructor (objectStore: ObjectStore, files: Cut.Cutter<W>, manifests: Cut.Cutter<W>)
      requires StoreOk(objectStore.f, objectStore.objects) && Cut.Valid(files) && Cut.Valid(manifests)
      ensures Valid() && store == objectStore && disk == map[] && saved == map[] && head == None && refs == map[]
    {
      store, fileCutter, manifestCutter := objectStore, files, manifests;
      disk, clock, saved, seen := map[], 0, map[], map[];
      head, checkedOut, refs, copies := None, None, map[], map[];
    }

    // ----- what happens outside -----

    /** Somebody writes a file, whatever its size and time. If its look is fresh, the cache stays as true as it was. */
    method OutsideWrite(p: Bytes, content: Bytes, mtime: int)
      requires Usable() && |content| <= MAX_INT64 && store.f.occurs(content)
      modifies this`disk, this`clock, this`seen
      ensures Usable() && disk == old(disk)[p := OnDisk(content, mtime)]
      ensures old(Fresh(seen, p, OnDisk(content, mtime))) ==> Extends(old(seen), seen) && (old(Trusted()) ==> Trusted())
    {
      var d := OnDisk(content, mtime);
      WriteStaysSighted(disk, clock, seen, p, d);
      if Trusted() && Fresh(seen, p, d) {
        WriteKeepsSound(store.f, disk, clock, saved, seen, p, d);
      }
      disk := disk[p := d];
      clock := Max(clock, mtime + 1);
      seen := seen[LookOf(p, d) := content];
    }

    method OutsideDelete(p: Bytes)
      requires Usable()
      modifies this`disk
      ensures Usable() && (old(Trusted()) ==> Trusted()) && disk == old(disk) - {p}
    {
      disk := disk - {p};
    }

    // ----- scanning -----

    /** snapshotFile: one file's part of the scan. A matching cache entry stands in for reading the file. */
    method SnapshotFile(p: Bytes) returns (entry: Option<CacheEntry>)
      requires Usable() && p in disk
      modifies store
      ensures Usable() && Kept(store.f, old(store.objects), store.objects)
      ensures entry.Some? ==> entry.value == Glance(store.f, saved, p, disk[p])
      ensures entry.Some? ==> Vouched(saved, p, disk[p]) || Restorable(store.f, store.objects, entry.value.file)
    {
      if p in saved && saved[p].Matches(disk[p]) {
        return Some(saved[p]);
      }
      var id := BuildAndPut(disk[p].content);
      if id.None? {
        return None;
      }
      return Some(CacheEntry(p, disk[p].mtime, |disk[p].content|, id.value));
    }

    /** BuildFile, then putFile. */
    method BuildAndPut(content: Bytes) returns (id: Option<Id>)
      requires Usable() && |content| <= MAX_INT64 && store.f.occurs(content)
      modifies store
      ensures Usable() && Kept(store.f, old(store.objects), store.objects)
      ensures id.Some? ==> id.value == store.f.hash(FileKind, content) && Restorable(store.f, store.objects, id.value)
    {
      var f := store.f;
      ghost var before := store.objects;
      var steps: seq<Step> := *;
      var reader := new Reader(content, steps);
      var built := BuildFile(fileCutter, reader, store);
      FilesKeptSuffices(f, before, store.objects);
      if !built.Built? {
        return None;
      }
      var ok := PutFile(built.id, built.file, content);
      return if ok then Some(built.id) else None;
    }

    /** putFile: the list of the chunks, under the hash of the content. */
    method PutFile(id: Id, file: File, ghost content: Bytes) returns (ok: bool)
      requires Usable() && |content| <= MAX_INT64 && store.f.occurs(content) && id == store.f.hash(FileKind, content)
      requires file == FileOf(store.f, Cut.Chunks(fileCutter, content))
      requires Holds(store.f, store.objects, Cut.Chunks(fileCutter, content))
      modifies store
      ensures Usable() && Kept(store.f, old(store.objects), store.objects)
      ensures ok ==> Restorable(store.f, store.objects, id)
    {
      BuiltFileIsConsistent(store.f, fileCutter, content);
      Cut.ChunksConcatenate(fileCutter, content);
      var encoded := store.f.encodeFile(file);
      if encoded.None? {
        return false;
      }
      ok := store.Put(Key(FileKind, id), encoded.value);
      if ok {
        FileStored(store.f, old(store.objects), Cut.Chunks(fileCutter, content), encoded.value, id);
      }
    }

    /** scanWorkingTree: what the cache vouches for is not read; if the cache is true, the result is as if it were. */
    method ScanWorkingTree(ignored: Bytes -> bool) returns (tree: Option<(Manifest, Entries)>)
      requires Usable()
      modifies store
      ensures Usable() && Kept(store.f, old(store.objects), store.objects)
      ensures tree.Some? ==> ScanGives(store.f, store.objects, disk, saved, ignored, tree.value.0, tree.value.1)
      ensures tree.Some? && old(Trusted()) ==>
              TruthGives(store.f, store.objects, disk, ignored, tree.value.0, tree.value.1)
    {
      tree := GlanceAll(ignored);
      if tree.Some? && old(Trusted()) {
        ScanIsTrue(store.f, old(store.objects), store.objects, disk, clock, saved, seen, ignored, tree.value.0,
                   tree.value.1);
      }
    }

    /** The loop of scanWorkingTree. */
    method GlanceAll(ignored: Bytes -> bool) returns (tree: Option<(Manifest, Entries)>)
      requires Usable()
      modifies store
      ensures Usable() && Kept(store.f, old(store.objects), store.objects)
      ensures tree.Some? ==> ScanGives(store.f, store.objects, disk, saved, ignored, tree.value.0, tree.value.1)
    {
      var ps := SortPaths(set p | p in disk && !ignored(p));
      assert Covers(disk, ignored, ps);
      var m: Manifest, next: Entries := [], map[];
      for i := 0 to |ps|
        invariant Usable() && Kept(store.f, old(store.objects), store.objects)
        invariant m == GlanceListing(store.f, disk, saved, ps[..i]) && next == Glanced(store.f, disk, saved, ps[..i])
        invariant ReadIsBacked(store.f, store.objects, disk, saved, m)
      {
        var entry := SnapshotFile(ps[i]);
        if entry.None? {
          return None;
        }
        GlancedSnoc(store.f, disk, saved, ps, i);
        next := next[ps[i] := entry.value];
        m := m + [Entry(ps[i], entry.value.file, entry.value.size)];
      }
      assert ps[..|ps|] == ps;
      return Some((m, next));
    }

    // ----- recording -----

    /** putManifest */
    method PutTree(m: Manifest) returns (id: Option<Id>)
      requires Usable() && (store.f.encodeManifest(m).Some? ==> store.f.occurs(store.f.encodeManifest(m).value))
      modifies store
      ensures Usable() && Kept(store.f, old(store.objects), store.objects)
      ensures id.Some? ==> ManifestAt(store.f, store.objects, id.value) == Some(m)
      ensures id.Some? ==>
              exists data :: store.f.encodeManifest(m) == Some(data) && id.value == store.f.hash(ManifestKind, data)
    {
      ghost var before := store.objects;
      var data := store.f.encodeManifest(m);
      if data.None? || |data.value| > MAX_INT64 {
        return None;
      }
      var steps: seq<Step> := *;
      var put := PutManifest(manifestCutter, store, data.value, steps);
      FilesKeptSuffices(store.f, before, store.objects);
      return if put.Stored? then Some(put.id) else None;
    }

    /** putVersion */
    method PutVersion(v: Version) returns (id: Option<Id>)
      requires Usable() && (store.f.encodeVersion(v).Some? ==> store.f.occurs(store.f.encodeVersion(v).value))
      modifies store
      ensures Usable() && Grows(old(store.objects), store.objects)
      ensures Kept(store.f, old(store.objects), store.objects)
      ensures id.Some? ==> VersionAt(store.f, store.objects, id.value) == Some(v)
    {
      ghost var before := store.objects;
      var data := store.f.encodeVersion(v);
      if data.None? {
        return None;
      }
      var id' := store.f.hash(VersionKind, data.value);
      var ok := store.Put(VersionKey(id'), data.value);
      VersionPut(store.f, before, id', data.value);
      if !ok {
        return None;
      }
      return Some(id');
    }

    /** parentOf and publish, with the compare-and-swap as one step. */
    method PublishVersion(job: Job, parent: Option<Id>, id: Id) returns (ok: bool)
      modifies this`refs
      ensures ok && job.Committing? ==> RefAt(old(refs), CurrentRef(head)) == parent
      ensures ok && job.Snapshotting? ==> RefAt(old(refs), job.ref) == None || RefAt(old(refs), job.ref) == Some(id)
      ensures refs == if ok then old(refs)[(if job.Committing? then CurrentRef(head) else job.ref) := id] else old(refs)
    {
      var name := if job.Committing? then CurrentRef(head) else job.ref;
      if job.Snapshotting? && RefAt(refs, name) == Some(id) {
        return true;
      }
      if RefAt(refs, name) != if job.Committing? then parent else None {
        return false;
      }
      refs := refs[name := id];
      return true;
    }

    /** The first half of record: everything that must be in the store before a ref may name it. */
    method StoreState(job: Job, ignored: Bytes -> bool, draft: Draft) returns (state: Option<(Id, Manifest, Entries)>)
      requires Usable() && Recordable(store.f, disk, saved, ignored, job, head, draft)
      modifies store
      ensures Usable() && Kept(store.f, old(store.objects), store.objects)
      ensures state.Some? && job.Committing? ==> RefAt(refs, CurrentRef(head)) == BaseOf(head)
      ensures state.Some? ==> ScanGives(store.f, store.objects, disk, saved, ignored, state.value.1, state.value.2)
      ensures state.Some? && old(Trusted()) ==>
              TruthGives(store.f, store.objects, disk, ignored, state.value.1, state.value.2)
      ensures state.Some? ==>
        RecordedAs(store.f, store.objects, state.value.0, job, Parent(job, head), draft, state.value.1)
    {
      var tree := ScanWorkingTree(ignored);
      if tree.None? {
        return None;
      }
      var m := tree.value.0;
      assert WritesAtHand(store.f, m, job, Parent(job, head), draft);
      var manifest := PutTree(m);
      if manifest.None? {
        return None;
      }
      if job.Committing? && RefAt(refs, CurrentRef(head)) != BaseOf(head) {
        return None;
      }
      ghost var before := store.objects;
      var v := NewVersion(job, manifest.value, Parent(job, head), draft);
      var version := PutVersion(v);
      if version.None? {
        return None;
      }
      ManifestStays(store.f, before, store.objects, manifest.value);
      WrittenIsRecorded(store.f, store.objects, version.value, v, job, Parent(job, head), draft, m);
      return Some((version.value, m, tree.value.1));
    }

    /** recordHead, and the cache once the version is safely in the store. */
    method RecordHead(job: Job, id: Id, m: Manifest, cache: Entries)
      requires Usable() && WellKeyed(cache)
      modifies this`head, this`checkedOut, this`saved
      ensures Usable() && checkedOut == Some(m) && saved == cache
      ensures CacheSound(store.f, cache, seen) && Backed(store.f, store.objects, cache) ==> Trusted()
      ensures head == Some(Head(CurrentRef(old(head)), id, if job.Committing? then Some(id) else BaseOf(old(head))))
    {
      head := Some(Head(CurrentRef(head), id, if job.Committing? then Some(id) else BaseOf(head)));
      checkedOut, saved := Some(m), cache;
    }

    /**
     record: scan, store the manifest, decide the parent, store the version, publish, record the head,
     write the cache. A commit goes through only onto the very value the space descends from.
     */
    method Record(job: Job, ignored: Bytes -> bool, draft: Draft) returns (id: Option<Id>)
      requires Usable() && Recordable(store.f, disk, saved, ignored, job, head, draft)
      modifies this`refs, this`head, this`checkedOut, this`saved, store
      ensures Usable() && (old(Trusted()) ==> Trusted()) && Kept(store.f, old(store.objects), store.objects)
      ensures id.None? ==>
              refs == old(refs) && head == old(head) && checkedOut == old(checkedOut) && saved == old(saved)
      ensures id.Some? ==>
        && checkedOut.Some? && Scans(store.f, disk, old(saved), ignored, checkedOut.value)
        && saved == Glanced(store.f, disk, old(saved), PathsOf(checkedOut.value))
      ensures id.Some? && old(Trusted()) ==> TruthGives(store.f, store.objects, disk, ignored, checkedOut.value, saved)
      ensures id.Some? ==>
              RecordedAs(store.f, store.objects, id.value, job, Parent(job, old(head)), draft, checkedOut.value)
      ensures id.Some? ==> Moves(job, old(head), old(refs), head, refs, id.value)
      ensures RefsContinue(store.f, old(store.objects), store.objects, old(refs), refs)
    {
      ghost var trusted := Trusted();
      var state := StoreState(job, ignored, draft);
      if trusted {
        BackedStays(store.f, old(store.objects), store.objects, saved);
      }
      if state.None? {
        RefsStay(store.f, old(store.objects), store.objects, refs);
        return None;
      }
      var ok := PublishState(job, state.value.0, state.value.1, state.value.2, ignored);
      RecordContinues(store.f, old(store.objects), store.objects, job, old(head), draft, state.value.1, old(refs), head,
                      refs, state.value.0, ok);
      return if ok then Some(state.value.0) else None;
    }

    /** The second half of record: the ref, then what the space remembers. */
    method PublishState(job: Job, id: Id, m: Manifest, cache: Entries, ghost ignored: Bytes -> bool) returns (ok: bool)
      requires Usable() && ScanGives(store.f, store.objects, disk, saved, ignored, m, cache)
      modifies this`refs, this`head, this`checkedOut, this`saved
      ensures Usable() && (ok && TruthGives(store.f, store.objects, disk, ignored, m, cache) ==> Trusted())
      ensures !ok && old(Trusted()) ==> Trusted()
      ensures !ok ==> refs == old(refs) && head == old(head) && checkedOut == old(checkedOut) && saved == old(saved)
      ensures ok ==> checkedOut == Some(m) && saved == cache
      ensures ok ==> Moves(job, old(head), old(refs), head, refs, id)
    {
      ok := PublishVersion(job, BaseOf(head), id);
      if ok {
        NewCacheIsAsGood(store.f, store.objects, disk, clock, saved, seen, ignored, m, cache);
        RecordHead(job, id, m, cache);
      }
    }

    // ----- writing files -----

    /** A write of ours. Its time may be any that gives the path a fresh look. */
    method WriteFile(p: Bytes, content: Bytes)
      requires Usable() && |content| <= MAX_INT64 && store.f.occurs(content)
      modifies this`disk, this`clock, this`seen
      ensures Usable() && p in disk && disk[p].content == content && disk == old(disk)[p := disk[p]]
      ensures Extends(old(seen), seen)
    {
      var mtime: int := *;
      if !Fresh(seen, p, OnDisk(content, mtime)) {
        mtime := clock;
      }
      OutsideWrite(p, content, mtime);
    }

    /**
     restoreEntry: the file is created first and filled chunk by chunk, so a failure can leave a
     beginning of the content under that one path.
     */
    method RestoreEntry(e: Entry) returns (ok: bool)
      requires Usable()
      modifies this`disk, this`clock, this`seen
      ensures Usable() && Extends(old(seen), seen)
      ensures SameElsewhere(old(disk), disk, {e.path})
      ensures ok ==> e.path in disk && EntryFor(store.f, e.path, disk[e.path]) == e
      ensures ok ==> Restorable(store.f, store.objects, e.file)
    {
      var file := GetFile(store, FileKey(e.file));
      if file.None? {
        return false;
      }
      var content, n := ReadContent(e.file, file.value);
      WriteFile(e.path, content);
      ok := n == |file.value.chunks| && |content| == e.size;
    }

    /** The content behind a file object, as far as it can be read. */
    method ReadContent(id: Id, file: File) returns (content: Bytes, n: nat)
      requires Sound(store.f, store.objects) && CollisionFree(store.f) && Honest(store.f, store.objects)
      requires FileAt(store.f, store.objects, id) == Some(file)
      ensures |content| <= MAX_INT64 && store.f.occurs(content)
      ensures n == |file.chunks| ==> store.f.hash(FileKind, content) == id && Restorable(store.f, store.objects, id)
    {
      ghost var cs :| Lists(store.f, store.objects, id, cs);
      content, n := ReadInOrder(file, cs);
      ConcatPrefix(store.f, cs, n);
      assert cs[..|cs|] == cs;
    }

    /** The chunks of a file, in order, up to the first that cannot be read. */
    method ReadInOrder(file: File, ghost cs: seq<Bytes>) returns (content: Bytes, n: nat)
      requires Sound(store.f, store.objects) && CollisionFree(store.f)
      requires file.chunks == Refs(store.f, cs) && store.f.occurs(Cut.Concat(cs))
      ensures n <= |file.chunks| == |cs| && ReadSoFar(store.f, store.objects, cs, n, content)
    {
      content, n := "", 0;
      while n < |file.chunks|
        invariant n <= |file.chunks| == |cs| && ReadSoFar(store.f, store.objects, cs, n, content)
      {
        var c := store.Get(Key(ChunkKind, file.chunks[n].id));
        if c.None? {
          return;
        }
        FetchedOccurs(store.f, store.objects, file.chunks[n].id);
        ChunkRead(store.f, store.objects, cs, n, c.value);
        OneMoreChunk(store.f, store.objects, cs, n, content, c.value);
        content := content + c.value;
        n := n + 1;
      }
    }

    /** refreshCacheFrom: the cache becomes the looks of the files just written. */
    method RefreshCache(m: Manifest) returns (ok: bool)
      requires Usable() && Restored(store.f, store.objects, disk, m)
      modifies this`saved
      ensures Usable() && (ok ==> Trusted())
      ensures saved == if ok then Remembered(store.f, disk, PathsOf(m)) else old(saved)
    {
      var cache := LookAt(m);
      if cache.None? {
        return false;
      }
      RememberedIsSound(store.f, disk, clock, seen, PathsOf(m));
      BackedByFiles(store.f, store.objects, disk, m);
      saved := cache.value;
      return true;
    }

    /** The loop of refreshCacheFrom. A file that is gone again is an error. */
    method LookAt(m: Manifest) returns (cache: Option<Entries>)
      requires forall e | e in m && e.path in disk :: e.file == store.f.hash(FileKind, disk[e.path].content)
      ensures cache.Some? ==> cache.value == Remembered(store.f, disk, PathsOf(m))
      ensures cache.Some? <==> forall e | e in m :: e.path in disk
    {
      var entries: Entries := map[];
      for i := 0 to |m|
        invariant entries == Remembered(store.f, disk, PathsOf(m)[..i])
        invariant forall k | 0 <= k < i :: m[k].path in disk
      {
        var e := m[i];
        assert e in m;
        if e.path !in disk {
          return None;
        }
        RememberedNext(store.f, disk, PathsOf(m), i);
        entries := entries[e.path := CacheEntry(e.path, disk[e.path].mtime, |disk[e.path].content|, e.file)];
      }
      assert PathsOf(m)[..|m|] == PathsOf(m);
      return Some(entries);
    }

    /** The loop of RestoreManifest. */
    method RestoreAll(m: Manifest) returns (ok: bool)
      requires Usable() && Sorted(m)
      modifies this`disk, this`clock, this`seen
      ensures Usable() && Extends(old(seen), seen)
      ensures SameElsewhere(old(disk), disk, PathSet(m))
      ensures ok ==> Restored(store.f, store.objects, disk, m)
    {
      for i := 0 to |m|
        invariant Usable() && Extends(old(seen), seen)
        invariant SameElsewhere(old(disk), disk, PathSet(m))
        invariant Restored(store.f, store.objects, disk, m[..i])
      {
        ghost var before := disk;
        assert m[i] in m;
        ok := RestoreEntry(m[i]);
        if !ok {
          return;
        }
        RestoredOneMore(store.f, store.objects, before, disk, m, i);
      }
      assert m[..|m|] == m;
      ok := true;
    }

    /** RestoreManifest: every entry, then the cache. */
    method RestoreManifest(m: Manifest) returns (ok: bool)
      requires Usable() && Sorted(m)
      modifies this`disk, this`clock, this`seen, this`saved
      ensures Usable() && (ok || old(Trusted()) ==> Trusted())
      ensures SameElsewhere(old(disk), disk, PathSet(m))
      ensures ok ==> Restored(store.f, store.objects, disk, m)
      ensures ok ==> saved == Remembered(store.f, disk, PathsOf(m))
    {
      ok := RestoreAll(m);
      if old(Trusted()) {
        ExtendingKeepsSound(store.f, saved, old(seen), seen);
      }
      if ok {
        ok := RefreshCache(m);
      }
    }

    method DeleteFile(p: Bytes) returns (ok: bool)
      requires Usable()
      modifies this`disk
      ensures Usable() && disk == if ok then old(disk) - {p} else old(disk)
    {
      ok := *;
      if ok {
        disk := disk - {p};
      }
    }

    // ----- sync -----

    ghost predicate Trusts(cache: StatusCache)
      reads this, store, cache
    {
      CacheSound(store.f, cache.entries, seen) && Backed(store.f, store.objects, cache.entries)
    }

    /** writeIncoming: the entries in order, up to the first failure; what was written is up to date. */
    method WriteIncoming(cache: StatusCache, entries: seq<Entry>) returns (ok: bool)
      requires Valid() && Trusts(cache)
      modifies this`disk, this`clock, this`seen, cache
      ensures Valid() && Trusts(cache)
      ensures SameElsewhere(old(disk), disk, PathSet(entries))
      ensures ok ==> TreeOf(store.f, disk) == Sync.Written(TreeOf(store.f, old(disk)), entries)
      ensures ok ==> UpToDate(store.f, old(cache.entries), cache.entries, disk, entries)
    {
      for i := 0 to |entries|
        invariant Valid() && Trusts(cache)
        invariant UpToDate(store.f, old(cache.entries), cache.entries, disk, entries[..i])
        invariant SameElsewhere(old(disk), disk, PathSet(entries))
        invariant TreeOf(store.f, disk) == Sync.Written(TreeOf(store.f, old(disk)), entries[..i])
      {
        var e := entries[i];
        assert e in entries && entries[..i + 1][..i] == entries[..i];
        ghost var before, remembered := disk, cache.entries;
        ok := WriteOne(cache, e);
        if !ok {
          return;
        }
        UpToDateSnoc(store.f, old(cache.entries), remembered, before, disk, entries, i);
      }
      assert entries[..|entries|] == entries;
      ok := true;
    }

    /** One round of that loop. */
    method WriteOne(cache: StatusCache, e: Entry) returns (ok: bool)
      requires Valid() && Trusts(cache)
      modifies this`disk, this`clock, this`seen, cache
      ensures Valid() && Trusts(cache) && SameElsewhere(old(disk), disk, {e.path})
      ensures ok ==>
              e.path in disk && cache.entries == old(cache.entries)[e.path := Remember(store.f, e.path, disk[e.path])]
      ensures ok ==> TreeOf(store.f, disk) == TreeOf(store.f, old(disk))[e.path := e.file]
    {
      ok := RestoreEntry(e);
      ExtendingKeepsSound(store.f, cache.entries, old(seen), seen);
      if ok {
        TreeAfterRestore(store.f, old(disk), disk, e);
        cache.Put(CacheEntry(e.path, disk[e.path].mtime, |disk[e.path].content|, e.file));
      }
    }

    /** The deletion loop of applyMerged. */
    method DeleteAll(cache: StatusCache, entries: seq<Entry>) returns (ok: bool)
      requires Valid() && Trusts(cache)
      modifies this`disk, cache
      ensures Valid() && Trusts(cache)
      ensures SameElsewhere(old(disk), disk, PathSet(entries))
      ensures ok ==> TreeOf(store.f, disk) == Sync.Deleted(TreeOf(store.f, old(disk)), entries)
      ensures ok ==> cache.entries == old(cache.entries) - PathSet(entries)
    {
      for i := 0 to |entries|
        invariant Valid() && Trusts(cache)
        invariant cache.entries == old(cache.entries) - PathSet(entries[..i])
        invariant SameElsewhere(old(disk), disk, PathSet(entries))
        invariant TreeOf(store.f, disk) == Sync.Deleted(TreeOf(store.f, old(disk)), entries[..i])
      {
        var e := entries[i];
        assert e in entries && entries[..i + 1][..i] == entries[..i];
        ok := DeleteOne(cache, e.path);
        if !ok {
          return;
        }
        PathSetSnoc(old(cache.entries), entries, i);
      }
      assert entries[..|entries|] == entries;
      ok := true;
    }

    /** One round of that loop. */
    method DeleteOne(cache: StatusCache, p: Bytes) returns (ok: bool)
      requires Valid() && Trusts(cache)
      modifies this`disk, cache
      ensures Valid() && Trusts(cache) && SameElsewhere(old(disk), disk, {p})
      ensures ok ==> cache.entries == old(cache.entries) - {p}
      ensures ok ==> TreeOf(store.f, disk) == TreeOf(store.f, old(disk)) - {p}
    {
      TreeAfterDelete(store.f, disk, p);
      ok := DeleteFile(p);
      if ok {
        cache.Remove(p);
      }
    }

    /**
     applyMerged: write what is missing, then remove what must go. Even a failure halfway leaves every
     path alone on which the two manifests agree; and only files this sync wrote count as up to date.
     */
    method ApplyMerged(ours: Manifest, merged: Manifest) returns (ok: bool)
      requires Valid() && Sorted(ours) && Sorted(merged)
      modifies this`disk, this`clock, this`seen, this`saved
      ensures Valid()
      ensures ok ==> TreeOf(store.f, disk) == Sync.Patched(TreeOf(store.f, old(disk)), ours, merged)
      ensures forall p | Content(ours, p) == Content(merged, p) :: DiskAt(disk, p) == DiskAt(old(disk), p)
      ensures ok ==> CachePatched(store.f, old(saved), saved, disk, ours, merged)
      ensures !ok ==> saved == old(saved)
    {
      var changes := DiffManifests(ours, merged);
      PatchLeavesAlone(ours, merged);
      var cache := new StatusCache(saved);
      ok := WriteIncoming(cache, Incoming(changes));
      if !ok {
        return;
      }
      ghost var written, remembered := disk, cache.entries;
      ok := DeleteAll(cache, Outgoing(changes));
      if !ok {
        return;
      }
      PatchedCache(store.f, old(saved), remembered, written, disk, ours, merged);
      saved := cache.entries;
    }

    /** manifestOfVersion */
    method ManifestOfVersion(id: Id) returns (m: Option<Manifest>)
      requires StoreOk(store.f, store.objects)
      ensures m == VersionManifest(store.f, store.objects, id) && (m.Some? ==> Sorted(m.value))
    {
      var v := GetVersion(store, id);
      if v.None? {
        return None;
      }
      m := GetEntries(store, v.value.manifest);
    }

    /**
     writeConflictCopies: the directory is cleared, then their file of every conflict is written, up to
     the first that cannot be restored.
     */
    method WriteConflictCopies(conflicts: seq<Conflict>) returns (ok: bool)
      requires Valid() && forall i, j | 0 <= i < j < |conflicts| :: conflicts[i].path != conflicts[j].path
      modifies this`copies
      ensures Valid()
      ensures ok ==> CopiesAre(store.f, copies, conflicts)
    {
      copies := map[];
      for i := 0 to |conflicts|
        invariant Valid() && CopiesAre(store.f, copies, conflicts[..i])
      {
        var c := conflicts[i];
        ghost var before := copies;
        if c.theirs.Some? {
          var file := GetFile(store, FileKey(c.theirs.value.file));
          if file.None? {
            return false;
          }
          var content, n := ReadContent(c.theirs.value.file, file.value);
          if n != |file.value.chunks| || |content| != c.theirs.value.size {
            return false;
          }
          copies := copies[c.path := content];
        }
        OneMoreCopy(store.f, before, copies, conflicts, i);
      }
      assert conflicts[..|conflicts|] == conflicts;
      ok := true;
    }

    /** The space descends from `target`, whose manifest is `m`. */
    method StandAt(ref: Bytes, target: Id, m: Manifest)
      requires Usable()
      modifies this`head, this`checkedOut
      ensures Usable() && checkedOut == Some(m) && head == Some(Head(ref, target, Some(target)))
    {
      head, checkedOut := Some(Head(ref, target, Some(target))), Some(m);
    }

    /** mergeOnto: scan, merge, apply, and put their side of the conflicts where it can be opened. */
    method MergeOnto(base: Option<Id>, target: Id, ignored: Bytes -> bool)
      returns (result: Option<(Manifest, seq<Conflict>)>)
      requires Valid()
      modifies this`disk, this`clock, this`seen, this`saved, this`copies, store
      ensures Valid() && VersionsKept(old(store.objects), store.objects)
      ensures result.Some? ==> CopiesAre(store.f, copies, result.value.1)
      ensures result.Some? ==>
        SyncedTo(store.f, old(store.objects), base, target, old(disk), ignored, result.value.1, disk, result.value.0)
    {
      var theirs := ManifestOfVersion(target);
      var baseManifest := ManifestOfBase(base);
      if theirs.None? || baseManifest.None? {
        return None;
      }
      var conflicts := MergeTrees(baseManifest.value, theirs.value, ignored);
      return if conflicts.Some? then Some((theirs.value, conflicts.value)) else None;
    }

    method ManifestOfBase(base: Option<Id>) returns (m: Option<Manifest>)
      requires StoreOk(store.f, store.objects)
      ensures m == BaseManifest(store.f, store.objects, base) && (m.Some? ==> Sorted(m.value))
    {
      if base.None? {
        return Some([]);
      }
      m := ManifestOfVersion(base.value);
    }

    /** The second half of mergeOnto, once the other two manifests are there. */
    method MergeTrees(base: Manifest, theirs: Manifest, ignored: Bytes -> bool)
      returns (reported: Option<seq<Conflict>>)
      requires Valid() && Sorted(base) && Sorted(theirs)
      modifies this`disk, this`clock, this`seen, this`saved, this`copies, store
      ensures Valid() && VersionsKept(old(store.objects), store.objects)
      ensures reported.Some? ==> CopiesAre(store.f, copies, reported.value)
      ensures reported.Some? ==> MergedInto(store.f, base, theirs, old(disk), ignored, reported.value, disk)
    {
      var tree := ScanWorkingTree(ignored);
      if tree.None? {
        return None;
      }
      var ours := tree.value.0;
      ListingFromDisk(store.f, disk, ignored, ours);
      var merged, conflicts := MergeManifests(base, ours, theirs);
      MergeIsPointwise(base, ours, theirs, merged, conflicts, "");
      ConflictPathsDiffer(base, ours, theirs, merged, conflicts);
      var ok := ApplyMerged(ours, merged);
      if !ok {
        return None;
      }
      assert Merged(store.f, base, theirs, old(disk), ignored, conflicts, disk, ours, merged);
      ok := WriteConflictCopies(conflicts);
      return if ok then Some(conflicts) else None;
    }

    /**
     Sync: merge the directory with what the ref holds, relative to the version the space descends from,
     and descend from the ref's version afterwards. What is recorded is their state, not the merged one.
     */
    method SyncOnto(ignored: Bytes -> bool) returns (outcome: SyncOutcome)
      requires Valid()
      modifies this`disk, this`clock, this`seen, this`saved, this`copies, this`head, this`checkedOut, store
      ensures Valid() && VersionsKept(old(store.objects), store.objects)
      ensures outcome.Synced? ==> CopiesAre(store.f, copies, outcome.conflicts)
      ensures outcome.AlreadyCurrent? <==>
        RefAt(refs, CurrentRef(old(head))) == None || RefAt(refs, CurrentRef(old(head))) == BaseOf(old(head))
      ensures outcome.AlreadyCurrent? ==> disk == old(disk)
      ensures outcome.Synced? ==> RefAt(refs, CurrentRef(old(head))).Some? && checkedOut.Some?
      ensures outcome.Synced? ==> SyncedTo(store.f, old(store.objects), BaseOf(old(head)), refs[CurrentRef(old(head))],
                                           old(disk), ignored, outcome.conflicts, disk, checkedOut.value)
      ensures outcome.Synced? ==>
        head == Some(Head(CurrentRef(old(head)), refs[CurrentRef(old(head))], Some(refs[CurrentRef(old(head))])))
      ensures !outcome.Synced? ==> head == old(head) && checkedOut == old(checkedOut)
    {
      var current, base := RefAt(refs, CurrentRef(head)), BaseOf(head);
      if current.None? || base == current {
        return AlreadyCurrent;
      }
      var result := MergeOnto(base, current.value, ignored);
      if result.None? {
        return SyncFailed;
      }
      StandAt(CurrentRef(head), current.value, result.value.0);
      return Synced(result.value.1);
    }

    /**
     Sync, then commit. If both go through, the ref moved from their version to one whose sole parent is
     theirs, and of neither side's work anything is lost: see module Sync. No ref loses anything of its history.
     */
    method SyncAndCommit(ignored: Bytes -> bool, draft: Draft) returns (outcome: SyncOutcome, id: Option<Id>)
      requires Valid()
      requires CurrentRef(head) in refs ==> forall conflicts, after, theirs |
        AtHand(store.f, after) && SyncedTo(store.f, store.objects, BaseOf(head), refs[CurrentRef(head)], disk, ignored,
                                           conflicts, after, theirs) ::
        TruthRecordable(store.f, after, ignored, Committing, HeadAt(CurrentRef(head), refs[CurrentRef(head)]), draft)
      modifies this`disk, this`clock, this`seen, this`saved, this`copies, this`head, this`checkedOut, this`refs, store
      ensures Valid() && (id.Some? ==> outcome.Synced?)
      ensures id.Some? ==> CurrentRef(old(head)) in old(refs) && checkedOut.Some?
      ensures id.Some? ==>
        var ref, target := CurrentRef(old(head)), old(refs)[CurrentRef(old(head))];
        && refs == old(refs)[ref := id.value] && head == HeadAt(ref, id.value)
        && RecordedAs(store.f, store.objects, id.value, Committing, Some(target), draft, checkedOut.value)
        && CommittedAfterSync(store.f, old(store.objects), BaseOf(old(head)), target, old(disk), ignored,
                              outcome.conflicts, disk, checkedOut.value)
      ensures RefsContinue(store.f, old(store.objects), store.objects, old(refs), refs)
    {
      id := None;
      outcome := SyncOnto(ignored);
      if !outcome.Synced? {
        RefsStay(store.f, old(store.objects), store.objects, refs);
        return;
      }
      id := CommitSynced(ignored, draft, old(store.objects), BaseOf(old(head)), old(refs)[CurrentRef(old(head))],
                         old(disk), outcome.conflicts);
    }

    /** Its second half: the commit of a directory that a sync left behind. */
    method CommitSynced(ignored: Bytes -> bool, draft: Draft, ghost first: Contents, ghost base: Option<Id>,
                        ghost target: Id, ghost before: Disk, ghost conflicts: seq<Conflict>)
      returns (id: Option<Id>)
      requires Valid() && VersionsKept(first, store.objects) && checkedOut.Some?
      requires SyncedTo(store.f, first, base, target, before, ignored, conflicts, disk, checkedOut.value)
      requires TruthRecordable(store.f, disk, ignored, Committing, head, draft)
      modifies this`refs, this`head, this`checkedOut, this`saved, store
      ensures Valid() && RefsContinue(store.f, first, store.objects, old(refs), refs)
      ensures id.Some? ==> checkedOut.Some? && head == HeadAt(CurrentRef(old(head)), id.value)
      ensures id.Some? ==> refs == old(refs)[CurrentRef(old(head)) := id.value]
      ensures id.Some? ==>
        RecordedAs(store.f, store.objects, id.value, Committing, BaseOf(old(head)), draft, checkedOut.value)
      ensures id.Some? ==>
        CommittedAfterSync(store.f, first, base, target, before, ignored, conflicts, disk, checkedOut.value)
    {
      ghost var synced, theirs := disk, checkedOut.value;
      id := CommitTree(ignored, draft, first);
      if id.Some? {
        CommitIsCovered(store.f, first, base, target, before, ignored, conflicts, synced, theirs, checkedOut.value);
      }
    }

    /** A commit of a space whose cache is true; the store has kept all versions since it held `first`. */
    method CommitTree(ignored: Bytes -> bool, draft: Draft, ghost first: Contents) returns (id: Option<Id>)
      requires Valid() && TruthRecordable(store.f, disk, ignored, Committing, head, draft)
      requires VersionsKept(first, store.objects)
      modifies this`refs, this`head, this`checkedOut, this`saved, store
      ensures Valid()
      ensures id.Some? ==> checkedOut.Some? && Rehashed(store.f, disk, ignored, checkedOut.value)
      ensures id.Some? ==>
        RecordedAs(store.f, store.objects, id.value, Committing, BaseOf(old(head)), draft, checkedOut.value)
      ensures id.Some? ==> head == HeadAt(CurrentRef(old(head)), id.value)
      ensures id.Some? ==> refs == old(refs)[CurrentRef(old(head)) := id.value]
      ensures RefsContinue(store.f, first, store.objects, old(refs), refs)
    {
      TruthSuffices(store.f, disk, clock, saved, seen, ignored, Committing, head, draft);
      id := Record(Committing, ignored, draft);
      ContinueFromEarlier(store.f, first, old(store.objects), store.objects, old(refs), refs);
    }

    // ----- checkout -----

    /** The second half of applyManifest: what is scanned and not wanted is deleted. */
    method RemoveUnwanted(m: Manifest, ignored: Bytes -> bool) returns (ok: bool)
      requires Usable()
      modifies this`disk
      ensures Usable()
      ensures forall p | p in PathsOf(m) || ignored(p) :: DiskAt(disk, p) == DiskAt(old(disk), p)
      ensures ok ==> forall p | p !in PathsOf(m) && !ignored(p) :: p !in disk
    {
      var present := SortPaths(set p | p in disk && !ignored(p));
      ghost var n;
      ok, n := SweepPaths(present, PathsOf(m));
      SweptEnough(old(disk), disk, present, n, PathsOf(m), ignored);
    }

    /** Its loop, up to the first failure. */
    method SweepPaths(present: seq<Bytes>, wanted: seq<Bytes>) returns (ok: bool, n: nat)
      requires Usable()
      modifies this`disk
      ensures Usable() && n <= |present| && (ok ==> n == |present|)
      ensures Swept(old(disk), disk, present[..n], wanted)
    {
      n := 0;
      while n < |present|
        invariant Usable() && n <= |present| && Swept(old(disk), disk, present[..n], wanted)
      {
        SweptOneMore(old(disk), disk, present, n, wanted);
        if present[n] !in wanted {
          ok := DeleteFile(present[n]);
          if !ok {
            return;
          }
        }
        n := n + 1;
      }
      ok := true;
    }

    /** applyManifest: write what the manifest names, remove what it does not. */
    method ApplyManifest(m: Manifest, ignored: Bytes -> bool) returns (ok: bool)
      requires Usable() && Sorted(m)
      modifies this`disk, this`clock, this`seen, this`saved
      ensures Usable() && (old(Trusted()) ==> Trusted())
      ensures forall p | ignored(p) && p !in PathsOf(m) :: DiskAt(disk, p) == DiskAt(old(disk), p)
      ensures ok ==> Materialised(store.f, store.objects, old(disk), disk, ignored, m)
    {
      ok := RestoreManifest(m);
      if !ok {
        return;
      }
      ghost var restored := disk;
      ok := RemoveUnwanted(m, ignored);
      UntouchedStaysRestored(store.f, store.objects, restored, disk, m);
    }

    /**
     Checkout, once the gates of CheckClear are passed. A ref is moved onto; a bare version is only
     looked at, and the space keeps its ref. Either way the space descends from what it checked out.
     */
    method CheckoutVersion(target: Id, name: Bytes, ignored: Bytes -> bool) returns (ok: bool)
      requires Usable()
      modifies this`disk, this`clock, this`seen, this`saved, this`head, this`checkedOut
      ensures Usable() && (ok || old(Trusted()) ==> Trusted())
      ensures forall p | ignored(p) && DiskAt(disk, p) != DiskAt(old(disk), p) ::
              Names(store.f, store.objects, target, p)
      ensures ok ==> checkedOut.Some? && checkedOut == VersionManifest(store.f, store.objects, target)
      ensures ok ==> Materialised(store.f, store.objects, old(disk), disk, ignored, checkedOut.value)
      ensures ok ==> saved == Remembered(store.f, disk, PathsOf(checkedOut.value))
      ensures ok ==> head == Some(Head(if name in refs then name else CurrentRef(old(head)), target, Some(target)))
    {
      var m := ManifestOfVersion(target);
      if m.None? {
        return false;
      }
      ok := ApplyManifest(m.value, ignored);
      if !ok {
        return;
      }
      ok := MoveOnto(if name in refs then name else CurrentRef(head), target, m.value);
    }

    /** The end of a checkout: the head, then the cache of the files just written. */
    method MoveOnto(ref: Bytes, target: Id, m: Manifest) returns (ok: bool)
      requires Usable() && Restored(store.f, store.objects, disk, m)
      modifies this`head, this`checkedOut, this`saved
      ensures Usable() && (ok || old(Trusted()) ==> Trusted())
      ensures checkedOut == Some(m) && head == Some(Head(ref, target, Some(target)))
      ensures ok ==> saved == Remembered(store.f, disk, PathsOf(m))
    {
      StandAt(ref, target, m);
      ok := RefreshCache(m);
    }
  }

  /** Of the paths looked at, those not wanted are gone. */
  ghost predicate Swept(before: Disk, after: Disk, looked: seq<Bytes>, wanted: seq<Bytes>) {
    forall p :: DiskAt(after, p) == if p in looked && p !in wanted then None else DiskAt(before, p)
  }

  lemma SweptOneMore(before: Disk, after: Disk, present: seq<Bytes>, i: nat, wanted: seq<Bytes>)
    requires i < |present| && Swept(before, after, present[..i], wanted)
    ensures Swept(before, if present[i] in wanted then after else after - {present[i]}, present[..i + 1], wanted)
  {
    assert present[..i + 1] == present[..i] + [present[i]];
  }

  lemma SweptEnough(before: Disk, after: Disk, present: seq<Bytes>, n: nat, wanted: seq<Bytes>,
                    ignored: Bytes -> bool)
    requires n <= |present| && Swept(before, after, present[..n], wanted)
    requires forall p :: p in present <==> p in before && !ignored(p)
    ensures forall p | p in wanted || ignored(p) :: DiskAt(after, p) == DiskAt(before, p)
    ensures n == |present| ==> forall p | p !in wanted && !ignored(p) :: p !in after
  {
    assert present[..|present|] == present && forall p | p in present[..n] :: p in present;
    forall p | n == |present| && p !in wanted && !ignored(p) ensures p !in after {
      assert DiskAt(after, p) == None;
    }
  }

  datatype SyncOutcome = AlreadyCurrent | Synced(conflicts: seq<Conflict>) | SyncFailed

  function VersionManifest(f: Format, objects: Contents, id: Id): Option<Manifest> {
    var v := VersionAt(f, objects, id);
    if v.None? then None else ManifestAt(f, objects, v.value.manifest)
  }

  /** A space that never committed descends from the empty manifest. */
  function BaseManifest(f: Format, objects: Contents, base: Option<Id>): Option<Manifest> {
    if base.Some? then VersionManifest(f, objects, base.value) else Some([])
  }

  /** The manifest of the version names the path. */
  ghost predicate Names(f: Format, objects: Contents, id: Id, p: Bytes) {
    VersionManifest(f, objects, id).Some? && p in PathsOf(VersionManifest(f, objects, id).value)
  }

  /** A checkout leaves an ignored file alone exactly if the target does not name its path, or names its content. */
  lemma IgnoredLeftAloneIff(f: Format, objects: Contents, before: Disk, after: Disk, ignored: Bytes -> bool,
                            m: Manifest, p: Bytes)
    requires CollisionFree(f) && AtHand(f, before) && AtHand(f, after)
    requires Sorted(m) && Materialised(f, objects, before, after, ignored, m) && ignored(p) && p in before
    ensures p in after && after[p].content == before[p].content <==>
            Content(m, p) in {None, Some(f.hash(FileKind, before[p].content))}
  {
    if p in ByPath(m) {
      ByPathNamesItself(m, p);
      var e := ByPath(m)[p];
      assert e in m && after[p].content == after[e.path].content;
    } else if p in PathsOf(m) {
      var i :| 0 <= i < |m| && PathsOf(m)[i] == p;
      ByPathCovers(m, i);
      assert false;
    } else {
      assert DiskAt(after, p) == DiskAt(before, p);
    }
  }

  /** Every entry is on disk, and of the other files only the ignored ones are left, as they were. */
  ghost predicate Materialised(f: Format, objects: Contents, before: Disk, after: Disk, ignored: Bytes -> bool,
                               m: Manifest)
  {
    && Restored(f, objects, after, m)
    && forall p | p !in PathsOf(m) :: DiskAt(after, p) == if ignored(p) then DiskAt(before, p) else None
  }

  ghost predicate Merged(f: Format, base: Manifest, theirs: Manifest, before: Disk, ignored: Bytes -> bool,
                         conflicts: seq<Conflict>, after: Disk, ours: Manifest, merged: Manifest) {
    && Rehashed(f, before, ignored, ours) && Merges(base, ours, theirs, merged, conflicts)
    && TreeOf(f, after) == Sync.Patched(TreeOf(f, before), ours, merged)
  }

  ghost predicate MergedInto(f: Format, base: Manifest, theirs: Manifest, before: Disk, ignored: Bytes -> bool,
                             conflicts: seq<Conflict>, after: Disk) {
    exists ours, merged :: Merged(f, base, theirs, before, ignored, conflicts, after, ours, merged)
  }

  /** The directory went from `before` to `after` by the merge of the base's, its own and the target's manifest. */
  ghost predicate SyncedTo(f: Format, objects: Contents, base: Option<Id>, target: Id, before: Disk,
                           ignored: Bytes -> bool, conflicts: seq<Conflict>, after: Disk, theirs: Manifest)
  {
    var baseManifest := BaseManifest(f, objects, base);
    && baseManifest.Some? && VersionManifest(f, objects, target) == Some(theirs)
    && MergedInto(f, baseManifest.value, theirs, before, ignored, conflicts, after)
  }

  /** The conflict directory holds their file of every conflict, if they have one, and nothing else. */
  ghost predicate CopiesAre(f: Format, copies: map<Bytes, Bytes>, conflicts: seq<Conflict>) {
    && (forall c | c in conflicts && c.theirs.Some? ::
          c.path in copies && f.hash(FileKind, copies[c.path]) == c.theirs.value.file)
    && (forall p | p in copies :: exists c :: c in conflicts && c.path == p && c.theirs.Some?)
  }

  lemma OneMoreCopy(f: Format, before: map<Bytes, Bytes>, after: map<Bytes, Bytes>, conflicts: seq<Conflict>, i: nat)
    requires i < |conflicts| && forall j, k | 0 <= j < k < |conflicts| :: conflicts[j].path != conflicts[k].path
    requires CopiesAre(f, before, conflicts[..i])
    requires conflicts[i].theirs.None? ==> after == before
    requires conflicts[i].theirs.Some? ==> exists content ::
      after == before[conflicts[i].path := content] && f.hash(FileKind, content) == conflicts[i].theirs.value.file
    ensures CopiesAre(f, after, conflicts[..i + 1])
  {
    assert conflicts[..i + 1] == conflicts[..i] + [conflicts[i]];
    forall c | c in conflicts[..i] ensures c.path != conflicts[i].path {
      var j :| 0 <= j < i && conflicts[j] == c;
    }
    forall c | c in conflicts[..i + 1] && c.theirs.Some?
      ensures c.path in after && f.hash(FileKind, after[c.path]) == c.theirs.value.file
    {
      if c in conflicts[..i] {
        assert c.path in before;
      }
    }
    forall p | p in after ensures exists c :: c in conflicts[..i + 1] && c.path == p && c.theirs.Some? {
      if p in before {
        var c :| c in conflicts[..i] && c.path == p && c.theirs.Some?;
        assert c in conflicts[..i + 1];
      } else {
        assert conflicts[i] in conflicts[..i + 1];
      }
    }
  }

  lemma ConflictPathsDiffer(base: Manifest, ours: Manifest, theirs: Manifest, merged: Manifest,
                            conflicts: seq<Conflict>)
    requires Merges(base, ours, theirs, merged, conflicts)
    ensures forall i, j | 0 <= i < j < |conflicts| :: conflicts[i].path != conflicts[j].path
  {
    ConflictsAreExact(base, ours, theirs, merged, conflicts, "");
    forall i, j | 0 <= i < j < |conflicts| ensures conflicts[i].path != conflicts[j].path {
      LessIsTotal(conflicts[i].path, conflicts[j].path);
    }
  }

  /** A space stands on a ref, and descends from its value. */
  function HeadAt(ref: Bytes, id: Id): Option<Head> {
    Some(Head(ref, id, Some(id)))
  }

  /** What a commit right after a sync records is what module Sync speaks about. */
  ghost predicate CommittedAfterSync(f: Format, objects: Contents, base: Option<Id>, target: Id, before: Disk,
                                     ignored: Bytes -> bool, conflicts: seq<Conflict>, after: Disk, committed: Manifest)
  {
    var ours, theirs := BaseManifest(f, objects, base), VersionManifest(f, objects, target);
    && ours.Some? && theirs.Some?
    && Sync.SyncedAndCommitted(ours.value, theirs.value, TreeOf(f, before), ignored, conflicts, TreeOf(f, after),
                               committed)
    && forall p | !ignored(p) :: Sync.TheirsKept(ours.value, theirs.value, conflicts, committed, p)
  }

  lemma CommitIsCovered(f: Format, objects: Contents, base: Option<Id>, target: Id, before: Disk,
                        ignored: Bytes -> bool, conflicts: seq<Conflict>, after: Disk, theirs: Manifest,
                        committed: Manifest)
    requires SyncedTo(f, objects, base, target, before, ignored, conflicts, after, theirs)
    requires Rehashed(f, after, ignored, committed)
    ensures CommittedAfterSync(f, objects, base, target, before, ignored, conflicts, after, committed)
  {
    var baseManifest := BaseManifest(f, objects, base).value;
    var ours, merged :| Merged(f, baseManifest, theirs, before, ignored, conflicts, after, ours, merged);
    CommitAfterSync(f, baseManifest, theirs, before, ignored, conflicts, after, ours, merged, committed);
    forall p | !ignored(p) ensures Sync.TheirsKept(baseManifest, theirs, conflicts, committed, p) {
      Sync.SyncThenCommitLosesNothing(baseManifest, theirs, TreeOf(f, before), ignored, conflicts, TreeOf(f, after),
                                      committed, p);
    }
  }

  /** A commit right after such a sync is one the no-loss theorem of module Sync speaks about. */
  lemma CommitAfterSync(f: Format, base: Manifest, theirs: Manifest, before: Disk, ignored: Bytes -> bool,
                        conflicts: seq<Conflict>, after: Disk, ours: Manifest, merged: Manifest, committed: Manifest)
    requires Merged(f, base, theirs, before, ignored, conflicts, after, ours, merged)
    requires Rehashed(f, after, ignored, committed)
    ensures Sync.SyncedAndCommitted(base, theirs, TreeOf(f, before), ignored, conflicts, TreeOf(f, after), committed)
  {
    RehashedIsScanned(f, before, ignored, ours);
    RehashedIsScanned(f, after, ignored, committed);
  }

  lemma ExtendingKeepsSound(f: Format, cache: Entries, seen: Sightings, seen': Sightings)
    requires CacheSound(f, cache, seen) && Extends(seen, seen')
    ensures CacheSound(f, cache, seen')
  {
  }

  lemma TreeAfterRestore(f: Format, before: Disk, after: Disk, e: Entry)
    requires SameElsewhere(before, after, {e.path}) && e.path in after && EntryFor(f, e.path, after[e.path]) == e
    ensures TreeOf(f, after) == TreeOf(f, before)[e.path := e.file]
  {
    forall p ensures p in after && p != e.path ==> p in before && after[p] == before[p]
             ensures p in before && p != e.path ==> p in after {
      assert p != e.path ==> DiskAt(after, p) == DiskAt(before, p);
    }
  }

  lemma TreeAfterDelete(f: Format, disk: Disk, p: Bytes)
    ensures TreeOf(f, disk - {p}) == TreeOf(f, disk) - {p}
  {
  }

  function EntryAt(cache: Entries, p: Bytes): Option<CacheEntry> {
    if p in cache then Some(cache[p]) else None
  }

  /** The cache knows the files just written as they are on disk, and all others as it did before. */
  ghost predicate UpToDate(f: Format, before: Entries, after: Entries, disk: Disk, written: seq<Entry>) {
    forall p :: UpToDateAt(f, before, after, disk, written, p)
  }

  ghost predicate UpToDateAt(f: Format, before: Entries, after: Entries, disk: Disk, written: seq<Entry>, p: Bytes) {
    if HasPath(written, p) then p in disk && EntryAt(after, p) == Some(Remember(f, p, disk[p]))
    else EntryAt(after, p) == EntryAt(before, p)
  }

  lemma UpToDateSnoc(f: Format, first: Entries, cache: Entries, before: Disk, after: Disk, entries: seq<Entry>, i: nat)
    requires i < |entries| && UpToDate(f, first, cache, before, entries[..i])
    requires SameElsewhere(before, after, {entries[i].path}) && entries[i].path in after
    ensures var p := entries[i].path;
      UpToDate(f, first, cache[p := Remember(f, p, after[p])], after, entries[..i + 1])
  {
    var cache' := cache[entries[i].path := Remember(f, entries[i].path, after[entries[i].path])];
    var written := entries[..i + 1];
    assert written == entries[..i] + [entries[i]];
    forall p ensures UpToDateAt(f, first, cache', after, written, p) {
      HasPathSnoc(entries[..i], entries[i], p);
      assert UpToDateAt(f, first, cache, before, entries[..i], p);
      assert p != entries[i].path ==> DiskAt(after, p) == DiskAt(before, p);
    }
  }

  lemma HasPathSnoc(es: seq<Entry>, e: Entry, p: Bytes)
    ensures HasPath(es + [e], p) <==> HasPath(es, p) || p == e.path
  {
    if HasPath(es, p) {
      var e' :| e' in es && e'.path == p;
      assert e' in es + [e];
    }
    assert e in es + [e];
  }

  /** After a merge: where the manifests agree the cache is as it was, what was written is known, what went is not. */
  ghost predicate CachePatched(f: Format, before: Entries, after: Entries, disk: Disk, ours: Manifest, merged: Manifest)
  {
    forall p :: CachePatchedAt(f, before, after, disk, ours, merged, p)
  }

  ghost predicate CachePatchedAt(f: Format, before: Entries, after: Entries, disk: Disk, ours: Manifest,
                                 merged: Manifest, p: Bytes)
  {
    if Content(ours, p) == Content(merged, p) then EntryAt(after, p) == EntryAt(before, p)
    else if Content(merged, p).Some? then p in disk && EntryAt(after, p) == Some(Remember(f, p, disk[p]))
    else EntryAt(after, p) == None
  }

  lemma PatchedCache(f: Format, before: Entries, remembered: Entries, written: Disk, disk: Disk, ours: Manifest,
                     merged: Manifest)
    requires Sorted(ours) && Sorted(merged)
    requires UpToDate(f, before, remembered, written, Incoming(DiffOf(ours, merged)))
    requires SameElsewhere(written, disk, PathSet(Outgoing(DiffOf(ours, merged))))
    ensures CachePatched(f, before, remembered - PathSet(Outgoing(DiffOf(ours, merged))), disk, ours, merged)
  {
    forall p
      ensures CachePatchedAt(f, before, remembered - PathSet(Outgoing(DiffOf(ours, merged))), disk, ours, merged, p)
    {
      PatchSides(ours, merged, p);
      assert UpToDateAt(f, before, remembered, written, Incoming(DiffOf(ours, merged)), p);
      PathSetHolds(Outgoing(DiffOf(ours, merged)), p);
      assert !HasPath(Outgoing(DiffOf(ours, merged)), p) ==> DiskAt(disk, p) == DiskAt(written, p);
    }
  }

  function PathSet(es: seq<Entry>): set<Bytes> {
    set e | e in es :: e.path
  }

  lemma PathSetSnoc(cache: Entries, es: seq<Entry>, i: nat)
    requires i < |es|
    ensures cache - PathSet(es[..i + 1]) == cache - PathSet(es[..i]) - {es[i].path}
  {
    assert es[..i + 1] == es[..i] + [es[i]];
  }

  lemma PathSetHolds(es: seq<Entry>, p: Bytes)
    ensures p in PathSet(es) <==> HasPath(es, p)
  {
  }

  /** A path on which the manifests differ is written if the merged one has it, and deleted if not. */
  lemma PatchSides(ours: Manifest, merged: Manifest, p: Bytes)
    requires Sorted(ours) && Sorted(merged)
    ensures HasPath(Incoming(DiffOf(ours, merged)), p) <==>
            Content(ours, p) != Content(merged, p) && Content(merged, p).Some?
    ensures HasPath(Outgoing(DiffOf(ours, merged)), p) <==>
            Content(ours, p) != Content(merged, p) && Content(merged, p).None?
  {
    PatchTouchesOnlyDifferences(ours, merged, p);
    if HasPath(Incoming(DiffOf(ours, merged)), p) {
      var e :| e in Incoming(DiffOf(ours, merged)) && e.path == p;
      IncomingIsExact(ours, merged, e);
      SortedLookup(merged, e);
    }
    if HasPath(Outgoing(DiffOf(ours, merged)), p) {
      var e :| e in Outgoing(DiffOf(ours, merged)) && e.path == p;
      OutgoingIsExact(ours, merged, e);
    }
  }

  lemma PatchLeavesAlone(ours: Manifest, merged: Manifest)
    requires Sorted(ours) && Sorted(merged)
    ensures forall p | Content(ours, p) == Content(merged, p) ::
      && p !in PathSet(Incoming(DiffOf(ours, merged)))
      && p !in PathSet(Outgoing(DiffOf(ours, merged)))
  {
    forall p | Content(ours, p) == Content(merged, p)
      ensures !HasPath(Incoming(DiffOf(ours, merged)), p) && !HasPath(Outgoing(DiffOf(ours, merged)), p)
    {
      PatchTouchesOnlyDifferences(ours, merged, p);
    }
  }

  lemma UntouchedStaysRestored(f: Format, objects: Contents, before: Disk, after: Disk, m: Manifest)
    requires Restored(f, objects, before, m) && forall p | p in PathsOf(m) :: DiskAt(after, p) == DiskAt(before, p)
    ensures Restored(f, objects, after, m)
  {
    forall e | e in m ensures e.path in after && EntryFor(f, e.path, after[e.path]) == e {
      var i :| 0 <= i < |m| && m[i] == e;
      assert PathsOf(m)[i] == e.path && e.path in PathsOf(m);
      assert DiskAt(after, e.path) == DiskAt(before, e.path);
    }
  }

  /** Every path outside `ps` has what it had. */
  ghost predicate SameElsewhere(before: Disk, after: Disk, ps: set<Bytes>) {
    forall p | p !in ps :: DiskAt(after, p) == DiskAt(before, p)
  }

  /** Every entry is on disk, and can be put there again. */
  ghost predicate Restored(f: Format, objects: Contents, disk: Disk, m: Manifest) {
    forall e | e in m :: e.path in disk && EntryFor(f, e.path, disk[e.path]) == e && Restorable(f, objects, e.file)
  }

  lemma RestoredOneMore(f: Format, objects: Contents, before: Disk, after: Disk, m: Manifest, i: nat)
    requires i < |m| && Sorted(m) && Restored(f, objects, before, m[..i]) && SameElsewhere(before, after, {m[i].path})
    requires m[i].path in after && EntryFor(f, m[i].path, after[m[i].path]) == m[i] && Restorable(f, objects, m[i].file)
    ensures Restored(f, objects, after, m[..i + 1])
  {
    forall e | e in m[..i + 1]
      ensures e.path in after && EntryFor(f, e.path, after[e.path]) == e && Restorable(f, objects, e.file)
    {
      var k :| 0 <= k <= i && m[k] == e;
      if k < i {
        assert m[k] in m[..i];
        SortedPathsDiffer(m, k, i);
        assert DiskAt(after, e.path) == DiskAt(before, e.path);
      }
    }
  }

  ghost predicate Extends(seen: Sightings, seen': Sightings) {
    forall k | k in seen :: k in seen' && seen'[k] == seen[k]
  }

  function DiskAt(disk: Disk, p: Bytes): Option<OnDisk> {
    if p in disk then Some(disk[p]) else None
  }

  lemma SortedPathsDiffer(m: Manifest, i: nat, j: nat)
    requires Sorted(m) && i < j < |m|
    ensures m[i].path != m[j].path
  {
    assert Less(PathsOf(m)[i], PathsOf(m)[j]);
    LessIsTotal(m[i].path, m[j].path);
  }

  lemma FetchedIsTheChunk(f: Format, objects: Contents, c: Bytes, data: Bytes)
    requires CollisionFree(f) && f.occurs(c) && f.occurs(data) && Fetch(f, objects, ChunkKey(f, c)) == Some(data)
    ensures data == c && objects[ChunkKey(f, c)] == c
  {
  }

  lemma FetchedOccurs(f: Format, objects: Contents, id: Id)
    requires Sound(f, objects) && Fetch(f, objects, Key(ChunkKind, id)).Some?
    ensures f.occurs(Fetch(f, objects, Key(ChunkKind, id)).value)
  {
  }

  /** A chunk that is read is the chunk the list means. */
  lemma ChunkRead(f: Format, objects: Contents, cs: seq<Bytes>, n: nat, data: Bytes)
    requires CollisionFree(f) && f.occurs(Cut.Concat(cs)) && f.occurs(data)
    requires n < |cs| && Fetch(f, objects, ChunkKey(f, cs[n])) == Some(data)
    ensures data == cs[n] && ChunkKey(f, data) in objects && objects[ChunkKey(f, data)] == data
  {
    assert cs[n] in cs;
    PiecesOccur(f, cs);
    FetchedIsTheChunk(f, objects, cs[n], data);
  }

  /** The first `n` chunks are in the store, and make up `content`. */
  ghost predicate ReadSoFar(f: Format, objects: Contents, cs: seq<Bytes>, n: nat, content: Bytes)
    requires n <= |cs|
  {
    content == Cut.Concat(cs[..n]) && Holds(f, objects, cs[..n])
  }

  lemma OneMoreChunk(f: Format, objects: Contents, cs: seq<Bytes>, n: nat, content: Bytes, data: Bytes)
    requires n < |cs| && ReadSoFar(f, objects, cs, n, content)
    requires data == cs[n] && ChunkKey(f, data) in objects && objects[ChunkKey(f, data)] == data
    ensures ReadSoFar(f, objects, cs, n + 1, content + data)
  {
    assert cs[..n + 1] == cs[..n] + [data];
    Cut.ConcatSnoc(cs[..n], data);
    HoldsSnoc(f, objects, cs[..n], data);
  }

  lemma HoldsSnoc(f: Format, objects: Contents, cs: seq<Bytes>, c: Bytes)
    requires Holds(f, objects, cs) && ChunkKey(f, c) in objects && objects[ChunkKey(f, c)] == c
    ensures Holds(f, objects, cs + [c])
  {
  }

  /** What the first chunks make up is a beginning of the content, so it is at hand. */
  lemma {:induction false} ConcatPrefix(f: Format, cs: seq<Bytes>, n: nat)
    requires CollisionFree(f) && f.occurs(Cut.Concat(cs)) && n <= |cs|
    ensures |Cut.Concat(cs[..n])| <= |Cut.Concat(cs)| && f.occurs(Cut.Concat(cs[..n]))
    decreases |cs| - n
  {
    if n < |cs| {
      ConcatPrefix(f, cs, n + 1);
      assert cs[..n + 1] == cs[..n] + [cs[n]];
      Cut.ConcatSnoc(cs[..n], cs[n]);
      var longer := Cut.Concat(cs[..n + 1]);
      assert Piece(longer, 0, |Cut.Concat(cs[..n])|) == Cut.Concat(cs[..n]);
    } else {
      assert cs[..n] == cs;
    }
  }

  lemma RememberedNext(f: Format, disk: Disk, ps: seq<Bytes>, i: nat)
    requires i < |ps| && ps[i] in disk
    ensures Remembered(f, disk, ps[..i + 1]) == Remembered(f, disk, ps[..i])[ps[i] := Remember(f, ps[i], disk[ps[i]])]
  {
    assert ps[..i + 1] == ps[..i] + [ps[i]];
  }
}
