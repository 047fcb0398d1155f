/** The status cache of client/cache.go, and what makes it tell the truth. */
module Cache {
  import opened Common
  import opened Objects
  import opened Store
  import opened Cut

  /** A file of the working directory, with its modification time. */
  datatype OnDisk = OnDisk(content: Bytes, mtime: int)

  type Disk = map<Bytes, OnDisk>

  datatype CacheEntry = CacheEntry(path: Bytes, mtime: int, size: int, file: Id)
  {
    /** Matches: size and mtime together are the heuristic. */
    predicate Matches(d: OnDisk) {
      size == |d.content| && mtime == d.mtime
    }
  }

  type Entries = map<Bytes, CacheEntry>

  class StatusCache {
    var entries: Entries

    constructor (loaded: Entries)
      ensures entries == loaded
    {
      entries := loaded;
    }

    method Put(entry: CacheEntry)
      modifies this
      ensures entries == old(entries)[entry.path := entry]
    {
      entries := entries[entry.path := entry];
    }

    method Remove(p: Bytes)
      modifies this
      ensures entries == old(entries) - {p}
    {
      entries := entries - {p};
    }
  }

  // ----- what the cache knows -----------------------------------------------------------------

  /** A path with a size and a modification time, as stat reports them. */
  datatype Look = Look(path: Bytes, size: int, mtime: int)

  /** Every look any file of the directory ever had, with the content behind it. */
  type Sightings = map<Look, Bytes>

  function LookOf(p: Bytes, d: OnDisk): Look {
    Look(p, |d.content|, d.mtime)
  }

  function Remember(f: Format, p: Bytes, d: OnDisk): (e: CacheEntry)
    ensures e.Matches(d)
  {
    CacheEntry(p, d.mtime, |d.content|, f.hash(FileKind, d.content))
  }

  /** What is on disk has been sighted, and no sighting lies at or after the clock. */
  ghost predicate Sighted(disk: Disk, clock: int, seen: Sightings) {
    && (forall p | p in disk :: LookOf(p, disk[p]) in seen && seen[LookOf(p, disk[p])] == disk[p].content)
    && (forall p | p in disk :: |disk[p].content| <= MAX_INT64)
    && (forall k | k in seen :: k.mtime < clock)
  }

  /** An entry describes a content its path really had, under the look it records. */
  ghost predicate Truthful(f: Format, seen: Sightings, e: CacheEntry) {
    var k := Look(e.path, e.size, e.mtime);
    k in seen && e.file == f.hash(FileKind, seen[k])
  }

  ghost predicate CacheSound(f: Format, cache: Entries, seen: Sightings) {
    forall p | p in cache :: cache[p].path == p && Truthful(f, seen, cache[p])
  }

  /** A matching entry carries the hash of the file on disk. */
  lemma MatchingEntryIsTrue(f: Format, disk: Disk, clock: int, cache: Entries, seen: Sightings, p: Bytes)
    requires Sighted(disk, clock, seen) && CacheSound(f, cache, seen) && p in disk && p in cache
    requires cache[p].Matches(disk[p])
    ensures cache[p] == Remember(f, p, disk[p])
  {
    assert LookOf(p, disk[p]) in seen;
  }

  /** A write gives the path a look it never had with another content. */
  predicate Fresh(seen: Sightings, p: Bytes, d: OnDisk) {
    LookOf(p, d) in seen ==> seen[LookOf(p, d)] == d.content
  }

  function Max(a: int, b: int): int { if a < b then b else a }

  /** Any write leaves what is on disk sighted. */
  lemma WriteStaysSighted(disk: Disk, clock: int, seen: Sightings, p: Bytes, d: OnDisk)
    requires Sighted(disk, clock, seen) && |d.content| <= MAX_INT64
    ensures Sighted(disk[p := d], Max(clock, d.mtime + 1), seen[LookOf(p, d) := d.content])
  {
  }

  /** A fresh write keeps every cache sound, whether or not it knows of the write. */
  lemma WriteKeepsSound(f: Format, disk: Disk, clock: int, cache: Entries, seen: Sightings, p: Bytes, d: OnDisk)
    requires Sighted(disk, clock, seen) && CacheSound(f, cache, seen) && Fresh(seen, p, d) && |d.content| <= MAX_INT64
    ensures var seen' := seen[LookOf(p, d) := d.content];
      && Sighted(disk[p := d], Max(clock, d.mtime + 1), seen') && CacheSound(f, cache, seen')
      && Truthful(f, seen', Remember(f, p, d))
  {
    WriteStaysSighted(disk, clock, seen, p, d);
  }

  // ----- what the store must hold -------------------------------------------------------------

  /** The object under a FileID lists chunks that make up the content the ID names, a content at hand. */
  ghost predicate Lists(f: Format, objects: Contents, id: Id, cs: seq<Bytes>) {
    var data := Fetch(f, objects, Key(FileKind, id));
    && data.Some? && f.decodeFile(data.value).Some? && f.decodeFile(data.value).value.chunks == Refs(f, cs)
    && f.hash(FileKind, Concat(cs)) == id && |Concat(cs)| <= MAX_INT64 && f.occurs(Concat(cs))
  }

  /**
   The trust gap of store/verify.go: a file object is parsed, not hashed, so that it belongs to its ID
   is something its writers must see to.
   */
  ghost predicate Honest(f: Format, objects: Contents) {
    forall id | Key(FileKind, id) in objects :: exists cs :: Lists(f, objects, id, cs)
  }

  /** The content a FileID names can be put together from the store. */
  ghost predicate Restorable(f: Format, objects: Contents, id: Id) {
    exists cs :: Lists(f, objects, id, cs) && Holds(f, objects, cs)
  }

  ghost predicate Backed(f: Format, objects: Contents, cache: Entries) {
    forall p | p in cache :: Restorable(f, objects, cache[p].file)
  }
}
