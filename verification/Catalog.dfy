/** What the store gives back for an ID: the parsed version, manifest or file object (client/dirty.go). */
module Catalog {
  import opened Common
  import opened Graph
  import opened Objects
  import opened Store
  import Merge

  /** UnmarshalManifest validates, so its entries are sorted by path and unique. */
  ghost predicate ManifestsAreSorted(f: Format) {
    forall data | f.decodeManifest(data).Some? :: Merge.Sorted(f.decodeManifest(data).value)
  }

  function VersionKey(id: Id): Key { Key(VersionKind, id) }

  function ManifestKey(id: Id): Key { Key(ManifestKind, id) }

  function FileKey(id: Id): Key { Key(FileKind, id) }

  /** readVersion */
  function VersionAt(f: Format, objects: Contents, id: Id): Option<Version> {
    var data := Fetch(f, objects, VersionKey(id));
    if data.None? then None else f.decodeVersion(data.value)
  }

  /** readManifest */
  function ManifestAt(f: Format, objects: Contents, id: Id): Option<seq<Entry>> {
    var data := ReadManifest(f, objects, id);
    if data.None? then None else f.decodeManifest(data.value)
  }

  /** The chunk list stored under a manifest's key. */
  function ManifestObjectAt(f: Format, objects: Contents, id: Id): Option<File> {
    var data := Fetch(f, objects, ManifestKey(id));
    if data.None? then None else f.decodeFile(data.value)
  }

  /** The chunk list stored under a file's key. */
  function FileAt(f: Format, objects: Contents, id: Id): Option<File> {
    var data := Fetch(f, objects, FileKey(id));
    if data.None? then None else f.decodeFile(data.value)
  }

  function IdSet(ids: seq<Id>): set<Id> {
    set id | id in ids
  }

  function ParentsOf(f: Format, objects: Contents, id: Id): set<Id> {
    var v := VersionAt(f, objects, id);
    if v.None? then {} else set p | p in v.value.parents
  }

  function ParentEdges(f: Format, objects: Contents): Id -> set<Id> {
    id => ParentsOf(f, objects, id)
  }

  /** A version some head descends from. */
  ghost predicate InHistory(f: Format, objects: Contents, heads: set<Id>, id: Id) {
    Reaches(ParentEdges(f, objects), heads, id)
  }

  /** No version object is lost or replaced. */
  ghost predicate VersionsKept(before: Contents, after: Contents) {
    forall k | k in before && k.kind == VersionKind :: k in after && after[k] == before[k]
  }

  /** The ref is where it was, or at a child of that; and everything it led to it still leads to. */
  ghost predicate Continues(f: Format, before: Contents, after: Contents, was: Id, id: Id) {
    && (id == was || was in ParentsOf(f, after, id))
    && forall x | InHistory(f, before, {was}, x) :: InHistory(f, after, {id}, x)
  }

  /** Every ref does. */
  ghost predicate RefsContinue(f: Format, before: Contents, after: Contents, refs: map<Bytes, Id>,
                               refs': map<Bytes, Id>)
  {
    forall name | name in refs :: name in refs' && Continues(f, before, after, refs[name], refs'[name])
  }

  lemma ChildContinues(f: Format, before: Contents, after: Contents, was: Id, id: Id)
    requires VersionsKept(before, after) && (id == was || was in ParentsOf(f, after, id))
    ensures Continues(f, before, after, was, id)
  {
    forall x | InHistory(f, before, {was}, x) ensures InHistory(f, after, {id}, x) {
      MoreEdgesReachMore(ParentEdges(f, before), ParentEdges(f, after), {was}, x);
      if id != was {
        ReachedThroughEdge(ParentEdges(f, after), id, was, x);
      }
    }
  }

  /** One ref is moved, and no other. */
  lemma MovedRefContinues(f: Format, before: Contents, after: Contents, refs: map<Bytes, Id>, name: Bytes, id: Id)
    requires VersionsKept(before, after)
    requires name in refs ==> refs[name] == id || refs[name] in ParentsOf(f, after, id)
    ensures RefsContinue(f, before, after, refs, refs[name := id])
  {
    forall n | n in refs ensures Continues(f, before, after, refs[n], refs[name := id][n]) {
      ChildContinues(f, before, after, refs[n], refs[name := id][n]);
    }
  }

  lemma RefsStay(f: Format, before: Contents, after: Contents, refs: map<Bytes, Id>)
    requires VersionsKept(before, after)
    ensures RefsContinue(f, before, after, refs, refs)
  {
    forall n | n in refs ensures Continues(f, before, after, refs[n], refs[n]) {
      ChildContinues(f, before, after, refs[n], refs[n]);
    }
  }

  lemma ContinueFromEarlier(f: Format, first: Contents, before: Contents, after: Contents, refs: map<Bytes, Id>,
                            refs': map<Bytes, Id>)
    requires VersionsKept(first, before) && RefsContinue(f, before, after, refs, refs')
    ensures RefsContinue(f, first, after, refs, refs')
  {
    forall n | n in refs ensures Continues(f, first, after, refs[n], refs'[n]) {
      forall x | InHistory(f, first, {refs[n]}, x) ensures InHistory(f, after, {refs'[n]}, x) {
        MoreEdgesReachMore(ParentEdges(f, first), ParentEdges(f, before), {refs[n]}, x);
      }
    }
  }

  method GetVersion(store: ObjectStore, id: Id) returns (v: Option<Version>)
    ensures v == VersionAt(store.f, store.objects, id)
  {
    var data := store.Get(VersionKey(id));
    v := if data.None? then None else store.f.decodeVersion(data.value);
  }

  method GetEntries(store: ObjectStore, id: Id) returns (m: Option<seq<Entry>>)
    ensures m == ManifestAt(store.f, store.objects, id)
  {
    var data := GetManifest(store, id);
    m := if data.None? then None else store.f.decodeManifest(data.value);
  }

  method GetFile(store: ObjectStore, key: Key) returns (file: Option<File>)
    ensures var data := Fetch(store.f, store.objects, key);
      file == if data.None? then None else store.f.decodeFile(data.value)
  {
    var data := store.Get(key);
    file := if data.None? then None else store.f.decodeFile(data.value);
  }
}
