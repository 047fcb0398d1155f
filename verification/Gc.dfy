/** Garbage collection: the memoised mark and the graced sweep of client/gc.go. */
module Gc {
  import opened Common
  import opened Objects
  import opened Values
  import opened Graph
  import opened Store
  import opened Catalog

  // ----- what a key keeps alive ---------------------------------------------------------------

  function ChunkKeys(file: File): set<Key> {
    set ref | ref in file.chunks :: Key(ChunkKind, ref.id)
  }

  function FileKeys(m: seq<Entry>): set<Key> {
    set e | e in m :: FileKey(e.file)
  }

  function ParentKeys(v: Version): set<Key> {
    set p | p in v.parents :: VersionKey(p)
  }

  function GraphKeys(v: Version): set<Key> {
    if v.graph == ZeroId() then {} else {Key(GraphKind, v.graph)}
  }

  /** The walk can follow the object: what it points at is known. */
  predicate Readable(f: Format, objects: Contents, k: Key) {
    match k.kind
    case VersionKind => VersionAt(f, objects, k.id).Some?
    case ManifestKind => ManifestObjectAt(f, objects, k.id).Some? && ManifestAt(f, objects, k.id).Some?
    case FileKind => FileAt(f, objects, k.id).Some?
    case _ => true
  }

  /** What an object points at. */
  function Children(f: Format, objects: Contents, k: Key): set<Key> {
    if !Readable(f, objects, k) then {}
    else match k.kind
      case VersionKind =>
        var v := VersionAt(f, objects, k.id).value; {ManifestKey(v.manifest)} + GraphKeys(v) + ParentKeys(v)
      case ManifestKind =>
        ChunkKeys(ManifestObjectAt(f, objects, k.id).value) + FileKeys(ManifestAt(f, objects, k.id).value)
      case FileKind => ChunkKeys(FileAt(f, objects, k.id).value)
      case _ => {}
  }

  function Edges(f: Format, objects: Contents): Key -> set<Key> {
    k => Children(f, objects, k)
  }

  /** The versions the refs name. */
  function Roots(refs: seq<Id>): set<Key> {
    set id | id in refs :: VersionKey(id)
  }

  /** The key closure of the refs: versions, their parents, and everything below them. */
  ghost predicate Live(f: Format, objects: Contents, refs: seq<Id>, k: Key) {
    Reaches(Edges(f, objects), Roots(refs), k)
  }

  // ----- mark ---------------------------------------------------------------------------------

  ghost predicate AllLive(f: Format, objects: Contents, refs: seq<Id>, keys: set<Key>) {
    forall k | k in keys :: Live(f, objects, refs, k)
  }

  /** A marked key has been followed: it is readable, and what it points at is marked too. */
  ghost predicate Followed(f: Format, objects: Contents, marked: set<Key>, k: Key) {
    Readable(f, objects, k) && Children(f, objects, k) <= marked
  }

  /** What the early returns rely on: a marked manifest or file, other than `open`, has been followed. */
  ghost predicate Memo(f: Format, objects: Contents, marked: set<Key>, open: set<Key>) {
    forall k | k in marked && k !in open && (k.kind == ManifestKind || k.kind == FileKind) ::
      Followed(f, objects, marked, k)
  }

  ghost predicate Blocked(f: Format, objects: Contents, refs: seq<Id>) {
    exists k :: Live(f, objects, refs, k) && !Readable(f, objects, k)
  }

  lemma ChildrenAreLive(f: Format, objects: Contents, refs: seq<Id>, k: Key)
    requires Live(f, objects, refs, k)
    ensures AllLive(f, objects, refs, Children(f, objects, k))
  {
    forall c | c in Children(f, objects, k) ensures Live(f, objects, refs, c) {
      EdgeIsReached(Edges(f, objects), Roots(refs), k, c);
    }
  }

  /** markFile */
  method MarkFile(store: ObjectStore, id: Id, marked: set<Key>, ghost refs: seq<Id>, ghost open: set<Key>)
    returns (ok: bool, marked': set<Key>)
    requires Memo(store.f, store.objects, marked, open) && FileKey(id) !in open
    requires AllLive(store.f, store.objects, refs, marked) && Live(store.f, store.objects, refs, FileKey(id))
    ensures ok ==> marked + {FileKey(id)} <= marked' && Memo(store.f, store.objects, marked', open)
    ensures ok ==> AllLive(store.f, store.objects, refs, marked')
    ensures ok ==> forall k | k in marked' - marked :: k.kind == FileKind || k.kind == ChunkKind
    ensures !ok ==> Blocked(store.f, store.objects, refs)
  {
    var key := FileKey(id);
    if key in marked {
      return true, marked;
    }
    var file := GetFile(store, key);
    if file.None? {
      assert !Readable(store.f, store.objects, key);
      return false, marked;
    }
    ChildrenAreLive(store.f, store.objects, refs, key);
    return true, marked + {key} + ChunkKeys(file.value);
  }

  /** The entry loop of markManifest. Until it is through, the manifest itself is not followed. */
  method MarkFiles(store: ObjectStore, m: seq<Entry>, marked: set<Key>, ghost refs: seq<Id>, ghost open: set<Key>)
    returns (ok: bool, marked': set<Key>)
    requires Memo(store.f, store.objects, marked, open) && forall k | k in open :: k.kind == ManifestKind
    requires AllLive(store.f, store.objects, refs, marked) && AllLive(store.f, store.objects, refs, FileKeys(m))
    ensures ok ==> marked + FileKeys(m) <= marked' && Memo(store.f, store.objects, marked', open)
    ensures ok ==> AllLive(store.f, store.objects, refs, marked')
    ensures ok ==> forall k | k in marked' - marked :: k.kind == FileKind || k.kind == ChunkKind
    ensures !ok ==> Blocked(store.f, store.objects, refs)
  {
    marked' := marked;
    for i := 0 to |m|
      invariant marked <= marked' && forall j | 0 <= j < i :: FileKey(m[j].file) in marked'
      invariant Memo(store.f, store.objects, marked', open) && AllLive(store.f, store.objects, refs, marked')
      invariant forall k | k in marked' - marked :: k.kind == FileKind || k.kind == ChunkKind
    {
      assert FileKey(m[i].file) in FileKeys(m);
      ok, marked' := MarkFile(store, m[i].file, marked', refs, open);
      if !ok {
        return;
      }
    }
    ok := true;
  }

  /** A manifest whose chunks and files are marked has been followed. */
  lemma ManifestFollowed(f: Format, objects: Contents, id: Id, marked: set<Key>)
    requires Memo(f, objects, marked, {ManifestKey(id)}) && Readable(f, objects, ManifestKey(id))
    requires ChunkKeys(ManifestObjectAt(f, objects, id).value) + FileKeys(ManifestAt(f, objects, id).value) <= marked
    ensures Memo(f, objects, marked, {})
  {
    assert Followed(f, objects, marked, ManifestKey(id));
  }

  /** Of versions, at most `versions` were marked meanwhile. */
  ghost predicate NewVersions(before: set<Key>, after: set<Key>, versions: set<Key>) {
    forall k | k in after && k !in before && k.kind == VersionKind :: k in versions
  }

  lemma NewVersionsCompose(first: set<Key>, second: set<Key>, third: set<Key>, versions: set<Key>)
    requires NewVersions(first, second, versions) && NewVersions(second, third, {})
    ensures NewVersions(first, third, versions)
  {
  }

  /** markManifest */
  method MarkManifest(store: ObjectStore, id: Id, marked: set<Key>, ghost refs: seq<Id>)
    returns (ok: bool, marked': set<Key>)
    requires Memo(store.f, store.objects, marked, {})
    requires AllLive(store.f, store.objects, refs, marked) && Live(store.f, store.objects, refs, ManifestKey(id))
    ensures ok ==> marked + {ManifestKey(id)} <= marked' && Memo(store.f, store.objects, marked', {})
    ensures ok ==> AllLive(store.f, store.objects, refs, marked')
    ensures ok ==> NewVersions(marked, marked', {})
    ensures !ok ==> Blocked(store.f, store.objects, refs)
  {
    var key := ManifestKey(id);
    if key in marked {
      return true, marked;
    }
    var listing := GetFile(store, key);
    var entries := GetEntries(store, id);
    if listing.None? || entries.None? {
      assert !Readable(store.f, store.objects, key);
      return false, marked;
    }
    ChildrenAreLive(store.f, store.objects, refs, key);
    ok, marked' := MarkFiles(store, entries.value, marked + {key} + ChunkKeys(listing.value), refs, {key});
    if ok {
      ManifestFollowed(store.f, store.objects, id, marked');
    }
  }

  /** markVersion */
  method MarkVersion(store: ObjectStore, id: Id, marked: set<Key>, ghost refs: seq<Id>)
    returns (v: Option<Version>, marked': set<Key>)
    requires Memo(store.f, store.objects, marked, {})
    requires AllLive(store.f, store.objects, refs, marked) && Live(store.f, store.objects, refs, VersionKey(id))
    ensures v.Some? ==> v == VersionAt(store.f, store.objects, id)
    ensures v.Some? ==> Memo(store.f, store.objects, marked', {}) && AllLive(store.f, store.objects, refs, marked')
    ensures v.Some? ==> marked + {VersionKey(id), ManifestKey(v.value.manifest)} + GraphKeys(v.value) <= marked'
    ensures v.Some? ==> NewVersions(marked, marked', {VersionKey(id)})
    ensures v.None? ==> Blocked(store.f, store.objects, refs)
  {
    v := GetVersion(store, id);
    if v.None? {
      assert !Readable(store.f, store.objects, VersionKey(id));
      return v, marked;
    }
    ChildrenAreLive(store.f, store.objects, refs, VersionKey(id));
    marked' := marked + {VersionKey(id)} + GraphKeys(v.value);
    ghost var before := marked';
    var ok;
    ok, marked' := MarkManifest(store, v.value.manifest, marked', refs);
    if !ok {
      return None, marked';
    }
    NewVersionsCompose(marked, before, marked', {VersionKey(id)});
  }

  /** Between two rounds: what is seen is marked and followed, except that its parents may be pending. */
  ghost predicate Marking(f: Format, objects: Contents, refs: seq<Id>, pending: seq<Id>, seen: set<Id>,
                          marked: set<Key>)
  {
    && Memo(f, objects, marked, {}) && AllLive(f, objects, refs, marked)
    && PendingLive(f, objects, refs, pending)
    && (forall id | id in refs :: id in seen || id in pending)
    && (forall k | k in marked && k.kind == VersionKind :: k.id in seen)
    && AllDone(f, objects, pending, seen, marked)
  }

  ghost predicate PendingLive(f: Format, objects: Contents, refs: seq<Id>, pending: seq<Id>) {
    forall id | id in pending :: Live(f, objects, refs, VersionKey(id))
  }

  ghost predicate AllDone(f: Format, objects: Contents, pending: seq<Id>, seen: set<Id>, marked: set<Key>) {
    forall id | id in seen :: VersionDone(f, objects, pending, seen, marked, id)
  }

  ghost predicate VersionDone(f: Format, objects: Contents, pending: seq<Id>, seen: set<Id>, marked: set<Key>, id: Id) {
    && VersionKey(id) in marked && VersionAt(f, objects, id).Some?
    && var v := VersionAt(f, objects, id).value;
      && {ManifestKey(v.manifest)} + GraphKeys(v) <= marked
      && forall p | p in v.parents :: p in seen || p in pending
  }

  function VersionIds(objects: Contents): set<Id> {
    set k | k in objects && k.kind == VersionKind :: k.id
  }

  /** One round: the version just marked is seen, and its parents are pending. */
  lemma MarkedOneMore(f: Format, objects: Contents, refs: seq<Id>, pending: seq<Id>, seen: set<Id>, marked: set<Key>,
                      rest: seq<Id>, current: Id, marked': set<Key>)
    requires pending == rest + [current] && Marking(f, objects, refs, pending, seen, marked)
    requires VersionAt(f, objects, current).Some?
    requires Memo(f, objects, marked', {}) && AllLive(f, objects, refs, marked')
    requires var v := VersionAt(f, objects, current).value;
      marked + {VersionKey(current), ManifestKey(v.manifest)} + GraphKeys(v) <= marked'
    requires NewVersions(marked, marked', {VersionKey(current)})
    ensures Marking(f, objects, refs, rest + VersionAt(f, objects, current).value.parents, seen + {current}, marked')
  {
    PendingOneMore(f, objects, refs, rest, current);
    DoneOneMore(f, objects, rest, current, seen, marked, marked');
    assert forall id | id in refs && id !in seen :: id in rest + [current];
  }

  lemma PendingOneMore(f: Format, objects: Contents, refs: seq<Id>, rest: seq<Id>, current: Id)
    requires PendingLive(f, objects, refs, rest + [current]) && VersionAt(f, objects, current).Some?
    ensures PendingLive(f, objects, refs, rest + VersionAt(f, objects, current).value.parents)
  {
    assert current in rest + [current] && forall id | id in rest :: id in rest + [current];
    ParentsAreLive(f, objects, refs, current);
  }

  lemma DoneOneMore(f: Format, objects: Contents, rest: seq<Id>, current: Id, seen: set<Id>, marked: set<Key>,
                    marked': set<Key>)
    requires AllDone(f, objects, rest + [current], seen, marked) && VersionAt(f, objects, current).Some?
    requires var v := VersionAt(f, objects, current).value;
      marked + {VersionKey(current), ManifestKey(v.manifest)} + GraphKeys(v) <= marked'
    ensures AllDone(f, objects, rest + VersionAt(f, objects, current).value.parents, seen + {current}, marked')
  {
    var v := VersionAt(f, objects, current).value;
    forall id | id in seen ensures VersionDone(f, objects, rest + v.parents, seen + {current}, marked', id) {
      DoneStaysDone(f, objects, rest, current, seen, marked, v.parents, marked', id);
    }
  }

  lemma ParentsAreLive(f: Format, objects: Contents, refs: seq<Id>, id: Id)
    requires Live(f, objects, refs, VersionKey(id)) && VersionAt(f, objects, id).Some?
    ensures forall p | p in VersionAt(f, objects, id).value.parents :: Live(f, objects, refs, VersionKey(p))
  {
    ChildrenAreLive(f, objects, refs, VersionKey(id));
    var v := VersionAt(f, objects, id).value;
    assert forall p | p in v.parents :: VersionKey(p) in ParentKeys(v);
  }

  lemma DoneStaysDone(f: Format, objects: Contents, rest: seq<Id>, current: Id, seen: set<Id>, marked: set<Key>,
                      parents: seq<Id>, marked': set<Key>, id: Id)
    requires VersionDone(f, objects, rest + [current], seen, marked, id) && marked <= marked'
    ensures VersionDone(f, objects, rest + parents, seen + {current}, marked', id)
  {
  }

  lemma MarkedIsFollowed(f: Format, objects: Contents, refs: seq<Id>, seen: set<Id>, marked: set<Key>, k: Key)
    requires Marking(f, objects, refs, [], seen, marked) && k in marked
    ensures Followed(f, objects, marked, k)
  {
    if k.kind == VersionKind {
      assert VersionDone(f, objects, [], seen, marked, k.id);
      assert k == VersionKey(k.id);
      forall p | p in VersionAt(f, objects, k.id).value.parents ensures VersionKey(p) in marked {
        assert VersionDone(f, objects, [], seen, marked, p);
      }
    }
  }

  lemma ClosureIsMarked(f: Format, objects: Contents, refs: seq<Id>, seen: set<Id>, marked: set<Key>)
    requires Marking(f, objects, refs, [], seen, marked)
    ensures forall k :: k in marked <==> Live(f, objects, refs, k)
    ensures !Blocked(f, objects, refs)
  {
    forall k | k in marked ensures Followed(f, objects, marked, k) {
      MarkedIsFollowed(f, objects, refs, seen, marked, k);
    }
    forall id | id in refs ensures VersionKey(id) in marked {
      assert VersionDone(f, objects, [], seen, marked, id);
    }
    forall k | Live(f, objects, refs, k) ensures k in marked {
      ClosedSetHoldsReached(Edges(f, objects), Roots(refs), marked, k);
    }
  }

  /** One round of the walk, for a version not seen before. */
  method Follow(store: ObjectStore, rest: seq<Id>, current: Id, seen: set<Id>, marked: set<Key>, ghost refs: seq<Id>)
    returns (parents: Option<seq<Id>>, marked': set<Key>)
    requires Marking(store.f, store.objects, refs, rest + [current], seen, marked)
    ensures parents.Some? ==> current in VersionIds(store.objects)
    ensures parents.Some? ==> Marking(store.f, store.objects, refs, rest + parents.value, seen + {current}, marked')
    ensures parents.None? ==> Blocked(store.f, store.objects, refs)
  {
    assert current in rest + [current];
    var v;
    v, marked' := MarkVersion(store, current, marked, refs);
    if v.None? {
      return None, marked;
    }
    MarkedOneMore(store.f, store.objects, refs, rest + [current], seen, marked, rest, current, marked');
    assert VersionKey(current) in store.objects;
    parents := Some(v.value.parents);
  }

  lemma SeenAlready(f: Format, objects: Contents, refs: seq<Id>, rest: seq<Id>, current: Id, seen: set<Id>,
                    marked: set<Key>)
    requires Marking(f, objects, refs, rest + [current], seen, marked) && current in seen
    ensures Marking(f, objects, refs, rest, seen, marked)
  {
    assert forall id | id in rest :: id in rest + [current];
    assert AllDone(f, objects, rest, seen, marked) by {
      forall id | id in seen ensures VersionDone(f, objects, rest, seen, marked, id) {
        assert VersionDone(f, objects, rest + [current], seen, marked, id);
      }
    }
  }

  /** reachableObjects: exactly the key closure of the refs, or the walk met something it cannot read. */
  method ReachableObjects(store: ObjectStore, refs: seq<Id>) returns (result: Option<set<Key>>)
    ensures result.Some? ==> forall k :: k in result.value <==> Live(store.f, store.objects, refs, k)
    ensures result.None? <==> Blocked(store.f, store.objects, refs)
  {
    var marked: set<Key>, seen: set<Id>, pending := {}, {}, refs;
    forall id | id in refs ensures Live(store.f, store.objects, refs, VersionKey(id)) {
      RootIsReached(Edges(store.f, store.objects), Roots(refs), VersionKey(id));
    }
    while pending != []
      invariant Marking(store.f, store.objects, refs, pending, seen, marked)
      decreases VersionIds(store.objects) - seen, |pending|
    {
      var current := pending[|pending| - 1];
      var rest := pending[..|pending| - 1];
      assert pending == rest + [current];
      if current in seen {
        SeenAlready(store.f, store.objects, refs, rest, current, seen, marked);
        pending := rest;
      } else {
        var parents;
        parents, marked := Follow(store, rest, current, seen, marked, refs);
        if parents.None? {
          return None;
        }
        seen := seen + {current};
        pending := rest + parents.value;
      }
    }
    ClosureIsMarked(store.f, store.objects, refs, seen, marked);
    return Some(marked);
  }

  // ----- sweep --------------------------------------------------------------------------------

  /** One object found on disk. */
  datatype Candidate = Candidate(key: Key, size: nat, modified: int)

  datatype Policy = Policy(grace: int, now: int, dryRun: bool)

  const GRACE_DEFAULT: int := 3600 * 1_000_000_000

  datatype Verdict = Kept | Spared | Doomed

  /** A negative grace switches the protection of young objects off. */
  function Judge(c: Candidate, live: set<Key>, policy: Policy): Verdict {
    if c.key in live then Kept
    else if policy.grace >= 0 && policy.now - c.modified < policy.grace then Spared
    else Doomed
  }

  function Judged(cs: seq<Candidate>, live: set<Key>, policy: Policy, v: Verdict): (r: seq<Candidate>)
    ensures forall c :: c in r <==> c in cs && Judge(c, live, policy) == v
  {
    if cs == [] then []
    else
      var init, last := Judged(cs[..|cs| - 1], live, policy, v), cs[|cs| - 1];
      assert cs == cs[..|cs| - 1] + [last];
      if Judge(last, live, policy) == v then init + [last] else init
  }

  function TotalSize(cs: seq<Candidate>): nat {
    if cs == [] then 0 else TotalSize(cs[..|cs| - 1]) + cs[|cs| - 1].size
  }

  datatype Result = Result(reachable: nat, scanned: nat, deleted: nat, spared: nat, bytes: nat)

  /** The counts after sweeping over `cs`. */
  function Tally(start: Result, cs: seq<Candidate>, live: set<Key>, policy: Policy): Result {
    var doomed := Judged(cs, live, policy, Doomed);
    Result(start.reachable, start.scanned, |doomed|, |Judged(cs, live, policy, Spared)|, TotalSize(doomed))
  }

  /** What sweeping over `cs` removes. */
  function Gone(cs: seq<Candidate>, live: set<Key>, policy: Policy): set<Key> {
    if policy.dryRun then {} else set c | c in cs && Judge(c, live, policy) == Doomed :: c.key
  }

  lemma TallySnoc(start: Result, cs: seq<Candidate>, c: Candidate, live: set<Key>, policy: Policy)
    ensures var t := Tally(start, cs, live, policy);
      Tally(start, cs + [c], live, policy) == match Judge(c, live, policy)
        case Kept => t
        case Spared => t.(spared := t.spared + 1)
        case Doomed => t.(deleted := t.deleted + 1, bytes := t.bytes + c.size)
    ensures Gone(cs + [c], live, policy) == Gone(cs, live, policy) +
      if !policy.dryRun && Judge(c, live, policy) == Doomed then {c.key} else {}
  {
    assert (cs + [c])[..|cs|] == cs;
    var doomed := Judged(cs, live, policy, Doomed);
    assert (doomed + [c])[..|doomed|] == doomed;
  }

  /** Every candidate is counted once. */
  lemma {:induction false} EveryCandidateIsCounted(cs: seq<Candidate>, live: set<Key>, policy: Policy)
    ensures |cs| ==
            |Judged(cs, live, policy, Kept)| + |Judged(cs, live, policy, Spared)| + |Judged(cs, live, policy, Doomed)|
  {
    if cs != [] {
      EveryCandidateIsCounted(cs[..|cs| - 1], live, policy);
    }
  }

  lemma RemoveOneMore(objects: Contents, gone: set<Key>, k: Key)
    ensures objects - (gone + {k}) == (objects - gone) - {k}
  {
  }

  /** What the sweep has done after `n` candidates. */
  ghost predicate SweptTo(before: Contents, objects: Contents, start: Result, result: Result, cs: seq<Candidate>,
                          n: nat, live: set<Key>, policy: Policy)
    requires n <= |cs|
  {
    objects == before - Gone(cs[..n], live, policy) && result == Tally(start, cs[..n], live, policy)
  }

  lemma SweptOneMore(before: Contents, objects: Contents, start: Result, result: Result, cs: seq<Candidate>, i: nat,
                     live: set<Key>, policy: Policy)
    requires i < |cs| && SweptTo(before, objects, start, result, cs, i, live, policy)
    ensures var c, verdict := cs[i], Judge(cs[i], live, policy);
      SweptTo(before, if verdict == Doomed && !policy.dryRun then objects - {c.key} else objects, start,
              match verdict
              case Kept => result
              case Spared => result.(spared := result.spared + 1)
              case Doomed => result.(deleted := result.deleted + 1, bytes := result.bytes + c.size),
              cs, i + 1, live, policy)
  {
    var done, c, verdict := cs[..i], cs[i], Judge(cs[i], live, policy);
    assert cs[..i + 1] == done + [c];
    TallySnoc(start, done, c, live, policy);
    if verdict == Doomed && !policy.dryRun {
      RemoveOneMore(before, Gone(done, live, policy), c.key);
    } else {
      assert Gone(done, live, policy) + {} == Gone(done, live, policy);
    }
  }

  /** sweep: delete what is doomed, up to the first deletion that fails. */
  method Sweep(store: ObjectStore, candidates: seq<Candidate>, live: set<Key>, policy: Policy, start: Result)
    returns (ok: bool, result: Result, ghost n: nat)
    requires store.Valid() && start.deleted == start.spared == start.bytes == 0
    modifies store
    ensures store.Valid()
    ensures n <= |candidates| && (ok ==> n == |candidates|)
    ensures store.objects == old(store.objects) - Gone(candidates[..n], live, policy)
    ensures result == Tally(start, candidates[..n], live, policy)
  {
    result := start;
    n := 0;
    for i := 0 to |candidates|
      invariant n == i && store.Valid()
      invariant SweptTo(old(store.objects), store.objects, start, result, candidates, i, live, policy)
    {
      var c := candidates[i];
      SweptOneMore(old(store.objects), store.objects, start, result, candidates, i, live, policy);
      if c.key !in live {
        if policy.grace >= 0 && policy.now - c.modified < policy.grace {
          result := result.(spared := result.spared + 1);
        } else {
          if !policy.dryRun {
            ok := store.Delete(c.key);
            if !ok {
              return;
            }
          }
          result := result.(deleted := result.deleted + 1, bytes := result.bytes + c.size);
        }
      }
      n := i + 1;
    }
    ok := true;
  }

  datatype Outcome = Collected(result: Result) | Unreadable | Unlistable | Interrupted(result: Result)

  /** Found on disk, outside the grace window, and no ref leads to it. */
  ghost predicate Condemned(f: Format, objects: Contents, refs: seq<Id>, candidates: seq<Candidate>, options: Policy,
                            k: Key)
  {
    !Live(f, objects, refs, k) && exists c :: c in candidates && c.key == k && Old(c, options)
  }

  predicate AnHourOld(candidates: seq<Candidate>, now: int, k: Key) {
    exists c :: c in candidates && c.key == k && now - c.modified >= 3_600_000_000_000
  }

  lemma CondemnedIsOld(f: Format, objects: Contents, refs: seq<Id>, candidates: seq<Candidate>, options: Policy)
    requires options.grace == 0
    ensures forall k | Condemned(f, objects, refs, candidates, options, k) :: AnHourOld(candidates, options.now, k)
  {
  }

  /**
   Collect. A mark that fails deletes nothing. Otherwise only condemned objects go; if no deletion fails
   all of them are gone, and every candidate is counted as live, spared or deleted.
   */
  method Collect(store: ObjectStore, refs: seq<Id>, candidates: Option<seq<Candidate>>, options: Policy)
    returns (outcome: Outcome)
    requires store.Valid()
    modifies store
    ensures store.Valid()
    ensures outcome.Unreadable? <==> Blocked(store.f, old(store.objects), refs)
    ensures outcome.Unreadable? || outcome.Unlistable? || options.dryRun ==> store.objects == old(store.objects)
    ensures Spares(store.f, old(store.objects), refs, store.objects)
    ensures candidates.Some? ==> forall k | k in old(store.objects) && k !in store.objects ::
      Condemned(store.f, old(store.objects), refs, candidates.value, options, k)
    ensures candidates.Some? && options.grace == 0 ==> forall k | k in old(store.objects) && k !in store.objects ::
      AnHourOld(candidates.value, options.now, k)
    ensures outcome.Collected? ==> candidates.Some? && (!options.dryRun ==>
      forall k | Condemned(store.f, old(store.objects), refs, candidates.value, options, k) :: k !in store.objects)
    ensures outcome.Collected? ==> AddsUp(store.f, old(store.objects), refs, candidates.value, options, outcome.result)
  {
    var policy := if options.grace == 0 then options.(grace := GRACE_DEFAULT) else options;
    var live := ReachableObjects(store, refs);
    if live.None? {
      return Unreadable;
    }
    if candidates.None? {
      return Unlistable;
    }
    var cs := candidates.value;
    if options.grace == 0 {
      CondemnedIsOld(store.f, store.objects, refs, cs, options);
    }
    var ok, result, n := Sweep(store, cs, live.value, policy, Result(|live.value|, |cs|, 0, 0, 0));
    assert cs[..|cs|] == cs;
    assert forall c | c in cs[..n] :: c in cs;
    assert forall c | c in cs :: Judge(c, live.value, policy) == Doomed <==> c.key !in live.value && Old(c, options);
    if ok {
      EveryCandidateIsCounted(cs, live.value, policy);
      assert Counts(store.f, old(store.objects), refs, cs, options, result, live.value,
                    Judged(cs, live.value, policy, Kept), Judged(cs, live.value, policy, Doomed));
      return Collected(result);
    }
    return Interrupted(result);
  }

  /** Scanned = live + Spared + Deleted, and Bytes is what the deleted ones held. */
  ghost predicate AddsUp(f: Format, objects: Contents, refs: seq<Id>, candidates: seq<Candidate>, options: Policy,
                         result: Result)
  {
    exists live, kept, doomed :: Counts(f, objects, refs, candidates, options, result, live, kept, doomed)
  }

  ghost predicate Counts(f: Format, objects: Contents, refs: seq<Id>, candidates: seq<Candidate>, options: Policy,
                         result: Result, live: set<Key>, kept: seq<Candidate>, doomed: seq<Candidate>) {
    && (forall k :: k in live <==> Live(f, objects, refs, k))
    && (forall c :: c in kept <==> c in candidates && c.key in live)
    && (forall c :: c in doomed <==> c in candidates && c.key !in live && Old(c, options))
    && result.reachable == |live| && result.deleted == |doomed| && result.bytes == TotalSize(doomed)
    && result.scanned == |candidates| == |kept| + result.spared + result.deleted
  }

  /** Outside the grace window. */
  predicate Old(c: Candidate, options: Policy) {
    var grace := if options.grace == 0 then GRACE_DEFAULT else options.grace;
    grace < 0 || options.now - c.modified >= grace
  }

  /** Only objects that no ref leads to are missing. */
  ghost predicate Spares(f: Format, before: Contents, refs: seq<Id>, after: Contents) {
    && (forall k | k in after :: k in before && after[k] == before[k])
    && (forall k | k in before && Live(f, before, refs, k) :: k in after)
  }

  // ----- what a collection leaves readable ----------------------------------------------------

  /** What the walk from the refs reaches of versions is their history: parents, and nothing else. */
  lemma LiveVersionsAreHistory(f: Format, objects: Contents, refs: seq<Id>, id: Id)
    ensures Live(f, objects, refs, VersionKey(id)) <==> InHistory(f, objects, IdSet(refs), id)
  {
    if p :| Leads(Edges(f, objects), Roots(refs), p, VersionKey(id)) {
      PathIsHistory(f, objects, refs, p);
    }
    if p :| Leads(ParentEdges(f, objects), IdSet(refs), p, id) {
      HistoryIsLive(f, objects, refs, p);
    }
  }

  lemma {:induction false} PathIsHistory(f: Format, objects: Contents, refs: seq<Id>, p: seq<Key>)
    requires Path(Edges(f, objects), p) && p[0] in Roots(refs) && p[|p| - 1].kind == VersionKind
    ensures InHistory(f, objects, IdSet(refs), p[|p| - 1].id)
  {
    var last := p[|p| - 1];
    if |p| == 1 {
      RootIsReached(ParentEdges(f, objects), IdSet(refs), last.id);
    } else {
      var parent := p[|p| - 2];
      assert last in Children(f, objects, parent);
      PathIsHistory(f, objects, refs, p[..|p| - 1]);
      EdgeIsReached(ParentEdges(f, objects), IdSet(refs), parent.id, last.id);
    }
  }

  lemma {:induction false} HistoryIsLive(f: Format, objects: Contents, refs: seq<Id>, p: seq<Id>)
    requires Path(ParentEdges(f, objects), p) && p[0] in IdSet(refs)
    ensures Live(f, objects, refs, VersionKey(p[|p| - 1]))
  {
    var last := p[|p| - 1];
    if |p| == 1 {
      RootIsReached(Edges(f, objects), Roots(refs), VersionKey(last));
    } else {
      var child := p[|p| - 2];
      HistoryIsLive(f, objects, refs, p[..|p| - 1]);
      assert VersionKey(last) in Children(f, objects, VersionKey(child));
      EdgeIsReached(Edges(f, objects), Roots(refs), VersionKey(child), VersionKey(last));
    }
  }

  lemma LiveObjectsReadTheSame(f: Format, before: Contents, refs: seq<Id>, after: Contents, k: Key)
    requires Spares(f, before, refs, after) && Live(f, before, refs, k) && Readable(f, before, k)
    ensures Fetch(f, after, k) == Fetch(f, before, k)
    ensures Readable(f, after, k) && Children(f, after, k) == Children(f, before, k)
    ensures k.kind == ManifestKind ==> ManifestAt(f, after, k.id) == ManifestAt(f, before, k.id)
  {
    ChildrenAreLive(f, before, refs, k);
    if k.kind == ManifestKind {
      var listing := ManifestObjectAt(f, before, k.id).value;
      forall i | 0 <= i < |listing.chunks|
        ensures var c := Key(ChunkKind, listing.chunks[i].id); c in before ==> c in after && after[c] == before[c]
      {
        assert Key(ChunkKind, listing.chunks[i].id) in ChunkKeys(listing);
      }
      ReadChunksFrame(f, before, after, listing.chunks);
    }
  }

  /**
   After a collection every version in the history of a ref is still there, and its graph if it had one; its
   manifest lists the same entries, and every entry whose content could be put together before still gives
   the same bytes.
   */
  lemma CollectionKeepsHistory(f: Format, before: Contents, refs: seq<Id>, after: Contents, id: Id)
    requires Spares(f, before, refs, after) && !Blocked(f, before, refs)
    requires InHistory(f, before, IdSet(refs), id)
    ensures VersionAt(f, after, id).Some? && VersionAt(f, after, id) == VersionAt(f, before, id)
    ensures var graph := Key(GraphKind, VersionAt(f, before, id).value.graph);
            graph.id != ZeroId() && graph in before ==> graph in after && after[graph] == before[graph]
    ensures var m := VersionAt(f, before, id).value.manifest;
      && ManifestAt(f, after, m).Some? && ManifestAt(f, after, m) == ManifestAt(f, before, m)
      && forall e | e in ManifestAt(f, before, m).value ::
           && FileAt(f, after, e.file).Some? && FileAt(f, after, e.file) == FileAt(f, before, e.file)
           && var refs := FileAt(f, before, e.file).value.chunks;
              ReadChunks(f, before, refs).Some? ==> ReadChunks(f, after, refs) == ReadChunks(f, before, refs)
  {
    LiveVersionsAreHistory(f, before, refs, id);
    LiveObjectsReadTheSame(f, before, refs, after, VersionKey(id));
    ChildrenAreLive(f, before, refs, VersionKey(id));
    var m := VersionAt(f, before, id).value.manifest;
    LiveObjectsReadTheSame(f, before, refs, after, ManifestKey(m));
    ChildrenAreLive(f, before, refs, ManifestKey(m));
    forall e | e in ManifestAt(f, before, m).value
      ensures FileAt(f, after, e.file).Some? && FileAt(f, after, e.file) == FileAt(f, before, e.file)
      ensures var refs := FileAt(f, before, e.file).value.chunks;
              ReadChunks(f, before, refs).Some? ==> ReadChunks(f, after, refs) == ReadChunks(f, before, refs)
    {
      assert FileKey(e.file) in FileKeys(ManifestAt(f, before, m).value);
      LiveContentReadsTheSame(f, before, refs, after, e.file);
    }
  }

  lemma LiveContentReadsTheSame(f: Format, before: Contents, refs: seq<Id>, after: Contents, id: Id)
    requires Spares(f, before, refs, after) && !Blocked(f, before, refs) && Live(f, before, refs, FileKey(id))
    ensures FileAt(f, after, id).Some? && FileAt(f, after, id) == FileAt(f, before, id)
    ensures var chunks := FileAt(f, before, id).value.chunks;
            ReadChunks(f, before, chunks).Some? ==> ReadChunks(f, after, chunks) == ReadChunks(f, before, chunks)
  {
    LiveObjectsReadTheSame(f, before, refs, after, FileKey(id));
    ChildrenAreLive(f, before, refs, FileKey(id));
    var file := FileAt(f, before, id).value;
    forall i | 0 <= i < |file.chunks|
      ensures var c := Key(ChunkKind, file.chunks[i].id); c in before ==> c in after && after[c] == before[c]
    {
      assert Key(ChunkKind, file.chunks[i].id) in ChunkKeys(file);
    }
    if ReadChunks(f, before, file.chunks).Some? {
      ReadChunksFrame(f, before, after, file.chunks);
    }
  }

  /** What the refs lead to is the same afterwards, so a second collection finds the same objects live. */
  lemma CollectionKeepsClosure(f: Format, before: Contents, refs: seq<Id>, after: Contents, k: Key)
    requires Spares(f, before, refs, after) && !Blocked(f, before, refs)
    ensures Live(f, before, refs, k) ==> Live(f, after, refs, k) && Readable(f, after, k)
  {
    if Live(f, before, refs, k) {
      forall c | Live(f, before, refs, c) ensures Edges(f, after)(c) == Edges(f, before)(c) {
        LiveObjectsReadTheSame(f, before, refs, after, c);
      }
      var p :| Leads(Edges(f, before), Roots(refs), p, k);
      SameEdgesSamePath(Edges(f, before), Edges(f, after), Roots(refs), p);
      assert Leads(Edges(f, after), Roots(refs), p, k);
      LiveObjectsReadTheSame(f, before, refs, after, k);
    }
  }
}
