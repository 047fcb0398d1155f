/**
 Any number of spaces and collections on one shared store: a step system over the shared writes of
 snapshot, commit, promote, checkout, sync, expiry and collection, in any interleaving, with a crash or
 an error possible between any two writes.

 An ID is represented by the object it names, since a hash is injective; that also makes the parent
 relation well-founded. Each space runs one command at a time.
 */
module Protocol {
  import opened Common

  // ----- objects ------------------------------------------------------------------------------

  datatype File = File(path: Bytes, content: Bytes)

  type Listing = seq<File>

  datatype Ver = Ver(manifest: Listing, parents: seq<Ver>, expires: bool, note: Bytes)

  datatype Obj = ChunkObj(data: Bytes) | FileObj(content: Bytes) | ManifestObj(m: Listing) | VersionObj(v: Ver)

  /** How contents and serialised manifests are cut; see the chunker. */
  datatype Layout = Layout(filePieces: Bytes -> seq<Bytes>, manifestPieces: Listing -> seq<Bytes>)

  function Chunks(pieces: seq<Bytes>): (os: seq<Obj>)
    ensures |os| == |pieces| && forall i | 0 <= i < |os| :: os[i] == ChunkObj(pieces[i])
  {
    seq(|pieces|, i requires 0 <= i < |pieces| => ChunkObj(pieces[i]))
  }

  /** What an object refers to. */
  function Needs(l: Layout, o: Obj): set<Obj> {
    match o
    case ChunkObj(_) => {}
    case FileObj(c) => set p | p in l.filePieces(c) :: ChunkObj(p)
    case ManifestObj(m) => (set p | p in l.manifestPieces(m) :: ChunkObj(p)) + (set f | f in m :: FileObj(f.content))
    case VersionObj(v) => {ManifestObj(v.manifest)} + (set p | p in v.parents :: VersionObj(p))
  }

  function FileClosure(l: Layout, content: Bytes): set<Obj> {
    {FileObj(content)} + Needs(l, FileObj(content))
  }

  function ManifestClosure(l: Layout, m: Listing): set<Obj> {
    {ManifestObj(m)} + Needs(l, ManifestObj(m)) + set f, o | f in m && o in FileClosure(l, f.content) :: o
  }

  /** Everything a version needs: its parents' closures, its manifest, the files of it, and all their chunks. */
  function VersionClosure(l: Layout, v: Ver): set<Obj> {
    {VersionObj(v)} + ManifestClosure(l, v.manifest) + set p, o | p in v.parents && o in VersionClosure(l, p) :: o
  }

  /** What the mark from these roots marks; see the mark itself. */
  function RootsClosure(l: Layout, roots: set<Ver>): set<Obj> {
    set v, o | v in roots && o in VersionClosure(l, v) :: o
  }

  // ----- state --------------------------------------------------------------------------------

  type Name = Bytes

  const DEFAULT_REF: Name := "main"
  const SNAPSHOTS: Name := "snapshots/"
  const PROMOTED: Name := "promoted/"

  predicate OnTimeline(name: Name) {
    SNAPSHOTS <= name
  }

  /** Where a space stands. A missing `base` means it never committed. */
  datatype Head = Head(ref: Name, version: Ver, base: Option<Ver>)

  datatype Job = Snap | Commit

  /** The shared steps a command still has to take. */
  datatype Pc =
    | Idle
    | Uploading(job: Job, m: Listing, todo: seq<Obj>)          // scan and putManifest
    | Adopting(job: Job, m: Listing, parent: Option<Ver>)      // parentOf has answered
    | Publishing(job: Job, v: Ver, parent: Option<Ver>)        // the version is stored
    | Recording(job: Job, v: Ver)                              // the ref names it
    | Caching(m: Listing)                                      // the head names it
    | Merging(target: Ver, todo: seq<Obj>)                     // the scan of a sync
    | Merged(target: Ver, read: set<Bytes>)                    // the merge is applied
    | Settling(target: Ver)                                    // the cache knows it
    | Keeping(v: Ver)                                          // promote, before its version is stored
    | Promoting(v: Ver)                                        // and after

  /**
   A checkout in progress; it may take a snapshot before it touches the directory.
   The cache comes after the files.
   */
  datatype Checkout = Checkout(target: Ver, name: Name, restored: bool, cached: bool)

  /** `cache` holds the contents the status cache vouches for. */
  datatype Space = Space(head: Option<Head>, cache: set<Bytes>, checkout: Option<Checkout>, pc: Pc)

  /**
   A collection in progress. It lists the refs and reads them one by one; what it marks is fixed by the
   versions it read. Then it walks the store, and deletes key after key what it found there unmarked
   and old.
   */
  datatype Collector =
    | Resting
    | Reading(unread: set<Name>, roots: set<Ver>)
    | Sweeping(roots: set<Ver>, doomed: set<Obj>)

  datatype State = State(refs: map<Name, Ver>, objects: set<Obj>, spaces: seq<Space>, collectors: seq<Collector>)

  function RefAt(refs: map<Name, Ver>, name: Name): Option<Ver> {
    if name in refs then Some(refs[name]) else None
  }

  /** currentRef */
  function CurrentRef(sp: Space): Name {
    if sp.head.Some? then sp.head.value.ref else DEFAULT_REF
  }

  /** baseVersion */
  function BaseOf(sp: Space): Option<Ver> {
    if sp.head.Some? then sp.head.value.base else None
  }

  function Contents(m: Listing): set<Bytes> {
    set f | f in m :: f.content
  }

  function ParentsOf(parent: Option<Ver>): seq<Ver> {
    if parent.Some? then [parent.value] else []
  }

  // ----- the writes of one command, in order --------------------------------------------------

  /** snapshotFile: the chunks as they are cut, then the file object. */
  function FileWrites(l: Layout, content: Bytes): seq<Obj> {
    Chunks(l.filePieces(content)) + [FileObj(content)]
  }

  /** scanWorkingTree: the files in order, except those the cache vouches for. */
  function ScanWrites(l: Layout, m: Listing, vouched: seq<bool>): seq<Obj>
    requires |vouched| == |m|
  {
    if m == [] then []
    else
      var n := |m| - 1;
      ScanWrites(l, m[..n], vouched[..n]) + if vouched[n] then [] else FileWrites(l, m[n].content)
  }

  /** PutManifest: the chunks of the serialised manifest, then the object that lists them. */
  function ManifestWrites(l: Layout, m: Listing): seq<Obj> {
    Chunks(l.manifestPieces(m)) + [ManifestObj(m)]
  }

  /** The cache vouches for the contents of the cached files only. */
  predicate Vouches(sp: Space, m: Listing, vouched: seq<bool>) {
    |vouched| == |m| && forall i | 0 <= i < |m| && vouched[i] :: m[i].content in sp.cache
  }

  // ----- steps --------------------------------------------------------------------------------

  datatype Action =
    | Stop(i: nat)                                               // a crash, or an error return
    | StartRecord(i: nat, job: Job, m: Listing, vouched: seq<bool>)
    | StoreNext(i: nat)
    | AdoptParent(i: nat)
    | PutVersion(i: nat, note: Bytes)
    | Publish(i: nat, name: Name)
    | RecordHead(i: nat)
    | SaveCache(i: nat)
    | StartSync(i: nat, m: Listing, vouched: seq<bool>)
    | ApplyMerge(i: nat, cache: set<Bytes>)
    | SaveMerged(i: nat)
    | Settle(i: nat)
    | StartCheckout(i: nat, target: Ver, name: Name)
    | Restore(i: nat)
    | SaveRestored(i: nat)
    | PointHead(i: nat)
    | StartPromote(i: nat, snapshot: Ver, note: Bytes)
    | PutPromoted(i: nat)
    | PublishPromoted(i: nat, name: Name)
    | Expire(name: Name)
    | Collect(k: nat, step: GcStep)

  /** Which of the unmarked objects are past the grace period at the walk is left open. */
  datatype GcStep = Begin | ReadRef(name: Name) | Walk(doomed: set<Obj>) | Delete(o: Obj) | Quit

  /** Restoring a content reads its file object and every chunk of it. */
  predicate Restorable(l: Layout, objects: set<Obj>, content: Bytes) {
    FileClosure(l, content) <= objects
  }

  ghost predicate Enabled(l: Layout, s: State, a: Action) {
    match a
    case Expire(name) => OnTimeline(name)
    case Collect(k, step) => k < |s.collectors| && CollectorEnabled(l, s.objects, s.collectors[k], step)
    case _ => a.i < |s.spaces| && SpaceEnabled(l, s.refs, s.objects, s.spaces[a.i], a)
  }

  predicate CollectorEnabled(l: Layout, objects: set<Obj>, c: Collector, step: GcStep) {
    match step
    case Begin => c.Resting?
    case ReadRef(name) => c.Reading? && name in c.unread
    case Walk(doomed) => c.Reading? && c.unread == {} && doomed <= objects && doomed !! RootsClosure(l, c.roots)
    case Delete(o) => c.Sweeping? && o in c.doomed
    case Quit => true
  }

  predicate SpaceEnabled(l: Layout, refs: map<Name, Ver>, objects: set<Obj>, sp: Space, a: Action)
    requires !a.Expire? && !a.Collect?
  {
    match a
    case Stop(_) => true
    case StartRecord(_, job, m, vouched) =>
      sp.pc.Idle? && Vouches(sp, m, vouched) && (sp.checkout.Some? ==> job.Snap? && !sp.checkout.value.restored)
    case StoreNext(_) => (sp.pc.Uploading? || sp.pc.Merging?) && sp.pc.todo != []
    case AdoptParent(_) => sp.pc.Uploading? && sp.pc.todo == []
    case PutVersion(_, _) => sp.pc.Adopting?
    case Publish(_, name) =>
      sp.pc.Publishing? && if sp.pc.job.Commit? then name == CurrentRef(sp) else OnTimeline(name)
    case RecordHead(_) => sp.pc.Recording?
    case SaveCache(_) => sp.pc.Caching?
    case StartSync(_, m, vouched) => sp.pc.Idle? && sp.checkout.None? && Vouches(sp, m, vouched)
    case ApplyMerge(_, cache) =>
      sp.pc.Merging? && sp.pc.todo == [] && forall c | c in cache :: c in sp.cache || Restorable(l, objects, c)
    case SaveMerged(_) => sp.pc.Merged?
    case Settle(_) => sp.pc.Settling?
    case StartCheckout(_, target, name) =>
      sp.pc.Idle? && sp.checkout.None? && (RefAt(refs, name) == Some(target) || VersionObj(target) in objects)
    case Restore(_) =>
      && sp.pc.Idle? && sp.checkout.Some? && !sp.checkout.value.restored
      && VersionObj(sp.checkout.value.target) in objects
      && forall f | f in sp.checkout.value.target.manifest :: Restorable(l, objects, f.content)
    case SaveRestored(_) => sp.pc.Idle? && sp.checkout.Some? && sp.checkout.value.restored && !sp.checkout.value.cached
    case PointHead(_) => sp.pc.Idle? && sp.checkout.Some? && sp.checkout.value.cached
    case StartPromote(_, snapshot, _) =>
      sp.pc.Idle? && sp.checkout.None? && VersionObj(snapshot) in objects && snapshot.expires
    case PutPromoted(_) => sp.pc.Keeping?
    case PublishPromoted(_, name) => sp.pc.Promoting? && PROMOTED <= name
  }

  function With(s: State, i: nat, sp: Space): State
    requires i < |s.spaces|
  {
    s.(spaces := s.spaces[i := sp])
  }

  ghost function Next(l: Layout, s: State, a: Action): State
    requires Enabled(l, s, a)
  {
    match a
    case Expire(name) => s.(refs := s.refs - {name})
    case Collect(k, step) =>
      s.(objects := s.objects - Removed(step),
         collectors := s.collectors[k := CollectorAfter(s.refs, s.collectors[k], step)])
    case _ =>
      With(s.(refs := RefsAfter(s.refs, s.spaces[a.i], a), objects := s.objects + Stored(s.spaces[a.i], a)),
           a.i, SpaceAfter(l, s.refs, s.spaces[a.i], a))
  }

  /** The object a deletion takes away. */
  function Removed(step: GcStep): set<Obj> {
    if step.Delete? then {step.o} else {}
  }

  /** A ref that is listed and then gone is an error. */
  function CollectorAfter(refs: map<Name, Ver>, c: Collector, step: GcStep): Collector {
    match step
    case Begin => Reading(refs.Keys, {})
    case ReadRef(name) =>
      if c.Reading? && name in refs then Reading(c.unread - {name}, c.roots + {refs[name]}) else Resting
    case Walk(doomed) => if c.Reading? then Sweeping(c.roots, doomed) else c
    case Delete(o) => if c.Sweeping? then Sweeping(c.roots, c.doomed - {o}) else c
    case Quit => Resting
  }

  /** The version that PutVersion stores. */
  function NewVersion(job: Job, m: Listing, parent: Option<Ver>, note: Bytes): Ver {
    Ver(m, ParentsOf(parent), job.Snap?, note)
  }

  /** The object a step writes. */
  function Stored(sp: Space, a: Action): set<Obj> {
    match a
    case StoreNext(_) => if (sp.pc.Uploading? || sp.pc.Merging?) && sp.pc.todo != [] then {sp.pc.todo[0]} else {}
    case PutVersion(_, note) =>
      if sp.pc.Adopting? then {VersionObj(NewVersion(sp.pc.job, sp.pc.m, sp.pc.parent, note))} else {}
    case PutPromoted(_) => if sp.pc.Keeping? then {VersionObj(sp.pc.v)} else {}
    case _ => {}
  }

  /** What the compare-and-swap of a publication expects. */
  function Expected(sp: Space): Option<Ver> {
    if sp.pc.Publishing? && sp.pc.job.Commit? then sp.pc.parent else None
  }

  function RefsAfter(refs: map<Name, Ver>, sp: Space, a: Action): map<Name, Ver> {
    match a
    case Publish(_, name) =>
      if sp.pc.Publishing? && RefAt(refs, name) == Expected(sp) then refs[name := sp.pc.v] else refs
    case PublishPromoted(_, name) =>
      if sp.pc.Promoting? && name !in refs then refs[name := sp.pc.v] else refs
    case _ => refs
  }

  /** Publishing a snapshot that is already there under its name succeeds as well. */
  predicate Published(refs: map<Name, Ver>, sp: Space, name: Name)
    requires sp.pc.Publishing?
  {
    RefAt(refs, name) == Expected(sp) || (sp.pc.job.Snap? && RefAt(refs, name) == Some(sp.pc.v))
  }

  function SpaceAfter(l: Layout, refs: map<Name, Ver>, sp: Space, a: Action): Space
    requires !a.Expire? && !a.Collect?
  {
    match a
    case Stop(_) => sp.(pc := Idle, checkout := None)
    case StartRecord(_, job, m, vouched) =>
      if |vouched| == |m| then sp.(pc := Uploading(job, m, ScanWrites(l, m, vouched) + ManifestWrites(l, m))) else sp
    case StoreNext(_) =>
      if sp.pc.Uploading? && sp.pc.todo != [] then sp.(pc := Uploading(sp.pc.job, sp.pc.m, sp.pc.todo[1..]))
      else if sp.pc.Merging? && sp.pc.todo != [] then sp.(pc := Merging(sp.pc.target, sp.pc.todo[1..]))
      else sp
    case AdoptParent(_) =>
      if !sp.pc.Uploading? then sp
      else if sp.pc.job.Snap? then sp.(pc := Adopting(Snap, sp.pc.m, None))
      else if BaseOf(sp) == RefAt(refs, CurrentRef(sp)) then sp.(pc := Adopting(Commit, sp.pc.m, BaseOf(sp)))
      else sp.(pc := Idle)
    case PutVersion(_, note) =>
      if !sp.pc.Adopting? then sp
      else sp.(pc := Publishing(sp.pc.job, NewVersion(sp.pc.job, sp.pc.m, sp.pc.parent, note), sp.pc.parent))
    case Publish(_, name) =>
      if !sp.pc.Publishing? then sp
      else if Published(refs, sp, name) then sp.(pc := Recording(sp.pc.job, sp.pc.v))
      else sp.(pc := Idle, checkout := None)
    case RecordHead(_) =>
      if !sp.pc.Recording? then sp
      else
        var base := if sp.pc.job.Commit? then Some(sp.pc.v) else BaseOf(sp);
        sp.(head := Some(Head(CurrentRef(sp), sp.pc.v, base)), pc := Caching(sp.pc.v.manifest))
    case SaveCache(_) => if !sp.pc.Caching? then sp else sp.(cache := Contents(sp.pc.m), pc := Idle)
    case StartSync(_, m, vouched) =>
      var current := RefAt(refs, CurrentRef(sp));
      if current.None? || BaseOf(sp) == current || |vouched| != |m| then sp
      else sp.(pc := Merging(current.value, ScanWrites(l, m, vouched)))
    case ApplyMerge(_, cache) => if !sp.pc.Merging? then sp else sp.(pc := Merged(sp.pc.target, cache))
    case SaveMerged(_) => if !sp.pc.Merged? then sp else sp.(cache := sp.pc.read, pc := Settling(sp.pc.target))
    case Settle(_) =>
      if !sp.pc.Settling? then sp
      else sp.(head := Some(Head(CurrentRef(sp), sp.pc.target, Some(sp.pc.target))), pc := Idle)
    case StartCheckout(_, target, name) => sp.(checkout := Some(Checkout(target, name, false, false)))
    case Restore(_) =>
      if sp.checkout.None? then sp
      else sp.(checkout := Some(sp.checkout.value.(restored := true)))
    case SaveRestored(_) =>
      if sp.checkout.None? then sp
      else sp.(cache := Contents(sp.checkout.value.target.manifest),
               checkout := Some(sp.checkout.value.(cached := true)))
    case PointHead(_) =>
      if sp.checkout.None? then sp
      else
        var Checkout(target, name, _, _) := sp.checkout.value;
        var onto := if name in refs then name else CurrentRef(sp);
        sp.(head := Some(Head(onto, target, Some(target))), checkout := None)
    case StartPromote(_, snapshot, note) => sp.(pc := Keeping(Ver(snapshot.manifest, [], false, note)))
    case PutPromoted(_) => if !sp.pc.Keeping? then sp else sp.(pc := Promoting(sp.pc.v))
    case PublishPromoted(_, _) => sp.(pc := Idle)
  }

  predicate Initial(s: State) {
    && s.refs == map[] && s.objects == {}
    && (forall i | 0 <= i < |s.spaces| :: s.spaces[i] == Space(None, {}, None, Idle))
    && (forall k | 0 <= k < |s.collectors| :: s.collectors[k] == Resting)
  }

  ghost predicate Run(l: Layout, states: seq<State>, actions: seq<Action>) {
    && |states| == |actions| + 1 && Initial(states[0])
    && forall i | 0 <= i < |actions| ::
       Enabled(l, states[i], actions[i]) && states[i + 1] == Next(l, states[i], actions[i])
  }
}
