/**
 The content-addressed store: the verifying wrapper of store/verify.go, the one-pass file builder of
 chunk/build.go and the chunked manifests of store/manifest.go.
 */
module Store {
  import opened Common
  import opened Objects
  import opened Cut
  import opened Splitter

  datatype Kind = ChunkKind | FileKind | ManifestKind | VersionKind | GraphKind | SignatureKind

  datatype Key = Key(kind: Kind, id: Id)

  /** The objects a store holds. */
  type Contents = map<Key, Bytes>

  /**
   The hash of each kind and the codec of package object, as the store sees them; and `occurs`, the
   contents that are ever at hand: no two of those collide, whatever the hash does elsewhere.
   */
  datatype Format = Format(
    hash: (Kind, Bytes) -> Id,
    occurs: Bytes -> bool,
    encodeFile: File -> Option<Bytes>,
    decodeFile: Bytes -> Option<File>,
    encodeManifest: seq<Entry> -> Option<Bytes>,
    decodeManifest: Bytes -> Option<seq<Entry>>,
    encodeVersion: Version -> Option<Bytes>,
    decodeVersion: Bytes -> Option<Version>)

  function Piece(x: Bytes, i: nat, j: nat): Bytes
    requires i <= j <= |x|
  {
    x[i..j]
  }

  /**
   Two contents at hand never share a hash, the pieces of a content at hand are at hand, and none is longer
   than Go can say.
   */
  ghost predicate CollisionFree(f: Format) {
    && (forall x | f.occurs(x) :: |x| <= MAX_INT64)
    && (forall k, x, y | f.occurs(x) && f.occurs(y) && f.hash(k, x) == f.hash(k, y) :: x == y)
    && (forall x, i: nat, j: nat | f.occurs(x) && i <= j <= |x| :: f.occurs(Piece(x, i, j)))
  }

  /** A file object that File.validate accepts: positive lengths that add up to the size. */
  predicate Consistent(file: File) {
    && (forall i | 0 <= i < |file.chunks| :: file.chunks[i].length > 0)
    && 0 <= file.size == TotalLength(file.chunks) <= MAX_INT64
  }

  ghost predicate ListsHashes(f: Format, file: File) {
    forall i | 0 <= i < |file.chunks| :: exists c :: file.chunks[i].id == f.hash(ChunkKind, c)
  }

  /** A chunk list of hashed chunks survives the codec. */
  ghost predicate FilesRoundTrip(f: Format) {
    forall file | Consistent(file) && ListsHashes(f, file) ::
      f.encodeFile(file).Some? && f.decodeFile(f.encodeFile(file).value) == Some(file)
  }

  /** What a manifest or a version is written as reads back as the same manifest or version. */
  ghost predicate WhatIsWrittenReadsBack(f: Format) {
    && (forall m: seq<Entry> | f.encodeManifest(m).Some? :: f.decodeManifest(f.encodeManifest(m).value) == Some(m))
    && (forall v: Version | f.encodeVersion(v).Some? :: f.decodeVersion(f.encodeVersion(v).value) == Some(v))
  }

  /** store.Verify: chunks, versions, graphs and signatures hash to their key, the rest parses. */
  predicate Verifies(f: Format, key: Key, data: Bytes) {
    if key.kind == FileKind || key.kind == ManifestKind then f.decodeFile(data).Some?
    else f.hash(key.kind, data) == key.id
  }

  /** verified.Get */
  function Fetch(f: Format, objects: Contents, key: Key): Option<Bytes> {
    if key in objects && Verifies(f, key, objects[key]) then Some(objects[key]) else None
  }

  // ----- chunk lists --------------------------------------------------------------------------

  function ChunkKey(f: Format, c: Bytes): Key {
    Key(ChunkKind, f.hash(ChunkKind, c))
  }

  /** The chunk list of a sequence of chunks. */
  function Refs(f: Format, cs: seq<Bytes>): (refs: seq<ChunkRef>)
    ensures |refs| == |cs|
    ensures forall i | 0 <= i < |cs| :: refs[i] == ChunkRef(f.hash(ChunkKind, cs[i]), |cs[i]|)
  {
    seq(|cs|, i requires 0 <= i < |cs| => ChunkRef(f.hash(ChunkKind, cs[i]), |cs[i]|))
  }

  /** The file object of a content that was cut into `cs`. */
  function FileOf(f: Format, cs: seq<Bytes>): File {
    File(TotalLength(Refs(f, cs)), Refs(f, cs))
  }

  /** Every chunk of `cs` is stored under its hash. */
  ghost predicate Holds(f: Format, objects: Contents, cs: seq<Bytes>) {
    forall i | 0 <= i < |cs| :: ChunkKey(f, cs[i]) in objects && objects[ChunkKey(f, cs[i])] == cs[i]
  }

  /** Only objects a Put verified, each under its own key: everything `before` held is untouched. */
  ghost predicate Grows(before: Contents, after: Contents) {
    forall k | k in before :: k in after && after[k] == before[k]
  }

  /** Whatever was added are chunks. */
  ghost predicate GrowsByChunks(before: Contents, after: Contents) {
    Grows(before, after) && forall k | k in after && k !in before :: k.kind == ChunkKind
  }

  /** Whatever was added or replaced are chunks and the list of one manifest's chunks. */
  ghost predicate GrowsByManifest(f: Format, before: Contents, after: Contents, data: Bytes) {
    var id := Key(ManifestKind, f.hash(ManifestKind, data));
    && (forall k | k in before && k != id :: k in after && after[k] == before[k])
    && (forall k | k in after && k !in before && k != id :: k.kind == ChunkKind)
  }

  /** Every object verifies against its key, and what is hashed for that is at hand. */
  ghost predicate Sound(f: Format, objects: Contents) {
    forall k | k in objects :: Verifies(f, k, objects[k]) && (IsHashed(k) ==> f.occurs(objects[k]))
  }

  /** The key is the hash of the object's own bytes. */
  predicate IsHashed(key: Key) {
    key.kind != FileKind && key.kind != ManifestKind
  }

  /** The chunks of a content at hand are at hand. */
  lemma {:induction false} ChunksOccur<W>(f: Format, c: Cutter<W>, s: Bytes)
    requires CollisionFree(f) && 0 < c.minSize <= c.maxSize && f.occurs(s)
    ensures forall x | x in Chunks(c, s) :: f.occurs(x)
    decreases |s|
  {
    if s != "" {
      var n := CutLength(c, s);
      assert Piece(s, 0, n) == s[..n] && Piece(s, n, |s|) == s[n..];
      ChunksOccur(f, c, s[n..]);
    }
  }

  /** So are the pieces it is put together from. */
  lemma {:induction false} PiecesOccur(f: Format, cs: seq<Bytes>)
    requires CollisionFree(f) && f.occurs(Concat(cs))
    ensures forall x | x in cs :: f.occurs(x)
  {
    if cs != [] {
      var init, last := cs[..|cs| - 1], cs[|cs| - 1];
      assert cs == init + [last];
      ConcatSnoc(init, last);
      var whole, n := Concat(cs), |Concat(init)|;
      assert Piece(whole, 0, n) == Concat(init) && Piece(whole, n, |whole|) == last;
      PiecesOccur(f, init);
    }
  }

  lemma {:induction false} TotalLengthOfRefs(f: Format, cs: seq<Bytes>)
    ensures TotalLength(Refs(f, cs)) == |Concat(cs)|
  {
    if cs != [] {
      var init := cs[..|cs| - 1];
      TotalLengthOfRefs(f, init);
      assert Refs(f, cs)[..|cs| - 1] == Refs(f, init);
      ConcatSnoc(init, cs[|cs| - 1]);
      assert cs == init + [cs[|cs| - 1]];
    }
  }

  lemma BuiltFileIsConsistent<W>(f: Format, c: Cutter<W>, s: Bytes)
    requires 0 < c.minSize <= c.maxSize && |s| <= MAX_INT64
    ensures Consistent(FileOf(f, Chunks(c, s))) && ListsHashes(f, FileOf(f, Chunks(c, s)))
    ensures FileOf(f, Chunks(c, s)).size == |s|
  {
    var cs := Chunks(c, s);
    ChunksConcatenate(c, s);
    TotalLengthOfRefs(f, cs);
    forall i | 0 <= i < |cs| ensures |cs[i]| > 0 {
      ChunksAreBounded(c, s, i);
    }
  }

  // ----- reading back -------------------------------------------------------------------------

  /** readManifestChunks: the listed chunks in order, each as long as the list says. */
  function ReadChunks(f: Format, objects: Contents, refs: seq<ChunkRef>): Option<Bytes> {
    if refs == [] then Some("")
    else
      var init := ReadChunks(f, objects, refs[..|refs| - 1]);
      var ref := refs[|refs| - 1];
      var c := Fetch(f, objects, Key(ChunkKind, ref.id));
      if init.Some? && c.Some? && |c.value| == ref.length then Some(init.value + c.value) else None
  }

  /** GetManifest: reassemble, and hash against the ID. */
  function ReadManifest(f: Format, objects: Contents, id: Id): Option<Bytes> {
    var encoded := Fetch(f, objects, Key(ManifestKind, id));
    if encoded.None? then None
    else
      var file := f.decodeFile(encoded.value);
      if file.None? then None
      else
        var data := ReadChunks(f, objects, file.value.chunks);
        if data.Some? && f.hash(ManifestKind, data.value) == id then data else None
  }

  lemma {:induction false} ReadChunksOfRefs(f: Format, objects: Contents, cs: seq<Bytes>)
    requires Holds(f, objects, cs)
    ensures ReadChunks(f, objects, Refs(f, cs)) == Some(Concat(cs))
  {
    if cs != [] {
      var init, last := cs[..|cs| - 1], cs[|cs| - 1];
      assert Refs(f, cs)[..|cs| - 1] == Refs(f, init);
      assert forall i | 0 <= i < |init| :: init[i] == cs[i];
      ReadChunksOfRefs(f, objects, init);
      ConcatSnoc(init, last);
      assert cs == init + [last];
      assert ChunkKey(f, last) in objects;
    }
  }

  /** Reading looks at nothing but the objects it names. */
  lemma {:induction false} ReadChunksFrame(f: Format, before: Contents, after: Contents, refs: seq<ChunkRef>)
    requires forall i | 0 <= i < |refs| :: var k := Key(ChunkKind, refs[i].id);
               k in before ==> k in after && after[k] == before[k]
    requires ReadChunks(f, before, refs).Some?
    ensures ReadChunks(f, after, refs) == ReadChunks(f, before, refs)
  {
    if refs != [] {
      var init := refs[..|refs| - 1];
      assert forall i | 0 <= i < |init| :: init[i] == refs[i];
      ReadChunksFrame(f, before, after, init);
    }
  }

  lemma ReadManifestFrame(f: Format, before: Contents, after: Contents, id: Id)
    requires Grows(before, after)
    requires ReadManifest(f, before, id).Some?
    ensures ReadManifest(f, after, id) == ReadManifest(f, before, id)
  {
    var file := f.decodeFile(before[Key(ManifestKind, id)]).value;
    ReadChunksFrame(f, before, after, file.chunks);
  }

  /** A manifest object and its chunks, once stored, read back as the bytes that were put. */
  lemma StoredManifestReadsBack<W>(f: Format, c: Cutter<W>, objects: Contents, data: Bytes)
    requires 0 < c.minSize <= c.maxSize && |data| <= MAX_INT64
    requires FilesRoundTrip(f)
    requires Holds(f, objects, Chunks(c, data))
    requires var k := Key(ManifestKind, f.hash(ManifestKind, data));
             k in objects && Some(objects[k]) == f.encodeFile(FileOf(f, Chunks(c, data)))
    ensures ReadManifest(f, objects, f.hash(ManifestKind, data)) == Some(data)
  {
    BuiltFileIsConsistent(f, c, data);
    ReadChunksOfRefs(f, objects, Chunks(c, data));
    ChunksConcatenate(c, data);
  }

  // ----- the store ----------------------------------------------------------------------------

  class ObjectStore {
    const f: Format
    var objects: Contents

    ghost predicate Valid()
      reads this
    {
      Sound(f, objects)
    }

    constructor (format: Format)
      ensures Valid() && f == format && objects == map[]
    {
      f, objects := format, map[];
    }

    /** verified.Put. The backend may fail, and then nothing has changed. */
    method Put(key: Key, data: Bytes) returns (ok: bool)
      requires Valid() && (IsHashed(key) ==> f.occurs(data))
      modifies this
      ensures Valid()
      ensures ok ==> Verifies(f, key, data) && objects == old(objects)[key := data]
      ensures !ok ==> objects == old(objects)
      ensures ok && key.kind != FileKind && key.kind != ManifestKind ==> f.hash(key.kind, data) == key.id
      ensures ok && (key.kind == FileKind || key.kind == ManifestKind) ==> f.decodeFile(data).Some?
    {
      if !Verifies(f, key, data) {
        return false;
      }
      var backend: bool := *;
      if backend {
        objects := objects[key := data];
      }
      return backend;
    }

    /** verified.Get */
    method Get(key: Key) returns (data: Option<Bytes>)
      ensures data == Fetch(f, objects, key)
    {
      if key in objects && Verifies(f, key, objects[key]) {
        data := Some(objects[key]);
      } else {
        data := None;
      }
    }

    /** GCStore.Delete, for one key. A key that is not there is no error. */
    method Delete(key: Key) returns (ok: bool)
      requires Valid()
      modifies this
      ensures Valid() && objects == if ok then old(objects) - {key} else old(objects)
    {
      ok := *;
      if ok {
        objects := objects - {key};
      }
    }
  }

  /** The streaming BLAKE3 hasher of hash/hash.go: it knows what was written and nothing else. */
  class FileHasher {
    const f: Format
    var written: Bytes

    constructor (format: Format)
      ensures f == format && written == ""
    {
      f, written := format, "";
    }

    method Write(data: Bytes)
      modifies this
      ensures written == old(written) + data
    {
      written := written + data;
    }

    function Sum(): Id
      reads this
    {
      f.hash(FileKind, written)
    }
  }

  /** Of the stream `s`, `written` is cut into `cs`, and `left` is to come. */
  ghost predicate CutSoFar<W>(c: Cutter<W>, s: Bytes, cs: seq<Bytes>, written: Bytes, left: Bytes)
    requires 0 < c.minSize <= c.maxSize
  {
    s == written + left && Chunks(c, s) == cs + Chunks(c, left)
  }

  lemma OneChunkFurther<W>(c: Cutter<W>, s: Bytes, cs: seq<Bytes>, written: Bytes, left: Bytes)
    requires 0 < c.minSize <= c.maxSize && left != "" && CutSoFar(c, s, cs, written, left)
    ensures var n := CutLength(c, left); CutSoFar(c, s, cs + [left[..n]], written + left[..n], left[n..])
  {
    var n := CutLength(c, left);
    var data, rest := left[..n], Chunks(c, left[n..]);
    assert Chunks(c, left) == [data] + rest;
    assert cs + ([data] + rest) == (cs + [data]) + rest;
    assert (written + left[..n]) + left[n..] == written + left;
  }

  lemma PieceOccurs(f: Format, written: Bytes, left: Bytes, n: nat)
    requires CollisionFree(f) && f.occurs(written + left) && n <= |left|
    ensures f.occurs(left[..n])
  {
    var s := written + left;
    assert Piece(s, |written|, |written| + n) == left[..n];
  }

  lemma TotalLengthSnoc(refs: seq<ChunkRef>, ref: ChunkRef)
    ensures TotalLength(refs + [ref]) == TotalLength(refs) + ref.length
  {
    assert (refs + [ref])[..|refs|] == refs;
  }

  lemma RefsSnoc(f: Format, cs: seq<Bytes>, data: Bytes)
    ensures Refs(f, cs + [data]) == Refs(f, cs) + [ChunkRef(f.hash(ChunkKind, data), |data|)]
  {
  }

  /** A sink: the chunk is stored under its hash, and what was stored before stays. */
  method SinkChunk(store: ObjectStore, data: Bytes, ghost base: Contents, ghost cs: seq<Bytes>) returns (ok: bool)
    requires store.Valid() && CollisionFree(store.f) && store.f.occurs(data)
    requires GrowsByChunks(base, store.objects) && Holds(store.f, store.objects, cs)
    modifies store
    ensures store.Valid() && GrowsByChunks(base, store.objects)
    ensures ok ==> Holds(store.f, store.objects, cs + [data])
  {
    ghost var before := store.objects;
    ok := store.Put(ChunkKey(store.f, data), data);
    assert forall k | k in before :: store.objects[k] == before[k];
  }

  /** Midway: the chunks `cs` of the stream `s` are cut, hashed and stored; the rest is to come. */
  ghost predicate Building<W(!new)>(splitter: Splitter<W>, hasher: FileHasher, store: ObjectStore,
                                    base: Contents, s: Bytes, cs: seq<Bytes>)
    reads splitter, splitter.buf, splitter.r, splitter.rh, splitter.rh.window, hasher, store
  {
    && splitter.Valid() && store.Valid()
    && hasher.f == store.f && CollisionFree(store.f) && store.f.occurs(s)
    && GrowsByChunks(base, store.objects) && Holds(store.f, store.objects, cs)
    && CutSoFar(splitter.cutter, s, cs, hasher.written, splitter.remaining)
  }

  datatype Progress = Chunked(ref: ChunkRef) | Finished | Unread | Unstored

  /** One round of the loop: cut, hash, sink. */
  method BuildChunk<W(!new)>(splitter: Splitter<W>, hasher: FileHasher, store: ObjectStore,
                             ghost base: Contents, ghost s: Bytes, ghost cs: seq<Bytes>)
    returns (p: Progress, ghost cs': seq<Bytes>)
    requires Building(splitter, hasher, store, base, s, cs)
    modifies splitter, splitter.buf, splitter.r, splitter.rh, splitter.rh.window, hasher, store
    ensures store.Valid() && GrowsByChunks(base, store.objects)
    ensures p.Chunked? || p.Finished? ==> Building(splitter, hasher, store, base, s, cs')
    ensures p.Chunked? ==> Refs(store.f, cs') == Refs(store.f, cs) + [p.ref]
    ensures p.Chunked? ==> |splitter.remaining| < |old(splitter.remaining)|
    ensures p.Finished? ==> cs' == cs == Chunks(splitter.cutter, s) && hasher.written == s
  {
    ghost var left, written := splitter.remaining, hasher.written;
    cs' := cs;
    var n, err := splitter.Next();
    if err == EndOfStream {
      assert Chunks(splitter.cutter, "") == [];
      return Finished, cs;
    }
    if err == StreamFailed {
      return Unread, cs;
    }
    var data := splitter.buf[..n];
    OneChunkFurther(splitter.cutter, s, cs, written, left);
    PieceOccurs(store.f, written, left, n);
    RefsSnoc(store.f, cs, data);
    hasher.Write(data);
    var ok := SinkChunk(store, data, base, cs);
    cs' := cs + [data];
    p := if ok then Chunked(ChunkRef(store.f.hash(ChunkKind, data), |data|)) else Unstored;
  }

  /** The loop of BuildFile: round after round, and the list of what was cut. */
  method BuildChunks<W(!new)>(splitter: Splitter<W>, hasher: FileHasher, store: ObjectStore, ghost base: Contents,
                              ghost s: Bytes)
    returns (p: Progress, file: File)
    requires Building(splitter, hasher, store, base, s, [])
    modifies splitter, splitter.buf, splitter.r, splitter.rh, splitter.rh.window, hasher, store
    ensures store.Valid() && GrowsByChunks(base, store.objects) && !p.Chunked?
    ensures p.Finished? ==>
      && hasher.written == s && file == FileOf(store.f, Chunks(splitter.cutter, s))
      && Holds(store.f, store.objects, Chunks(splitter.cutter, s))
  {
    var refs, size := [], 0;
    ghost var cs := [];
    while true
      invariant Building(splitter, hasher, store, base, s, cs)
      invariant refs == Refs(store.f, cs) && size == TotalLength(refs)
      decreases |splitter.remaining|
    {
      p, cs := BuildChunk(splitter, hasher, store, base, s, cs);
      if !p.Chunked? {
        return p, File(size, refs);
      }
      TotalLengthSnoc(refs, p.ref);
      refs, size := refs + [p.ref], size + p.ref.length;
    }
  }

  datatype BuildResult = Built(id: Id, file: File) | ReadFailed | SinkFailed

  /**
   BuildFile: one pass cuts, hashes, stores and lists. Whatever the fragmentation of the stream and
   the cutting parameters, the ID is the hash of the content. A failure leaves chunks behind, never
   anything else.
   */
  method BuildFile<W(!new)>(c: Cutter<W>, r: Reader, store: ObjectStore) returns (res: BuildResult)
    requires Cut.Valid(c) && store.Valid() && CollisionFree(store.f) && store.f.occurs(r.rest)
    modifies r, store
    ensures store.Valid() && GrowsByChunks(old(store.objects), store.objects)
    ensures res.Built? ==>
      && res.id == store.f.hash(FileKind, old(r.rest))
      && res.file == FileOf(store.f, Chunks(c, old(r.rest)))
      && Holds(store.f, store.objects, Chunks(c, old(r.rest)))
  {
    var splitter := new Splitter(c, r);
    var hasher := new FileHasher(store.f);
    assert "" + r.rest == r.rest && [] + Chunks(c, r.rest) == Chunks(c, r.rest);
    var p, file := BuildChunks(splitter, hasher, store, store.objects, r.rest);
    match p {
      case Finished => return Built(hasher.Sum(), file);
      case Unread => return ReadFailed;
      case Unstored => return SinkFailed;
    }
  }

  datatype PutResult = Stored(id: Id) | PutFailed

  /** PutManifest: chunks first, then the object that lists them. */
  method PutManifest<W(!new)>(c: Cutter<W>, store: ObjectStore, data: Bytes, steps: seq<Step>) returns (res: PutResult)
    requires Cut.Valid(c) && store.Valid() && CollisionFree(store.f) && FilesRoundTrip(store.f)
    requires |data| <= MAX_INT64 && store.f.occurs(data)
    modifies store
    ensures store.Valid()
    ensures res.Stored? ==>
      && res.id == store.f.hash(ManifestKind, data)
      && ReadManifest(store.f, store.objects, res.id) == Some(data)
    ensures res.PutFailed? ==> GrowsByChunks(old(store.objects), store.objects)
    ensures GrowsByManifest(store.f, old(store.objects), store.objects, data)
  {
    var id := store.f.hash(ManifestKind, data);
    var r := new Reader(data, steps);
    var built := BuildFile(c, r, store);
    if !built.Built? {
      return PutFailed;
    }
    BuiltFileIsConsistent(store.f, c, data);
    var encoded := store.f.encodeFile(built.file);
    if encoded.None? {
      return PutFailed;
    }
    var ok := store.Put(Key(ManifestKind, id), encoded.value);
    if !ok {
      return PutFailed;
    }
    StoredManifestReadsBack(store.f, c, store.objects, data);
    return Stored(id);
  }

  /** GetManifest, chunk by chunk. */
  method GetManifest(store: ObjectStore, id: Id) returns (data: Option<Bytes>)
    ensures data == ReadManifest(store.f, store.objects, id)
  {
    var encoded := store.Get(Key(ManifestKind, id));
    if encoded.None? {
      return None;
    }
    var file := store.f.decodeFile(encoded.value);
    if file.None? {
      return None;
    }
    var refs := file.value.chunks;
    var out := "";
    for i := 0 to |refs|
      invariant ReadChunks(store.f, store.objects, refs[..i]) == Some(out)
      invariant store.objects == old(store.objects)
    {
      assert refs[..i + 1][..i] == refs[..i];
      var c := store.Get(Key(ChunkKind, refs[i].id));
      if c.None? || |c.value| != refs[i].length {
        ReadChunksStops(store.f, store.objects, refs, i + 1);
        return None;
      }
      out := out + c.value;
    }
    assert refs[..|refs|] == refs;
    if store.f.hash(ManifestKind, out) != id {
      return None;
    }
    return Some(out);
  }

  /** One unreadable chunk makes the whole list unreadable. */
  lemma {:induction false} ReadChunksStops(f: Format, objects: Contents, refs: seq<ChunkRef>, i: nat)
    requires i <= |refs| && ReadChunks(f, objects, refs[..i]) == None
    ensures ReadChunks(f, objects, refs) == None
    decreases |refs| - i
  {
    if i < |refs| {
      assert refs[..i + 1][..i] == refs[..i];
      ReadChunksStops(f, objects, refs, i + 1);
    } else {
      assert refs[..i] == refs;
    }
  }

  /** VerifyFileContent: the listed chunks really are the content the ID names. */
  method VerifyFileContent(store: ObjectStore, id: Id, file: File) returns (ok: bool)
    ensures ok <==> ReadChunks(store.f, store.objects, file.chunks).Some? &&
                    store.f.hash(FileKind, ReadChunks(store.f, store.objects, file.chunks).value) == id
  {
    var hasher := new FileHasher(store.f);
    var refs := file.chunks;
    for i := 0 to |refs|
      invariant fresh(hasher) && hasher.f == store.f && store.objects == old(store.objects)
      invariant ReadChunks(store.f, store.objects, refs[..i]) == Some(hasher.written)
    {
      assert refs[..i + 1][..i] == refs[..i];
      var c := store.Get(Key(ChunkKind, refs[i].id));
      if c.None? || |c.value| != refs[i].length {
        ReadChunksStops(store.f, store.objects, refs, i + 1);
        return false;
      }
      hasher.Write(c.value);
    }
    assert refs[..|refs|] == refs;
    return hasher.Sum() == id;
  }
}
