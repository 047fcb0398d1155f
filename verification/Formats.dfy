/** The canonical codec as the store and the clients use it: one file, manifest and version format. */
module Formats {
  import opened Common
  import opened Objects
  import opened Values
  import opened Codec
  import opened VersionKeys
  import VersionCodec
  import VersionSpelling
  import Store
  import Catalog
  import Merge
  import Parameters
  import Paths
  import Space

  /** The codec of package object over a given hash, for the contents that are ever at hand. */
  function CanonicalFormat(u: Unicode, hash: (Store.Kind, Bytes) -> Id, occurs: Bytes -> bool): Store.Format {
    Store.Format(hash, occurs, EncodeFile, DecodeFile,
                 m => WriteManifest(u, m), d => DecodeManifest(u, d),
                 v => WriteVersion(u, v), d => VersionCodec.DecodeVersion(VERSION_KEYS, u, d))
  }

  /** Manifest.Marshal, on what the Go types can hold. */
  function WriteManifest(u: Unicode, m: seq<Entry>): Option<Bytes> {
    if TypedManifest(m) then EncodeManifest(u, m) else None
  }

  /** Version.Marshal, on what the Go types can hold and the format has room for. */
  function WriteVersion(u: Unicode, v: Version): Option<Bytes> {
    if VersionCodec.TypedVersion(v) && VersionCodec.InRange(v) then VersionCodec.EncodeVersion(VERSION_KEYS, u, v)
    else None
  }

  /** What every BLAKE3 digest is: 64 hex characters, and never the zero ID that marks "unset". */
  ghost predicate GivesIds(hash: (Store.Kind, Bytes) -> Id) {
    forall k, x :: IsId(hash(k, x)) && hash(k, x) != ZeroId()
  }

  /** Below 2^63 the int64 sum of the chunk lengths is their sum. */
  lemma {:induction false} NoWrapBelowMax(refs: seq<ChunkRef>)
    requires forall i | 0 <= i < |refs| :: refs[i].length > 0
    requires TotalLength(refs) <= MAX_INT64
    ensures WrappedTotal(refs) == TotalLength(refs) >= 0
    ensures forall i | 0 <= i < |refs| :: refs[i].length <= TotalLength(refs)
  {
    if refs != [] {
      var init := refs[..|refs| - 1];
      NoWrapBelowMax(init);
      assert forall i | 0 <= i < |init| :: init[i] == refs[i];
      WrapIsIdentity(TotalLength(refs));
    }
  }

  lemma WrapIsIdentity(n: int)
    requires 0 <= n <= MAX_INT64
    ensures Wrap64(n) == n
  {
  }

  /** Every file object BuildFile can produce survives the codec. */
  lemma CanonicalFilesRoundTrip(u: Unicode, hash: (Store.Kind, Bytes) -> Id, occurs: Bytes -> bool)
    requires GivesIds(hash)
    ensures Store.FilesRoundTrip(CanonicalFormat(u, hash, occurs))
  {
    var f := CanonicalFormat(u, hash, occurs);
    forall file | Store.Consistent(file) && Store.ListsHashes(f, file)
      ensures f.encodeFile(file).Some? && f.decodeFile(f.encodeFile(file).value) == Some(file)
    {
      NoWrapBelowMax(file.chunks);
      forall i | 0 <= i < |file.chunks| ensures IsId(file.chunks[i].id) && file.chunks[i].id != ZeroId() {
        var c :| file.chunks[i].id == f.hash(Store.ChunkKind, c);
      }
      FileReadsBack(file);
    }
  }

  /** So do manifests and versions. */
  lemma CanonicalObjectsReadBack(u: Unicode, hash: (Store.Kind, Bytes) -> Id, occurs: Bytes -> bool)
    ensures Store.WhatIsWrittenReadsBack(CanonicalFormat(u, hash, occurs))
  {
    forall m: seq<Entry> | WriteManifest(u, m).Some? ensures DecodeManifest(u, WriteManifest(u, m).value) == Some(m) {
      ManifestReadsBack(u, m);
    }
    forall v: Version | WriteVersion(u, v).Some?
      ensures VersionCodec.DecodeVersion(VERSION_KEYS, u, WriteVersion(u, v).value) == Some(v)
    {
      VersionKeysAreGood();
      VersionCodec.VersionReadsBack(VERSION_KEYS, u, v);
    }
  }

  /** And a parsed manifest is sorted. */
  lemma CanonicalManifestsAreSorted(u: Unicode, hash: (Store.Kind, Bytes) -> Id, occurs: Bytes -> bool)
    ensures Catalog.ManifestsAreSorted(CanonicalFormat(u, hash, occurs))
  {
    forall data | DecodeManifest(u, data).Some? ensures Merge.Sorted(DecodeManifest(u, data).value) {
      var m := DecodeManifest(u, data).value;
      forall i, j | 0 <= i < j < |m| ensures Paths.Less(m[i].path, m[j].path) {
        NeighboursSort(m, i, j);
      }
    }
  }

  // ----- the codec under the store ------------------------------------------------------------

  /** So the canonical format meets all that the store and the space ask of one. */
  lemma CanonicalStoreIsOk(u: Unicode, hash: (Store.Kind, Bytes) -> Id, occurs: Bytes -> bool)
    requires GivesIds(hash) && Store.CollisionFree(CanonicalFormat(u, hash, occurs))
    ensures Space.StoreOk(CanonicalFormat(u, hash, occurs), map[])
  {
    CanonicalFilesRoundTrip(u, hash, occurs);
    CanonicalObjectsReadBack(u, hash, occurs);
    CanonicalManifestsAreSorted(u, hash, occurs);
  }

  /** An empty space on an empty store, with the program's own codec and cutters. */
  method NewSpace(u: Unicode, hash: (Store.Kind, Bytes) -> Id, occurs: Bytes -> bool, table: Byte -> bv64,
                  files: Parameters.Params, manifests: Parameters.Params) returns (s: Space.Space<bv64>)
    requires GivesIds(hash) && Store.CollisionFree(CanonicalFormat(u, hash, occurs))
    requires Parameters.Validate(files) == None && Parameters.Validate(manifests) == None
    ensures fresh(s) && fresh(s.store) && s.Valid() && s.store.f == CanonicalFormat(u, hash, occurs) && s.disk == map[]
  {
    CanonicalStoreIsOk(u, hash, occurs);
    Parameters.ForParamsIsValid(files, table);
    Parameters.ForParamsIsValid(manifests, table);
    var store := new Store.ObjectStore(CanonicalFormat(u, hash, occurs));
    s := new Space.Space(store, Parameters.ForParams(files, table), Parameters.ForParams(manifests, table));
  }

  function Pow2(n: nat): nat { if n == 0 then 1 else 2 * Pow2(n - 1) }

  /** The last `w` binary digits of `n`. */
  function Binary(n: nat, w: nat): (s: Bytes)
    ensures |s| == w && forall i | 0 <= i < w :: s[i] == '0' || s[i] == '1'
  {
    if w == 0 then "" else Binary(n / 2, w - 1) + [if n % 2 == 1 then '1' else '0']
  }

  lemma {:induction false} BinaryIsInjective(n: nat, m: nat, w: nat)
    requires n < Pow2(w) && m < Pow2(w) && Binary(n, w) == Binary(m, w)
    ensures n == m
  {
    if w > 0 {
      var a, b := Binary(n, w), Binary(m, w);
      assert a[..w - 1] == Binary(n / 2, w - 1) && b[..w - 1] == Binary(m / 2, w - 1);
      BinaryIsInjective(n / 2, m / 2, w - 1);
      assert a[w - 1] == b[w - 1];
    }
  }

  function IndexOf(xs: seq<Bytes>, x: Bytes): (i: nat)
    ensures x in xs ==> i < |xs| && xs[i] == x
  {
    if xs == [] || xs[0] == x then 0 else 1 + IndexOf(xs[1..], x)
  }

  /** A digest for a finite number of contents: a content's number, in binary. */
  function NumberOf(xs: seq<Bytes>): (Store.Kind, Bytes) -> Id {
    (k, x) => "1" + Binary(if x in xs then IndexOf(xs, x) else 0, 63)
  }

  /**
   These hypotheses can be met, whatever finite number of contents a run has at hand: fewer than the
   IDs, none longer than Go can say, and with every content its pieces.
   */
  lemma SomeHashSuitsTheContents(u: Unicode, xs: seq<Bytes>)
    requires |xs| <= Pow2(63) && forall x | x in xs :: |x| <= MAX_INT64
    requires forall x, i: nat, j: nat | x in xs && i <= j <= |x| :: Store.Piece(x, i, j) in xs
    ensures GivesIds(NumberOf(xs)) && Space.StoreOk(CanonicalFormat(u, NumberOf(xs), x => x in xs), map[])
  {
    var hash := NumberOf(xs);
    forall k, x, y | x in xs && y in xs && hash(k, x) == hash(k, y) ensures x == y {
      assert hash(k, x)[1..] == Binary(IndexOf(xs, x), 63) && hash(k, y)[1..] == Binary(IndexOf(xs, y), 63);
      BinaryIsInjective(IndexOf(xs, x), IndexOf(xs, y), 63);
    }
    forall k, x ensures IsId(hash(k, x)) && hash(k, x) != ZeroId() {
      assert hash(k, x)[0] == '1' && ZeroId()[0] == '0';
    }
    CanonicalStoreIsOk(u, hash, x => x in xs);
  }

  /** The version format of object/version.go, both ways, for its own keywords. */
  lemma CanonicalVersionsRoundTrip(u: Unicode, v: Version, data: Bytes)
    ensures VersionCodec.TypedVersion(v) && VersionCodec.ValidVersion(u, v) ==>
      && VersionCodec.EncodeVersion(VERSION_KEYS, u, v).Some?
      && VersionCodec.DecodeVersion(VERSION_KEYS, u, VersionCodec.EncodeVersion(VERSION_KEYS, u, v).value) ==
         if VersionCodec.InRange(v) then Some(v) else None
    ensures var parsed := VersionCodec.DecodeVersion(VERSION_KEYS, u, data);
      parsed.Some? ==>
        && VersionCodec.TypedVersion(parsed.value)
        && (VersionCodec.EncodeVersion(VERSION_KEYS, u, parsed.value) == Some(data) <==>
            !VersionSpelling.SpellsOutZero(VERSION_KEYS, data))
  {
    VersionKeysAreGood();
    if VersionCodec.TypedVersion(v) && VersionCodec.ValidVersion(u, v) {
      VersionCodec.VersionReadsBack(VERSION_KEYS, u, v);
    }
    if VersionCodec.DecodeVersion(VERSION_KEYS, u, data).Some? {
      VersionSpelling.VersionPrintsBack(VERSION_KEYS, u, data);
    }
  }

  /** An accepted version that is not printed as it was written. */
  lemma SomeVersionHasTwoSpellings(u: Unicode)
    requires !u.wideSpaceAtEdge("ann")
    ensures exists data ::
      && VersionCodec.DecodeVersion(VERSION_KEYS, u, data) == Some(VersionSpelling.Example())
      && VersionCodec.TypedVersion(VersionSpelling.Example())
      && VersionCodec.EncodeVersion(VERSION_KEYS, u, VersionSpelling.Example()) != Some(data)
  {
    VersionKeysAreGood();
    VersionSpelling.ExampleIsValid(u);
    VersionSpelling.ZeroExpiryHasTwoSpellings(VERSION_KEYS, u, VersionSpelling.Example());
  }
}
