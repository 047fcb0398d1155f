/** Encoder and decoder of object/codec.go, and the file and manifest objects built on them. */
module Codec {
  import opened Common
  import opened Objects
  import opened Lines
  import opened Values
  import opened Paths

  const HEADER_FILE: Bytes := "fibula-file v1"
  const HEADER_MANIFEST: Bytes := "fibula-manifest v1"

  lemma FileHeaderIsGood()
    ensures GoodLine(HEADER_FILE) && !StartsWithBom(HEADER_FILE + [LF])
  {
    assert Ascii(HEADER_FILE);
    assert LineOk(HEADER_FILE);
    AsciiLineIsGood(HEADER_FILE);
  }

  lemma ManifestHeaderIsGood()
    ensures GoodLine(HEADER_MANIFEST) && !StartsWithBom(HEADER_MANIFEST + [LF])
  {
    assert Ascii(HEADER_MANIFEST);
    assert LineOk(HEADER_MANIFEST);
    AsciiLineIsGood(HEADER_MANIFEST);
  }

  class Encoder {
    var buf: Bytes
    ghost var written: seq<Bytes>  // the lines the buffer holds

    ghost predicate Valid()
      reads this
    {
      buf == Text(written)
    }

    constructor (header: Bytes)
      ensures Valid() && written == [header]
    {
      buf, written := header + [LF], [header];
      new;
      assert Text([header]) == header + [LF] + Text([]);
    }

    method Line(fields: seq<Bytes>)
      requires Valid()
      modifies this
      ensures Valid() && written == old(written) + [Lines.Line(fields)]
    {
      ghost var before := buf;
      for i := 0 to |fields|
        invariant buf == before + Join(fields[..i], TAB) && written == old(written)
      {
        JoinSnoc(fields[..i], fields[i], TAB);
        assert fields[..i + 1] == fields[..i] + [fields[i]];
        if i > 0 {
          buf := buf + [TAB];
        }
        buf := buf + fields[i];
      }
      assert fields[..|fields|] == fields;
      buf := buf + [LF];
      TextSnoc(written, Lines.Line(fields));
      written := written + [Lines.Line(fields)];
    }
  }

  lemma {:induction false} JoinSnoc(fs: seq<Bytes>, f: Bytes, sep: Byte)
    ensures Join(fs + [f], sep) == if fs == [] then f else Join(fs, sep) + [sep] + f
  {
    if fs == [] {
      assert fs + [f] == [f];
    } else {
      JoinSnoc(fs[1..], f, sep);
      assert (fs + [f])[1..] == fs[1..] + [f];
    }
  }

  lemma TextSnoc(ls: seq<Bytes>, l: Bytes)
    ensures Text(ls + [l]) == Text(ls) + l + [LF]
  {
    TextAppend(ls, [l]);
    assert Text([l]) == l + [LF] + Text([]);
  }

  class Decoder {
    const lines: seq<Bytes>
    var pos: nat

    ghost predicate Valid()
      reads this
    {
      pos <= |lines|
    }

    constructor (ls: seq<Bytes>)
      requires |ls| >= 1
      ensures Valid() && lines == ls && pos == 1
    {
      lines, pos := ls, 1;
    }

    predicate Done()
      reads this
    {
      pos >= |lines|
    }

    function Peek(): Bytes
      reads this
    {
      if Done() then "" else FirstField(lines[pos])
    }

    method Next(want: nat) returns (fields: Option<seq<Bytes>>)
      requires Valid()
      modifies this
      ensures Valid()
      ensures fields == if old(pos) < |lines| then Fields(lines[old(pos)], want) else None
      ensures pos == if fields.Some? then old(pos) + 1 else old(pos)
    {
      if Done() {
        return None;
      }
      fields := Fields(lines[pos], want);
      if fields.Some? {
        pos := pos + 1;
      }
    }

    method Keyed(key: Bytes) returns (value: Option<Bytes>)
      requires Valid()
      modifies this
      ensures Valid()
      ensures value == if old(pos) < |lines| then KeyedValue(lines[old(pos)], key) else None
      ensures value.Some? ==> pos == old(pos) + 1
    {
      var fields := Next(2);
      if fields.None? || fields.value[0] != key {
        return None;
      }
      return Some(fields.value[1]);
    }
  }

  /** The one value after `key`. */
  function KeyedValue(l: Bytes, key: Bytes): Option<Bytes> {
    var fs := Lines.Keyed(l, key, 1);
    if fs.Some? then Some(fs.value[0]) else None
  }

  /** newDecoder: the framing is checked before any content is looked at. */
  method NewDecoder(data: Bytes, header: Bytes) returns (d: Option<Decoder>)
    ensures d.Some? <==> CanonicalLines(data).Some? && CanonicalLines(data).value[0] == header
    ensures d.Some? ==>
            fresh(d.value) && d.value.Valid() && d.value.lines == CanonicalLines(data).value && d.value.pos == 1
  {
    var lines := CanonicalLines(data);
    if lines.None? || lines.value[0] != header {
      return None;
    }
    var decoder := new Decoder(lines.value);
    return Some(decoder);
  }

  // ----- file objects -------------------------------------------------------------------------

  /** int64 addition: the number an int64 holds that differs from `n` by a multiple of 2^64. */
  function Wrap64(n: int): (r: int)
    ensures -MAX_INT64 - 1 <= r <= MAX_INT64 && (n - r) % 0x1_0000_0000_0000_0000 == 0
  {
    (n + 0x8000_0000_0000_0000) % 0x1_0000_0000_0000_0000 - 0x8000_0000_0000_0000
  }

  function WrappedTotal(refs: seq<ChunkRef>): int {
    if refs == [] then 0 else Wrap64(WrappedTotal(refs[..|refs| - 1]) + refs[|refs| - 1].length)
  }

  /** What the Go types guarantee of a file object before any check. */
  predicate TypedFile(f: File) {
    && -MAX_INT64 - 1 <= f.size <= MAX_INT64
    && forall i | 0 <= i < |f.chunks| :: IsId(f.chunks[i].id) && -MAX_INT64 - 1 <= f.chunks[i].length <= MAX_INT64
  }

  /** File.validate */
  predicate ValidFile(f: File) {
    && f.size >= 0
    && (forall i | 0 <= i < |f.chunks| :: f.chunks[i].length > 0 && f.chunks[i].id != ZeroId())
    && WrappedTotal(f.chunks) == f.size
  }

  function ChunkLine(r: ChunkRef): Bytes
    requires r.length >= 0
  {
    Line([r.id, FormatInt(r.length)])
  }

  function ChunkLines(refs: seq<ChunkRef>): (ls: seq<Bytes>)
    requires forall i | 0 <= i < |refs| :: refs[i].length >= 0
    ensures |ls| == |refs| && forall i | 0 <= i < |refs| :: ls[i] == ChunkLine(refs[i])
  {
    seq(|refs|, i requires 0 <= i < |refs| => ChunkLine(refs[i]))
  }

  function FileLines(f: File): seq<Bytes>
    requires ValidFile(f)
  {
    [HEADER_FILE, SizeLine(f.size)] + ChunkLines(f.chunks)
  }

  /** File.Marshal, as a function */
  function EncodeFile(f: File): Option<Bytes> {
    if ValidFile(f) then Some(Text(FileLines(f))) else None
  }

  /** parseChunkRef */
  function ParseChunkRef(l: Bytes): Option<ChunkRef> {
    var fs := Fields(l, 2);
    if fs.None? || !IsId(fs.value[0]) then None
    else
      var length := ParseInt(fs.value[1]);
      if length.Some? then Some(ChunkRef(fs.value[0], length.value)) else None
  }

  function ParseChunkRefs(ls: seq<Bytes>): (r: Option<seq<ChunkRef>>)
    ensures r.Some? <==> forall i | 0 <= i < |ls| :: ParseChunkRef(ls[i]).Some?
    ensures r.Some? ==> |r.value| == |ls| && forall i | 0 <= i < |ls| :: Some(r.value[i]) == ParseChunkRef(ls[i])
  {
    if ls == [] then Some([])
    else
      var init, last := ParseChunkRefs(ls[..|ls| - 1]), ParseChunkRef(ls[|ls| - 1]);
      if init.Some? && last.Some? then Some(init.value + [last.value]) else None
  }

  function SizeLine(n: nat): Bytes {
    Line(["size", FormatInt(n)])
  }

  function ParseSizeLine(l: Bytes): Option<int> {
    var field := KeyedValue(l, "size");
    if field.None? then None else ParseInt(field.value)
  }

  function FileOfLines(ls: seq<Bytes>): Option<File> {
    if |ls| < 2 || ls[0] != HEADER_FILE then None
    else
      var size, refs := ParseSizeLine(ls[1]), ParseChunkRefs(ls[2..]);
      if size.None? || refs.None? || !ValidFile(File(size.value, refs.value)) then None
      else Some(File(size.value, refs.value))
  }

  /** UnmarshalFile, as a function */
  function DecodeFile(data: Bytes): Option<File> {
    var lines := CanonicalLines(data);
    if lines.None? then None else FileOfLines(lines.value)
  }

  lemma ChunkLineReadsBack(r: ChunkRef)
    requires IsId(r.id) && 0 <= r.length <= MAX_INT64
    ensures GoodLine(ChunkLine(r)) && ParseChunkRef(ChunkLine(r)) == Some(r)
  {
    IdIsGoodField(r.id);
    NumberIsGoodField(r.length);
    NumbersRoundTrip(r.length, "");
    FieldsOfLine([r.id, FormatInt(r.length)]);
  }

  lemma SizeLineReadsBack(n: nat)
    requires n <= MAX_INT64
    ensures GoodLine(SizeLine(n)) && ParseSizeLine(SizeLine(n)) == Some(n)
  {
    NumberIsGoodField(n);
    AsciiIsUtf8("size");
    KeyedOfLine("size", FormatInt(n));
    NumbersRoundTrip(n, "");
  }

  lemma SizeLinePrintsBack(l: Bytes)
    requires ParseSizeLine(l).Some?
    ensures SizeLine(ParseSizeLine(l).value) == l
  {
    LineOfKeyed(l, "size");
    NumbersRoundTrip(0, KeyedValue(l, "size").value);
  }

  lemma ChunkLinePrintsBack(l: Bytes)
    requires ParseChunkRef(l).Some?
    ensures ChunkLine(ParseChunkRef(l).value) == l
    ensures IsId(ParseChunkRef(l).value.id) && 0 <= ParseChunkRef(l).value.length <= MAX_INT64
  {
    var fs := Fields(l, 2).value;
    LineOfFields(l, 2);
    NumbersRoundTrip(0, fs[1]);
    assert fs == [fs[0], fs[1]];
  }

  lemma FileLinesAreGood(f: File)
    requires TypedFile(f) && ValidFile(f)
    ensures forall i | 0 <= i < |FileLines(f)| :: GoodLine(FileLines(f)[i])
  {
    var ls := FileLines(f);
    forall i | 0 <= i < |ls| ensures GoodLine(ls[i]) {
      if i == 0 {
        FileHeaderIsGood();
      } else if i == 1 {
        SizeLineReadsBack(f.size);
      } else {
        ChunkLineReadsBack(f.chunks[i - 2]);
      }
    }
  }

  lemma ChunkLinesParse(f: File)
    requires TypedFile(f) && ValidFile(f)
    ensures ParseChunkRefs(ChunkLines(f.chunks)) == Some(f.chunks)
  {
    var ls := ChunkLines(f.chunks);
    forall i | 0 <= i < |f.chunks| ensures ParseChunkRef(ls[i]) == Some(f.chunks[i]) {
      ChunkLineReadsBack(f.chunks[i]);
    }
    assert ParseChunkRefs(ls).value == f.chunks;
  }

  lemma FileLinesParse(f: File)
    requires TypedFile(f) && ValidFile(f)
    ensures FileOfLines(FileLines(f)) == Some(f)
  {
    var ls := FileLines(f);
    assert ls[1] == SizeLine(f.size) && ls[2..] == ChunkLines(f.chunks);
    assert ParseSizeLine(ls[1]) == Some(f.size) by {
      SizeLineReadsBack(f.size);
    }
    assert ParseChunkRefs(ls[2..]) == Some(f.chunks) by {
      ChunkLinesParse(f);
    }
  }

  /** Every valid file object is read back from its own bytes. */
  lemma FileReadsBack(f: File)
    requires TypedFile(f) && ValidFile(f)
    ensures DecodeFile(EncodeFile(f).value) == Some(f)
  {
    FileLinesAreGood(f);
    FileLinesParse(f);
    FileHeaderIsGood();
    TextReadsBack(FileLines(f));
  }

  lemma ParsedFilePrints(ls: seq<Bytes>)
    requires FileOfLines(ls).Some?
    ensures TypedFile(FileOfLines(ls).value) && FileLines(FileOfLines(ls).value) == ls
  {
    var f := FileOfLines(ls).value;
    SizeLinePrintsBack(ls[1]);
    forall i | 0 <= i < |f.chunks|
      ensures ls[i + 2] == ChunkLine(f.chunks[i]) && IsId(f.chunks[i].id) && f.chunks[i].length <= MAX_INT64
    {
      assert ls[2..][i] == ls[i + 2];
      ChunkLinePrintsBack(ls[i + 2]);
    }
    assert ls == FileLines(f);
  }

  /** One file object has one spelling: what the parser accepts, the printer reproduces byte for byte. */
  lemma FilePrintsBack(data: Bytes)
    requires DecodeFile(data).Some?
    ensures TypedFile(DecodeFile(data).value)
    ensures EncodeFile(DecodeFile(data).value) == Some(data)
  {
    CanonicalLinesPrint(data);
    ParsedFilePrints(CanonicalLines(data).value);
  }

  /** The chunk loop of File.Marshal. */
  method MarshalChunks(refs: seq<ChunkRef>, e: Encoder)
    requires e.Valid() && forall i | 0 <= i < |refs| :: refs[i].length >= 0
    modifies e
    ensures e.Valid() && e.written == old(e.written) + ChunkLines(refs)
  {
    ghost var ls := ChunkLines(refs);
    for i := 0 to |refs|
      invariant e.Valid() && e.written == old(e.written) + ls[..i]
    {
      e.Line([refs[i].id, FormatInt(refs[i].length)]);
      assert ls[..i + 1] == ls[..i] + [ls[i]];
    }
    assert ls[..|refs|] == ls;
  }

  /** File.Marshal */
  method MarshalFile(f: File) returns (data: Option<Bytes>)
    ensures data == EncodeFile(f)
  {
    var ok := ValidateFile(f);
    if !ok {
      return None;
    }
    var e := new Encoder(HEADER_FILE);
    e.Line(["size", FormatInt(f.size)]);
    MarshalChunks(f.chunks, e);
    assert [HEADER_FILE] + [SizeLine(f.size)] + ChunkLines(f.chunks) == FileLines(f);
    return Some(e.buf);
  }

  /** File.validate */
  method ValidateFile(f: File) returns (ok: bool)
    ensures ok <==> ValidFile(f)
  {
    if f.size < 0 {
      return false;
    }
    var total := 0;
    for i := 0 to |f.chunks|
      invariant forall j | 0 <= j < i :: f.chunks[j].length > 0 && f.chunks[j].id != ZeroId()
      invariant total == WrappedTotal(f.chunks[..i])
    {
      if f.chunks[i].length <= 0 || f.chunks[i].id == ZeroId() {
        return false;
      }
      assert f.chunks[..i + 1][..i] == f.chunks[..i];
      total := Wrap64(total + f.chunks[i].length);
    }
    assert f.chunks[..|f.chunks|] == f.chunks;
    return total == f.size;
  }

  /** The chunk loop of UnmarshalFile. */
  method ReadChunkRefs(dec: Decoder) returns (r: Option<seq<ChunkRef>>)
    requires dec.Valid() && dec.pos == 2
    modifies dec
    ensures r == ParseChunkRefs(dec.lines[2..])
  {
    var refs: seq<ChunkRef> := [];
    while !dec.Done()
      invariant dec.Valid() && dec.pos == |refs| + 2
      invariant ParseChunkRefs(dec.lines[2..dec.pos]) == Some(refs)
      decreases |dec.lines| - dec.pos
    {
      ghost var i := dec.pos;
      var fields := dec.Next(2);
      var ref := if fields.None? then None else ChunkRefOf(fields.value);
      if ref.None? {
        assert dec.lines[2..][i - 2] == dec.lines[i];
        return None;
      }
      assert dec.lines[2..i + 1][..i - 2] == dec.lines[2..i];
      refs := refs + [ref.value];
    }
    assert dec.lines[2..dec.pos] == dec.lines[2..];
    return Some(refs);
  }

  /** UnmarshalFile */
  method UnmarshalFile(data: Bytes) returns (r: Option<File>)
    ensures r == DecodeFile(data)
  {
    var d := NewDecoder(data, HEADER_FILE);
    if d.None? {
      return None;
    }
    var dec := d.value;
    var sizeField := dec.Keyed("size");
    if sizeField.None? {
      return None;
    }
    var size := ParseInt(sizeField.value);
    if size.None? {
      return None;
    }
    var refs := ReadChunkRefs(dec);
    if refs.None? {
      return None;
    }
    var ok := ValidateFile(File(size.value, refs.value));
    r := if ok then Some(File(size.value, refs.value)) else None;
  }

  function ChunkRefOf(fields: seq<Bytes>): Option<ChunkRef>
    requires |fields| == 2
  {
    var length := ParseInt(fields[1]);
    if IsId(fields[0]) && length.Some? then Some(ChunkRef(fields[0], length.value)) else None
  }

  // ----- manifests ----------------------------------------------------------------------------

  predicate TypedManifest(m: seq<Entry>) {
    forall i | 0 <= i < |m| :: IsId(m[i].file) && -MAX_INT64 - 1 <= m[i].size <= MAX_INT64
  }

  /** path.CheckCollisions: no two paths that differ only in case. */
  predicate NoCollisions(u: Unicode, m: seq<Entry>) {
    forall i, j | 0 <= i < j < |m| :: u.foldKey(m[i].path) == u.foldKey(m[j].path) ==> m[i].path == m[j].path
  }

  /** Manifest.Validate */
  predicate ValidManifest(u: Unicode, m: seq<Entry>) {
    && (forall i | 0 <= i < |m| :: PathOk(u, m[i].path) && m[i].size >= 0 && m[i].file != ZeroId())
    && (forall i | 0 < i < |m| :: Less(m[i - 1].path, m[i].path))
    && NoCollisions(u, m)
  }

  function EntryLine(e: Entry): Bytes
    requires e.size >= 0
  {
    Line([e.path, e.file, FormatInt(e.size)])
  }

  function EntryLines(m: seq<Entry>): (ls: seq<Bytes>)
    requires forall i | 0 <= i < |m| :: m[i].size >= 0
    ensures |ls| == |m| && forall i | 0 <= i < |m| :: ls[i] == EntryLine(m[i])
  {
    seq(|m|, i requires 0 <= i < |m| => EntryLine(m[i]))
  }

  function ManifestLines(m: seq<Entry>): (ls: seq<Bytes>)
    requires forall i | 0 <= i < |m| :: m[i].size >= 0
    ensures |ls| == |m| + 1 && ls[0] == HEADER_MANIFEST
    ensures forall i | 0 <= i < |m| :: ls[i + 1] == EntryLine(m[i])
  {
    [HEADER_MANIFEST] + EntryLines(m)
  }

  /** Manifest.Marshal, as a function */
  function EncodeManifest(u: Unicode, m: seq<Entry>): Option<Bytes> {
    if ValidManifest(u, m) then Some(Text(ManifestLines(m))) else None
  }

  /** parseEntry */
  function ParseEntry(l: Bytes): Option<Entry> {
    var fs := Fields(l, 3);
    if fs.None? || !IsId(fs.value[1]) then None
    else
      var size := ParseInt(fs.value[2]);
      if size.Some? then Some(Entry(fs.value[0], fs.value[1], size.value)) else None
  }

  function ParseEntries(ls: seq<Bytes>): (r: Option<seq<Entry>>)
    ensures r.Some? <==> forall i | 0 <= i < |ls| :: ParseEntry(ls[i]).Some?
    ensures r.Some? ==> |r.value| == |ls| && forall i | 0 <= i < |ls| :: Some(r.value[i]) == ParseEntry(ls[i])
  {
    if ls == [] then Some([])
    else
      var init, last := ParseEntries(ls[..|ls| - 1]), ParseEntry(ls[|ls| - 1]);
      if init.Some? && last.Some? then Some(init.value + [last.value]) else None
  }

  function ManifestOfLines(u: Unicode, ls: seq<Bytes>): Option<seq<Entry>> {
    if ls == [] || ls[0] != HEADER_MANIFEST then None
    else
      var m := ParseEntries(ls[1..]);
      if m.Some? && ValidManifest(u, m.value) then m else None
  }

  /** UnmarshalManifest, as a function */
  function DecodeManifest(u: Unicode, data: Bytes): Option<seq<Entry>> {
    var lines := CanonicalLines(data);
    if lines.None? then None else ManifestOfLines(u, lines.value)
  }

  lemma EntryLineReadsBack(u: Unicode, e: Entry)
    requires PathOk(u, e.path) && IsId(e.file) && 0 <= e.size <= MAX_INT64
    ensures GoodLine(EntryLine(e)) && ParseEntry(EntryLine(e)) == Some(e)
  {
    PathIsGoodField(u, e.path);
    IdIsGoodField(e.file);
    NumberIsGoodField(e.size);
    NumbersRoundTrip(e.size, "");
    FieldsOfLine([e.path, e.file, FormatInt(e.size)]);
  }

  lemma ManifestLinesAreGood(u: Unicode, m: seq<Entry>)
    requires TypedManifest(m) && ValidManifest(u, m)
    ensures forall i | 0 <= i < |ManifestLines(m)| :: GoodLine(ManifestLines(m)[i])
  {
    var ls := ManifestLines(m);
    forall i | 0 <= i < |ls| ensures GoodLine(ls[i]) {
      if i == 0 {
        ManifestHeaderIsGood();
      } else {
        EntryLineReadsBack(u, m[i - 1]);
      }
    }
  }

  lemma ManifestLinesParse(u: Unicode, m: seq<Entry>)
    requires TypedManifest(m) && ValidManifest(u, m)
    ensures ManifestOfLines(u, ManifestLines(m)) == Some(m)
  {
    var ls := ManifestLines(m);
    forall i | 0 <= i < |m| ensures ParseEntry(EntryLine(m[i])) == Some(m[i]) {
      EntryLineReadsBack(u, m[i]);
    }
    EntriesParse(m, ls[1..]);
    FramedEntriesParse(u, ls, m);
  }

  lemma EntriesParse(m: seq<Entry>, ls: seq<Bytes>)
    requires |ls| == |m| && forall i | 0 <= i < |m| :: m[i].size >= 0 && ls[i] == EntryLine(m[i])
    requires forall i | 0 <= i < |m| :: ParseEntry(ls[i]) == Some(m[i])
    ensures ParseEntries(ls) == Some(m)
  {
    var r := ParseEntries(ls);
    assert r.value == m;
  }

  lemma FramedEntriesParse(u: Unicode, ls: seq<Bytes>, m: seq<Entry>)
    requires ls != [] && ls[0] == HEADER_MANIFEST && ParseEntries(ls[1..]) == Some(m) && ValidManifest(u, m)
    ensures ManifestOfLines(u, ls) == Some(m)
  {
  }

  /** Every valid manifest is read back from its own bytes. */
  lemma ManifestReadsBack(u: Unicode, m: seq<Entry>)
    requires TypedManifest(m) && ValidManifest(u, m)
    ensures DecodeManifest(u, EncodeManifest(u, m).value) == Some(m)
  {
    ManifestLinesAreGood(u, m);
    ManifestLinesParse(u, m);
    ManifestHeaderIsGood();
    TextReadsBack(ManifestLines(m));
  }

  lemma EntryLinePrintsBack(l: Bytes)
    requires ParseEntry(l).Some?
    ensures var e := ParseEntry(l).value; 0 <= e.size <= MAX_INT64 && IsId(e.file) && EntryLine(e) == l
  {
    var fs := Fields(l, 3).value;
    LineOfFields(l, 3);
    NumbersRoundTrip(0, fs[2]);
    assert fs == [fs[0], fs[1], fs[2]];
  }

  lemma ParsedEntriesPrint(ls: seq<Bytes>)
    requires ParseEntries(ls).Some?
    ensures var m := ParseEntries(ls).value;
      TypedManifest(m) && (forall i | 0 <= i < |m| :: m[i].size >= 0) && EntryLines(m) == ls
  {
    var m := ParseEntries(ls).value;
    forall i | 0 <= i < |m| ensures 0 <= m[i].size <= MAX_INT64 && IsId(m[i].file) && EntryLine(m[i]) == ls[i] {
      EntryLinePrintsBack(ls[i]);
    }
  }

  lemma ParsedManifestPrints(u: Unicode, ls: seq<Bytes>)
    requires ManifestOfLines(u, ls).Some?
    ensures TypedManifest(ManifestOfLines(u, ls).value) && ManifestLines(ManifestOfLines(u, ls).value) == ls
  {
    ParsedEntriesPrint(ls[1..]);
    assert ls == [ls[0]] + ls[1..];
  }

  /** One manifest has one spelling. */
  lemma ManifestPrintsBack(u: Unicode, data: Bytes)
    requires DecodeManifest(u, data).Some?
    ensures TypedManifest(DecodeManifest(u, data).value)
    ensures EncodeManifest(u, DecodeManifest(u, data).value) == Some(data)
  {
    CanonicalLinesPrint(data);
    ParsedManifestPrints(u, CanonicalLines(data).value);
  }

  /** Two manifests with one serialisation, hence one ID, are the same state. */
  lemma ManifestsWithOneTextAgree(u: Unicode, m: seq<Entry>, m': seq<Entry>)
    requires TypedManifest(m) && TypedManifest(m') && ValidManifest(u, m) && ValidManifest(u, m')
    requires EncodeManifest(u, m) == EncodeManifest(u, m')
    ensures m == m'
  {
    ManifestReadsBack(u, m);
    ManifestReadsBack(u, m');
  }

  /** Checking neighbours is enough: every earlier path is smaller. */
  lemma {:induction false} NeighboursSort(m: seq<Entry>, i: nat, j: nat)
    requires forall k | 0 < k < |m| :: Less(m[k - 1].path, m[k].path)
    requires i < j < |m|
    ensures Less(m[i].path, m[j].path)
  {
    assert Less(m[j - 1].path, m[j].path);
    if i < j - 1 {
      NeighboursSort(m, i, j - 1);
      LessIsTransitive(m[i].path, m[j - 1].path, m[j].path);
    }
  }

  /** path.CheckCollisions: a map from folded key to the last path that had it. */
  method CheckCollisions(u: Unicode, m: seq<Entry>) returns (ok: bool)
    ensures ok <==> NoCollisions(u, m)
  {
    var seen: map<Bytes, Bytes> := map[];
    for i := 0 to |m|
      invariant forall j | 0 <= j < i :: u.foldKey(m[j].path) in seen && seen[u.foldKey(m[j].path)] == m[j].path
      invariant forall k | k in seen :: exists j | 0 <= j < i :: u.foldKey(m[j].path) == k && seen[k] == m[j].path
    {
      var key := u.foldKey(m[i].path);
      if key in seen && seen[key] != m[i].path {
        return false;
      }
      seen := seen[key := m[i].path];
    }
    return true;
  }

  /** Manifest.Validate */
  method ValidateManifest(u: Unicode, m: seq<Entry>) returns (ok: bool)
    ensures ok <==> ValidManifest(u, m)
    ensures ok <==>
      && NoCollisions(u, m)
      && (forall e | e in m :: PathOk(u, e.path) && e.size >= 0 && e.file != ZeroId())
      && (forall i | 0 < i < |m| :: Precedes(m[i - 1].path, m[i].path))
  {
    forall i | 0 < i < |m| ensures Less(m[i - 1].path, m[i].path) <==> Precedes(m[i - 1].path, m[i].path) {
      LessIsBytewise(m[i - 1].path, m[i].path);
    }
    for i := 0 to |m|
      invariant forall j | 0 <= j < i :: PathOk(u, m[j].path) && m[j].size >= 0 && m[j].file != ZeroId()
      invariant forall j | 0 < j < i :: Less(m[j - 1].path, m[j].path)
    {
      if !PathOk(u, m[i].path) || m[i].size < 0 || m[i].file == ZeroId() {
        return false;
      }
      if i > 0 && !Less(m[i - 1].path, m[i].path) {
        return false;
      }
    }
    ok := CheckCollisions(u, m);
  }

  /** The entry loop of Manifest.Marshal. */
  method MarshalEntries(m: seq<Entry>, e: Encoder)
    requires e.Valid() && forall i | 0 <= i < |m| :: m[i].size >= 0
    modifies e
    ensures e.Valid() && e.written == old(e.written) + EntryLines(m)
  {
    ghost var ls := EntryLines(m);
    for i := 0 to |m|
      invariant e.Valid() && e.written == old(e.written) + ls[..i]
    {
      e.Line([m[i].path, m[i].file, FormatInt(m[i].size)]);
      assert ls[..i + 1] == ls[..i] + [ls[i]];
    }
    assert ls[..|m|] == ls;
  }

  /** Manifest.Marshal */
  method MarshalManifest(u: Unicode, m: seq<Entry>) returns (data: Option<Bytes>)
    ensures data == EncodeManifest(u, m)
  {
    var ok := ValidateManifest(u, m);
    if !ok {
      return None;
    }
    var e := new Encoder(HEADER_MANIFEST);
    MarshalEntries(m, e);
    assert [HEADER_MANIFEST] + EntryLines(m) == ManifestLines(m);
    return Some(e.buf);
  }

  /** The entry loop of UnmarshalManifest. */
  method ReadEntries(dec: Decoder) returns (r: Option<seq<Entry>>)
    requires dec.Valid() && dec.pos == 1
    modifies dec
    ensures r == ParseEntries(dec.lines[1..])
  {
    var m: seq<Entry> := [];
    while !dec.Done()
      invariant dec.Valid() && dec.pos == |m| + 1
      invariant ParseEntries(dec.lines[1..dec.pos]) == Some(m)
      decreases |dec.lines| - dec.pos
    {
      ghost var i := dec.pos;
      var fields := dec.Next(3);
      var entry := if fields.None? then None else EntryOf(fields.value);
      if entry.None? {
        assert dec.lines[1..][i - 1] == dec.lines[i];
        return None;
      }
      assert dec.lines[1..i + 1][..i - 1] == dec.lines[1..i];
      m := m + [entry.value];
    }
    assert dec.lines[1..dec.pos] == dec.lines[1..];
    return Some(m);
  }

  /** UnmarshalManifest */
  method UnmarshalManifest(u: Unicode, data: Bytes) returns (r: Option<seq<Entry>>)
    ensures r == DecodeManifest(u, data)
  {
    var d := NewDecoder(data, HEADER_MANIFEST);
    if d.None? {
      return None;
    }
    var m := ReadEntries(d.value);
    if m.None? {
      return None;
    }
    var ok := ValidateManifest(u, m.value);
    r := if ok then m else None;
  }

  function EntryOf(fields: seq<Bytes>): Option<Entry>
    requires |fields| == 3
  {
    var size := ParseInt(fields[2]);
    if IsId(fields[1]) && size.Some? then Some(Entry(fields[0], fields[1], size.value)) else None
  }
}
