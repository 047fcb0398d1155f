/**
 Where content-defined chunks end (chunk/chunk.go): the reference a streaming splitter is measured
 against. It sees the whole sequence at once, and rolls every byte from the chunk's first one.
 */
module Cut {
  import opened Common
  import opened Words

  /**
   What decides a boundary: the size bounds, the rolling hash, and the hashes that end a chunk.
   `Parameters.ForParams` is the cutter of a set of chunking parameters.
   */
  datatype Cutter<!W> = Cutter(minSize: int, maxSize: int, ops: Ops<W>, table: Byte -> W, accept: W -> bool)
  {
    /** The hash of the bytes rolled since the chunk began ends a chunk. */
    predicate Hit(fed: Bytes) {
      accept(HashOf(ops, table, fed))
    }

    /** A chunk of `n` bytes may end here: long enough, and the hash over all of it hits. */
    predicate CutsAt(s: Bytes, n: nat) {
      minSize <= n <= |s| && Hit(s[..n])
    }
  }

  ghost predicate Valid<W(!new)>(c: Cutter<W>) {
    0 < c.minSize <= c.maxSize && Lawful(c.ops)
  }

  /** The first allowed cut after `from`, or the end. */
  function FirstCut<W>(c: Cutter<W>, s: Bytes, from: nat): (n: nat)
    requires from <= |s|
    ensures from <= n <= |s|
    ensures n < |s| ==> c.CutsAt(s, n)
    ensures forall m | from < m < n :: !c.CutsAt(s, m)
    ensures from < |s| ==> from < n
    decreases |s| - from
  {
    if from == |s| then |s|
    else if c.CutsAt(s, from + 1) then from + 1
    else FirstCut(c, s, from + 1)
  }

  /** The length of the chunk at the start of a full buffer `s`. */
  function Boundary<W>(c: Cutter<W>, s: Bytes): (n: nat)
    ensures n <= |s| && (s != "" ==> n > 0)
  {
    FirstCut(c, s, 0)
  }

  lemma BoundaryIsUnique<W>(c: Cutter<W>, s: Bytes, n: nat)
    requires 0 < n <= |s|
    requires n == |s| || c.CutsAt(s, n)
    requires forall m | 0 < m < n :: !c.CutsAt(s, m)
    ensures n == Boundary(c, s)
  {
    assert Boundary(c, s) == FirstCut(c, s, 0);
  }

  // ----- skipping the prefix ------------------------------------------------------------------

  /** Splitter.boundary begins its scan here: no accepted cut can depend on an earlier byte. */
  function ScanStart<W>(c: Cutter<W>): nat {
    if c.minSize - WINDOW < 0 then 0 else c.minSize - WINDOW
  }

  /**
   Wherever a cut is allowed, the hash of the bytes since the skipped prefix is the hash of all of
   them.
   */
  lemma SkippedPrefixIsExact<W>(c: Cutter<W>, s: Bytes, n: nat)
    requires 0 < c.minSize <= n <= |s|
    ensures HashOf(c.ops, c.table, s[ScanStart(c)..n]) == HashOf(c.ops, c.table, s[..n])
  {
    var k := ScanStart(c);
    assert s[..n] == s[..k] + s[k..n];
    if k == 0 {
      assert s[0..n] == s[..n];
    } else {
      HashOfIsLocal(c.ops, c.table, s[..k], s[k..n]);
    }
  }

  lemma {:induction false} NoCutBelowMinimum<W>(c: Cutter<W>, s: Bytes, k: nat)
    requires k <= |s| && (k == 0 || k < c.minSize)
    ensures Boundary(c, s) == FirstCut(c, s, k)
  {
    if k > 0 {
      NoCutBelowMinimum(c, s, k - 1);
    }
  }

  // ----- the batch cut ------------------------------------------------------------------------

  /** What the buffer holds when the splitter decides on the chunk at the start of `s`. */
  function Window<W>(c: Cutter<W>, s: Bytes): Bytes
    requires 0 < c.minSize <= c.maxSize
  {
    if |s| <= c.maxSize then s else s[..c.maxSize]
  }

  function CutLength<W>(c: Cutter<W>, s: Bytes): (n: nat)
    requires 0 < c.minSize <= c.maxSize
    ensures n <= |s| && n <= c.maxSize && (s != "" ==> n > 0)
  {
    Boundary(c, Window(c, s))
  }

  /** The whole byte sequence, cut. */
  function Chunks<W>(c: Cutter<W>, s: Bytes): seq<Bytes>
    requires 0 < c.minSize <= c.maxSize
    decreases |s|
  {
    if s == "" then []
    else
      var n := CutLength(c, s);
      [s[..n]] + Chunks(c, s[n..])
  }

  function Concat(cs: seq<Bytes>): Bytes {
    if cs == [] then "" else cs[0] + Concat(cs[1..])
  }

  lemma {:induction false} ConcatSnoc(cs: seq<Bytes>, last: Bytes)
    ensures Concat(cs + [last]) == Concat(cs) + last
  {
    if cs == [] {
      assert Concat([last]) == last + Concat([]);
    } else {
      assert (cs + [last])[1..] == cs[1..] + [last];
      ConcatSnoc(cs[1..], last);
    }
  }

  lemma ConcatCons(first: Bytes, cs: seq<Bytes>)
    ensures Concat([first] + cs) == first + Concat(cs)
  {
    assert ([first] + cs)[1..] == cs;
  }

  /** Cutting loses, adds and reorders nothing. */
  lemma {:induction false} ChunksConcatenate<W>(c: Cutter<W>, s: Bytes)
    requires 0 < c.minSize <= c.maxSize
    ensures Concat(Chunks(c, s)) == s
    decreases |s|
  {
    if s != "" {
      var n := CutLength(c, s);
      var left := s[n..];
      ChunksConcatenate(c, left);
      assert Chunks(c, s) == [s[..n]] + Chunks(c, left);
      ConcatCons(s[..n], Chunks(c, left));
      assert s[..n] + left == s;
    }
  }

  /** Every chunk but the last has between MinSize and MaxSize bytes, and the last is not empty. */
  lemma {:induction false} ChunksAreBounded<W>(c: Cutter<W>, s: Bytes, i: nat)
    requires 0 < c.minSize <= c.maxSize && i < |Chunks(c, s)|
    ensures 0 < |Chunks(c, s)[i]| <= c.maxSize
    ensures i + 1 < |Chunks(c, s)| ==> c.minSize <= |Chunks(c, s)[i]|
    decreases |s|
  {
    var n := CutLength(c, s);
    if i > 0 {
      ChunksAreBounded(c, s[n..], i - 1);
    } else if n < |s| {
      assert n == |Window(c, s)| || c.CutsAt(Window(c, s), n);
    } else {
      assert Chunks(c, s[n..]) == [];
    }
  }

  /** The offset at which chunk `i` begins. */
  function ChunkStart<W>(c: Cutter<W>, s: Bytes, i: nat): (at: nat)
    requires 0 < c.minSize <= c.maxSize && i <= |Chunks(c, s)|
    ensures at <= |s|
    decreases |s|
  {
    if i == 0 then 0
    else
      var n := CutLength(c, s);
      n + ChunkStart(c, s[n..], i - 1)
  }

  lemma FirstChunk<W>(c: Cutter<W>, s: Bytes, i: nat)
    requires 0 < c.minSize <= c.maxSize && 0 < i <= |Chunks(c, s)|
    ensures var left := s[CutLength(c, s)..];
      && i - 1 <= |Chunks(c, left)| && Chunks(c, s)[i..] == Chunks(c, left)[i - 1..]
      && ChunkStart(c, s, i) == CutLength(c, s) + ChunkStart(c, left, i - 1)
  {
  }

  lemma DropTwice(s: Bytes, n: nat, m: nat)
    requires n + m <= |s|
    ensures s[n..][m..] == s[n + m..]
  {
  }

  /** The bytes from chunk `i` on are cut as if the stream began there. */
  lemma {:induction false} ChunksResume<W>(c: Cutter<W>, s: Bytes, i: nat)
    requires 0 < c.minSize <= c.maxSize && i <= |Chunks(c, s)|
    ensures Chunks(c, s)[i..] == Chunks(c, s[ChunkStart(c, s, i)..])
    decreases |s|
  {
    if i == 0 {
      assert s[0..] == s && Chunks(c, s)[0..] == Chunks(c, s);
    } else {
      var left := s[CutLength(c, s)..];
      var at := ChunkStart(c, left, i - 1);
      FirstChunk(c, s, i);
      ChunksResume(c, left, i - 1);
      DropTwice(s, CutLength(c, s), at);
      assert s[ChunkStart(c, s, i)..] == left[at..];
    }
  }

  /**
   An edit resynchronises: once two streams both start a chunk at the beginning of a common suffix,
   every chunk from there on is shared.
   */
  lemma EditsResynchronise<W>(c: Cutter<W>, s: Bytes, u: Bytes, i: nat, j: nat)
    requires 0 < c.minSize <= c.maxSize && i <= |Chunks(c, s)| && j <= |Chunks(c, u)|
    requires s[ChunkStart(c, s, i)..] == u[ChunkStart(c, u, j)..]
    ensures Chunks(c, s)[i..] == Chunks(c, u)[j..]
  {
    ChunksResume(c, s, i);
    ChunksResume(c, u, j);
  }

  // ----- a run of one byte --------------------------------------------------------------------

  /** The table words of `b` and of the zero byte differ in an even number of bits. */
  predicate EvenRun<W>(c: Cutter<W>, b: Byte) {
    OneBits(c.ops, c.ops.xor(c.table(b), c.table('\0')), WINDOW) % 2 == 0
  }

  lemma {:induction false} RunHits<W(!new)>(c: Cutter<W>, b: Byte, m: nat)
    requires Lawful(c.ops) && m >= WINDOW
    ensures c.Hit(Run(b, m)) == c.accept(if EvenRun(c, b) then c.ops.zero else c.ops.ones)
  {
    assert Run(b, m) == Run(b, m - WINDOW) + Run(b, WINDOW);
    HashOfRun(c.ops, c.table, Run(b, m - WINDOW), b);
  }

  /**
   With MinSize at least the window, a long run of one byte is cut at MinSize when the byte's table
   word differs from that of the zero byte in an even number of bits, and otherwise not before the
   buffer ends.
   */
  lemma RunIsCutAtMinimumOrNever<W(!new)>(c: Cutter<W>, b: Byte, n: nat)
    requires Valid(c) && WINDOW <= c.minSize <= n
    requires c.accept(c.ops.zero) && !c.accept(c.ops.ones)
    ensures Boundary(c, Run(b, n)) == if EvenRun(c, b) then c.minSize else n
  {
    var s := Run(b, n);
    forall m | c.minSize <= m <= n ensures c.CutsAt(s, m) <==> EvenRun(c, b) {
      assert s[..m] == Run(b, m);
      RunHits(c, b, m);
    }
    BoundaryIsUnique(c, s, if EvenRun(c, b) then c.minSize else n);
  }
}
