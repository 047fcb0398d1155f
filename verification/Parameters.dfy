/** The chunking parameters of chunk/chunk.go, and the cutter a set of them stands for. */
module Parameters {
  import opened Common
  import opened Words
  import opened Bits
  import opened Cut
  import opened Splitter

  datatype Params = Params(minSize: int, maxSize: int, maskBits: bv64)

  datatype ParamError = MinNotPositive | MaxBelowMin | MaskBitsOutOfRange

  /** Params.validate */
  function Validate(p: Params): Option<ParamError> {
    if p.minSize <= 0 then Some(MinNotPositive)
    else if p.maxSize < p.minSize then Some(MaxBelowMin)
    else if p.maskBits == 0 || p.maskBits >= 64 then Some(MaskBitsOutOfRange)
    else None
  }

  /** Params.mask, and the test a rolling hash has to pass to end a chunk. */
  function Mask(bits: bv64): bv64
    requires bits < 64
  {
    (1 << bits) - 1
  }

  predicate Masked(bits: bv64, h: bv64)
    requires bits < 64
  {
    h & Mask(bits) == 0
  }

  function ForParams(p: Params, table: Byte -> bv64): Cutter<bv64>
    requires Validate(p) == None
  {
    Cutter(p.minSize, p.maxSize, Bv64(), table, (h: bv64) => Masked(p.maskBits, h))
  }

  lemma ForParamsIsValid(p: Params, table: Byte -> bv64)
    requires Validate(p) == None
    ensures Valid(ForParams(p, table))
  {
    Bv64IsLawful();
  }

  ghost predicate LowBitsClear(bits: bv64, h: bv64)
    requires bits < 64
  {
    forall i: bv64 | i < bits :: !Bit(h, i)
  }

  lemma LowBitIsClear(bits: bv64, h: bv64, i: bv64)
    requires i < bits < 64 && Masked(bits, h)
    ensures !Bit(h, i)
  {
  }

  lemma BitOfMasked(bits: bv64, h: bv64, i: bv64)
    requires i < 64 && bits < 64 && Bit(h & Mask(bits), i)
    ensures i < bits && Bit(h, i)
  {
  }

  /** The test is that the low bits are all zero; no other bit matters. */
  lemma MaskedIff(bits: bv64, h: bv64)
    requires bits < 64
    ensures Masked(bits, h) <==> LowBitsClear(bits, h)
  {
    forall i: bv64 | i < bits && Masked(bits, h) ensures !Bit(h, i) {
      LowBitIsClear(bits, h, i);
    }
    var d := h & Mask(bits);
    if d != 0 {
      SomeBit(d);
      var i: bv64 :| i < 64 && Bit(d, i);
      BitOfMasked(bits, h, i);
    }
  }

  /** A chunk of at least MinSize bytes whose hash has none of the low bits. */
  ghost predicate Ends(p: Params, table: Byte -> bv64, chunk: Bytes)
    requires p.maskBits < 64
  {
    p.minSize <= |chunk| && LowBitsClear(p.maskBits, HashOf(Bv64(), table, chunk))
  }

  /** The program's chunks end at the first such place within MaxSize bytes, or there, or with the stream. */
  ghost predicate IsChunk(p: Params, table: Byte -> bv64, s: Bytes, n: nat)
    requires p.maskBits < 64
  {
    && 0 < n <= Min(|s|, p.maxSize) && (n == |s| || n == p.maxSize || Ends(p, table, s[..n]))
    && forall m | 0 < m < n :: !Ends(p, table, s[..m])
  }

  lemma CutsWhereItEnds(p: Params, table: Byte -> bv64, s: Bytes, n: nat)
    requires Validate(p) == None && n <= Min(|s|, p.maxSize)
    ensures ForParams(p, table).CutsAt(Window(ForParams(p, table), s), n) <==> Ends(p, table, s[..n])
  {
    var c := ForParams(p, table);
    assert Window(c, s)[..n] == s[..n];
    MaskedIff(p.maskBits, HashOf(Bv64(), table, s[..n]));
  }

  /** So this is what Splitter.Next returns the length of, as it returns that of the reference cut. */
  lemma ChunkEndForParams(p: Params, table: Byte -> bv64, s: Bytes, n: nat)
    requires Validate(p) == None && s != ""
    ensures n == CutLength(ForParams(p, table), s) <==> IsChunk(p, table, s, n)
  {
    var c := ForParams(p, table);
    var window := Window(c, s);
    forall m: nat | m <= |window| ensures c.CutsAt(window, m) <==> Ends(p, table, s[..m]) {
      CutsWhereItEnds(p, table, s, m);
    }
    if IsChunk(p, table, s, n) {
      BoundaryIsUnique(c, window, n);
    }
  }

  /** NewSplitter */
  method NewSplitter(r: Reader, p: Params, table: Byte -> bv64) returns (s: Option<Splitter<bv64>>)
    ensures s.Some? <==> 0 < p.minSize <= p.maxSize && 0 < p.maskBits < 64
    ensures s.Some? ==> Validate(p) == None && s.value.Valid()
    ensures s.Some? ==> s.value.cutter == ForParams(p, table) && s.value.remaining == r.rest
  {
    if Validate(p) != None {
      return None;
    }
    ForParamsIsValid(p, table);
    var splitter := new Splitter(ForParams(p, table), r);
    return Some(splitter);
  }

  /** The parity rule for the masks the program uses. */
  lemma RunRuleForParams(p: Params, table: Byte -> bv64, b: Byte, n: nat)
    requires Validate(p) == None && WINDOW <= p.minSize <= n
    ensures Boundary(ForParams(p, table), Run(b, n)) ==
            if EvenRun(ForParams(p, table), b) then p.minSize else n
  {
    ForParamsIsValid(p, table);
    MaskedIff(p.maskBits, 0);
    MaskedIff(p.maskBits, 0xffff_ffff_ffff_ffff);
    BitOfConstants(0, 0);
    assert Bit(0xffff_ffff_ffff_ffff, 0);
    forall i: bv64 | i < p.maskBits ensures !Bit(0, i) {
      BitOfConstants(0, i);
    }
    RunIsCutAtMinimumOrNever(ForParams(p, table), b, n);
  }
}
