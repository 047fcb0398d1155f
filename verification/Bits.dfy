/** Sixty-four bit words with exclusive or and one-bit rotation: the words chunk/buzhash.go computes with. */
module Bits {
  import opened Words

  /** bits.RotateLeft64(x, 1) */
  function Rotl(x: bv64): bv64 {
    (x << 1) | (x >> 63)
  }

  function Xor(x: bv64, y: bv64): bv64 {
    x ^ y
  }

  predicate Odd(x: bv64) {
    x & 1 == 1
  }

  function Bv64(): Ops<bv64> {
    Ops(0, 0xffff_ffff_ffff_ffff, Xor, Rotl, Odd)
  }

  /** `x` rotated left by `n`, in two shifts. */
  function Rotated(x: bv64, n: bv7): bv64
    requires 0 < n < 64
  {
    (x << n) | (x >> (64 - n))
  }

  lemma Rotation2(x: bv64)
    ensures Rotl(Rotl(x)) == Rotated(x, 2)
  {
  }

  lemma Rotation4(x: bv64)
    ensures Rotated(Rotated(x, 2), 2) == Rotated(x, 4)
  {
  }

  lemma Rotation8(x: bv64)
    ensures Rotated(Rotated(x, 4), 4) == Rotated(x, 8)
  {
  }

  lemma Rotation16(x: bv64)
    ensures Rotated(Rotated(x, 8), 8) == Rotated(x, 16)
  {
  }

  lemma Rotation32(x: bv64)
    ensures Rotated(Rotated(x, 16), 16) == Rotated(x, 32)
  {
  }

  lemma Rotation64(x: bv64)
    ensures Rotated(Rotated(x, 32), 32) == x
  {
  }

  lemma Rot2(x: bv64)
    ensures RotN(Bv64(), x, 2) == Rotated(x, 2)
  {
    var o := Bv64();
    assert RotN(o, x, 2) == o.turn(RotN(o, x, 1)) == Rotl(Rotl(x));
    Rotation2(x);
  }

  lemma Rot4(x: bv64)
    ensures RotN(Bv64(), x, 4) == Rotated(x, 4)
  {
    RotAdd(Bv64(), x, 2, 2);
    Rot2(x);
    Rot2(Rotated(x, 2));
    Rotation4(x);
  }

  lemma Rot8(x: bv64)
    ensures RotN(Bv64(), x, 8) == Rotated(x, 8)
  {
    RotAdd(Bv64(), x, 4, 4);
    Rot4(x);
    Rot4(Rotated(x, 4));
    Rotation8(x);
  }

  lemma Rot16(x: bv64)
    ensures RotN(Bv64(), x, 16) == Rotated(x, 16)
  {
    RotAdd(Bv64(), x, 8, 8);
    Rot8(x);
    Rot8(Rotated(x, 8));
    Rotation16(x);
  }

  lemma Rot32(x: bv64)
    ensures RotN(Bv64(), x, 32) == Rotated(x, 32)
  {
    RotAdd(Bv64(), x, 16, 16);
    Rot16(x);
    Rot16(Rotated(x, 16));
    Rotation32(x);
  }

  /** Sixty-four one-bit rotations are the identity, which is why the byte that leaves is a plain XOR. */
  lemma Rot64(x: bv64)
    ensures RotN(Bv64(), x, WINDOW) == x
  {
    RotAdd(Bv64(), x, 32, 32);
    Rot32(x);
    Rot32(Rotated(x, 32));
    Rotation64(x);
  }

  ghost predicate IsXor(x: bv64, y: bv64, r: bv64) {
    r == x ^ y
  }

  lemma XorIs(x: bv64, y: bv64)
    ensures IsXor(x, y, Xor(x, y))
  {
  }

  lemma IsXorAssociative(x: bv64, y: bv64, z: bv64, xy: bv64, yz: bv64, l: bv64, r: bv64)
    requires IsXor(x, y, xy) && IsXor(xy, z, l)
    requires IsXor(y, z, yz) && IsXor(x, yz, r)
    ensures l == r
  {
  }

  lemma XorAssociative(x: bv64, y: bv64, z: bv64)
    ensures Xor(Xor(x, y), z) == Xor(x, Xor(y, z))
  {
    var xy, yz := Xor(x, y), Xor(y, z);
    XorIs(x, y);
    XorIs(y, z);
    XorIs(xy, z);
    XorIs(x, yz);
    IsXorAssociative(x, y, z, xy, yz, Xor(xy, z), Xor(x, yz));
  }

  lemma XorLaws(x: bv64, y: bv64)
    ensures Xor(x, y) == Xor(y, x)
    ensures Xor(x, x) == 0 && Xor(x, 0) == x
    ensures Odd(Xor(x, y)) == (Odd(x) != Odd(y))
  {
  }

  lemma RotlXor(x: bv64, y: bv64)
    ensures Rotl(Xor(x, y)) == Xor(Rotl(x), Rotl(y))
  {
  }

  /** A word equal to its own rotation has all bits equal. */
  lemma RotlFixpoint(x: bv64)
    ensures Rotl(x) == x ==> x == if Odd(x) then 0xffff_ffff_ffff_ffff else 0
  {
  }

  // ----- bit by bit ---------------------------------------------------------------------------

  predicate Bit(x: bv64, i: bv64)
    requires i < 64
  {
    (x >> i) & 1 == 1
  }

  /** Every bit moves up one place, and the top one to the bottom. */
  lemma RotlMovesBits(x: bv64, i: bv64)
    requires i < 64
    ensures Bit(Rotl(x), if i == 63 then 0 else i + 1) == Bit(x, i)
  {
  }

  lemma BitsOfXor(x: bv64, y: bv64, i: bv64)
    requires i < 64
    ensures Bit(x ^ y, i) == (Bit(x, i) != Bit(y, i))
  {
  }

  lemma BitOfXor(x: bv64, y: bv64, i: bv64)
    requires i < 64
    ensures Bit(Xor(x, y), i) == (Bit(x, i) != Bit(y, i))
  {
    BitsOfXor(x, y, i);
    assert Xor(x, y) == x ^ y;
  }

  lemma BitOfConstants(x: bv64, i: bv64)
    requires i < 64
    ensures !Bit(0, i) && Bit(0xffff_ffff_ffff_ffff, i) && Odd(x) == Bit(x, 0)
  {
  }

  /** What the operations of the hash do to the single bits. */
  lemma Bv64BitByBit(x: bv64, y: bv64, i: bv64)
    requires i < 64
    ensures var o := Bv64();
      && Bit(o.turn(x), if i == 63 then 0 else i + 1) == Bit(x, i)
      && Bit(o.xor(x, y), i) == (Bit(x, i) != Bit(y, i))
      && !Bit(o.zero, i) && Bit(o.ones, i) && o.odd(x) == Bit(x, 0)
  {
    RotlMovesBits(x, i);
    BitOfXor(x, y, i);
    BitOfConstants(x, i);
  }

  lemma ShiftedOut(d: bv64, i: bv64)
    requires i < 64 && d >> i != 0 && !Bit(d, i)
    ensures i < 63 && d >> (i + 1) != 0
  {
  }

  /** The lowest one bit at or above `i`. */
  function LowestBit(d: bv64, i: bv64): (r: bv64)
    requires i < 64 && d >> i != 0
    ensures r < 64 && Bit(d, r)
    decreases 64 - i
  {
    if Bit(d, i) then i else ShiftedOut(d, i); LowestBit(d, i + 1)
  }

  lemma SomeBit(d: bv64)
    requires d != 0
    ensures exists i: bv64 :: i < 64 && Bit(d, i)
  {
    assert Bit(d, LowestBit(d, 0));
  }

  lemma XorOfDifferent(x: bv64, y: bv64)
    requires x != y
    ensures Xor(x, y) != 0
  {
  }

  /** So a word is its bits. */
  lemma BitsDetermine(x: bv64, y: bv64)
    ensures x == y <==> forall i: bv64 | i < 64 :: Bit(x, i) == Bit(y, i)
  {
    if x != y {
      XorOfDifferent(x, y);
      SomeBit(Xor(x, y));
      var i: bv64 :| i < 64 && Bit(Xor(x, y), i);
      BitOfXor(x, y, i);
    }
  }

  lemma Bv64IsLawful()
    ensures Lawful(Bv64())
  {
    forall x, y, z ensures Law(Bv64(), x, y, z) {
      XorAssociative(x, y, z);
      XorLaws(x, y);
      RotlXor(x, y);
      RotlFixpoint(x);
    }
    forall x ensures FullTurn(Bv64(), x) {
      Rot64(x);
    }
  }
}
