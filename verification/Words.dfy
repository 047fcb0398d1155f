/**
 The algebra behind the rolling hash of chunk/buzhash.go, over any word type with an exclusive or
 and a one-step rotation of period 64. Module Bits shows that 64-bit words are an instance.
 */
module Words {
  import opened Common

  /** tuning.BuzhashWindow, which is also the width of a word in bits */
  const WINDOW: nat := 64

  datatype Ops<!W> = Ops(zero: W, ones: W, xor: (W, W) -> W, turn: W -> W, odd: W -> bool)

  function RotN<W>(o: Ops<W>, x: W, n: nat): W {
    if n == 0 then x else o.turn(RotN(o, x, n - 1))
  }

  ghost predicate Law<W>(o: Ops<W>, x: W, y: W, z: W) {
    && o.xor(x, y) == o.xor(y, x)
    && o.xor(o.xor(x, y), z) == o.xor(x, o.xor(y, z))
    && o.xor(x, x) == o.zero
    && o.xor(x, o.zero) == x
    && o.turn(o.xor(x, y)) == o.xor(o.turn(x), o.turn(y))
    && o.odd(o.xor(x, y)) == (o.odd(x) != o.odd(y))
    && (o.turn(x) == x ==> x == if o.odd(x) then o.ones else o.zero)
  }

  ghost predicate FullTurn<W>(o: Ops<W>, x: W) {
    RotN(o, x, WINDOW) == x
  }

  ghost predicate Lawful<W(!new)>(o: Ops<W>) {
    && (forall x, y, z :: Law(o, x, y, z))
    && (forall x :: FullTurn(o, x))
  }

  /** `x` with `y` and then `z` added, in the other order. */
  lemma SwapRight<W(!new)>(o: Ops<W>, x: W, y: W, z: W)
    requires Lawful(o)
    ensures o.xor(o.xor(x, y), z) == o.xor(o.xor(x, z), y)
  {
    assert Law(o, x, y, z) && Law(o, x, z, y) && Law(o, y, z, x);
  }

  /** Adding the same word twice changes nothing. */
  lemma Twice<W(!new)>(o: Ops<W>, x: W, y: W)
    requires Lawful(o)
    ensures o.xor(o.xor(x, y), y) == x
  {
    assert Law(o, x, y, y) && Law(o, y, y, y) && Law(o, x, x, x);
  }

  lemma TurnZero<W(!new)>(o: Ops<W>)
    requires Lawful(o)
    ensures o.turn(o.zero) == o.zero
  {
    assert Law(o, o.zero, o.zero, o.zero) && Law(o, o.turn(o.zero), o.turn(o.zero), o.zero);
  }

  // ----- the window sum -----------------------------------------------------------------------

  /** The exclusive or of the table words of `w`, each rotated by its distance from the newest byte. */
  function WindowSum<W>(o: Ops<W>, t: Byte -> W, w: Bytes): W {
    if |w| == 0 then o.zero else o.xor(RotN(o, t(w[0]), |w| - 1), WindowSum(o, t, w[1..]))
  }

  function Run(b: Byte, n: nat): (s: Bytes)
    ensures |s| == n
  {
    seq(n, _ => b)
  }

  /** The window `reset` leaves behind. */
  function ZeroWindow(): (w: Bytes)
    ensures |w| == WINDOW
  {
    Run('\0', WINDOW)
  }

  /** The last 64 bytes fed since `reset`, padded with zero bytes on the old side. */
  function LastWindow(fed: Bytes): (w: Bytes)
    ensures |w| == WINDOW
  {
    (ZeroWindow() + fed)[|fed|..]
  }

  /** What the rolling hash is after the bytes `fed`, computed from the window alone. */
  function HashOf<W>(o: Ops<W>, t: Byte -> W, fed: Bytes): W {
    o.xor(WindowSum(o, t, LastWindow(fed)), WindowSum(o, t, ZeroWindow()))
  }

  lemma {:induction false} WindowSumSnoc<W(!new)>(o: Ops<W>, t: Byte -> W, w: Bytes, b: Byte)
    requires Lawful(o)
    ensures WindowSum(o, t, w + [b]) == o.xor(o.turn(WindowSum(o, t, w)), t(b))
  {
    var v := w + [b];
    if |w| == 0 {
      assert v[1..] == "";
      TurnZero(o);
      assert Law(o, o.zero, t(b), t(b)) && Law(o, t(b), t(b), t(b));
    } else {
      assert v[1..] == w[1..] + [b];
      WindowSumSnoc(o, t, w[1..], b);
      var r, s := RotN(o, t(w[0]), |w| - 1), WindowSum(o, t, w[1..]);
      assert Law(o, r, s, t(b)) && Law(o, o.turn(r), o.turn(s), t(b));
    }
  }

  /** Sliding the window by one byte is one rotation and two exclusive ors. */
  lemma WindowSumSlide<W(!new)>(o: Ops<W>, t: Byte -> W, w: Bytes, b: Byte)
    requires Lawful(o) && |w| == WINDOW
    ensures WindowSum(o, t, w[1..] + [b]) == o.xor(o.xor(o.turn(WindowSum(o, t, w)), t(w[0])), t(b))
  {
    var oldest, rest := RotN(o, t(w[0]), 63), WindowSum(o, t, w[1..]);
    WindowSumSnoc(o, t, w[1..], b);
    assert Law(o, oldest, rest, rest) && Law(o, t(w[0]), o.turn(rest), rest) && FullTurn(o, t(w[0]));
    assert o.turn(WindowSum(o, t, w)) == o.xor(RotN(o, t(w[0]), 64), o.turn(rest));
    Twice(o, o.turn(rest), t(w[0]));
  }

  lemma ZeroWindowIsFixed<W(!new)>(o: Ops<W>, t: Byte -> W)
    requires Lawful(o)
    ensures o.turn(WindowSum(o, t, ZeroWindow())) == WindowSum(o, t, ZeroWindow())
  {
    var w := ZeroWindow();
    assert w[1..] + ['\0'] == w;
    WindowSumSlide(o, t, w, '\0');
    Twice(o, o.turn(WindowSum(o, t, w)), t('\0'));
  }

  lemma HashOfNothing<W(!new)>(o: Ops<W>, t: Byte -> W)
    requires Lawful(o)
    ensures HashOf(o, t, "") == o.zero
  {
    assert LastWindow("") == ZeroWindow();
    var z := WindowSum(o, t, ZeroWindow());
    assert Law(o, z, z, z);
  }

  lemma LastWindowSlides(fed: Bytes, b: Byte)
    ensures LastWindow(fed + [b]) == LastWindow(fed)[1..] + [b]
  {
    assert ZeroWindow() + (fed + [b]) == (ZeroWindow() + fed) + [b];
  }

  /** The incremental step computes the closed form of one more byte. */
  lemma HashOfStep<W(!new)>(o: Ops<W>, t: Byte -> W, fed: Bytes, b: Byte)
    requires Lawful(o)
    ensures HashOf(o, t, fed + [b]) == o.xor(o.xor(o.turn(HashOf(o, t, fed)), t(LastWindow(fed)[0])), t(b))
  {
    var w, z := LastWindow(fed), WindowSum(o, t, ZeroWindow());
    var s := WindowSum(o, t, w);
    LastWindowSlides(fed, b);
    WindowSumSlide(o, t, w, b);
    ZeroWindowIsFixed(o, t);
    assert Law(o, s, z, z);
    SwapRight(o, o.xor(o.turn(s), t(w[0])), t(b), z);
    SwapRight(o, o.turn(s), t(w[0]), z);
  }

  /** The hash forgets everything but the last 64 bytes, whatever was fed before them. */
  lemma HashOfIsLocal<W>(o: Ops<W>, t: Byte -> W, before: Bytes, recent: Bytes)
    requires |recent| >= WINDOW
    ensures HashOf(o, t, before + recent) == HashOf(o, t, recent)
  {
    assert ZeroWindow() + (before + recent) == (ZeroWindow() + before) + recent;
    assert LastWindow(before + recent) == recent[|recent| - WINDOW..];
    assert LastWindow(recent) == recent[|recent| - WINDOW..];
  }

  // ----- a run of one byte --------------------------------------------------------------------

  /** The exclusive or of the first `n` rotations of `x`. */
  function XorOfRotations<W>(o: Ops<W>, x: W, n: nat): W {
    if n == 0 then o.zero else o.xor(RotN(o, x, n - 1), XorOfRotations(o, x, n - 1))
  }

  /** How many of the first `n` rotations of `x` are odd; over 64 rotations, the one bits of `x`. */
  function OneBits<W>(o: Ops<W>, x: W, n: nat): nat {
    if n == 0 then 0 else OneBits(o, x, n - 1) + if o.odd(RotN(o, x, n - 1)) then 1 else 0
  }

  lemma {:induction false} WindowSumOfRun<W>(o: Ops<W>, t: Byte -> W, b: Byte, n: nat)
    ensures WindowSum(o, t, Run(b, n)) == XorOfRotations(o, t(b), n)
  {
    if n > 0 {
      assert Run(b, n)[1..] == Run(b, n - 1);
      WindowSumOfRun(o, t, b, n - 1);
    }
  }

  lemma {:induction false} RotXor<W(!new)>(o: Ops<W>, x: W, y: W, n: nat)
    requires Lawful(o)
    ensures RotN(o, o.xor(x, y), n) == o.xor(RotN(o, x, n), RotN(o, y, n))
  {
    if n > 0 {
      RotXor(o, x, y, n - 1);
      assert Law(o, RotN(o, x, n - 1), RotN(o, y, n - 1), x);
    }
  }

  /** Two pairs of words, summed crosswise. */
  lemma Exchange<W(!new)>(o: Ops<W>, a: W, b: W, p: W, q: W)
    requires Lawful(o)
    ensures o.xor(o.xor(a, b), o.xor(p, q)) == o.xor(o.xor(a, p), o.xor(b, q))
  {
    assert Law(o, o.xor(a, b), p, q) && Law(o, o.xor(a, p), b, q);
    SwapRight(o, a, b, p);
  }

  lemma {:induction false} XorOfRotationsXor<W(!new)>(o: Ops<W>, x: W, y: W, n: nat)
    requires Lawful(o)
    ensures XorOfRotations(o, o.xor(x, y), n) == o.xor(XorOfRotations(o, x, n), XorOfRotations(o, y, n))
  {
    if n == 0 {
      assert Law(o, o.zero, o.zero, o.zero);
    } else {
      var a, b := RotN(o, x, n - 1), RotN(o, y, n - 1);
      var p, q := XorOfRotations(o, x, n - 1), XorOfRotations(o, y, n - 1);
      assert XorOfRotations(o, o.xor(x, y), n) == o.xor(o.xor(a, b), o.xor(p, q)) by {
        XorOfRotationsXor(o, x, y, n - 1);
        RotXor(o, x, y, n - 1);
      }
      Exchange(o, a, b, p, q);
    }
  }

  lemma {:induction false} OddIsParity<W(!new)>(o: Ops<W>, x: W, n: nat)
    requires Lawful(o)
    ensures o.odd(XorOfRotations(o, x, n)) <==> OneBits(o, x, n) % 2 == 1
  {
    if n == 0 {
      assert Law(o, o.zero, o.zero, o.zero);
    } else {
      OddIsParity(o, x, n - 1);
      assert Law(o, RotN(o, x, n - 1), XorOfRotations(o, x, n - 1), x);
    }
  }

  lemma {:induction false} XorOfRotationsTurns<W(!new)>(o: Ops<W>, x: W, n: nat)
    requires Lawful(o)
    ensures o.turn(XorOfRotations(o, x, n)) == o.xor(o.xor(XorOfRotations(o, x, n), RotN(o, x, n)), x)
  {
    if n == 0 {
      TurnZero(o);
      Twice(o, o.zero, x);
    } else {
      var a, r := XorOfRotations(o, x, n - 1), RotN(o, x, n - 1);
      var s := o.turn(r);
      XorOfRotationsTurns(o, x, n - 1);
      assert Law(o, r, a, x);
      assert Law(o, a, r, x);
      assert Law(o, s, o.xor(o.xor(a, r), x), x) && Law(o, o.xor(a, r), x, s);
      SwapRight(o, o.xor(a, r), x, s);
    }
  }

  /**
   A window filled with one byte hashes to all zeros or to all ones, and which of the two it is
   depends only on the parity of the one bits in which the table words of that byte and of the zero
   byte differ.
   */
  lemma HashOfRun<W(!new)>(o: Ops<W>, t: Byte -> W, before: Bytes, b: Byte)
    requires Lawful(o)
    ensures HashOf(o, t, before + Run(b, WINDOW)) ==
            if OneBits(o, o.xor(t(b), t('\0')), WINDOW) % 2 == 1 then o.ones else o.zero
  {
    var x := o.xor(t(b), t('\0'));
    var s := XorOfRotations(o, x, WINDOW);
    HashOfIsLocal(o, t, before, Run(b, WINDOW));
    assert LastWindow(Run(b, WINDOW)) == Run(b, WINDOW);
    WindowSumOfRun(o, t, b, WINDOW);
    WindowSumOfRun(o, t, '\0', WINDOW);
    XorOfRotationsXor(o, t(b), t('\0'), WINDOW);
    XorOfRotationsTurns(o, x, WINDOW);
    assert FullTurn(o, x);
    Twice(o, s, x);
    OddIsParity(o, x, WINDOW);
    assert Law(o, s, s, s);
  }

  lemma {:induction false} RotAdd<W>(o: Ops<W>, x: W, m: nat, n: nat)
    ensures RotN(o, x, m + n) == RotN(o, RotN(o, x, m), n)
  {
    if n > 0 {
      RotAdd(o, x, m, n - 1);
    }
  }
}
