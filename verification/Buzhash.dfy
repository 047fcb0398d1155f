/**
 The rolling hash of chunk/buzhash.go: a ring buffer of 64 bytes and a sum that is rotated by one
 bit per byte. The word type is a parameter; `Bits.Bv64` is the instance the program runs.
 */
module Buzhash {
  import opened Common
  import opened Words

  /** The ring `w`, read from `pos` around to `pos`. */
  function Unrolled(w: Bytes, pos: nat): Bytes
    requires pos <= |w|
  {
    w[pos..] + w[..pos]
  }

  /** Overwriting the oldest byte and advancing makes it the newest one. */
  lemma UnrolledAdvances(w: Bytes, pos: nat, b: Byte)
    requires pos < |w|
    ensures Unrolled(w, pos)[0] == w[pos]
    ensures Unrolled(w[pos := b], if pos + 1 == |w| then 0 else pos + 1) == Unrolled(w, pos)[1..] + [b]
  {
    var v := w[pos := b];
    assert v[pos + 1..] == w[pos + 1..] && v[..pos + 1] == w[..pos] + [b];
  }

  class RollingHash<W(!new)> {
    const ops: Ops<W>
    const table: Byte -> W
    const window: array<Byte>
    var sum: W
    var pos: nat
    ghost var fed: Bytes  // every byte rolled since the last reset

    ghost predicate Valid()
      reads this, window
    {
      && Lawful(ops)
      && window.Length == WINDOW
      && pos < WINDOW
      && Unrolled(window[..], pos) == LastWindow(fed)
      && sum == HashOf(ops, table, fed)
    }

    constructor (o: Ops<W>, t: Byte -> W)
      requires Lawful(o)
      ensures Valid() && fed == "" && ops == o && table == t
      ensures fresh(window)
    {
      ops, table := o, t;
      window := new Byte[WINDOW](_ => '\0');
      sum, pos, fed := o.zero, 0, "";
      new;
      assert window[..] == ZeroWindow() == LastWindow("");
      HashOfNothing(o, t);
    }

    method Reset()
      requires Valid()
      modifies this, window
      ensures Valid() && fed == ""
    {
      sum := ops.zero;
      forall i | 0 <= i < window.Length {
        window[i] := '\0';
      }
      pos := 0;
      fed := "";
      assert window[..] == ZeroWindow() == LastWindow("");
      HashOfNothing(ops, table);
    }

    /** The returned sum is the closed form of everything fed since `Reset`, this byte included. */
    method Roll(b: Byte) returns (r: W)
      requires Valid()
      modifies this, window
      ensures Valid() && fed == old(fed) + [b]
      ensures r == HashOf(ops, table, fed)
    {
      ghost var w, f := window[..], fed;
      UnrolledAdvances(w, pos, b);
      LastWindowSlides(f, b);
      HashOfStep(ops, table, f, b);
      var out := window[pos];
      window[pos] := b;
      assert window[..] == w[pos := b];
      pos := if pos + 1 == WINDOW then 0 else pos + 1;
      sum := ops.xor(ops.xor(ops.turn(sum), table(out)), table(b));
      fed := fed + [b];
      r := sum;
    }
  }
}
