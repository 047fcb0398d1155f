/** The streaming splitter of chunk/chunk.go, and the reader it pulls from. */
module Splitter {
  import opened Common
  import opened Words
  import opened Buzhash
  import opened Cut

  /** The errors of a Go reader and of io.ReadFull that the splitter tells apart. */
  datatype ReadError = NoError | Eof | UnexpectedEof | Broken

  /**
   What one Read of a stream does: how many bytes it delivers at most, whether it fails after them,
   and whether it reports the end of the stream together with the last bytes or only afterwards.
   */
  datatype Step = Step(limit: nat, fails: bool, eager: bool)

  /** No read of these fails. */
  predicate NeverFails(script: seq<Step>) {
    forall i | 0 <= i < |script| :: !script[i].fails
  }

  /** The steps of `before` that are not in `after` any more. */
  function Used(before: seq<Step>, after: seq<Step>): seq<Step>
    requires |after| <= |before|
  {
    before[..|before| - |after|]
  }

  lemma UsedOneMore(before: seq<Step>, now: seq<Step>)
    requires 0 < |now| <= |before| && now == before[|before| - |now|..]
    ensures now[1..] == before[|before| - |now[1..]|..]
    ensures Used(before, now[1..]) == Used(before, now) + [now[0]]
  {
  }

  /** A stream. Every fragmentation of its reads is some `script`. */
  class Reader {
    var rest: Bytes          // what the stream still holds
    var script: seq<Step>    // how the coming reads behave; after them, reads deliver what is asked for

    constructor (content: Bytes, steps: seq<Step>)
      ensures rest == content && script == steps
    {
      rest, script := content, steps;
    }

    /** One Read into `dst[at..]`. Fewer bytes than asked for, even none, is not an error. */
    method Read(dst: array<Byte>, at: nat) returns (n: nat, err: ReadError)
      requires at < dst.Length
      modifies this, dst
      ensures n <= dst.Length - at && n <= |old(rest)|
      ensures rest == old(rest)[n..]
      ensures dst[..at + n] == old(dst[..at]) + old(rest)[..n]
      ensures err == NoError || err == Eof || err == Broken
      ensures err == Eof ==> rest == ""
      ensures script == if old(script) == [] then [] else old(script)[1..]
      ensures err == Broken <==> old(script) != [] && old(script)[0].fails
      ensures err == NoError && n == 0 ==> old(script) != []
    {
      var step := if script == [] then Step(dst.Length - at, false, false) else script[0];
      script := if script == [] then [] else script[1..];
      n := Min(step.limit, Min(dst.Length - at, |rest|));
      forall i | 0 <= i < n {
        dst[at + i] := rest[i];
      }
      assert dst[..at + n] == old(dst[..at]) + rest[..n];
      err := if step.fails then Broken
             else if n == |rest| && (n == 0 || step.eager) then Eof
             else NoError;
      rest := rest[n..];
    }

    /** io.ReadFull: read until `dst` is full, the stream ends or a read fails. */
    method ReadFull(dst: array<Byte>, at: nat) returns (n: nat, err: ReadError)
      requires at < dst.Length
      modifies this, dst
      ensures n <= dst.Length - at && n <= |old(rest)|
      ensures rest == old(rest)[n..]
      ensures dst[..at + n] == old(dst[..at]) + old(rest)[..n]
      ensures err == NoError <==> at + n == dst.Length
      ensures err == Eof || err == UnexpectedEof ==> rest == ""
      ensures |script| <= |old(script)| && script == old(script)[|old(script)| - |script|..]
      ensures err == Broken ==> !NeverFails(Used(old(script), script))
      ensures err == Eof || err == UnexpectedEof ==> NeverFails(Used(old(script), script))
    {
      n, err := 0, NoError;
      while at + n < dst.Length && err == NoError
        invariant n <= dst.Length - at && n <= |old(rest)|
        invariant rest == old(rest)[n..]
        invariant dst[..at + n] == old(dst[..at]) + old(rest)[..n]
        invariant err == NoError || err == Eof || err == Broken
        invariant err == Eof ==> rest == ""
        invariant |script| <= |old(script)| && script == old(script)[|old(script)| - |script|..]
        invariant err == Broken <==> !NeverFails(Used(old(script), script))
        decreases if err == NoError then 1 else 0, dst.Length - at - n + |script|
      {
        var more;
        if script != [] {
          UsedOneMore(old(script), script);
        }
        more, err := Read(dst, at + n);
        assert old(rest)[..n] + old(rest)[n..][..more] == old(rest)[..n + more];
        n := n + more;
      }
      if at + n == dst.Length {
        err := NoError;
      } else if err == Eof && n > 0 {
        err := UnexpectedEof;
      }
    }
  }

  lemma Refilled(before: Bytes, stream: Bytes, n: nat, after: Bytes)
    requires n <= |stream| && after == before + stream[..n]
    ensures after + stream[n..] == before + stream
  {
  }

  /** The hash the scan sees at byte `i` accepts a cut there exactly when the reference does. */
  lemma ScanAgrees<W>(c: Cutter<W>, s: Bytes, i: nat)
    requires 0 < c.minSize && ScanStart(c) <= i < |s|
    ensures s[ScanStart(c)..i] + [s[i]] == s[ScanStart(c)..i + 1]
    ensures c.CutsAt(s, i + 1) <==>
            c.minSize <= i + 1 && c.accept(HashOf(c.ops, c.table, s[ScanStart(c)..i + 1]))
  {
    if c.minSize <= i + 1 {
      SkippedPrefixIsExact(c, s, i + 1);
    }
  }

  /** append(a[:0], a[from:to]...): the live bytes move to the front of the array they live in. */
  method MoveToFront(a: array<Byte>, from: nat, to: nat)
    requires from <= to <= a.Length
    modifies a
    ensures a[..to - from] == old(a[from..to])
  {
    for k := 0 to to - from
      invariant forall j | 0 <= j < k :: a[j] == old(a[from + j])
      invariant forall j | from + k <= j < to :: a[j] == old(a[j])
    {
      a[k] := a[from + k];
    }
    forall j | 0 <= j < to - from ensures a[..to - from][j] == old(a[from..to])[j] {
    }
  }

  lemma WindowIsCut(window: Bytes, rest: Bytes, n: nat)
    requires n <= |window|
    ensures (window + rest)[..n] == window[..n] && (window + rest)[n..] == window[n..] + rest
  {
  }

  datatype NextError = Ok | EndOfStream | StreamFailed

  class Splitter<W(!new)> {
    const cutter: Cutter<W>
    const r: Reader
    const buf: array<Byte>           // capacity MaxSize
    const rh: RollingHash<W>
    var len: nat                     // the live window is buf[..len]
    var emitted: nat                 // bytes the last Next returned, dropped by the next one
    var eof: bool
    ghost var remaining: Bytes       // the bytes no Next has returned yet

    ghost predicate Valid()
      reads this, buf, r, rh, rh.window
    {
      && Cut.Valid(cutter)
      && buf.Length == cutter.maxSize
      && buf != rh.window
      && rh.Valid() && rh.ops == cutter.ops && rh.table == cutter.table
      && emitted <= len <= buf.Length
      && (eof ==> r.rest == "")
      && remaining == buf[emitted..len] + r.rest
    }

    constructor (c: Cutter<W>, reader: Reader)
      requires Cut.Valid(c)
      ensures Valid() && cutter == c && r == reader && remaining == reader.rest
      ensures fresh(buf) && fresh(rh) && fresh(rh.window)
    {
      cutter, r := c, reader;
      buf := new Byte[c.maxSize](_ => '\0');
      rh := new RollingHash(c.ops, c.table);
      len, emitted, eof, remaining := 0, 0, false, reader.rest;
      new;
      assert buf[0..0] + r.rest == r.rest;
    }

    /** Shift the unread tail of the window to the front. */
    method DropEmitted()
      requires Valid()
      modifies `len, `emitted, buf
      ensures Valid() && emitted == 0
    {
      if emitted == 0 {
        return;
      }
      ghost var live := buf[emitted..len];
      MoveToFront(buf, emitted, len);
      assert rh.Valid();
      len, emitted := len - emitted, 0;
      assert buf[0..len] == live;
    }

    /** Top the window up to capacity; afterwards it is full or holds everything that is left. */
    method Fill() returns (failed: bool)
      requires Valid() && emitted == 0
      modifies `len, `eof, buf, r
      ensures Valid() && emitted == 0
      ensures failed ==> !NeverFails(old(r.script))
      ensures NeverFails(old(r.script)) ==> NeverFails(r.script)
      ensures !failed ==> buf[..len] == Window(cutter, remaining)
    {
      failed := false;
      ghost var before, stream := buf[..len], r.rest;
      assert buf[0..len] == before;
      if !eof && len < buf.Length {
        var n, err := r.ReadFull(buf, len);
        len := len + n;
        Refilled(before, stream, n, buf[..len]);
        assert buf[0..len] == buf[..len];
        eof := err == Eof || err == UnexpectedEof;
        failed := err == Broken;
      }
    }

    /** The length of the chunk at the start of the window: the reference boundary. */
    method FindBoundary() returns (n: nat)
      requires Valid() && len > 0
      modifies rh, rh.window
      ensures Valid()
      ensures n == Boundary(cutter, buf[..len])
    {
      rh.Reset();
      ghost var s := buf[..len];
      var start := cutter.minSize - WINDOW;
      if start < 0 {
        start := 0;
      }
      assert start == ScanStart(cutter);
      if start >= len {
        NoCutBelowMinimum(cutter, s, len);
        return len;
      }
      NoCutBelowMinimum(cutter, s, start);
      var i := start;
      while i < len
        invariant start <= i <= len
        invariant Valid()
        invariant rh.fed == s[start..i]
        invariant Boundary(cutter, s) == FirstCut(cutter, s, i)
      {
        ScanAgrees(cutter, s, i);
        ghost var rolled := s[start..i];
        var h := rh.Roll(buf[i]);
        assert rh.fed == rolled + [s[i]] == s[start..i + 1];
        assert cutter.CutsAt(s, i + 1) <==> cutter.accept(h) && i + 1 >= cutter.minSize;
        if cutter.accept(h) && i + 1 >= cutter.minSize {
          return i + 1;
        }
        i := i + 1;
      }
      return len;
    }

    /**
     The next chunk is `buf[..n]`: exactly what the reference cuts off the bytes that are left. A
     failing stream loses nothing, and only a stream that fails is reported as failing.
     */
    method Next() returns (n: nat, err: NextError)
      requires Valid()
      modifies this, buf, r, rh, rh.window
      ensures Valid()
      ensures err == Ok <==> n > 0
      ensures err == Ok ==>
        && old(remaining) != ""
        && n == CutLength(cutter, old(remaining))
        && n <= buf.Length && buf[..n] == old(remaining)[..n]
        && remaining == old(remaining)[n..]
      ensures err == EndOfStream ==> old(remaining) == "" && remaining == ""
      ensures err == StreamFailed ==> remaining == old(remaining) && !NeverFails(old(r.script))
      ensures NeverFails(old(r.script)) ==> NeverFails(r.script)
    {
      DropEmitted();
      var failed := Fill();
      if failed {
        return 0, StreamFailed;
      }
      assert buf[0..len] == buf[..len];
      if len == 0 {
        return 0, EndOfStream;
      }
      n := FindBoundary();
      WindowIsCut(buf[..len], r.rest, n);
      emitted, err, remaining := n, Ok, remaining[n..];
      assert rh.Valid();
      assert buf[..n] == buf[..len][..n] && buf[n..len] == buf[..len][n..];
    }
  }
}
