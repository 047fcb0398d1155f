/** Lines and fields: the framing rules every text object shares (object/codec.go, E33). */
module Lines {
  import opened Common

  const TAB: Byte := '\t'
  const LF: Byte := '\n'

  // ----- splitting and joining ----------------------------------------------------------------

  /** strings.Split on one byte: always at least one piece. */
  function Split(s: Bytes, sep: Byte): (r: seq<Bytes>)
    ensures |r| >= 1
    ensures forall i | 0 <= i < |r| :: sep !in r[i]
  {
    if s == "" then [""]
    else
      var r := Split(s[1..], sep);
      if s[0] == sep then [""] + r else [[s[0]] + r[0]] + r[1..]
  }

  /** strings.Join on one byte */
  function Join(fs: seq<Bytes>, sep: Byte): Bytes {
    if fs == [] then ""
    else if |fs| == 1 then fs[0]
    else fs[0] + [sep] + Join(fs[1..], sep)
  }

  lemma {:induction false} JoinOfSplit(s: Bytes, sep: Byte)
    ensures Join(Split(s, sep), sep) == s
  {
    if s != "" {
      JoinOfSplit(s[1..], sep);
      JoinCons(Split(s[1..], sep), sep, s[0]);
      assert s == [s[0]] + s[1..];
    }
  }

  lemma JoinCons(r: seq<Bytes>, sep: Byte, c: Byte)
    requires |r| >= 1
    ensures Join([""] + r, sep) == [sep] + Join(r, sep)
    ensures Join([[c] + r[0]] + r[1..], sep) == [c] + Join(r, sep)
  {
    assert ([""] + r)[1..] == r;
    assert ([[c] + r[0]] + r[1..])[1..] == r[1..];
    if |r| > 1 {
      assert ([c] + r[0]) + [sep] + Join(r[1..], sep) == [c] + (r[0] + [sep] + Join(r[1..], sep));
    }
  }

  lemma {:induction false} SplitPiece(a: Bytes, sep: Byte)
    requires sep !in a
    ensures Split(a, sep) == [a]
  {
    if a != "" {
      SplitPiece(a[1..], sep);
      assert a == [a[0]] + a[1..];
    }
  }

  lemma {:induction false} SplitFirst(a: Bytes, sep: Byte, rest: Bytes)
    requires sep !in a
    ensures Split(a + [sep] + rest, sep) == [a] + Split(rest, sep)
  {
    var s := a + [sep] + rest;
    if a == "" {
      assert s[1..] == rest;
    } else {
      SplitFirst(a[1..], sep, rest);
      assert s[1..] == a[1..] + [sep] + rest;
      assert a == [a[0]] + a[1..];
    }
  }

  lemma {:induction false} SplitOfJoin(fs: seq<Bytes>, sep: Byte)
    requires |fs| >= 1 && forall i | 0 <= i < |fs| :: sep !in fs[i]
    ensures Split(Join(fs, sep), sep) == fs
  {
    if |fs| == 1 {
      SplitPiece(fs[0], sep);
      assert fs == [fs[0]];
    } else {
      SplitOfJoin(fs[1..], sep);
      SplitFirst(fs[0], sep, Join(fs[1..], sep));
      assert fs == [fs[0]] + fs[1..];
    }
  }

  // ----- lines --------------------------------------------------------------------------------

  /** Every line with its terminator, the last one included. */
  function Text(ls: seq<Bytes>): Bytes {
    if ls == [] then "" else ls[0] + [LF] + Text(ls[1..])
  }

  lemma {:induction false} TextAppend(xs: seq<Bytes>, ys: seq<Bytes>)
    ensures Text(xs + ys) == Text(xs) + Text(ys)
  {
    if xs == [] {
      assert xs + ys == ys;
    } else {
      TextAppend(xs[1..], ys);
      assert (xs + ys)[1..] == xs[1..] + ys;
    }
  }

  lemma {:induction false} TextIsJoin(ls: seq<Bytes>)
    requires |ls| >= 1
    ensures Text(ls) == Join(ls, LF) + [LF]
  {
    if |ls| == 1 {
      assert ls[1..] == [] && Text(ls[1..]) == "";
    } else {
      TextIsJoin(ls[1..]);
    }
  }

  // ----- UTF-8 --------------------------------------------------------------------------------

  predicate Continues(c: Byte, lo: int, hi: int) {
    lo <= c as int <= hi
  }

  /** How many bytes the first rune of `s` takes; 0 if `s` does not start with a well-formed one. */
  function RuneLength(s: Bytes): (n: nat)
    ensures n <= |s|
  {
    if s == "" then 0
    else
      var b := s[0] as int;
      if b < 0x80 then 1
      else if 0xc2 <= b <= 0xdf then
        if |s| >= 2 && Continues(s[1], 0x80, 0xbf) then 2 else 0
      else if 0xe0 <= b <= 0xef then
        if |s| >= 3 && Continues(s[1], if b == 0xe0 then 0xa0 else 0x80, if b == 0xed then 0x9f else 0xbf)
           && Continues(s[2], 0x80, 0xbf) then 3 else 0
      else if 0xf0 <= b <= 0xf4 then
        if |s| >= 4 && Continues(s[1], if b == 0xf0 then 0x90 else 0x80, if b == 0xf4 then 0x8f else 0xbf)
           && Continues(s[2], 0x80, 0xbf) && Continues(s[3], 0x80, 0xbf) then 4 else 0
      else 0
  }

  /** utf8.Valid */
  predicate Utf8(s: Bytes) {
    s == "" || (RuneLength(s) > 0 && Utf8(s[RuneLength(s)..]))
  }

  lemma RuneLengthAppend(a: Bytes, b: Bytes)
    requires RuneLength(a) > 0
    ensures RuneLength(a + b) == RuneLength(a)
  {
    assert forall i | 0 <= i < |a| :: (a + b)[i] == a[i];
  }

  lemma {:induction false} Utf8Append(a: Bytes, b: Bytes)
    requires Utf8(a) && Utf8(b)
    ensures Utf8(a + b)
  {
    if a == "" {
      assert a + b == b;
    } else {
      var n := RuneLength(a);
      Utf8Append(a[n..], b);
      RuneLengthAppend(a, b);
      assert (a + b)[n..] == a[n..] + b;
    }
  }

  predicate Ascii(s: Bytes) {
    forall i | 0 <= i < |s| :: s[i] as int < 0x80
  }

  lemma {:induction false} AsciiIsUtf8(s: Bytes)
    requires Ascii(s)
    ensures Utf8(s)
  {
    if s != "" {
      AsciiIsUtf8(s[1..]);
    }
  }

  lemma {:induction false} TextIsUtf8(ls: seq<Bytes>)
    requires forall i | 0 <= i < |ls| :: Utf8(ls[i])
    ensures Utf8(Text(ls))
  {
    if ls != [] {
      TextIsUtf8(ls[1..]);
      AsciiIsUtf8([LF]);
      Utf8Append(ls[0], [LF]);
      Utf8Append(ls[0] + [LF], Text(ls[1..]));
    }
  }

  lemma {:induction false} JoinIsUtf8(fs: seq<Bytes>, sep: Byte)
    requires sep as int < 0x80 && forall i | 0 <= i < |fs| :: Utf8(fs[i])
    ensures Utf8(Join(fs, sep))
  {
    if |fs| > 1 {
      JoinIsUtf8(fs[1..], sep);
      AsciiIsUtf8([sep]);
      Utf8Append(fs[0], [sep]);
      Utf8Append(fs[0] + [sep], Join(fs[1..], sep));
    }
  }

  // ----- canonical lines ----------------------------------------------------------------------

  /** checkLine: not blank, no trailing space or tab. */
  predicate LineOk(l: Bytes) {
    l != "" && l[|l| - 1] != ' ' && l[|l| - 1] != TAB
  }

  /** The byte order mark, in UTF-8. */
  predicate StartsWithBom(s: Bytes) {
    |s| >= 3 && s[0] as int == 0xef && s[1] as int == 0xbb && s[2] as int == 0xbf
  }

  predicate LinesOk(ls: seq<Bytes>) {
    forall i | 0 <= i < |ls| :: LineOk(ls[i])
  }

  /** splitCanonicalLines */
  function CanonicalLines(data: Bytes): (r: Option<seq<Bytes>>)
    ensures r.Some? ==> |r.value| >= 1
  {
    if data == "" || !Utf8(data) || StartsWithBom(data) || '\r' in data || data[|data| - 1] != LF then None
    else
      var ls := Split(data[..|data| - 1], LF);
      if LinesOk(ls) then Some(ls) else None
  }

  /** A line that may stand in an object. */
  predicate GoodLine(l: Bytes) {
    LineOk(l) && Utf8(l) && LF !in l && '\r' !in l
  }

  lemma AsciiLineIsGood(l: Bytes)
    requires Ascii(l) && LineOk(l) && LF !in l && '\r' !in l
    ensures GoodLine(l) && !StartsWithBom(l + [LF])
  {
    AsciiIsUtf8(l);
    if |l| >= 3 {
      assert (l + [LF])[0] == l[0];
    }
  }

  lemma {:induction false} NoCarriageReturn(ls: seq<Bytes>)
    requires forall i | 0 <= i < |ls| :: '\r' !in ls[i]
    ensures '\r' !in Text(ls)
  {
    if ls != [] {
      NoCarriageReturn(ls[1..]);
    }
  }

  /** Printed lines are read back as they were ... */
  lemma TextReadsBack(ls: seq<Bytes>)
    requires |ls| >= 1 && forall i | 0 <= i < |ls| :: GoodLine(ls[i])
    requires !StartsWithBom(ls[0] + [LF])
    ensures CanonicalLines(Text(ls)) == Some(ls)
  {
    TextIsJoin(ls);
    TextIsUtf8(ls);
    NoCarriageReturn(ls);
    SplitOfJoin(ls, LF);
    assert Text(ls)[..|Text(ls)| - 1] == Join(ls, LF);
    assert !StartsWithBom(Text(ls)) by {
      assert Text(ls) == ls[0] + [LF] + Text(ls[1..]);
      if |ls[0]| == 1 {
        assert Text(ls)[1] == LF;
      }
    }
  }

  /** A rune does not reach over a line end. */
  lemma RuneStaysInLine(a: Bytes, rest: Bytes)
    requires a != "" && RuneLength(a + [LF] + rest) > 0
    ensures RuneLength(a) == RuneLength(a + [LF] + rest)
  {
    var s := a + [LF] + rest;
    assert s[|a|] == LF && forall i | 0 <= i < |a| :: s[i] == a[i];
  }

  lemma {:induction false} Utf8Splits(a: Bytes, rest: Bytes)
    requires Utf8(a + [LF] + rest)
    ensures Utf8(a) && Utf8(rest)
    decreases |a|
  {
    var s := a + [LF] + rest;
    if a == "" {
      assert s[0] == LF && s[1..] == rest;
    } else {
      RuneStaysInLine(a, rest);
      var n := RuneLength(a);
      assert s[n..] == a[n..] + [LF] + rest;
      Utf8Splits(a[n..], rest);
    }
  }

  lemma {:induction false} LinesAreGood(ls: seq<Bytes>)
    requires LinesOk(ls) && (forall i | 0 <= i < |ls| :: LF !in ls[i])
    requires Utf8(Text(ls)) && '\r' !in Text(ls)
    ensures forall i | 0 <= i < |ls| :: GoodLine(ls[i])
  {
    if ls != [] {
      Utf8Splits(ls[0], Text(ls[1..]));
      LinesAreGood(ls[1..]);
      assert ls == [ls[0]] + ls[1..];
    }
  }

  /** ... and whatever is read prints back to the very same bytes, and every line of it is good. */
  lemma CanonicalLinesPrint(data: Bytes)
    requires CanonicalLines(data).Some?
    ensures var ls := CanonicalLines(data).value;
      Text(ls) == data && forall i | 0 <= i < |ls| :: GoodLine(ls[i])
  {
    var body := data[..|data| - 1];
    var ls := Split(body, LF);
    JoinOfSplit(body, LF);
    TextIsJoin(ls);
    assert data == body + [LF];
    LinesAreGood(ls);
  }

  // ----- fields -------------------------------------------------------------------------------

  /** encoder.line, without its terminator */
  function Line(fields: seq<Bytes>): Bytes {
    Join(fields, TAB)
  }

  /** decoder.next: exactly `want` fields. */
  function Fields(l: Bytes, want: nat): (r: Option<seq<Bytes>>)
    ensures r.Some? ==> |r.value| == want
  {
    var fs := Split(l, TAB);
    if |fs| == want then Some(fs) else None
  }

  /** decoder.keyed: the key, then `want` fields. */
  function Keyed(l: Bytes, key: Bytes, want: nat): (r: Option<seq<Bytes>>)
    ensures r.Some? ==> |r.value| == want
  {
    var fs := Fields(l, want + 1);
    if fs.Some? && fs.value[0] == key then Some(fs.value[1..]) else None
  }

  /** decoder.peek on a line: its first field. */
  function FirstField(l: Bytes): Bytes {
    Split(l, TAB)[0]
  }

  predicate FieldOk(f: Bytes) {
    TAB !in f && LF !in f && '\r' !in f && Utf8(f)
  }

  lemma LineOfFields(l: Bytes, want: nat)
    requires Fields(l, want).Some?
    ensures Line(Fields(l, want).value) == l
  {
    JoinOfSplit(l, TAB);
  }

  lemma LineOfKeyed(l: Bytes, key: Bytes)
    requires Keyed(l, key, 1).Some?
    ensures l == Line([key, Keyed(l, key, 1).value[0]]) && FirstField(l) == key
  {
    var fs := Fields(l, 2).value;
    LineOfFields(l, 2);
    assert fs == [key, fs[1]];
  }

  lemma {:induction false} JoinOmits(fs: seq<Bytes>, sep: Byte, c: Byte)
    requires c != sep && forall i | 0 <= i < |fs| :: c !in fs[i]
    ensures c !in Join(fs, sep)
  {
    if |fs| > 1 {
      JoinOmits(fs[1..], sep, c);
    }
  }

  lemma {:induction false} JoinEnds(fs: seq<Bytes>, sep: Byte)
    requires |fs| >= 1 && fs[|fs| - 1] != ""
    ensures var l, last := Join(fs, sep), fs[|fs| - 1];
      |l| >= |last| && l[|l| - 1] == last[|last| - 1] &&
        (|fs| > 1 ==> |l| > |fs[0]| && l[|fs[0]|] == sep && l[..|fs[0]|] == fs[0])
  {
    if |fs| > 1 {
      JoinEnds(fs[1..], sep);
      assert Join(fs, sep) == fs[0] + [sep] + Join(fs[1..], sep);
    }
  }

  /** Good fields make a good line, and are found in it again. */
  lemma FieldsOfLine(fs: seq<Bytes>)
    requires |fs| >= 1 && (forall i | 0 <= i < |fs| :: FieldOk(fs[i])) && LineOk(fs[|fs| - 1])
    ensures GoodLine(Line(fs)) && Fields(Line(fs), |fs|) == Some(fs) && FirstField(Line(fs)) == fs[0]
  {
    SplitOfJoin(fs, TAB);
    JoinOmits(fs, TAB, LF);
    JoinOmits(fs, TAB, '\r');
    JoinIsUtf8(fs, TAB);
    JoinEnds(fs, TAB);
  }

  lemma KeyedOfLine(key: Bytes, value: Bytes)
    requires FieldOk(key) && FieldOk(value) && LineOk(value)
    ensures GoodLine(Line([key, value])) && Keyed(Line([key, value]), key, 1) == Some([value])
    ensures FirstField(Line([key, value])) == key
    ensures TAB in Line([key, value])
  {
    FieldsOfLine([key, value]);
    assert [key, value][1..] == [value];
    JoinEnds([key, value], TAB);
  }
}
