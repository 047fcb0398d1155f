/** When an accepted version is printed as it was written, and when it is not (object/version.go). */
module VersionSpelling {
  import opened Common
  import opened Objects
  import opened Lines
  import opened Values
  import opened Codec
  import opened VersionKeys
  import opened VersionCodec

  lemma IdLinePrintsBack(l: Bytes, key: Bytes)
    requires ParseIdLine(l, key).Some?
    ensures l == KeyLine(key, ParseIdLine(l, key).value) && IsId(ParseIdLine(l, key).value)
    ensures FirstField(l) == key
  {
    LineOfKeyed(l, key);
  }

  lemma TimeLinePrintsBack(l: Bytes, key: Bytes)
    requires ParseTimeLine(l, key).Some?
    ensures ValidStamp(ParseTimeLine(l, key).value)
    ensures l == KeyLine(key, FormatTime(ParseTimeLine(l, key).value)) && FirstField(l) == key
  {
    LineOfKeyed(l, key);
    TimePrintsBack(KeyedValue(l, key).value);
  }

  /** Which optional lines are there. */
  predicate HasExpiry(ks: Keys, ls: seq<Bytes>) {
    StartsWithKey(ls, ks.expiry)
  }

  predicate HasGraph(ks: Keys, ls: seq<Bytes>) {
    StartsWithKey(if HasExpiry(ks, ls) then ls[1..] else ls, ks.graph)
  }

  lemma OptionalPrintsBack(ks: Keys, ls: seq<Bytes>, v: Version)
    requires ParseOptional(ks, ls) == Some((v.expiry, v.graph))
    ensures ValidStamp(v.expiry) && IsId(v.graph)
    ensures ls == OptionalLines(ks, v, HasExpiry(ks, ls), HasGraph(ks, ls))
    ensures Writes(v, HasExpiry(ks, ls), HasGraph(ks, ls))
  {
    var rest := ParseExpiry(ks, ls).value.1;
    if HasExpiry(ks, ls) {
      TimeLinePrintsBack(ls[0], ks.expiry);
      assert ls == [ls[0]] + rest;
    }
    if rest != [] {
      IdLinePrintsBack(rest[0], ks.graph);
      assert rest == [rest[0]];
    }
  }

  lemma ParentsPrintBack(ks: Keys, ls: seq<Bytes>)
    requires ParseParents(ks, ls).Some?
    ensures ls == ParentLines(ks, ParseParents(ks, ls).value)
    ensures forall i | 0 <= i < |ls| :: IsId(ParseParents(ks, ls).value[i])
  {
    var ps := ParseParents(ks, ls).value;
    forall i | 0 <= i < |ls| ensures ls[i] == KeyLine(ks.parent, ps[i]) && IsId(ps[i]) {
      IdLinePrintsBack(ls[i], ks.parent);
    }
  }

  lemma PartsPrintBack(ks: Keys, manifestLine: Bytes, parentLines: seq<Bytes>, authorLine: Bytes, timeLine: Bytes,
                       optionalLines: seq<Bytes>, message: Bytes)
    requires VersionOfParts(ks, manifestLine, parentLines, authorLine, timeLine, optionalLines, message).Some?
    ensures var v := VersionOfParts(ks, manifestLine, parentLines, authorLine, timeLine, optionalLines, message).value;
      var e, g := HasExpiry(ks, optionalLines), HasGraph(ks, optionalLines);
      && TypedVersion(v) && InRange(v)
      && manifestLine == KeyLine(ks.manifest, v.manifest) && parentLines == ParentLines(ks, v.parents)
      && authorLine == KeyLine(ks.author, v.author) && timeLine == KeyLine(ks.time, FormatTime(v.time))
      && optionalLines == OptionalLines(ks, v, e, g)
      && Writes(v, e, g)
  {
    var v := VersionOfParts(ks, manifestLine, parentLines, authorLine, timeLine, optionalLines, message).value;
    IdLinePrintsBack(manifestLine, ks.manifest);
    ParentsPrintBack(ks, parentLines);
    LineOfKeyed(authorLine, ks.author);
    TimeLinePrintsBack(timeLine, ks.time);
    OptionalPrintsBack(ks, optionalLines, v);
  }

  /** Parsed head lines are the head lines of what they parse to, given which optional ones are there. */
  lemma ParsedHeadPrints(ks: Keys, ls: seq<Bytes>, message: Bytes)
    requires VersionOfLines(ks, ls, message).Some?
    ensures var v := VersionOfLines(ks, ls, message).value;
      && TypedVersion(v) && InRange(v) && |ls| >= |v.parents| + 4
      && var tail := ls[|v.parents| + 4..];
      && ls == HeadLinesWith(ks, v, HasExpiry(ks, tail), HasGraph(ks, tail))
      && Writes(v, HasExpiry(ks, tail), HasGraph(ks, tail))
  {
    var n := ParentRun(ks, ls[2..]);
    var v := VersionOfLines(ks, ls, message).value;
    assert VersionOfParts(ks, ls[1], ls[2..n + 2], ls[n + 2], ls[n + 3], ls[n + 4..], message) == Some(v);
    PartsPrintBack(ks, ls[1], ls[2..n + 2], ls[n + 2], ls[n + 3], ls[n + 4..], message);
    Reassembled(ls, n, ParentLines(ks, v.parents));
  }

  lemma Reassembled(ls: seq<Bytes>, n: nat, parents: seq<Bytes>)
    requires n + 4 <= |ls| && ls[2..n + 2] == parents
    ensures n == |parents| && ls == [ls[0], ls[1]] + parents + [ls[n + 2], ls[n + 3]] + ls[n + 4..]
  {
  }

  /** A head line that spells out a value the printer leaves out. */
  predicate SpellsZero(ks: Keys, l: Bytes) {
    l == KeyLine(ks.expiry, FormatTime(ZERO_TIME)) || l == KeyLine(ks.graph, ZeroId())
  }

  /** The head of `data` spells out a zero expiry or a zero graph. */
  ghost predicate SpellsOutZero(ks: Keys, data: Bytes) {
    exists l :: SpellsZero(ks, l) && l in HeadOf(data)
  }

  /** The lines of the head, where there is one. */
  function HeadOf(data: Bytes): seq<Bytes> {
    var idx := FindMarker(data, 0);
    var lines := CanonicalLines(if idx.Some? then data[..idx.value + 1] else data);
    if lines.Some? then lines.value else []
  }

  lemma TimesDiffer(t: Stamp, t': Stamp)
    requires OnCalendar(t) && OnCalendar(t') && t != t'
    ensures FormatTime(t) != FormatTime(t')
  {
    if FormatTime(t) == FormatTime(t') {
      TimesAgree(t, t');
    }
  }

  /** Two key lines are equal only if key and value are. */
  lemma KeyLinesDiffer(key: Bytes, value: Bytes, key': Bytes, value': Bytes)
    requires FieldOk(key) && FieldOk(value) && LineOk(value) && FieldOk(key') && FieldOk(value') && LineOk(value')
    requires key != key' || value != value'
    ensures KeyLine(key, value) != KeyLine(key', value')
  {
    KeyedOfLine(key, value);
    KeyedOfLine(key', value');
  }

  /** A line under another key, or a set value, is no spelled-out zero. */
  lemma NotAZero(ks: Keys, key: Bytes, value: Bytes)
    requires GoodKeys(ks) && FieldOk(key) && FieldOk(value) && LineOk(value)
    requires key == ks.expiry ==> value != FormatTime(ZERO_TIME)
    requires key == ks.graph ==> value != ZeroId()
    ensures !SpellsZero(ks, KeyLine(key, value))
  {
    TimeIsGoodField(ZERO_TIME);
    IdIsGoodField(ZeroId());
    KeyLinesDiffer(key, value, ks.expiry, FormatTime(ZERO_TIME));
    KeyLinesDiffer(key, value, ks.graph, ZeroId());
  }

  predicate HoldsNoZero(ks: Keys, ls: seq<Bytes>) {
    forall i | 0 <= i < |ls| :: !SpellsZero(ks, ls[i])
  }

  lemma FixedLinesHoldNoZero(ks: Keys, u: Unicode, v: Version)
    requires GoodKeys(ks) && TypedVersion(v) && TextOk(u, v.author)
    ensures HoldsNoZero(ks, [KeyLine(ks.manifest, v.manifest)]) && HoldsNoZero(ks, FixedLines(ks, v))
  {
    IdIsGoodField(v.manifest);
    NotAZero(ks, ks.manifest, v.manifest);
    TextIsGoodField(u, v.author);
    NotAZero(ks, ks.author, v.author);
    TimeIsGoodField(v.time);
    NotAZero(ks, ks.time, FormatTime(v.time));
  }

  lemma ParentLinesHoldNoZero(ks: Keys, ps: seq<Id>)
    requires GoodKeys(ks) && forall i | 0 <= i < |ps| :: IsId(ps[i])
    ensures HoldsNoZero(ks, ParentLines(ks, ps))
  {
    forall i | 0 <= i < |ps| ensures !SpellsZero(ks, ParentLines(ks, ps)[i]) {
      IdIsGoodField(ps[i]);
      NotAZero(ks, ks.parent, ps[i]);
    }
  }

  lemma HoldsNoZeroAppend(ks: Keys, xs: seq<Bytes>, ys: seq<Bytes>)
    requires HoldsNoZero(ks, xs) && HoldsNoZero(ks, ys)
    ensures HoldsNoZero(ks, xs + ys)
  {
  }

  /** What the printer writes never spells out a zero. */
  lemma PrintedHeadHoldsNoZero(ks: Keys, u: Unicode, v: Version)
    requires GoodKeys(ks)
    requires TypedVersion(v) && ValidVersion(u, v)
    ensures HoldsNoZero(ks, HeadLines(ks, v))
  {
    var e, g := v.expiry != ZERO_TIME, v.graph != ZeroId();
    var first, optional := [KeyLine(ks.manifest, v.manifest)], OptionalLines(ks, v, e, g);
    FixedLinesHoldNoZero(ks, u, v);
    ParentLinesHoldNoZero(ks, v.parents);
    forall i | 0 <= i < |optional| ensures !SpellsZero(ks, optional[i]) {
      OptionalHoldsNoZero(ks, v, optional[i]);
    }
    HeaderIsNoZero(ks);
    FourHoldNoZero(ks, first, ParentLines(ks, v.parents), FixedLines(ks, v), optional);
    HeadBelowHeader(ks, v, e, g);
    FirstAndRestHoldNoZero(ks, HeadLines(ks, v));
  }

  lemma FirstAndRestHoldNoZero(ks: Keys, ls: seq<Bytes>)
    requires ls != [] && !SpellsZero(ks, ls[0]) && HoldsNoZero(ks, ls[1..])
    ensures HoldsNoZero(ks, ls)
  {
    assert ls == [ls[0]] + ls[1..];
  }

  lemma FourHoldNoZero(ks: Keys, a: seq<Bytes>, b: seq<Bytes>, c: seq<Bytes>, d: seq<Bytes>)
    requires HoldsNoZero(ks, a) && HoldsNoZero(ks, b) && HoldsNoZero(ks, c) && HoldsNoZero(ks, d)
    ensures HoldsNoZero(ks, a + b + c + d)
  {
    HoldsNoZeroAppend(ks, a, b);
    HoldsNoZeroAppend(ks, a + b, c);
    HoldsNoZeroAppend(ks, a + b + c, d);
  }

  lemma HeaderIsNoZero(ks: Keys)
    requires GoodKeys(ks)
    ensures !SpellsZero(ks, ks.header)
  {
    TimeIsGoodField(ZERO_TIME);
    IdIsGoodField(ZeroId());
    KeyedOfLine(ks.expiry, FormatTime(ZERO_TIME));
    KeyedOfLine(ks.graph, ZeroId());
  }

  lemma OptionalHoldsNoZero(ks: Keys, v: Version, l: Bytes)
    requires GoodKeys(ks) && TypedVersion(v)
    requires l in OptionalLines(ks, v, v.expiry != ZERO_TIME, v.graph != ZeroId())
    ensures !SpellsZero(ks, l)
  {
    if v.expiry != ZERO_TIME && l == KeyLine(ks.expiry, FormatTime(v.expiry)) {
      TimeIsGoodField(v.expiry);
      TimesDiffer(v.expiry, ZERO_TIME);
      NotAZero(ks, ks.expiry, FormatTime(v.expiry));
    } else {
      IdIsGoodField(v.graph);
      NotAZero(ks, ks.graph, v.graph);
    }
  }

  /** Cutting takes an object apart, and nothing is lost between the parts. */
  lemma CutPartsPrint(data: Bytes, v: Version)
    requires CutMessage(data).Some? && CutMessage(data).value.1 == v.message
    ensures data == CutMessage(data).value.0 + Text(MessageLines(v))
  {
    var idx := FindMarker(data, 0);
    if idx.Some? {
      MessageBlockPrints(data, idx.value, v.message);
    }
  }

  lemma MessageBlockPrints(data: Bytes, at: nat, message: Bytes)
    requires MarkerAt(data, at) && MessageBlockOk(data[at + 9..]) && message == data[at + 9..][..|data| - at - 10]
    ensures message != "" && data == data[..at + 1] + Text([MESSAGE] + Split(message, LF))
  {
    var block, body := data[at + 9..], Split(message, LF);
    assert block == message + [LF];
    assert Split("", LF) == [""];
    TextIsJoin(body);
    JoinOfSplit(message, LF);
    assert ([MESSAGE] + body)[1..] == body;
    assert data == data[..at + 1] + data[at + 1..at + 8] + [data[at + 8]] + block;
  }

  /** The head the parser saw, and the message lines, make up the object again. */
  lemma DecodedVersionPrints(ks: Keys, u: Unicode, data: Bytes) returns (e: bool, g: bool)
    requires DecodeVersion(ks, u, data).Some?
    ensures var v := DecodeVersion(ks, u, data).value;
      && TypedVersion(v) && InRange(v) && ValidVersion(u, v) && Writes(v, e, g)
      && HeadOf(data) == HeadLinesWith(ks, v, e, g)
      && data == Text(HeadOf(data) + MessageLines(v))
  {
    var v := DecodeVersion(ks, u, data).value;
    var head := CutMessage(data).value.0;
    var ls := CanonicalLines(head).value;
    assert ls == HeadOf(data);
    ParsedHeadPrints(ks, ls, v.message);
    var tail := ls[|v.parents| + 4..];
    e, g := HasExpiry(ks, tail), HasGraph(ks, tail);
    assert data == Text(ls + MessageLines(v)) by {
      CanonicalLinesPrint(head);
      CutPartsPrint(data, v);
      TextAppend(ls, MessageLines(v));
    }
  }

  /** Different heads make different objects. */
  lemma TextsDiffer(head: seq<Bytes>, head': seq<Bytes>, v: Version)
    requires GoodHead(head) && GoodHead(head') && |head| != |head'|
    requires v.message != "" ==> MessageBlockOk(v.message + [LF])
    ensures Text(head + MessageLines(v)) != Text(head' + MessageLines(v))
  {
    GoodHeadCuts(head, v);
    GoodHeadCuts(head', v);
    GoodHeadReadsBack(head);
    GoodHeadReadsBack(head');
  }

  /**
   The printer inverts the parser exactly on the objects that spell out neither a zero expiry nor a
   zero graph; those parse, and are then left out.
   */
  lemma VersionPrintsBack(ks: Keys, u: Unicode, data: Bytes)
    requires GoodKeys(ks) && DecodeVersion(ks, u, data).Some?
    ensures TypedVersion(DecodeVersion(ks, u, data).value) && InRange(DecodeVersion(ks, u, data).value)
    ensures EncodeVersion(ks, u, DecodeVersion(ks, u, data).value) == Some(data) <==> !SpellsOutZero(ks, data)
  {
    var v := DecodeVersion(ks, u, data).value;
    var e, g := DecodedVersionPrints(ks, u, data);
    var e', g' := v.expiry != ZERO_TIME, v.graph != ZeroId();
    if e == e' && g == g' {
      if SpellsOutZero(ks, data) {
        var l :| SpellsZero(ks, l) && l in HeadOf(data);
        PrintedHeadHoldsNoZero(ks, u, v);
      }
    } else {
      ZeroIsSpelledOut(ks, v, e, g);
      assert SpellsOutZero(ks, data);
      HeadIsGood(ks, u, v, e, g);
      HeadIsGood(ks, u, v, e', g');
      TextsDiffer(HeadLinesWith(ks, v, e, g), HeadLinesWith(ks, v, e', g'), v);
    }
  }

  lemma ZeroIsSpelledOut(ks: Keys, v: Version, e: bool, g: bool)
    requires OnCalendar(v.time) && OnCalendar(v.expiry) && Writes(v, e, g)
    requires e != (v.expiry != ZERO_TIME) || g != (v.graph != ZeroId())
    ensures exists l :: SpellsZero(ks, l) && l in HeadLinesWith(ks, v, e, g)
    ensures |HeadLinesWith(ks, v, e, g)| > |HeadLines(ks, v)|
  {
    var ls := HeadLinesWith(ks, v, e, g);
    var optional := OptionalLines(ks, v, e, g);
    HeadLayout(ks, v, e, g);
    var i := if e && v.expiry == ZERO_TIME then 0 else |optional| - 1;
    assert SpellsZero(ks, optional[i]) && optional[i] == ls[|v.parents| + 4..][i] == ls[|v.parents| + 4 + i];
  }

  /** The law fails: a version without an expiry has a second spelling that is accepted. */
  lemma ZeroExpiryHasTwoSpellings(ks: Keys, u: Unicode, v: Version)
    requires GoodKeys(ks)
    requires TypedVersion(v) && InRange(v) && ValidVersion(u, v) && v.expiry == ZERO_TIME
    ensures var data := Text(HeadLinesWith(ks, v, true, v.graph != ZeroId()) + MessageLines(v));
      DecodeVersion(ks, u, data) == Some(v) && EncodeVersion(ks, u, v) != Some(data)
  {
    var g := v.graph != ZeroId();
    SpelledVersionReadsBack(ks, u, v, true, g);
    HeadIsGood(ks, u, v, true, g);
    HeadIsGood(ks, u, v, false, g);
    ZeroIsSpelledOut(ks, v, true, g);
    TextsDiffer(HeadLinesWith(ks, v, true, g), HeadLinesWith(ks, v, false, g), v);
  }

  /** A version that is not empty of such examples: one file-less state by one author. */
  function Example(): Version {
    Version(seq(64, _ => 'a'), [], "ann", Stamp(2026, 8, 2, 14, 20, 0), ZERO_TIME, ZeroId(), "")
  }

  lemma ExampleIsValid(u: Unicode)
    requires !u.wideSpaceAtEdge("ann")
    ensures TypedVersion(Example()) && InRange(Example()) && ValidVersion(u, Example())
    ensures Example().expiry == ZERO_TIME
  {
    PlainIsGoodField("ann");
    assert seq(64, _ => 'a')[0] != ZeroId()[0];
  }
}
