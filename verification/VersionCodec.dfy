/** Version objects (object/version.go): optional fields, and a message block of free lines. */
module VersionCodec {
  import opened Common
  import opened Objects
  import opened Lines
  import opened Values
  import opened Codec
  import opened VersionKeys

  const MESSAGE: Bytes := "message"

  // ----- finding the message block ------------------------------------------------------------

  /** The marker "\nmessage\n" stands at `i`. */
  predicate MarkerAt(d: Bytes, i: nat) {
    i + 9 <= |d| && d[i] == LF && d[i + 1..i + 8] == MESSAGE && d[i + 8] == LF
  }

  /** bytes.Index with the marker */
  function FindMarker(d: Bytes, from: nat): (r: Option<nat>)
    ensures r.Some? ==> from <= r.value && MarkerAt(d, r.value)
    ensures forall i | from <= i < if r.Some? then r.value else |d| :: !MarkerAt(d, i)
    decreases |d| - from
  {
    if from >= |d| then None
    else if MarkerAt(d, from) then Some(from)
    else FindMarker(d, from + 1)
  }

  predicate NoBreaks(ls: seq<Bytes>) {
    forall i | 0 <= i < |ls| :: LF !in ls[i]
  }

  /** The length of the first line. */
  function BreakAt(s: Bytes): nat {
    if s == "" || s[0] == LF then 0 else 1 + BreakAt(s[1..])
  }

  lemma {:induction false} FirstBreak(a: Bytes, rest: Bytes)
    requires LF !in a
    ensures BreakAt(a + [LF] + rest) == |a|
    ensures forall i | 0 <= i < |a| :: (a + [LF] + rest)[i] != LF
  {
    if a != "" {
      FirstBreak(a[1..], rest);
      assert (a + [LF] + rest)[1..] == a[1..] + [LF] + rest;
    }
  }

  lemma FirstLineIs(ls: seq<Bytes>, l: Bytes)
    requires NoBreaks(ls) && LF !in l
    requires |Text(ls)| > |l| && Text(ls)[..|l|] == l && Text(ls)[|l|] == LF
    ensures ls != [] && ls[0] == l
  {
    var t, rest := Text(ls), Text(ls)[|l| + 1..];
    assert t == l + [LF] + rest;
    FirstBreak(l, rest);
    FirstBreak(ls[0], Text(ls[1..]));
    assert ls[0] == t[..|l|];
  }

  /** Where a marker can stand in a text: behind the first line, or further on. */
  lemma MarkerBelow(a: Bytes, rest: Bytes, i: nat)
    requires LF !in a && MarkerAt(a + [LF] + rest, i)
    ensures i >= |a|
    ensures i == |a| ==> |rest| > 7 && rest[..7] == MESSAGE && rest[7] == LF
    ensures i > |a| ==> MarkerAt(rest, i - |a| - 1)
  {
    var t := a + [LF] + rest;
    FirstBreak(a, rest);
    assert forall x | 0 <= x < |rest| :: rest[x] == t[x + |a| + 1];
    if i == |a| {
      assert rest[..7] == t[i + 1..i + 8];
    } else {
      var j := i - |a| - 1;
      assert rest[j + 1..j + 8] == t[i + 1..i + 8];
    }
  }

  /** A marker is always a whole line that says "message", and not the first one. */
  lemma {:induction false} MarkerIsALine(ls: seq<Bytes>, i: nat) returns (k: nat)
    requires NoBreaks(ls) && MarkerAt(Text(ls), i)
    ensures 1 <= k < |ls| && ls[k] == MESSAGE && |Text(ls[..k])| == i + 1
  {
    var a, rest := ls[0], Text(ls[1..]);
    assert Text(ls) == a + [LF] + rest;
    MarkerBelow(a, rest, i);
    if i == |a| {
      FirstLineIs(ls[1..], MESSAGE);
      k := 1;
      assert ls[..1] == [a] && Text([a]) == a + [LF] + Text([]);
    } else {
      var k' := MarkerIsALine(ls[1..], i - |a| - 1);
      k := k' + 1;
      assert ls[..k][0] == a && ls[..k][1..] == ls[1..][..k'];
    }
  }

  lemma LineIsAMarker(ls: seq<Bytes>, k: nat)
    requires 1 <= k < |ls| && ls[k] == MESSAGE
    ensures |Text(ls[..k])| > 0 && MarkerAt(Text(ls), |Text(ls[..k])| - 1)
    ensures Text(ls) == Text(ls[..k]) + MESSAGE + [LF] + Text(ls[k + 1..])
  {
    assert ls == ls[..k] + ls[k..] && ls[k..] == [MESSAGE] + ls[k + 1..];
    TextAppend(ls[..k], ls[k..]);
    var head := Text(ls[..k]);
    assert ls[..k] == ls[..k - 1] + [ls[k - 1]];
    TextSnoc(ls[..k - 1], ls[k - 1]);
    assert Text(ls[k..]) == MESSAGE + [LF] + Text(ls[k + 1..]);
  }

  lemma PrefixesGrow(ls: seq<Bytes>, j: nat, k: nat)
    requires j < k <= |ls|
    ensures |Text(ls[..j])| < |Text(ls[..k])|
  {
    assert ls[..k] == ls[..j] + ls[j..k];
    TextAppend(ls[..j], ls[j..k]);
    assert ls[j..k][0] == ls[j];
  }

  /** The first marker of a printed object is its first "message" line after the framing line. */
  lemma FirstMessageLine(ls: seq<Bytes>, k: nat)
    requires NoBreaks(ls) && 1 <= k < |ls| && ls[k] == MESSAGE
    requires forall j | 1 <= j < k :: ls[j] != MESSAGE
    ensures |Text(ls[..k])| > 0 && FindMarker(Text(ls), 0) == Some(|Text(ls[..k])| - 1)
  {
    LineIsAMarker(ls, k);
    var found := FindMarker(Text(ls), 0);
    var at := |Text(ls[..k])| - 1;
    assert MarkerAt(Text(ls), at) && at < |Text(ls)|;
    var j := MarkerIsALine(ls, found.value);
    if k < j {
      PrefixesGrow(ls, k, j);
    }
  }

  lemma NoMessageLine(ls: seq<Bytes>)
    requires NoBreaks(ls) && forall j | 1 <= j < |ls| :: ls[j] != MESSAGE
    ensures FindMarker(Text(ls), 0) == None
  {
    var found := FindMarker(Text(ls), 0);
    if found.Some? {
      var j := MarkerIsALine(ls, found.value);
    }
  }

  // ----- the message block --------------------------------------------------------------------

  predicate NoTrailingBlank(l: Bytes) {
    l == "" || (l[|l| - 1] != ' ' && l[|l| - 1] != TAB)
  }

  /** validateMessageBlock */
  predicate MessageBlockOk(block: Bytes) {
    && block != "" && '\r' !in block && block[|block| - 1] == LF
    && var ls := Split(block[..|block| - 1], LF);
       && (forall i | 0 <= i < |ls| :: NoTrailingBlank(ls[i]))
       && ls[0] != "" && ls[|ls| - 1] != ""
  }

  /** cutMessage: the head with its last terminator, and the message without its own. */
  function CutMessage(data: Bytes): Option<(Bytes, Bytes)> {
    var idx := FindMarker(data, 0);
    if idx.None? then Some((data, ""))
    else
      var block := data[idx.value + 9..];
      if MessageBlockOk(block) then Some((data[..idx.value + 1], block[..|block| - 1])) else None
  }

  // ----- versions as lines --------------------------------------------------------------------

  /** What the Go types guarantee. */
  predicate TypedVersion(v: Version) {
    && IsId(v.manifest) && IsId(v.graph) && OnCalendar(v.time) && OnCalendar(v.expiry)
    && forall i | 0 <= i < |v.parents| :: IsId(v.parents[i])
  }

  /** The times are in years the format has room for. */
  predicate InRange(v: Version) {
    ValidStamp(v.time) && ValidStamp(v.expiry)
  }

  /** Version.validate, apart from the time. */
  predicate ValidButTime(u: Unicode, v: Version) {
    && v.manifest != ZeroId() && TextOk(u, v.author)
    && (forall i | 0 <= i < |v.parents| :: v.parents[i] != ZeroId())
    && (forall i, j | 0 <= i < j < |v.parents| :: v.parents[i] != v.parents[j])
    && (v.message != "" ==> MessageBlockOk(v.message + [LF]))
  }

  /** Version.validate */
  predicate ValidVersion(u: Unicode, v: Version) {
    ValidButTime(u, v) && v.time != ZERO_TIME
  }

  function KeyLine(key: Bytes, value: Bytes): Bytes {
    Line([key, value])
  }

  function ParentLines(ks: Keys, ps: seq<Id>): (ls: seq<Bytes>)
    ensures |ls| == |ps| && forall i | 0 <= i < |ps| :: ls[i] == KeyLine(ks.parent, ps[i])
  {
    seq(|ps|, i requires 0 <= i < |ps| => KeyLine(ks.parent, ps[i]))
  }

  /** The optional lines, each present or not. */
  function OptionalLines(ks: Keys, v: Version, hasExpiry: bool, hasGraph: bool): seq<Bytes>
    requires OnCalendar(v.expiry)
  {
    ExpiryLines(ks, v, hasExpiry) + GraphLines(ks, v, hasGraph)
  }

  function HeadLinesWith(ks: Keys, v: Version, hasExpiry: bool, hasGraph: bool): seq<Bytes>
    requires OnCalendar(v.time) && OnCalendar(v.expiry)
  {
    [ks.header, KeyLine(ks.manifest, v.manifest)] + ParentLines(ks, v.parents) +
    [KeyLine(ks.author, v.author), KeyLine(ks.time, FormatTime(v.time))] +
    OptionalLines(ks, v, hasExpiry, hasGraph)
  }

  /** No set field is left out. */
  predicate Writes(v: Version, hasExpiry: bool, hasGraph: bool) {
    (hasExpiry || v.expiry == ZERO_TIME) && (hasGraph || v.graph == ZeroId())
  }

  /** Unset fields are left out entirely. */
  function HeadLines(ks: Keys, v: Version): seq<Bytes>
    requires OnCalendar(v.time) && OnCalendar(v.expiry)
  {
    HeadLinesWith(ks, v, v.expiry != ZERO_TIME, v.graph != ZeroId())
  }

  function MessageLines(v: Version): seq<Bytes> {
    if v.message == "" then [] else [MESSAGE] + Split(v.message, LF)
  }

  /** Version.Marshal of times in whole seconds */
  function EncodeVersion(ks: Keys, u: Unicode, v: Version): Option<Bytes>
    requires TypedVersion(v)
  {
    if ValidVersion(u, v) then Some(Text(HeadLines(ks, v) + MessageLines(v))) else None
  }

  // ----- parsing ------------------------------------------------------------------------------

  function ParseIdLine(l: Bytes, key: Bytes): Option<Id> {
    var value := KeyedValue(l, key);
    if value.Some? && IsId(value.value) then value else None
  }

  function ParseTimeLine(l: Bytes, key: Bytes): Option<Stamp> {
    var value := KeyedValue(l, key);
    if value.Some? then ParseTime(value.value) else None
  }

  /** How many lines the parent loop consumes. */
  function ParentRun(ks: Keys, ls: seq<Bytes>): (n: nat)
    ensures n <= |ls|
    ensures forall i | 0 <= i < n :: FirstField(ls[i]) == ks.parent
    ensures n < |ls| ==> FirstField(ls[n]) != ks.parent
  {
    if ls == [] || FirstField(ls[0]) != ks.parent then 0 else 1 + ParentRun(ks, ls[1..])
  }

  function ParseParents(ks: Keys, ls: seq<Bytes>): (r: Option<seq<Id>>)
    ensures r.Some? <==> forall i | 0 <= i < |ls| :: ParseIdLine(ls[i], ks.parent).Some?
    ensures r.Some? ==>
            |r.value| == |ls| && forall i | 0 <= i < |ls| :: Some(r.value[i]) == ParseIdLine(ls[i], ks.parent)
  {
    if ls == [] then Some([])
    else
      var init, last := ParseParents(ks, ls[..|ls| - 1]), ParseIdLine(ls[|ls| - 1], ks.parent);
      if init.Some? && last.Some? then Some(init.value + [last.value]) else None
  }

  predicate StartsWithKey(ls: seq<Bytes>, key: Bytes) {
    ls != [] && FirstField(ls[0]) == key
  }

  /** The first half of parseOptional: the expiry, and the lines that are left. */
  function ParseExpiry(ks: Keys, ls: seq<Bytes>): Option<(Stamp, seq<Bytes>)> {
    if !StartsWithKey(ls, ks.expiry) then Some((ZERO_TIME, ls))
    else
      var t := ParseTimeLine(ls[0], ks.expiry);
      if t.Some? then Some((t.value, ls[1..])) else None
  }

  /** The second half, and expectEnd: the graph, and nothing after it. */
  function ParseGraph(ks: Keys, ls: seq<Bytes>): Option<Id> {
    if ls == [] then Some(ZeroId())
    else if FirstField(ls[0]) != ks.graph || |ls| > 1 then None
    else ParseIdLine(ls[0], ks.graph)
  }

  function ParseOptional(ks: Keys, ls: seq<Bytes>): Option<(Stamp, Id)> {
    var expiry := ParseExpiry(ks, ls);
    if expiry.None? then None
    else
      var graph := ParseGraph(ks, expiry.value.1);
      if graph.Some? then Some((expiry.value.0, graph.value)) else None
  }

  /** The parts of the head, each parsed on its own. */
  function VersionOfParts(ks: Keys, manifestLine: Bytes, parentLines: seq<Bytes>, authorLine: Bytes, timeLine: Bytes,
                          optionalLines: seq<Bytes>, message: Bytes): Option<Version> {
    var manifest, parents := ParseIdLine(manifestLine, ks.manifest), ParseParents(ks, parentLines);
    var author, time := KeyedValue(authorLine, ks.author), ParseTimeLine(timeLine, ks.time);
    var optional := ParseOptional(ks, optionalLines);
    if manifest.Some? && parents.Some? && author.Some? && time.Some? && optional.Some? then
      Some(Version(manifest.value, parents.value, author.value, time.value,
                   optional.value.0, optional.value.1, message))
    else None
  }

  /** parseHead on the lines of the head */
  function VersionOfLines(ks: Keys, ls: seq<Bytes>, message: Bytes): Option<Version> {
    if |ls| < 2 || ls[0] != ks.header then None
    else
      var n := ParentRun(ks, ls[2..]);
      if |ls| < n + 4 then None
      else VersionOfParts(ks, ls[1], ls[2..n + 2], ls[n + 2], ls[n + 3], ls[n + 4..], message)
  }

  /** UnmarshalVersion, as a function */
  function DecodeVersion(ks: Keys, u: Unicode, data: Bytes): Option<Version> {
    var cut := CutMessage(data);
    if cut.None? then None
    else
      var lines := CanonicalLines(cut.value.0);
      if lines.None? then None
      else
        var v := VersionOfLines(ks, lines.value, cut.value.1);
        if v.Some? && ValidVersion(u, v.value) then v else None
  }

  // ----- printing, then parsing ---------------------------------------------------------------

  lemma IdLineReadsBack(key: Bytes, id: Id)
    requires FieldOk(key) && IsId(id)
    ensures GoodLine(KeyLine(key, id)) && ParseIdLine(KeyLine(key, id), key) == Some(id)
    ensures FirstField(KeyLine(key, id)) == key && TAB in KeyLine(key, id)
  {
    IdIsGoodField(id);
    KeyedOfLine(key, id);
  }

  lemma TimeLineReadsBack(key: Bytes, t: Stamp)
    requires FieldOk(key) && OnCalendar(t)
    ensures GoodLine(KeyLine(key, FormatTime(t)))
    ensures ParseTimeLine(KeyLine(key, FormatTime(t)), key) == if ValidStamp(t) then Some(t) else None
    ensures FirstField(KeyLine(key, FormatTime(t))) == key && TAB in KeyLine(key, FormatTime(t))
  {
    TimeIsGoodField(t);
    TimeReadsBack(t);
    KeyedOfLine(key, FormatTime(t));
  }

  lemma AuthorLineReadsBack(ks: Keys, u: Unicode, author: Bytes)
    requires TextOk(u, author) && FieldOk(ks.author)
    ensures GoodLine(KeyLine(ks.author, author)) && KeyedValue(KeyLine(ks.author, author), ks.author) == Some(author)
    ensures FirstField(KeyLine(ks.author, author)) == ks.author && TAB in KeyLine(ks.author, author)
  {
    TextIsGoodField(u, author);
    KeyedOfLine(ks.author, author);
  }

  /** Lines that may stand in a head below the framing line. */
  predicate HeadLike(ls: seq<Bytes>) {
    forall i | 0 <= i < |ls| :: GoodLine(ls[i]) && TAB in ls[i]
  }

  function GraphLines(ks: Keys, v: Version, hasGraph: bool): seq<Bytes> {
    if hasGraph then [KeyLine(ks.graph, v.graph)] else []
  }

  function ExpiryLines(ks: Keys, v: Version, hasExpiry: bool): seq<Bytes>
    requires OnCalendar(v.expiry)
  {
    if hasExpiry then [KeyLine(ks.expiry, FormatTime(v.expiry))] else []
  }

  lemma GraphLinesReadBack(ks: Keys, v: Version, hasGraph: bool)
    requires GoodKeys(ks)
    requires IsId(v.graph) && (hasGraph || v.graph == ZeroId())
    ensures HeadLike(GraphLines(ks, v, hasGraph)) && ParseGraph(ks, GraphLines(ks, v, hasGraph)) == Some(v.graph)
    ensures StartsWithKey(GraphLines(ks, v, hasGraph), ks.graph) || GraphLines(ks, v, hasGraph) == []
  {
    IdLineReadsBack(ks.graph, v.graph);
  }

  lemma ExpiryLinesReadBack(ks: Keys, v: Version, hasExpiry: bool, rest: seq<Bytes>)
    requires GoodKeys(ks)
    requires OnCalendar(v.expiry) && (hasExpiry || v.expiry == ZERO_TIME)
    requires !StartsWithKey(rest, ks.expiry) && !StartsWithKey(rest, ks.parent)
    ensures HeadLike(ExpiryLines(ks, v, hasExpiry))
    ensures ParseExpiry(ks, ExpiryLines(ks, v, hasExpiry) + rest) ==
            if ValidStamp(v.expiry) then Some((v.expiry, rest)) else None
    ensures !StartsWithKey(ExpiryLines(ks, v, hasExpiry) + rest, ks.parent)
  {
    TimeLineReadsBack(ks.expiry, v.expiry);
    if hasExpiry {
      assert (ExpiryLines(ks, v, hasExpiry) + rest)[1..] == rest;
    } else {
      assert ExpiryLines(ks, v, hasExpiry) + rest == rest;
    }
  }

  /** The optional lines are good, and parse to what they print. */
  lemma OptionalLinesReadBack(ks: Keys, v: Version, hasExpiry: bool, hasGraph: bool)
    requires GoodKeys(ks)
    requires IsId(v.graph) && OnCalendar(v.expiry)
    requires Writes(v, hasExpiry, hasGraph)
    ensures HeadLike(OptionalLines(ks, v, hasExpiry, hasGraph))
    ensures ParseOptional(ks, OptionalLines(ks, v, hasExpiry, hasGraph)) ==
            if ValidStamp(v.expiry) then Some((v.expiry, v.graph)) else None
  {
    GraphLinesReadBack(ks, v, hasGraph);
    ExpiryLinesReadBack(ks, v, hasExpiry, GraphLines(ks, v, hasGraph));
  }

  lemma {:induction false} ParentRunIs(ks: Keys, ls: seq<Bytes>, n: nat)
    requires n <= |ls| && (forall i | 0 <= i < n :: FirstField(ls[i]) == ks.parent)
    requires n < |ls| ==> FirstField(ls[n]) != ks.parent
    ensures ParentRun(ks, ls) == n
  {
    if n > 0 {
      ParentRunIs(ks, ls[1..], n - 1);
    }
  }

  lemma ParentLinesReadBack(ks: Keys, ps: seq<Id>)
    requires GoodKeys(ks)
    requires forall i | 0 <= i < |ps| :: IsId(ps[i])
    ensures ParseParents(ks, ParentLines(ks, ps)) == Some(ps) && HeadLike(ParentLines(ks, ps))
    ensures forall i | 0 <= i < |ps| :: FirstField(ParentLines(ks, ps)[i]) == ks.parent
  {
    var ls := ParentLines(ks, ps);
    forall i | 0 <= i < |ps|
      ensures ParseIdLine(ls[i], ks.parent) == Some(ps[i])
      ensures GoodLine(ls[i]) && TAB in ls[i] && FirstField(ls[i]) == ks.parent
    {
      IdLineReadsBack(ks.parent, ps[i]);
    }
    assert ParseParents(ks, ls).value == ps;
  }

  /** The two lines every version has after its parents. */
  function FixedLines(ks: Keys, v: Version): seq<Bytes>
    requires OnCalendar(v.time)
  {
    [KeyLine(ks.author, v.author), KeyLine(ks.time, FormatTime(v.time))]
  }

  lemma Layout(a: seq<Bytes>, b: seq<Bytes>, c: seq<Bytes>, d: seq<Bytes>)
    requires |a| == |c| == 2
    ensures var ls, n := a + b + c + d, |b|;
      && |ls| >= n + 4 && ls[0] == a[0] && ls[1] == a[1] && ls[2..n + 2] == b
      && ls[n + 2] == c[0] && ls[n + 3] == c[1] && ls[n + 4..] == d
  {
  }

  /** Where each part of the head stands. */
  lemma HeadLayout(ks: Keys, v: Version, hasExpiry: bool, hasGraph: bool)
    requires OnCalendar(v.time) && OnCalendar(v.expiry)
    ensures var ls, n := HeadLinesWith(ks, v, hasExpiry, hasGraph), |v.parents|;
      && |ls| >= n + 4
      && ls[0] == ks.header && ls[1] == KeyLine(ks.manifest, v.manifest)
      && ls[2..n + 2] == ParentLines(ks, v.parents)
      && ls[n + 2] == KeyLine(ks.author, v.author) && ls[n + 3] == KeyLine(ks.time, FormatTime(v.time))
      && ls[n + 4..] == OptionalLines(ks, v, hasExpiry, hasGraph)
  {
    Layout([ks.header, KeyLine(ks.manifest, v.manifest)], ParentLines(ks, v.parents), FixedLines(ks, v),
           OptionalLines(ks, v, hasExpiry, hasGraph));
  }

  lemma PartsReadBack(ks: Keys, u: Unicode, v: Version, hasExpiry: bool, hasGraph: bool)
    requires GoodKeys(ks)
    requires TypedVersion(v) && ValidButTime(u, v)
    requires Writes(v, hasExpiry, hasGraph)
    ensures VersionOfParts(ks, KeyLine(ks.manifest, v.manifest), ParentLines(ks, v.parents),
                           KeyLine(ks.author, v.author), KeyLine(ks.time, FormatTime(v.time)),
                           OptionalLines(ks, v, hasExpiry, hasGraph), v.message) ==
            if InRange(v) then Some(v) else None
  {
    assert ParseIdLine(KeyLine(ks.manifest, v.manifest), ks.manifest) == Some(v.manifest) by {
      IdLineReadsBack(ks.manifest, v.manifest);
    }
    assert ParseParents(ks, ParentLines(ks, v.parents)) == Some(v.parents) by {
      ParentLinesReadBack(ks, v.parents);
    }
    assert KeyedValue(KeyLine(ks.author, v.author), ks.author) == Some(v.author) by {
      AuthorLineReadsBack(ks, u, v.author);
    }
    assert ParseTimeLine(KeyLine(ks.time, FormatTime(v.time)), ks.time) ==
           if ValidStamp(v.time) then Some(v.time) else None by {
      TimeLineReadsBack(ks.time, v.time);
    }
    assert ParseOptional(ks, OptionalLines(ks, v, hasExpiry, hasGraph)) ==
           if ValidStamp(v.expiry) then Some((v.expiry, v.graph)) else None by {
      OptionalLinesReadBack(ks, v, hasExpiry, hasGraph);
    }
  }

  /** The parent loop stops at the author line. */
  lemma ParentRunOfHead(ks: Keys, u: Unicode, v: Version, rest: seq<Bytes>)
    requires GoodKeys(ks)
    requires TypedVersion(v) && ValidButTime(u, v)
    ensures ParentRun(ks, ParentLines(ks, v.parents) + FixedLines(ks, v) + rest) == |v.parents|
  {
    var ls, n := ParentLines(ks, v.parents) + FixedLines(ks, v) + rest, |v.parents|;
    ParentLinesReadBack(ks, v.parents);
    AuthorLineReadsBack(ks, u, v.author);
    assert ls[n] == KeyLine(ks.author, v.author);
    assert forall i | 0 <= i < n :: ls[i] == ParentLines(ks, v.parents)[i];
    ParentRunIs(ks, ls, n);
  }

  lemma HeadBelowManifest(ks: Keys, v: Version, hasExpiry: bool, hasGraph: bool)
    requires OnCalendar(v.time) && OnCalendar(v.expiry)
    ensures HeadLinesWith(ks, v, hasExpiry, hasGraph)[2..] ==
            ParentLines(ks, v.parents) + FixedLines(ks, v) + OptionalLines(ks, v, hasExpiry, hasGraph)
  {
    TwoAndRest([ks.header, KeyLine(ks.manifest, v.manifest)], ParentLines(ks, v.parents), FixedLines(ks, v),
               OptionalLines(ks, v, hasExpiry, hasGraph));
  }

  lemma TwoAndRest(a: seq<Bytes>, b: seq<Bytes>, c: seq<Bytes>, d: seq<Bytes>)
    requires |a| == 2
    ensures var ls := a + b + c + d;
      ls[2..] == b + c + d && ls[0] == a[0] && ls[1..] == [a[1]] + b + c + d
  {
  }

  /** The head lines of a valid version parse to it, with its unset fields written or left out. */
  lemma HeadLinesParse(ks: Keys, u: Unicode, v: Version, hasExpiry: bool, hasGraph: bool)
    requires GoodKeys(ks)
    requires TypedVersion(v) && ValidButTime(u, v)
    requires Writes(v, hasExpiry, hasGraph)
    ensures VersionOfLines(ks, HeadLinesWith(ks, v, hasExpiry, hasGraph), v.message) ==
            if InRange(v) then Some(v) else None
  {
    var ls, n := HeadLinesWith(ks, v, hasExpiry, hasGraph), |v.parents|;
    assert ParentRun(ks, ls[2..]) == n by {
      HeadBelowManifest(ks, v, hasExpiry, hasGraph);
      ParentRunOfHead(ks, u, v, OptionalLines(ks, v, hasExpiry, hasGraph));
    }
    HeadLayout(ks, v, hasExpiry, hasGraph);
    assert VersionOfParts(ks, ls[1], ls[2..n + 2], ls[n + 2], ls[n + 3], ls[n + 4..], v.message) ==
           if InRange(v) then Some(v) else None by {
      PartsReadBack(ks, u, v, hasExpiry, hasGraph);
    }
  }

  lemma FixedLinesAreGood(ks: Keys, u: Unicode, v: Version)
    requires GoodKeys(ks)
    requires TypedVersion(v) && ValidButTime(u, v)
    ensures HeadLike([KeyLine(ks.manifest, v.manifest)]) && HeadLike(FixedLines(ks, v))
  {
    IdLineReadsBack(ks.manifest, v.manifest);
    AuthorLineReadsBack(ks, u, v.author);
    TimeLineReadsBack(ks.time, v.time);
    TwoAreHeadLike(KeyLine(ks.manifest, v.manifest), KeyLine(ks.manifest, v.manifest));
    TwoAreHeadLike(KeyLine(ks.author, v.author), KeyLine(ks.time, FormatTime(v.time)));
  }

  lemma TwoAreHeadLike(a: Bytes, b: Bytes)
    requires GoodLine(a) && TAB in a && GoodLine(b) && TAB in b
    ensures HeadLike([a]) && HeadLike([a, b])
  {
  }

  lemma HeadLikeAppend(xs: seq<Bytes>, ys: seq<Bytes>)
    requires HeadLike(xs) && HeadLike(ys)
    ensures HeadLike(xs + ys)
  {
  }

  /** Below the framing line, every head line is good and holds a tab. */
  lemma HeadLinesAreGood(ks: Keys, u: Unicode, v: Version, e: bool, g: bool)
    requires GoodKeys(ks)
    requires TypedVersion(v) && ValidButTime(u, v) && Writes(v, e, g)
    ensures HeadLinesWith(ks, v, e, g)[0] == ks.header && HeadLike(HeadLinesWith(ks, v, e, g)[1..])
  {
    var first, parents, fixed, optional :=
      [KeyLine(ks.manifest, v.manifest)], ParentLines(ks, v.parents), FixedLines(ks, v), OptionalLines(ks, v, e, g);
    assert HeadLike(first) && HeadLike(fixed) by {
      FixedLinesAreGood(ks, u, v);
    }
    assert HeadLike(parents) by {
      ParentLinesReadBack(ks, v.parents);
    }
    assert HeadLike(optional) by {
      OptionalLinesReadBack(ks, v, e, g);
    }
    HeadLikeAppend(first, parents);
    HeadLikeAppend(first + parents, fixed);
    HeadLikeAppend(first + parents + fixed, optional);
    HeadBelowHeader(ks, v, e, g);
  }

  lemma HeadBelowHeader(ks: Keys, v: Version, hasExpiry: bool, hasGraph: bool)
    requires OnCalendar(v.time) && OnCalendar(v.expiry)
    ensures HeadLinesWith(ks, v, hasExpiry, hasGraph)[0] == ks.header
    ensures HeadLinesWith(ks, v, hasExpiry, hasGraph)[1..] ==
            [KeyLine(ks.manifest, v.manifest)] + ParentLines(ks, v.parents) + FixedLines(ks, v) +
            OptionalLines(ks, v, hasExpiry, hasGraph)
  {
    TwoAndRest([ks.header, KeyLine(ks.manifest, v.manifest)], ParentLines(ks, v.parents), FixedLines(ks, v),
               OptionalLines(ks, v, hasExpiry, hasGraph));
  }

  /** A line with a tab is not the line that opens the message. */
  lemma HeadHoldsNoMarker(head: seq<Bytes>)
    requires head != [] && HeadLike(head[1..])
    ensures forall j | 1 <= j < |head| :: head[j] != MESSAGE
  {
    forall j | 1 <= j < |head| ensures head[j] != MESSAGE {
      assert head[j] == head[1..][j - 1];
    }
  }

  lemma BodyIsBlock(message: Bytes)
    ensures Text(Split(message, LF)) == message + [LF]
  {
    TextIsJoin(Split(message, LF));
    JoinOfSplit(message, LF);
  }

  /** A text with its first marker behind `head` is cut there. */
  lemma CutsAfterHead(t: Bytes, head: Bytes, message: Bytes)
    requires t == head + MESSAGE + [LF] + (message + [LF]) && MessageBlockOk(message + [LF])
    requires head != "" && FindMarker(t, 0) == Some(|head| - 1)
    ensures CutMessage(t) == Some((head, message))
  {
    assert t[|head| + 8..] == message + [LF] && t[..|head|] == head;
    assert (message + [LF])[..|message|] == message;
  }

  /** A head, a "message" line and a body are cut apart again, wherever the body says "message" too. */
  lemma CutAtMessage(head: seq<Bytes>, message: Bytes)
    requires head != [] && HeadLike(head[1..]) && NoBreaks(head)
    requires MessageBlockOk(message + [LF])
    ensures CutMessage(Text(head + ([MESSAGE] + Split(message, LF)))) == Some((Text(head), message))
  {
    var body, k := Split(message, LF), |head|;
    var ls := head + ([MESSAGE] + body);
    HeadHoldsNoMarker(head);
    assert ls[..k] == head && ls[k] == MESSAGE && ls[k + 1..] == body;
    FirstMessageLine(ls, k);
    LineIsAMarker(ls, k);
    BodyIsBlock(message);
    CutsAfterHead(Text(ls), Text(head), message);
  }

  /** A framing line and below it head lines. */
  predicate GoodHead(head: seq<Bytes>) {
    head != [] && GoodLine(head[0]) && !StartsWithBom(head[0] + [LF]) && HeadLike(head[1..])
  }

  lemma GoodHeadLine(head: seq<Bytes>)
    requires GoodHead(head)
    ensures forall j | 0 <= j < |head| :: GoodLine(head[j])
  {
    forall j | 1 <= j < |head| ensures GoodLine(head[j]) {
      assert head[j] == head[1..][j - 1];
    }
  }

  lemma GoodHeadCuts(head: seq<Bytes>, v: Version)
    requires GoodHead(head) && (v.message != "" ==> MessageBlockOk(v.message + [LF]))
    ensures CutMessage(Text(head + MessageLines(v))) == Some((Text(head), v.message))
  {
    GoodHeadLine(head);
    if v.message == "" {
      HeadHoldsNoMarker(head);
      NoMessageLine(head);
      assert head + [] == head;
    } else {
      CutAtMessage(head, v.message);
    }
  }

  lemma GoodHeadReadsBack(head: seq<Bytes>)
    requires GoodHead(head)
    ensures CanonicalLines(Text(head)) == Some(head)
  {
    GoodHeadLine(head);
    TextReadsBack(head);
  }

  lemma DecodesTo(ks: Keys, u: Unicode, head: seq<Bytes>, v: Version)
    requires GoodHead(head) && ValidButTime(u, v)
    requires VersionOfLines(ks, head, v.message) == if InRange(v) then Some(v) else None
    ensures DecodeVersion(ks, u, Text(head + MessageLines(v))) ==
            if InRange(v) && v.time != ZERO_TIME then Some(v) else None
  {
    GoodHeadCuts(head, v);
    GoodHeadReadsBack(head);
  }

  lemma HeadIsGood(ks: Keys, u: Unicode, v: Version, e: bool, g: bool)
    requires GoodKeys(ks)
    requires TypedVersion(v) && ValidButTime(u, v) && Writes(v, e, g)
    ensures GoodHead(HeadLinesWith(ks, v, e, g))
  {
    HeadLinesAreGood(ks, u, v, e, g);
  }

  /** A version reads back, with its unset fields spelled out or not, where its times are set and in range. */
  lemma SpelledVersionReadsBack(ks: Keys, u: Unicode, v: Version, e: bool, g: bool)
    requires GoodKeys(ks)
    requires TypedVersion(v) && ValidButTime(u, v) && Writes(v, e, g)
    ensures DecodeVersion(ks, u, Text(HeadLinesWith(ks, v, e, g) + MessageLines(v))) ==
            if InRange(v) && v.time != ZERO_TIME then Some(v) else None
  {
    HeadIsGood(ks, u, v, e, g);
    HeadLinesParse(ks, u, v, e, g);
    DecodesTo(ks, u, HeadLinesWith(ks, v, e, g), v);
  }

  /** A valid version is read back from its own bytes if and only if its times are in range. */
  lemma VersionReadsBack(ks: Keys, u: Unicode, v: Version)
    requires GoodKeys(ks)
    requires TypedVersion(v) && ValidVersion(u, v)
    ensures DecodeVersion(ks, u, EncodeVersion(ks, u, v).value) == if InRange(v) then Some(v) else None
  {
    SpelledVersionReadsBack(ks, u, v, v.expiry != ZERO_TIME, v.graph != ZeroId());
  }
}
