/** The code of object/version.go, line by line, against the functions of VersionCodec. */
module VersionCoder {
  import opened Common
  import opened Objects
  import opened Lines
  import opened Values
  import opened Codec
  import opened VersionKeys
  import opened VersionCodec
  import opened VersionTimes

  /** Version.validate */
  method ValidateVersion(u: Unicode, m: Timed) returns (ok: bool)
    ensures ok <==> ValidTimed(u, m)
  {
    var v := m.version;
    if v.manifest == ZeroId() || !TextOk(u, v.author) || (v.time == ZERO_TIME && m.timeFraction == 0) {
      return false;
    }
    var seen: set<Id> := {};
    for i := 0 to |v.parents|
      invariant forall p :: p in seen <==> p in v.parents[..i]
      invariant forall j | 0 <= j < i :: v.parents[j] != ZeroId()
      invariant forall j, k | 0 <= j < k < i :: v.parents[j] != v.parents[k]
    {
      var p := v.parents[i];
      assert v.parents[..i + 1] == v.parents[..i] + [p];
      if p == ZeroId() {
        return false;
      }
      if p in seen {
        var j :| 0 <= j < i && v.parents[..i][j] == p;
        assert v.parents[j] == v.parents[i];
        return false;
      }
      seen := seen + {p};
    }
    return v.message != "" ==> MessageBlockOk(v.message + [LF]);
  }

  lemma HeadAssembles(ks: Keys, v: Version, hasExpiry: bool, hasGraph: bool)
    requires OnCalendar(v.time) && OnCalendar(v.expiry)
    ensures [ks.header] + [KeyLine(ks.manifest, v.manifest)] + ParentLines(ks, v.parents) +
            [KeyLine(ks.author, v.author)] + [KeyLine(ks.time, FormatTime(v.time))] +
            OptionalLines(ks, v, hasExpiry, hasGraph) == HeadLinesWith(ks, v, hasExpiry, hasGraph)
  {
  }

  /** Version.Marshal */
  method MarshalVersion(ks: Keys, u: Unicode, m: Timed) returns (data: Option<Bytes>)
    requires TypedTimes(m)
    ensures data == EncodeTimed(ks, u, m)
  {
    var ok := ValidateVersion(u, m);
    if !ok {
      return None;
    }
    var v := m.version;
    var e := new Encoder(ks.header);
    e.Line([ks.manifest, v.manifest]);
    MarshalParents(ks, v.parents, e);
    e.Line([ks.author, v.author]);
    e.Line([ks.time, FormatTime(v.time)]);
    MarshalOptional(ks, m, e);
    HeadAssembles(ks, v, HasExpiry(m), v.graph != ZeroId());
    MarshalMessage(v, e);
    return Some(e.buf);
  }

  method MarshalParents(ks: Keys, ps: seq<Id>, e: Encoder)
    requires e.Valid()
    modifies e
    ensures e.Valid() && e.written == old(e.written) + ParentLines(ks, ps)
  {
    ghost var ls := ParentLines(ks, ps);
    for i := 0 to |ps|
      invariant e.Valid() && e.written == old(e.written) + ls[..i]
    {
      e.Line([ks.parent, ps[i]]);
      assert ls[..i + 1] == ls[..i] + [ls[i]];
    }
    assert ls[..|ps|] == ls;
  }

  /** The optional fields, each only where it is set. */
  method MarshalOptional(ks: Keys, m: Timed, e: Encoder)
    requires OnCalendar(m.version.expiry) && e.Valid()
    modifies e
    ensures e.Valid()
    ensures e.written == old(e.written) + OptionalLines(ks, m.version, HasExpiry(m), m.version.graph != ZeroId())
  {
    var v := m.version;
    if v.expiry != ZERO_TIME || m.expiryFraction != 0 {
      e.Line([ks.expiry, FormatTime(v.expiry)]);
    }
    if v.graph != ZeroId() {
      e.Line([ks.graph, v.graph]);
    }
  }

  /** The message, line by line. */
  method MarshalMessage(v: Version, e: Encoder)
    requires e.Valid()
    modifies e
    ensures e.Valid() && e.written == old(e.written) + MessageLines(v)
  {
    if v.message != "" {
      e.Line([MESSAGE]);
      var body := Split(v.message, LF);
      for i := 0 to |body|
        invariant e.Valid() && e.written == old(e.written) + [MESSAGE] + body[..i]
      {
        e.Line([body[i]]);
        assert body[..i + 1] == body[..i] + [body[i]];
      }
      assert body[..|body|] == body;
    }
  }

  /** One line that holds an ID under a key. */
  method ReadIdLine(d: Decoder, key: Bytes) returns (id: Option<Id>)
    requires d.Valid()
    modifies d
    ensures d.Valid()
    ensures id == if old(d.pos) < |d.lines| then ParseIdLine(d.lines[old(d.pos)], key) else None
    ensures id.Some? ==> d.pos == old(d.pos) + 1
  {
    var value := d.Keyed(key);
    if value.None? || !IsId(value.value) {
      return None;
    }
    return value;
  }

  /** parseHead's parent loop, over a run of lines that start with the key and end before `end`. */
  method ReadParentLines(key: Bytes, d: Decoder, ghost end: nat) returns (r: Option<seq<Id>>)
    requires d.Valid() && d.pos == 2 <= end <= |d.lines|
    requires forall i | 2 <= i < end :: FirstField(d.lines[i]) == key
    requires end < |d.lines| ==> FirstField(d.lines[end]) != key
    modifies d
    ensures d.Valid()
    ensures r.Some? ==> |r.value| == end - 2 && d.pos == end && AllParsed(key, d.lines, r.value)
    ensures r.None? ==> exists i :: 2 <= i < end && ParseIdLine(d.lines[i], key).None?
  {
    var parents: seq<Id> := [];
    while !d.Done() && d.Peek() == key
      invariant d.Valid() && d.pos == |parents| + 2 <= end
      invariant AllParsed(key, d.lines, parents)
      decreases |d.lines| - d.pos
    {
      var parent := ReadIdLine(d, key);
      if parent.None? {
        return None;
      }
      ParsedOneMore(key, d.lines, parents, parent.value);
      parents := parents + [parent.value];
    }
    return Some(parents);
  }

  /** The IDs of as many lines as there are, from the third on. */
  ghost predicate AllParsed(key: Bytes, lines: seq<Bytes>, ps: seq<Id>) {
    |ps| + 2 <= |lines| && forall i | 2 <= i < |ps| + 2 :: ParseIdLine(lines[i], key) == Some(ps[i - 2])
  }

  lemma ParsedOneMore(key: Bytes, lines: seq<Bytes>, ps: seq<Id>, p: Id)
    requires AllParsed(key, lines, ps) && |ps| + 2 < |lines| && ParseIdLine(lines[|ps| + 2], key) == Some(p)
    ensures AllParsed(key, lines, ps + [p])
  {
  }

  lemma ParentsAre(ks: Keys, lines: seq<Bytes>, n: nat, r: Option<seq<Id>>)
    requires n + 2 <= |lines|
    requires r.Some? ==> |r.value| == n && AllParsed(ks.parent, lines, r.value)
    requires r.None? ==> exists i :: 2 <= i < n + 2 && ParseIdLine(lines[i], ks.parent).None?
    ensures ParseParents(ks, lines[2..n + 2]) == r
  {
    var ls := lines[2..n + 2];
    forall i | 2 <= i < n + 2 ensures lines[i] == ls[i - 2] {
    }
    if r.Some? {
      assert forall i | 0 <= i < n :: ls[i] == lines[i + 2];
      assert ParseParents(ks, ls).value == r.value;
    }
  }

  /** parseHead's parent loop */
  method ReadParents(ks: Keys, d: Decoder) returns (r: Option<seq<Id>>)
    requires d.Valid() && d.pos == 2
    modifies d
    ensures d.Valid()
    ensures var n := ParentRun(ks, d.lines[2..]);
      r == ParseParents(ks, d.lines[2..n + 2]) && (r.Some? ==> d.pos == n + 2)
  {
    ghost var below := d.lines[2..];
    ghost var n := ParentRun(ks, below);
    forall i | 2 <= i < |d.lines| ensures d.lines[i] == below[i - 2] {
    }
    r := ReadParentLines(ks.parent, d, n + 2);
    ParentsAre(ks, d.lines, n, r);
  }

  /** parseOptional and expectEnd */
  method ReadOptional(ks: Keys, d: Decoder) returns (r: Option<(Stamp, Id)>)
    requires d.Valid()
    modifies d
    ensures r == ParseOptional(ks, d.lines[old(d.pos)..])
  {
    ghost var ls := d.lines[d.pos..];
    var expiry, graph := ZERO_TIME, ZeroId();
    if !d.Done() && d.Peek() == ks.expiry {
      assert d.lines[d.pos] == ls[0] && d.lines[d.pos + 1..] == ls[1..];
      var value := d.Keyed(ks.expiry);
      var t := if value.None? then None else ParseTime(value.value);
      if t.None? {
        return None;
      }
      expiry := t.value;
    }
    ghost var rest := d.lines[d.pos..];
    assert ParseExpiry(ks, ls) == Some((expiry, rest));
    if !d.Done() {
      assert d.lines[d.pos] == rest[0] && d.lines[d.pos + 1..] == rest[1..];
      if d.Peek() != ks.graph {
        return None;
      }
      var value := d.Keyed(ks.graph);
      if value.None? || !IsId(value.value) || !d.Done() {
        return None;
      }
      graph := value.value;
    }
    return Some((expiry, graph));
  }

  /** The author and the time line. */
  method ReadFixed(ks: Keys, d: Decoder) returns (r: Option<(Bytes, Stamp)>)
    requires d.Valid()
    modifies d
    ensures d.Valid()
    ensures r == ParseFixed(ks, d.lines, old(d.pos)) && (r.Some? ==> d.pos == old(d.pos) + 2)
  {
    var author := d.Keyed(ks.author);
    if author.None? {
      return None;
    }
    var timeField := d.Keyed(ks.time);
    var time := if timeField.None? then None else ParseTime(timeField.value);
    if time.None? {
      return None;
    }
    return Some((author.value, time.value));
  }

  function ParseFixed(ks: Keys, ls: seq<Bytes>, at: nat): Option<(Bytes, Stamp)> {
    if |ls| < at + 2 then None
    else
      var author, time := KeyedValue(ls[at], ks.author), ParseTimeLine(ls[at + 1], ks.time);
      if author.Some? && time.Some? then Some((author.value, time.value)) else None
  }

  lemma HeadNeedsManifest(ks: Keys, ls: seq<Bytes>, message: Bytes)
    requires |ls| < 2 || ParseIdLine(ls[1], ks.manifest).None?
    ensures VersionOfLines(ks, ls, message) == None
  {
  }

  lemma HeadNeedsParents(ks: Keys, ls: seq<Bytes>, message: Bytes)
    requires |ls| >= 2 && ParseParents(ks, ls[2..ParentRun(ks, ls[2..]) + 2]).None?
    ensures VersionOfLines(ks, ls, message) == None
  {
  }

  lemma HeadNeedsFixed(ks: Keys, ls: seq<Bytes>, message: Bytes)
    requires |ls| >= 2 && ParseFixed(ks, ls, ParentRun(ks, ls[2..]) + 2).None?
    ensures VersionOfLines(ks, ls, message) == None
  {
  }

  /** The head from its four parts. */
  lemma HeadInParts(ks: Keys, ls: seq<Bytes>, message: Bytes, n: nat, manifest: Id, parents: seq<Id>,
                    fixed: (Bytes, Stamp), optional: Option<(Stamp, Id)>)
    requires |ls| >= 2 && ls[0] == ks.header && n == ParentRun(ks, ls[2..])
    requires ParseIdLine(ls[1], ks.manifest) == Some(manifest) && ParseParents(ks, ls[2..n + 2]) == Some(parents)
    requires ParseFixed(ks, ls, n + 2) == Some(fixed) && ParseOptional(ks, ls[n + 4..]) == optional
    ensures VersionOfLines(ks, ls, message) == if optional.None? then None else
      Some(Version(manifest, parents, fixed.0, fixed.1, optional.value.0, optional.value.1, message))
  {
    assert VersionOfLines(ks, ls, message) ==
      VersionOfParts(ks, ls[1], ls[2..n + 2], ls[n + 2], ls[n + 3], ls[n + 4..], message);
    PartsTogether(ks, ls[1], ls[2..n + 2], ls[n + 2], ls[n + 3], ls[n + 4..], message, manifest, parents, fixed);
  }

  lemma PartsTogether(ks: Keys, manifestLine: Bytes, parentLines: seq<Bytes>, authorLine: Bytes, timeLine: Bytes,
                      optionalLines: seq<Bytes>, message: Bytes, manifest: Id, parents: seq<Id>, fixed: (Bytes, Stamp))
    requires ParseIdLine(manifestLine, ks.manifest) == Some(manifest) && ParseParents(ks, parentLines) == Some(parents)
    requires KeyedValue(authorLine, ks.author) == Some(fixed.0) && ParseTimeLine(timeLine, ks.time) == Some(fixed.1)
    ensures var optional := ParseOptional(ks, optionalLines);
      VersionOfParts(ks, manifestLine, parentLines, authorLine, timeLine, optionalLines, message) ==
      if optional.None? then None else
        Some(Version(manifest, parents, fixed.0, fixed.1, optional.value.0, optional.value.1, message))
  {
  }

  /** parseHead */
  method ReadHead(ks: Keys, d: Decoder, message: Bytes) returns (r: Option<Version>)
    requires d.Valid() && d.pos == 1 && d.lines != [] && d.lines[0] == ks.header
    modifies d
    ensures r == VersionOfLines(ks, d.lines, message)
  {
    var manifest := ReadIdLine(d, ks.manifest);
    if manifest.None? {
      HeadNeedsManifest(ks, d.lines, message);
      return None;
    }
    ghost var n := ParentRun(ks, d.lines[2..]);
    var parents := ReadParents(ks, d);
    if parents.None? {
      HeadNeedsParents(ks, d.lines, message);
      return None;
    }
    var fixed := ReadFixed(ks, d);
    if fixed.None? {
      HeadNeedsFixed(ks, d.lines, message);
      return None;
    }
    var optional := ReadOptional(ks, d);
    HeadInParts(ks, d.lines, message, n, manifest.value, parents.value, fixed.value, optional);
    if optional.None? {
      return None;
    }
    return Some(Version(manifest.value, parents.value, fixed.value.0, fixed.value.1,
                        optional.value.0, optional.value.1, message));
  }

  /** UnmarshalVersion */
  method UnmarshalVersion(ks: Keys, u: Unicode, data: Bytes) returns (r: Option<Version>)
    ensures r == DecodeVersion(ks, u, data)
  {
    var cut := CutMessage(data);
    if cut.None? {
      return None;
    }
    var d := NewDecoder(cut.value.0, ks.header);
    if d.None? {
      return None;
    }
    var v := ReadHead(ks, d.value, cut.value.1);
    if v.None? {
      return None;
    }
    var ok := ValidateVersion(u, Timed(v.value, 0, 0));
    r := if ok then v else None;
  }
}
