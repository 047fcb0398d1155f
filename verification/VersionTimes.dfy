/** Versions whose times are not whole seconds of four-digit years, and what the format makes of them. */
module VersionTimes {
  import opened Common
  import opened Objects
  import opened Lines
  import opened Values
  import opened VersionKeys
  import opened VersionCodec

  /** A version as its Go type holds it, to the nanosecond; `version` has the times truncated to the second. */
  datatype Timed = Timed(version: Version, timeFraction: nat, expiryFraction: nat)

  predicate TypedTimes(m: Timed) {
    TypedVersion(m.version) && m.timeFraction < 1_000_000_000 && m.expiryFraction < 1_000_000_000
  }

  /** time.Time.IsZero sees the fraction, which the printed form does not have. */
  predicate HasTime(m: Timed) {
    m.version.time != ZERO_TIME || m.timeFraction != 0
  }

  predicate HasExpiry(m: Timed) {
    m.version.expiry != ZERO_TIME || m.expiryFraction != 0
  }

  /** Version.validate */
  predicate ValidTimed(u: Unicode, m: Timed) {
    ValidButTime(u, m.version) && HasTime(m)
  }

  /** Version.Marshal, as a function */
  function EncodeTimed(ks: Keys, u: Unicode, m: Timed): Option<Bytes>
    requires TypedTimes(m)
  {
    var v := m.version;
    if ValidTimed(u, m) then
      Some(Text(HeadLinesWith(ks, v, HasExpiry(m), v.graph != ZeroId()) + MessageLines(v)))
    else None
  }

  /** Whole seconds are what VersionCodec speaks of. */
  lemma WholeSecondsEncode(ks: Keys, u: Unicode, v: Version)
    requires TypedVersion(v)
    ensures EncodeTimed(ks, u, Timed(v, 0, 0)) == EncodeVersion(ks, u, v)
  {
  }

  /**
   What the printer writes parses back, to the second, if and only if the years have four digits and
   the time is not in the second that stands for "unset". Otherwise the parser refuses what was written.
   */
  lemma TimedReadsBackIff(ks: Keys, u: Unicode, m: Timed)
    requires GoodKeys(ks) && TypedTimes(m) && ValidTimed(u, m)
    ensures DecodeVersion(ks, u, EncodeTimed(ks, u, m).value) ==
            if InRange(m.version) && m.version.time != ZERO_TIME then Some(m.version) else None
  {
    SpelledVersionReadsBack(ks, u, m.version, HasExpiry(m), m.version.graph != ZeroId());
  }

  /** The input: a version of the year 10000 is written, and what was written is refused. */
  lemma FarYearIsWrittenButRefused(ks: Keys, u: Unicode, m: Timed)
    requires GoodKeys(ks) && TypedTimes(m) && ValidButTime(u, m.version)
    requires m.version.time == Stamp(10000, 1, 1, 0, 0, 0)
    ensures EncodeTimed(ks, u, m).Some? && DecodeVersion(ks, u, EncodeTimed(ks, u, m).value) == None
  {
    TimedReadsBackIff(ks, u, m);
  }

  // ----- one text, one version ----------------------------------------------------------------

  lemma KeyLinesAgree(key: Bytes, value: Bytes, value': Bytes)
    requires FieldOk(key) && FieldOk(value) && LineOk(value) && FieldOk(value') && LineOk(value')
    requires KeyLine(key, value) == KeyLine(key, value')
    ensures value == value'
  {
    KeyedOfLine(key, value);
    KeyedOfLine(key, value');
  }

  lemma TimeLinesAgree(key: Bytes, t: Stamp, t': Stamp)
    requires FieldOk(key) && OnCalendar(t) && OnCalendar(t')
    requires KeyLine(key, FormatTime(t)) == KeyLine(key, FormatTime(t'))
    ensures t == t'
  {
    TimeIsGoodField(t);
    TimeIsGoodField(t');
    KeyLinesAgree(key, FormatTime(t), FormatTime(t'));
    TimesAgree(t, t');
  }

  /** The optional lines tell which of them are there. */
  lemma OptionalShape(ks: Keys, v: Version, e: bool, g: bool)
    requires GoodKeys(ks) && TypedVersion(v)
    ensures var ls := OptionalLines(ks, v, e, g);
      && e == StartsWithKey(ls, ks.expiry) && (e ==> ls[0] == KeyLine(ks.expiry, FormatTime(v.expiry)))
      && g == (|ls| > if e then 1 else 0) && (g ==> ls[|ls| - 1] == KeyLine(ks.graph, v.graph))
  {
    TimeLineReadsBack(ks.expiry, v.expiry);
    IdLineReadsBack(ks.graph, v.graph);
    TwoOptional(KeyLine(ks.expiry, FormatTime(v.expiry)), e, KeyLine(ks.graph, v.graph), g, ks.expiry);
  }

  lemma TwoOptional(x: Bytes, hasX: bool, y: Bytes, hasY: bool, key: Bytes)
    requires FirstField(x) == key && FirstField(y) != key
    ensures var ls := (if hasX then [x] else []) + if hasY then [y] else [];
      && hasX == StartsWithKey(ls, key) && (hasX ==> ls[0] == x)
      && hasY == (|ls| > if hasX then 1 else 0) && (hasY ==> ls[|ls| - 1] == y)
  {
  }

  lemma OptionalLinesAgree(ks: Keys, v: Version, e: bool, g: bool, v': Version, e': bool, g': bool)
    requires GoodKeys(ks) && TypedVersion(v) && TypedVersion(v') && Writes(v, e, g) && Writes(v', e', g')
    requires OptionalLines(ks, v, e, g) == OptionalLines(ks, v', e', g')
    ensures v.expiry == v'.expiry && v.graph == v'.graph
  {
    OptionalShape(ks, v, e, g);
    OptionalShape(ks, v', e', g');
    if e {
      TimeLinesAgree(ks.expiry, v.expiry, v'.expiry);
    }
    if g {
      IdLineReadsBack(ks.graph, v.graph);
      IdLineReadsBack(ks.graph, v'.graph);
    }
  }

  /** Equal heads have equally many parents, so that the same lines stand for the same fields. */
  lemma HeadsAlign(ks: Keys, u: Unicode, v: Version, e: bool, g: bool, v': Version, e': bool, g': bool)
    requires GoodKeys(ks) && TypedVersion(v) && ValidButTime(u, v) && TypedVersion(v') && ValidButTime(u, v')
    requires HeadLinesWith(ks, v, e, g) == HeadLinesWith(ks, v', e', g')
    ensures |v.parents| == |v'.parents| && ParentLines(ks, v.parents) == ParentLines(ks, v'.parents)
    ensures KeyLine(ks.manifest, v.manifest) == KeyLine(ks.manifest, v'.manifest)
    ensures KeyLine(ks.author, v.author) == KeyLine(ks.author, v'.author)
    ensures KeyLine(ks.time, FormatTime(v.time)) == KeyLine(ks.time, FormatTime(v'.time))
    ensures OptionalLines(ks, v, e, g) == OptionalLines(ks, v', e', g')
  {
    var ls := HeadLinesWith(ks, v, e, g);
    assert ParentRun(ks, ls[2..]) == |v.parents| by {
      HeadBelowManifest(ks, v, e, g);
      ParentRunOfHead(ks, u, v, OptionalLines(ks, v, e, g));
    }
    assert ParentRun(ks, ls[2..]) == |v'.parents| by {
      HeadBelowManifest(ks, v', e', g');
      ParentRunOfHead(ks, u, v', OptionalLines(ks, v', e', g'));
    }
    HeadLayout(ks, v, e, g);
    HeadLayout(ks, v', e', g');
  }

  /** A head stands for one version, whatever its years. */
  lemma HeadsAgree(ks: Keys, u: Unicode, v: Version, e: bool, g: bool, v': Version, e': bool, g': bool)
    requires GoodKeys(ks) && TypedVersion(v) && ValidButTime(u, v) && Writes(v, e, g)
    requires TypedVersion(v') && ValidButTime(u, v') && Writes(v', e', g')
    requires HeadLinesWith(ks, v, e, g) == HeadLinesWith(ks, v', e', g') && v.message == v'.message
    ensures v == v'
  {
    HeadsAlign(ks, u, v, e, g, v', e', g');
    IdLineReadsBack(ks.manifest, v.manifest);
    IdLineReadsBack(ks.manifest, v'.manifest);
    ParentLinesReadBack(ks, v.parents);
    ParentLinesReadBack(ks, v'.parents);
    AuthorLineReadsBack(ks, u, v.author);
    AuthorLineReadsBack(ks, u, v'.author);
    TimeLinesAgree(ks.time, v.time, v'.time);
    OptionalLinesAgree(ks, v, e, g, v', e', g');
  }

  /** Two versions with one serialisation, hence one ID, are the same version to the second. */
  lemma VersionsWithOneTextAgree(ks: Keys, u: Unicode, m: Timed, m': Timed)
    requires GoodKeys(ks) && TypedTimes(m) && ValidTimed(u, m) && TypedTimes(m') && ValidTimed(u, m')
    requires EncodeTimed(ks, u, m) == EncodeTimed(ks, u, m')
    ensures m.version == m'.version
  {
    var v, v', g, g' := m.version, m'.version, m.version.graph != ZeroId(), m'.version.graph != ZeroId();
    var head, head' := HeadLinesWith(ks, v, HasExpiry(m), g), HeadLinesWith(ks, v', HasExpiry(m'), g');
    assert Text(head + MessageLines(v)) == Text(head' + MessageLines(v'));
    HeadIsGood(ks, u, v, HasExpiry(m), g);
    HeadIsGood(ks, u, v', HasExpiry(m'), g');
    GoodHeadCuts(head, v);
    GoodHeadCuts(head', v');
    GoodHeadReadsBack(head);
    GoodHeadReadsBack(head');
    HeadsAgree(ks, u, v, HasExpiry(m), g, v', HasExpiry(m'), g');
  }
}
