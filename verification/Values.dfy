/** The values a field can hold: numbers, timestamps, hashes, free text and paths. */
module Values {
  import opened Common
  import opened Objects
  import opened Lines

  // ----- numbers ------------------------------------------------------------------------------

  predicate IsDigit(c: Byte) {
    '0' <= c <= '9'
  }

  function Digit(d: nat): (c: Byte)
    requires d < 10
    ensures IsDigit(c) && c as int < 0x80
  {
    '0' + d as char
  }

  function ValueOf(c: Byte): (d: nat)
    requires IsDigit(c)
    ensures d < 10 && Digit(d) == c
  {
    (c as int) - ('0' as int)
  }

  predicate AllDigits(s: Bytes) {
    forall i | 0 <= i < |s| :: IsDigit(s[i])
  }

  /** formatInt: decimal, no leading zeros, no sign. */
  function FormatInt(n: nat): (s: Bytes)
    ensures s != "" && AllDigits(s)
    ensures n > 0 ==> s[0] != '0'
    ensures |s| > 1 ==> s[0] != '0'
  {
    if n < 10 then [Digit(n)] else FormatInt(n / 10) + [Digit(n % 10)]
  }

  function DecimalValue(s: Bytes): nat
    requires AllDigits(s)
  {
    if s == "" then 0 else 10 * DecimalValue(s[..|s| - 1]) + ValueOf(s[|s| - 1])
  }

  /** parseInt: one spelling per number, and only numbers an int64 holds. */
  function ParseInt(s: Bytes): (r: Option<int>)
    ensures r.Some? ==> 0 <= r.value <= MAX_INT64
  {
    if s == "" || (|s| > 1 && s[0] == '0') || !AllDigits(s) then None
    else if DecimalValue(s) > MAX_INT64 then None
    else Some(DecimalValue(s))
  }

  lemma {:induction false} ValueOfFormatted(n: nat)
    ensures DecimalValue(FormatInt(n)) == n
  {
    if n < 10 {
      assert DecimalValue([Digit(n)][..0]) == 0;
    } else {
      var init := FormatInt(n / 10);
      ValueOfFormatted(n / 10);
      assert (init + [Digit(n % 10)])[..|init|] == init;
    }
  }

  lemma {:induction false} FormattedValue(s: Bytes)
    requires s != "" && AllDigits(s) && (|s| > 1 ==> s[0] != '0')
    ensures FormatInt(DecimalValue(s)) == s
    ensures s[0] != '0' ==> DecimalValue(s) > 0
  {
    var init, last := s[..|s| - 1], s[|s| - 1];
    assert s == init + [last];
    if |s| == 1 {
      assert DecimalValue(init) == 0 && s == [last];
    } else {
      FormattedValue(init);
      var v := DecimalValue(init);
      assert (10 * v + ValueOf(last)) / 10 == v && (10 * v + ValueOf(last)) % 10 == ValueOf(last);
    }
  }

  /** Numbers round-trip both ways: parse inverts format, and format inverts parse on what it accepts. */
  lemma NumbersRoundTrip(n: nat, s: Bytes)
    ensures n <= MAX_INT64 ==> ParseInt(FormatInt(n)) == Some(n)
    ensures ParseInt(s).Some? ==> FormatInt(ParseInt(s).value) == s
  {
    ValueOfFormatted(n);
    if ParseInt(s).Some? {
      FormattedValue(s);
    }
  }

  lemma NumberIsGoodField(n: nat)
    ensures FieldOk(FormatInt(n)) && LineOk(FormatInt(n))
  {
    AsciiIsUtf8(FormatInt(n));
  }

  // ----- timestamps ---------------------------------------------------------------------------

  predicate IsLeap(year: int) {
    year % 4 == 0 && (year % 100 != 0 || year % 400 == 0)
  }

  function DaysIn(year: int, month: int): int {
    if month == 2 then if IsLeap(year) then 29 else 28
    else if month == 4 || month == 6 || month == 9 || month == 11 then 30
    else 31
  }

  function DaysInYear(year: int): int {
    DaysIn(year, 1) + DaysIn(year, 2) + DaysIn(year, 3) + DaysIn(year, 4) + DaysIn(year, 5) + DaysIn(year, 6) +
    DaysIn(year, 7) + DaysIn(year, 8) + DaysIn(year, 9) + DaysIn(year, 10) + DaysIn(year, 11) + DaysIn(year, 12)
  }

  /** The days before a year, counted from the year 1, as the Gregorian calendar has them. */
  function DaysBefore(year: int): int {
    var y := year - 1;
    365 * y + y / 4 - y / 100 + y / 400
  }

  /**
   The month lengths are those of the Gregorian calendar: the years add up, and from March on the months
   have 31, 30, 31, 30, 31 days over and over, with February what is left of the year.
   */
  lemma CalendarIsGregorian(year: int, k: int)
    requires 0 <= k < 11
    ensures DaysBefore(year + 1) - DaysBefore(year) == DaysInYear(year)
    ensures DaysIn(year, if k < 10 then k + 3 else 1) == (153 * (k + 1) + 2) / 5 - (153 * k + 2) / 5
  {
    YearsInCycle(year, 4);
    YearsInCycle(year, 100);
    YearsInCycle(year, 400);
    LeapCycles(year);
  }

  /** A multiple of `n` is passed at the end of a year exactly if the year is one. */
  lemma YearsInCycle(year: int, n: int)
    requires n in {4, 100, 400}
    ensures year / n - (year - 1) / n == if year % n == 0 then 1 else 0
  {
  }

  lemma LeapCycles(year: int)
    ensures year % 100 == 0 ==> year % 4 == 0
    ensures year % 400 == 0 ==> year % 100 == 0
  {
  }

  /** A second of the calendar, in any year, with no leap seconds: what a time.Time can be truncated to. */
  predicate OnCalendar(t: Stamp) {
    && 1 <= t.month <= 12 && 1 <= t.day <= DaysIn(t.year, t.month)
    && 0 <= t.hour <= 23 && 0 <= t.minute <= 59 && 0 <= t.second <= 59
  }

  /** One the format has room for: years 0 to 9999 of section 5.6 of RFC 3339. */
  predicate ValidStamp(t: Stamp) {
    0 <= t.year <= 9999 && OnCalendar(t)
  }

  function Two(n: nat): (s: Bytes)
    requires n < 100
    ensures |s| == 2 && AllDigits(s)
  {
    [Digit(n / 10), Digit(n % 10)]
  }

  function Four(n: nat): (s: Bytes)
    requires n < 10000
    ensures |s| == 4 && AllDigits(s)
  {
    Two(n / 100) + Two(n % 100)
  }

  /** At least four digits, as the time package prints a year without its sign. */
  function Padded(n: nat): (s: Bytes)
    ensures AllDigits(s) && |s| >= 4 && (n > 9999 ==> |s| > 4)
  {
    if n <= 9999 then Four(n) else LongNumber(n); FormatInt(n)
  }

  lemma LongNumber(n: nat)
    requires n > 9999
    ensures |FormatInt(n)| > 4
  {
    assert |FormatInt(n / 10)| > 3 by {
      assert n / 10 / 10 >= 10;
      assert |FormatInt(n / 10 / 10)| > 1;
    }
  }

  /** A year before the year 0 has a sign, one after 9999 has more digits. */
  function FormatYear(year: int): (s: Bytes)
    ensures |s| >= 4 && (|s| == 4 <==> 0 <= year <= 9999) && InLayout(s)
  {
    if year < 0 then ['-'] + Padded(-year) else Padded(year)
  }

  /** The characters a timestamp is made of. */
  predicate InLayout(s: Bytes) {
    forall i | 0 <= i < |s| :: IsDigit(s[i]) || s[i] == '-' || s[i] == ':' || s[i] == 'T' || s[i] == 'Z'
  }

  /** What follows the year. */
  function FormatRest(t: Stamp): (s: Bytes)
    requires OnCalendar(t)
    ensures |s| == 16 && s[15] == 'Z' && InLayout(s)
  {
    ['-'] + Two(t.month) + ['-'] + Two(t.day) + ['T'] +
    Two(t.hour) + [':'] + Two(t.minute) + [':'] + Two(t.second) + ['Z']
  }

  /** format.TimestampLayout */
  function FormatTime(t: Stamp): (s: Bytes)
    requires OnCalendar(t)
    ensures |s| >= 20 && (|s| == 20 <==> ValidStamp(t))
  {
    FormatYear(t.year) + FormatRest(t)
  }

  function Number2(s: Bytes, i: nat): int
    requires i + 2 <= |s|
  {
    if IsDigit(s[i]) && IsDigit(s[i + 1]) then 10 * ValueOf(s[i]) + ValueOf(s[i + 1]) else -1
  }

  /**
   parseTime: the layout with in-range numbers. Whatever else time.Parse would let through renders
   differently and is refused by the comparison that follows it.
   */
  function ParseTime(s: Bytes): Option<Stamp> {
    if |s| != 20 || s[4] != '-' || s[7] != '-' || s[10] != 'T' || s[13] != ':' || s[16] != ':' || s[19] != 'Z' then None
    else if Number2(s, 0) < 0 || Number2(s, 2) < 0 then None
    else
      var t := Stamp(100 * Number2(s, 0) + Number2(s, 2), Number2(s, 5), Number2(s, 8),
                     Number2(s, 11), Number2(s, 14), Number2(s, 17));
      if ValidStamp(t) then Some(t) else None
  }

  lemma Number2OfTwo(n: nat, s: Bytes, i: nat)
    requires n < 100 && i + 2 <= |s| && s[i..i + 2] == Two(n)
    ensures Number2(s, i) == n
  {
    assert s[i] == s[i..i + 2][0] && s[i + 1] == s[i..i + 2][1];
  }

  lemma TwoOfNumber2(s: Bytes, i: nat)
    requires i + 2 <= |s| && Number2(s, i) >= 0
    ensures Number2(s, i) < 100 && Two(Number2(s, i)) == s[i..i + 2]
  {
    var a, b := ValueOf(s[i]), ValueOf(s[i + 1]);
    assert (10 * a + b) / 10 == a && (10 * a + b) % 10 == b;
  }

  /** Where the numbers and the separators of the layout stand. */
  lemma LayoutPieces(a: Bytes, b: Bytes, c: Bytes, d: Bytes, e: Bytes, f: Bytes, g: Bytes)
    requires |a| == |b| == |c| == |d| == |e| == |f| == |g| == 2
    ensures var s := a + b + (['-'] + c + ['-'] + d + ['T'] + e + [':'] + f + [':'] + g + ['Z']);
      && |s| == 20 && s[0..2] == a && s[2..4] == b && s[5..7] == c && s[8..10] == d
      && s[11..13] == e && s[14..16] == f && s[17..19] == g
      && s[4] == '-' && s[7] == '-' && s[10] == 'T' && s[13] == ':' && s[16] == ':' && s[19] == 'Z'
  {
    RestElements(c, d, e, f, g);
    LayoutElements(a, b, ['-'] + c + ['-'] + d + ['T'] + e + [':'] + f + [':'] + g + ['Z']);
  }

  lemma RestElements(c: Bytes, d: Bytes, e: Bytes, f: Bytes, g: Bytes)
    requires |c| == |d| == |e| == |f| == |g| == 2
    ensures ['-'] + c + ['-'] + d + ['T'] + e + [':'] + f + [':'] + g + ['Z'] ==
            ['-', c[0], c[1], '-', d[0], d[1], 'T', e[0], e[1], ':', f[0], f[1], ':', g[0], g[1], 'Z']
  {
  }

  lemma LayoutElements(a: Bytes, b: Bytes, r: Bytes)
    requires |a| == |b| == 2 && |r| == 16
    ensures var s := a + b + r;
      && |s| == 20 && s[0..2] == a && s[2..4] == b
      && s[5..7] == [r[1], r[2]] && s[8..10] == [r[4], r[5]] && s[11..13] == [r[7], r[8]]
      && s[14..16] == [r[10], r[11]] && s[17..19] == [r[13], r[14]]
      && s[4] == r[0] && s[7] == r[3] && s[10] == r[6] && s[13] == r[9] && s[16] == r[12] && s[19] == r[15]
  {
  }

  /** A whole second parses back if and only if its year has four digits. */
  lemma TimeReadsBack(t: Stamp)
    requires OnCalendar(t)
    ensures ParseTime(FormatTime(t)) == if ValidStamp(t) then Some(t) else None
  {
    if ValidStamp(t) {
      FourDigitYearReadsBack(t);
    }
  }

  lemma FourDigitYearReadsBack(t: Stamp)
    requires ValidStamp(t)
    ensures ParseTime(FormatTime(t)) == Some(t)
  {
    var s := FormatTime(t);
    assert FormatYear(t.year) == Two(t.year / 100) + Two(t.year % 100);
    LayoutPieces(Two(t.year / 100), Two(t.year % 100), Two(t.month), Two(t.day), Two(t.hour), Two(t.minute),
                 Two(t.second));
    Number2OfTwo(t.year / 100, s, 0);
    Number2OfTwo(t.year % 100, s, 2);
    Number2OfTwo(t.month, s, 5);
    Number2OfTwo(t.day, s, 8);
    Number2OfTwo(t.hour, s, 11);
    Number2OfTwo(t.minute, s, 14);
    Number2OfTwo(t.second, s, 17);
  }

  lemma TimePrintsBack(s: Bytes)
    requires ParseTime(s).Some?
    ensures ValidStamp(ParseTime(s).value) && FormatTime(ParseTime(s).value) == s
  {
    var t := ParseTime(s).value;
    TwoOfNumber2(s, 0);
    TwoOfNumber2(s, 2);
    TwoOfNumber2(s, 5);
    TwoOfNumber2(s, 8);
    TwoOfNumber2(s, 11);
    TwoOfNumber2(s, 14);
    TwoOfNumber2(s, 17);
    HundredsSplit(Number2(s, 0), Number2(s, 2));
    Pieces(s);
    assert FormatYear(t.year) == s[0..2] + s[2..4];
    assert FormatRest(t) == [s[4]] + s[5..7] + [s[7]] + s[8..10] + [s[10]] +
                            s[11..13] + [s[13]] + s[14..16] + [s[16]] + s[17..19] + [s[19]];
  }

  // Printed times are equal only if the times are, in any year.

  lemma FoursAgree(n: nat, n': nat)
    requires n <= 9999 && n' <= 9999 && Four(n) == Four(n')
    ensures n == n'
  {
    assert Digit(n / 100 / 10) == Four(n)[0] && Digit(n / 100 % 10) == Four(n)[1];
    assert Digit(n % 100 / 10) == Four(n)[2] && Digit(n % 100 % 10) == Four(n)[3];
  }

  lemma YearsAgree(year: int, year': int)
    requires FormatYear(year) == FormatYear(year')
    ensures year == year'
  {
    var n, n' := if year < 0 then -year else year, if year' < 0 then -year' else year';
    var s := FormatYear(year);
    assert (year < 0) == (s[0] == '-') == (year' < 0);
    assert Padded(n) == (if year < 0 then s[1..] else s) == Padded(n');
    if n <= 9999 {
      FoursAgree(n, n');
    } else {
      ValueOfFormatted(n);
      ValueOfFormatted(n');
    }
  }

  lemma RestsAgree(t: Stamp, t': Stamp)
    requires OnCalendar(t) && OnCalendar(t') && FormatRest(t) == FormatRest(t')
    ensures t.(year := 0) == t'.(year := 0)
  {
    var z, z' := t.(year := 0), t'.(year := 0);
    assert FormatTime(z) == FormatYear(0) + FormatRest(t) && FormatTime(z') == FormatYear(0) + FormatRest(t');
    FourDigitYearReadsBack(z);
    FourDigitYearReadsBack(z');
  }

  lemma TimesAgree(t: Stamp, t': Stamp)
    requires OnCalendar(t) && OnCalendar(t') && FormatTime(t) == FormatTime(t')
    ensures t == t'
  {
    var s := FormatTime(t);
    assert FormatYear(t.year) == s[..|s| - 16] == FormatYear(t'.year);
    assert FormatRest(t) == s[|s| - 16..] == FormatRest(t');
    YearsAgree(t.year, t'.year);
    RestsAgree(t, t');
  }

  lemma HundredsSplit(a: nat, b: nat)
    requires b < 100
    ensures (100 * a + b) / 100 == a && (100 * a + b) % 100 == b
  {
  }

  lemma Pieces(s: Bytes)
    requires |s| == 20
    ensures s == (s[0..2] + s[2..4]) + ([s[4]] + s[5..7] + [s[7]] + s[8..10] + [s[10]] +
                 s[11..13] + [s[13]] + s[14..16] + [s[16]] + s[17..19] + [s[19]])
  {
  }

  lemma TimeIsGoodField(t: Stamp)
    requires OnCalendar(t)
    ensures FieldOk(FormatTime(t)) && LineOk(FormatTime(t))
  {
    var a, b := FormatYear(t.year), FormatRest(t);
    LayoutIsGoodField(a, b);
  }

  lemma LayoutIsGoodField(a: Bytes, b: Bytes)
    requires InLayout(a) && InLayout(b) && b != "" && b[|b| - 1] == 'Z'
    ensures FieldOk(a + b) && LineOk(a + b)
  {
    AsciiIsUtf8(a + b);
  }

  // ----- hashes -------------------------------------------------------------------------------

  predicate IsLowerHex(c: Byte) {
    '0' <= c <= '9' || 'a' <= c <= 'f'
  }

  /** hash.parse: 64 lower-case hex characters; the rendering is the ID, so nothing is decoded. */
  predicate IsId(s: Bytes) {
    |s| == 64 && forall i | 0 <= i < |s| :: IsLowerHex(s[i])
  }

  /** The rendering of the zero hash, which marks an unset ID. */
  function ZeroId(): (s: Bytes)
    ensures IsId(s)
  {
    seq(64, _ => '0')
  }

  lemma IdIsGoodField(s: Bytes)
    requires IsId(s)
    ensures FieldOk(s) && LineOk(s)
  {
    AsciiIsUtf8(s);
  }

  // ----- text ---------------------------------------------------------------------------------

  /**
   What the codec takes from the Unicode libraries: whether a string is in normal form C, the key it
   case-folds to, and whether it begins or ends in white space beyond ASCII.
   */
  datatype Unicode = Unicode(isNfc: Bytes -> bool, foldKey: Bytes -> Bytes, wideSpaceAtEdge: Bytes -> bool)

  predicate IsControl(c: Byte) {
    c as int < 0x20 || c as int == 0x7f
  }

  predicate NoControls(s: Bytes) {
    forall i | 0 <= i < |s| :: !IsControl(s[i])
  }

  predicate IsSpace(c: Byte) {
    c == ' ' || 0x09 <= c as int <= 0x0d
  }

  /** checkText */
  predicate TextOk(u: Unicode, s: Bytes) {
    && s != "" && Utf8(s)
    && !IsSpace(s[0]) && !IsSpace(s[|s| - 1]) && !u.wideSpaceAtEdge(s)
    && NoControls(s)
  }

  lemma TextIsGoodField(u: Unicode, s: Bytes)
    requires TextOk(u, s)
    ensures FieldOk(s) && LineOk(s)
  {
  }

  /** path.Validate */
  predicate PathOk(u: Unicode, p: Bytes) {
    && p != "" && Utf8(p) && u.isNfc(p)
    && p[0] != '/' && '\\' !in p
    && NoControls(p)
    && forall i | 0 <= i < |Split(p, '/')| ::
       Split(p, '/')[i] != "" && Split(p, '/')[i] != "." && Split(p, '/')[i] != ".."
  }

  lemma PathIsGoodField(u: Unicode, p: Bytes)
    requires PathOk(u, p)
    ensures FieldOk(p)
  {
  }
}
