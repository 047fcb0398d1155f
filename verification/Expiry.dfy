/** The thinning schedule of client/expiry.go, over one run and over every sequence of runs. */
module Expiry {
  import opened Common

  /** An instant in nanoseconds since the Unix epoch; a duration likewise. */
  type Time = int

  const SECOND: int := 1_000_000_000
  const HOUR: int := 3600 * SECOND
  const DAY: int := 24 * HOUR

  datatype Snapshot = Snapshot(ref: Bytes, version: Bytes, time: Time)

  datatype Retention = Retention(hourly: Time, daily: Time, weekly: Time)

  function SecondOf(t: Time): int { t / SECOND }

  function HourOf(t: Time): int { t / HOUR }

  function DayOf(t: Time): int { t / DAY }

  /** The ISO week of section 4.1.4 of ISO 8601:2004 runs Monday to Sunday; the epoch was a Thursday. */
  function WeekOf(t: Time): int { (DayOf(t) + 3) / 7 }

  /** The slot a snapshot competes in. */
  datatype Bucket = Future(second: int) | Hour(hour: int) | Day(day: int) | Week(week: int)

  /** bucketOf */
  function BucketOf(r: Retention, at: Time, now: Time): Option<Bucket> {
    var age := now - at;
    if age < 0 then Some(Future(SecondOf(at)))
    else if age <= r.hourly then Some(Hour(HourOf(at)))
    else if age <= r.daily then Some(Day(DayOf(at)))
    else if age <= r.weekly then Some(Week(WeekOf(at)))
    else None
  }

  // ----- the slots are those of the clock and the calendar --------------------------------------

  lemma SecondsAndHours(t: Time, n: int)
    ensures SecondOf(t) == n <==> n * 1_000_000_000 <= t < (n + 1) * 1_000_000_000
    ensures HourOf(t) == n <==> n * 3_600_000_000_000 <= t < (n + 1) * 3_600_000_000_000
  {
  }

  /** Midnight in UTC at the start of the day so many days after 1 January 1970. */
  function Midnight(day: int): Time {
    day * 86_400_000_000_000
  }

  /** Days begin at midnight, weeks at the midnight before a Monday: day 4 was Monday, 5 January 1970. */
  lemma DaysAndWeeks(t: Time, n: int)
    ensures DayOf(t) == n <==> Midnight(n) <= t < Midnight(n + 1)
    ensures WeekOf(t) == n + 1 <==> Midnight(4 + 7 * n) <= t < Midnight(4 + 7 * (n + 1))
  {
    assert DayOf(t) == t / 86_400_000_000_000;
    assert WeekOf(t) == n + 1 <==> 4 + 7 * n <= DayOf(t) < 11 + 7 * n;
  }

  // ----- one run ------------------------------------------------------------------------------

  predicate Chronological(s: seq<Snapshot>) {
    forall i, j | 0 <= i < j < |s| :: s[i].time <= s[j].time
  }

  lemma InsertedInOrder(s: seq<Snapshot>, k: nat, x: Snapshot)
    requires Chronological(s) && k <= |s|
    requires (forall j | 0 <= j < k :: s[j].time <= x.time) && (forall j | k <= j < |s| :: x.time <= s[j].time)
    ensures Chronological(s[..k] + [x] + s[k..])
  {
    var r := s[..k] + [x] + s[k..];
    forall i, j | 0 <= i < j < |r| ensures r[i].time <= r[j].time {
      assert i < k ==> r[i] == s[i];
      assert i > k ==> r[i] == s[i - 1];
      assert j < k ==> r[j] == s[j];
      assert j > k ==> r[j] == s[j - 1];
    }
  }

  lemma InsertedOnce(before: seq<Snapshot>, x: Snapshot, after: seq<Snapshot>)
    ensures multiset(before + [x] + after) == multiset(before + after) + multiset{x}
  {
  }

  /** Where a snapshot belongs: behind all that are not later. */
  method PlaceByTime(s: seq<Snapshot>, x: Snapshot) returns (k: nat)
    requires Chronological(s)
    ensures k <= |s|
    ensures (forall j | 0 <= j < k :: s[j].time <= x.time) && (forall j | k <= j < |s| :: x.time < s[j].time)
  {
    k := |s|;
    while k > 0 && s[k - 1].time > x.time
      invariant 0 <= k <= |s|
      invariant forall j | k <= j < |s| :: s[j].time > x.time
    {
      k := k - 1;
    }
  }

  method InsertByTime(s: seq<Snapshot>, x: Snapshot) returns (r: seq<Snapshot>)
    requires Chronological(s)
    ensures Chronological(r) && multiset(r) == multiset(s) + multiset{x}
  {
    var k := PlaceByTime(s, x);
    InsertedInOrder(s, k, x);
    var before, after := s[..k], s[k..];
    InsertedOnce(before, x, after);
    assert before + after == s;
    r := before + [x] + after;
  }

  /** sort.Slice by time. It is not stable, so snapshots of one instant come in any order. */
  method SortByTime(timeline: seq<Snapshot>) returns (ordered: seq<Snapshot>)
    ensures Chronological(ordered) && multiset(ordered) == multiset(timeline)
  {
    ordered := [];
    for i := 0 to |timeline|
      invariant Chronological(ordered) && multiset(ordered) == multiset(timeline[..i])
    {
      assert timeline[..i + 1] == timeline[..i] + [timeline[i]];
      ordered := InsertByTime(ordered, timeline[i]);
    }
    assert timeline[..|timeline|] == timeline;
  }

  function Reversed(s: seq<Snapshot>): (r: seq<Snapshot>)
    ensures |r| == |s| && forall i | 0 <= i < |s| :: r[i] == s[|s| - 1 - i]
  {
    if s == [] then [] else Reversed(s[1..]) + [s[0]]
  }

  lemma {:induction false} ReversedHolds(s: seq<Snapshot>)
    ensures multiset(Reversed(s)) == multiset(s)
  {
    if s != [] {
      ReversedHolds(s[1..]);
      assert s == [s[0]] + s[1..];
    }
  }

  /** reverse */
  method Reverse(s: array<Snapshot>)
    modifies s
    ensures s[..] == Reversed(old(s[..]))
  {
    var i, j := 0, s.Length - 1;
    while i < j
      invariant 0 <= i <= s.Length && j == s.Length - 1 - i
      invariant forall k | i <= k <= j :: s[k] == old(s[k])
      invariant forall k | 0 <= k < i :: s[k] == old(s[s.Length - 1 - k]) && s[s.Length - 1 - k] == old(s[k])
    {
      s[i], s[j] := s[j], s[i];
      i, j := i + 1, j - 1;
    }
    ghost var was := old(s[..]);
    forall k | 0 <= k < |was| ensures s[..][k] == was[|was| - 1 - k] {
      assert k < i || k > j || k == i == j;
    }
  }

  /** One survivor per bucket, the newest there; everything else goes. */
  ghost predicate Thins(r: Retention, now: Time, timeline: seq<Snapshot>, keep: seq<Snapshot>, drop: seq<Snapshot>) {
    && multiset(timeline) == multiset(keep) + multiset(drop)
    && Chronological(keep) && Chronological(drop)
    && (forall s | s in keep :: BucketOf(r, s.time, now).Some?)
    && (forall i, j | 0 <= i < j < |keep| :: BucketOf(r, keep[i].time, now) != BucketOf(r, keep[j].time, now))
    && (forall s | s in timeline && BucketOf(r, s.time, now).Some? :: Represented(r, now, keep, s))
  }

  /** Some snapshot of `keep` stands for `s`: in its bucket, and no older. */
  ghost predicate Represented(r: Retention, now: Time, keep: seq<Snapshot>, s: Snapshot) {
    exists k :: k in keep && BucketOf(r, k.time, now) == BucketOf(r, s.time, now) && k.time >= s.time
  }

  /** Older than every window. */
  predicate Beyond(r: Retention, now: Time, at: Time) {
    now - at >= 0 && now - at > r.hourly && now - at > r.daily && now - at > r.weekly
  }

  /** The ages the schedule treats alike, and what it keeps one of in each. */
  datatype Band = Ahead | Hours | Days | Weeks

  predicate Within(r: Retention, now: Time, band: Band, at: Time) {
    var age := now - at;
    match band
    case Ahead => age < 0
    case Hours => 0 <= age <= r.hourly
    case Days => 0 <= age <= r.daily && r.hourly < age
    case Weeks => 0 <= age <= r.weekly && r.hourly < age && r.daily < age
  }

  function SlotIn(band: Band, at: Time): int {
    match band
    case Ahead => SecondOf(at)
    case Hours => HourOf(at)
    case Days => DayOf(at)
    case Weeks => WeekOf(at)
  }

  /** `k` stands for `s`: of the same band and slot, and no older. */
  predicate StandsFor(r: Retention, now: Time, band: Band, k: Snapshot, s: Snapshot) {
    Within(r, now, band, k.time) && SlotIn(band, k.time) == SlotIn(band, s.time) && k.time >= s.time
  }

  /** Of the snapshots in a band, one is kept per slot, and a newest one. */
  ghost predicate OneOfEach(r: Retention, now: Time, all: set<Snapshot>, kept: set<Snapshot>, band: Band) {
    && (forall s, s' | s in kept && s' in kept && Within(r, now, band, s.time) && Within(r, now, band, s'.time)
                       && SlotIn(band, s.time) == SlotIn(band, s'.time) :: s == s')
    && (forall s | s in all && Within(r, now, band, s.time) :: exists k :: k in kept && StandsFor(r, now, band, k, s))
  }

  /**
   The schedule, apart from how it is computed: one snapshot per hour in the hourly window, one per UTC day
   of what is older in the daily one, one per week of what is older still in the weekly one, nothing beyond;
   and what is dated in the future keeps its second.
   */
  ghost predicate FollowsSchedule(r: Retention, now: Time, all: set<Snapshot>, kept: set<Snapshot>) {
    && kept <= all && (forall s | s in kept :: !Beyond(r, now, s.time))
    && forall band :: OneOfEach(r, now, all, kept, band)
  }

  function Elements(ss: seq<Snapshot>): set<Snapshot> {
    set s | s in ss
  }

  /** The buckets of a band are its slots, and no other age has them. */
  lemma BucketsOfBand(r: Retention, now: Time, band: Band, at: Time, at': Time)
    requires Within(r, now, band, at)
    ensures BucketOf(r, at, now).Some?
    ensures BucketOf(r, at, now) == BucketOf(r, at', now) <==>
            Within(r, now, band, at') && SlotIn(band, at) == SlotIn(band, at')
  {
  }

  lemma SomeBand(r: Retention, now: Time, at: Time) returns (band: Band)
    requires !Beyond(r, now, at)
    ensures Within(r, now, band, at)
  {
    var age := now - at;
    band := if age < 0 then Ahead else if age <= r.hourly then Hours else if age <= r.daily then Days else Weeks;
  }

  /** Of each bucket one is kept, and a newest one. */
  ghost predicate OnePerBucketKept(r: Retention, now: Time, all: set<Snapshot>, kept: set<Snapshot>) {
    && (forall s, s' | s in kept && s' in kept && BucketOf(r, s.time, now) == BucketOf(r, s'.time, now) :: s == s')
    && (forall s | s in all && BucketOf(r, s.time, now).Some? ::
          exists k :: k in kept && BucketOf(r, k.time, now) == BucketOf(r, s.time, now) && k.time >= s.time)
  }

  lemma BandFollows(r: Retention, now: Time, all: set<Snapshot>, kept: set<Snapshot>, band: Band)
    requires OnePerBucketKept(r, now, all, kept)
    ensures OneOfEach(r, now, all, kept, band)
  {
    forall s, s' | s in kept && s' in kept && Within(r, now, band, s.time) && Within(r, now, band, s'.time)
                   && SlotIn(band, s.time) == SlotIn(band, s'.time)
      ensures s == s'
    {
      BucketsOfBand(r, now, band, s.time, s'.time);
    }
    forall s | s in all && Within(r, now, band, s.time)
      ensures exists k :: k in kept && StandsFor(r, now, band, k, s)
    {
      BucketsOfBand(r, now, band, s.time, s.time);
      var k :| k in kept && BucketOf(r, k.time, now) == BucketOf(r, s.time, now) && k.time >= s.time;
      BucketsOfBand(r, now, band, s.time, k.time);
      assert StandsFor(r, now, band, k, s);
    }
  }

  lemma KeptIsOfTheTimeline(timeline: seq<Snapshot>, keep: seq<Snapshot>, drop: seq<Snapshot>)
    requires multiset(timeline) == multiset(keep) + multiset(drop)
    ensures Elements(keep) <= Elements(timeline) && Elements(timeline) == Elements(keep) + Elements(drop)
  {
    forall s ensures s in timeline <==> s in keep || s in drop {
      assert s in multiset(timeline) <==> s in multiset(keep) || s in multiset(drop);
    }
  }

  lemma ThinningKeepsOne(r: Retention, now: Time, timeline: seq<Snapshot>, keep: seq<Snapshot>, drop: seq<Snapshot>)
    requires Thins(r, now, timeline, keep, drop)
    ensures OnePerBucketKept(r, now, Elements(timeline), Elements(keep))
  {
    forall s, s' | s in keep && s' in keep && BucketOf(r, s.time, now) == BucketOf(r, s'.time, now) ensures s == s' {
      var i :| 0 <= i < |keep| && keep[i] == s;
      var j :| 0 <= j < |keep| && keep[j] == s';
      assert i == j;
    }
    forall s | s in Elements(timeline) && BucketOf(r, s.time, now).Some?
      ensures exists k ::
        k in Elements(keep) && BucketOf(r, k.time, now) == BucketOf(r, s.time, now) && k.time >= s.time
    {
      assert Represented(r, now, keep, s);
      var k :| k in keep && BucketOf(r, k.time, now) == BucketOf(r, s.time, now) && k.time >= s.time;
      assert k in Elements(keep);
    }
  }

  /** Thinning by buckets follows the schedule. */
  lemma ThinningFollows(r: Retention, now: Time, timeline: seq<Snapshot>, keep: seq<Snapshot>, drop: seq<Snapshot>)
    requires Thins(r, now, timeline, keep, drop)
    ensures FollowsSchedule(r, now, Elements(timeline), Elements(keep))
    ensures forall s | s in timeline && Beyond(r, now, s.time) :: s in drop && s !in keep
  {
    KeptIsOfTheTimeline(timeline, keep, drop);
    ThinningKeepsOne(r, now, timeline, keep, drop);
    forall band ensures OneOfEach(r, now, Elements(timeline), Elements(keep), band) {
      BandFollows(r, now, Elements(timeline), Elements(keep), band);
    }
    forall s | s in timeline ensures s in keep || s in drop {
      assert s in Elements(timeline);
    }
  }

  /** And nothing else follows it: two that do keep a snapshot of the same instants. */
  lemma ScheduleIsUnique(r: Retention, now: Time, all: set<Snapshot>, kept: set<Snapshot>, kept': set<Snapshot>,
                         s: Snapshot)
    requires FollowsSchedule(r, now, all, kept) && FollowsSchedule(r, now, all, kept') && s in kept
    ensures exists s' :: s' in kept' && s'.time == s.time
  {
    var band := SomeBand(r, now, s.time);
    assert OneOfEach(r, now, all, kept, band) && OneOfEach(r, now, all, kept', band);
    var k :| k in kept' && StandsFor(r, now, band, k, s);
    var s'' :| s'' in kept && StandsFor(r, now, band, s'', k);
    assert s'' == s;
  }

  /** The loop of Retain, newest first: what it has kept and dropped of the newest snapshots. */
  ghost predicate Scanning(r: Retention, now: Time, ordered: seq<Snapshot>, n: nat, seen: set<Bucket>,
                           keep: seq<Snapshot>, drop: seq<Snapshot>)
    requires n <= |ordered|
  {
    NewestFirst(ordered[n..], keep, drop) && OnePerBucket(r, now, ordered[n..], seen, keep)
  }

  ghost predicate NewestFirst(scanned: seq<Snapshot>, keep: seq<Snapshot>, drop: seq<Snapshot>) {
    && multiset(scanned) == multiset(keep) + multiset(drop)
    && (forall i, j | 0 <= i < j < |keep| :: keep[i].time >= keep[j].time)
    && (forall i, j | 0 <= i < j < |drop| :: drop[i].time >= drop[j].time)
  }

  ghost predicate OnePerBucket(r: Retention, now: Time, scanned: seq<Snapshot>, seen: set<Bucket>, keep: seq<Snapshot>)
  {
    && (forall s | s in keep :: BucketOf(r, s.time, now).Some? && BucketOf(r, s.time, now).value in seen)
    && (forall b | b in seen :: exists k :: k in keep && BucketOf(r, k.time, now) == Some(b))
    && (forall i, j | 0 <= i < j < |keep| :: BucketOf(r, keep[i].time, now) != BucketOf(r, keep[j].time, now))
    && (forall s | s in scanned && BucketOf(r, s.time, now).Some? :: Represented(r, now, keep, s))
  }

  /** A snapshot whose bucket is taken, or that has none, is dropped. */
  lemma ScanDrops(r: Retention, now: Time, ordered: seq<Snapshot>, n: nat, seen: set<Bucket>,
                  keep: seq<Snapshot>, drop: seq<Snapshot>)
    requires 0 < n <= |ordered| && Chronological(ordered) && Scanning(r, now, ordered, n, seen, keep, drop)
    requires var b := BucketOf(r, ordered[n - 1].time, now); b.None? || b.value in seen
    ensures Scanning(r, now, ordered, n - 1, seen, keep, drop + [ordered[n - 1]])
  {
    var x, rest := ordered[n - 1], ordered[n..];
    assert ordered[n - 1..] == [x] + rest;
    forall s | s in keep + drop ensures s.time >= x.time {
      AllScanned(ordered, n, keep, drop, s);
    }
    DroppedLast(rest, keep, drop, x);
    BucketIsTaken(r, now, rest, seen, keep, drop, x);
  }

  lemma DroppedLast(rest: seq<Snapshot>, keep: seq<Snapshot>, drop: seq<Snapshot>, x: Snapshot)
    requires NewestFirst(rest, keep, drop) && forall s | s in keep + drop :: s.time >= x.time
    ensures NewestFirst([x] + rest, keep, drop + [x])
  {
    forall i | 0 <= i < |drop| ensures drop[i].time >= x.time {
      assert drop[i] in keep + drop;
    }
  }

  lemma BucketIsTaken(r: Retention, now: Time, rest: seq<Snapshot>, seen: set<Bucket>, keep: seq<Snapshot>,
                      drop: seq<Snapshot>, x: Snapshot)
    requires OnePerBucket(r, now, rest, seen, keep) && forall s | s in keep + drop :: s.time >= x.time
    requires var b := BucketOf(r, x.time, now); b.None? || b.value in seen
    ensures OnePerBucket(r, now, [x] + rest, seen, keep)
  {
    if BucketOf(r, x.time, now).Some? {
      var k :| k in keep && BucketOf(r, k.time, now) == BucketOf(r, x.time, now);
      assert k in keep + drop;
      assert Represented(r, now, keep, x);
    }
  }

  /** The first snapshot met in a bucket is kept. */
  lemma ScanKeeps(r: Retention, now: Time, ordered: seq<Snapshot>, n: nat, seen: set<Bucket>,
                  keep: seq<Snapshot>, drop: seq<Snapshot>)
    requires 0 < n <= |ordered| && Chronological(ordered) && Scanning(r, now, ordered, n, seen, keep, drop)
    requires var b := BucketOf(r, ordered[n - 1].time, now); b.Some? && b.value !in seen
    ensures Scanning(r, now, ordered, n - 1, seen + {BucketOf(r, ordered[n - 1].time, now).value},
                     keep + [ordered[n - 1]], drop)
  {
    var x, rest := ordered[n - 1], ordered[n..];
    assert ordered[n - 1..] == [x] + rest;
    forall s | s in keep + drop ensures s.time >= x.time {
      AllScanned(ordered, n, keep, drop, s);
    }
    KeptLast(rest, keep, drop, x);
    BucketTaken(r, now, rest, seen, keep, x);
  }

  lemma KeptLast(rest: seq<Snapshot>, keep: seq<Snapshot>, drop: seq<Snapshot>, x: Snapshot)
    requires NewestFirst(rest, keep, drop) && forall s | s in keep + drop :: s.time >= x.time
    ensures NewestFirst([x] + rest, keep + [x], drop)
  {
    forall i | 0 <= i < |keep| ensures keep[i].time >= x.time {
      assert keep[i] in keep + drop;
    }
  }

  lemma BucketTaken(r: Retention, now: Time, rest: seq<Snapshot>, seen: set<Bucket>, keep: seq<Snapshot>, x: Snapshot)
    requires OnePerBucket(r, now, rest, seen, keep)
    requires var b := BucketOf(r, x.time, now); b.Some? && b.value !in seen
    ensures OnePerBucket(r, now, [x] + rest, seen + {BucketOf(r, x.time, now).value}, keep + [x])
  {
    var b := BucketOf(r, x.time, now).value;
    assert x in keep + [x];
    forall i | 0 <= i < |keep| ensures BucketOf(r, keep[i].time, now) != Some(b) {
      assert keep[i] in keep;
    }
    forall s | s in [x] + rest && BucketOf(r, s.time, now).Some? ensures Represented(r, now, keep + [x], s) {
      if s != x {
        var k :| k in keep && BucketOf(r, k.time, now) == BucketOf(r, s.time, now) && k.time >= s.time;
        assert k in keep + [x];
      }
    }
    forall c | c in seen + {b} ensures exists k :: k in keep + [x] && BucketOf(r, k.time, now) == Some(c) {
      if c != b {
        var k :| k in keep && BucketOf(r, k.time, now) == Some(c);
        assert k in keep + [x];
      }
    }
  }

  /** Whatever has been kept or dropped is newer than what is still to come. */
  lemma AllScanned(ordered: seq<Snapshot>, n: nat, keep: seq<Snapshot>, drop: seq<Snapshot>, s: Snapshot)
    requires 0 < n <= |ordered| && Chronological(ordered)
    requires multiset(ordered[n..]) == multiset(keep) + multiset(drop) && s in keep + drop
    ensures s in ordered[n..] && s.time >= ordered[n - 1].time
  {
    assert s in multiset(keep) || s in multiset(drop);
    assert s in multiset(ordered[n..]);
    var i :| 0 <= i < |ordered| - n && ordered[n..][i] == s;
    assert ordered[n + i] == s;
  }

  lemma ScanIsThinning(r: Retention, now: Time, timeline: seq<Snapshot>, ordered: seq<Snapshot>, seen: set<Bucket>,
                       keep: seq<Snapshot>, drop: seq<Snapshot>)
    requires multiset(ordered) == multiset(timeline) && Scanning(r, now, ordered, 0, seen, keep, drop)
    ensures Thins(r, now, timeline, Reversed(keep), Reversed(drop))
  {
    ReversedHolds(keep);
    ReversedHolds(drop);
    assert ordered[0..] == ordered;
    forall s ensures s in Reversed(keep) <==> s in keep {
      assert s in multiset(keep) <==> s in multiset(Reversed(keep));
    }
    forall s | s in timeline && BucketOf(r, s.time, now).Some? ensures Represented(r, now, Reversed(keep), s) {
      assert s in multiset(timeline) && s in multiset(ordered);
      assert Represented(r, now, keep, s);
      var k :| k in keep && BucketOf(r, k.time, now) == BucketOf(r, s.time, now) && k.time >= s.time;
      assert k in Reversed(keep);
    }
  }

  /** Retain */
  method Retain(r: Retention, timeline: seq<Snapshot>, now: Time) returns (keep: seq<Snapshot>, drop: seq<Snapshot>)
    ensures Thins(r, now, timeline, keep, drop)
    ensures FollowsSchedule(r, now, Elements(timeline), Elements(keep))
    ensures forall s | s in timeline && Beyond(r, now, s.time) :: s in drop && s !in keep
  {
    var ordered := SortByTime(timeline);
    var seen: set<Bucket> := {};
    keep, drop := [], [];
    var i := |ordered|;
    while i > 0
      invariant 0 <= i <= |ordered|
      invariant Scanning(r, now, ordered, i, seen, keep, drop)
    {
      var snapshot := ordered[i - 1];
      var bucket := BucketOf(r, snapshot.time, now);
      if bucket.None? || bucket.value in seen {
        ScanDrops(r, now, ordered, i, seen, keep, drop);
        drop := drop + [snapshot];
      } else {
        ScanKeeps(r, now, ordered, i, seen, keep, drop);
        seen := seen + {bucket.value};
        keep := keep + [snapshot];
      }
      i := i - 1;
    }
    ScanIsThinning(r, now, timeline, ordered, seen, keep, drop);
    keep := Flip(keep);
    drop := Flip(drop);
    ThinningFollows(r, now, timeline, keep, drop);
  }

  method Flip(s: seq<Snapshot>) returns (f: seq<Snapshot>)
    ensures f == Reversed(s) && multiset(f) == multiset(s)
  {
    var a := new Snapshot[|s|](i requires 0 <= i < |s| => s[i]);
    assert a[..] == s;
    Reverse(a);
    ReversedHolds(s);
    return a[..];
  }

  /** Thinning again at the same instant drops nothing. */
  lemma ThinningIsIdempotent(r: Retention, now: Time, timeline: seq<Snapshot>, keep: seq<Snapshot>, drop: seq<Snapshot>,
                             keep': seq<Snapshot>, drop': seq<Snapshot>)
    requires Thins(r, now, timeline, keep, drop) && Thins(r, now, keep, keep', drop')
    ensures drop' == [] && multiset(keep') == multiset(keep)
  {
    if drop' != [] {
      var x := drop'[0];
      assert x in multiset(drop') && x in multiset(keep);
      var i :| 0 <= i < |keep| && keep[i] == x;
      assert Represented(r, now, keep', x);
      var k :| k in keep' && BucketOf(r, k.time, now) == BucketOf(r, x.time, now) && k.time >= x.time;
      assert k in multiset(keep') && k in multiset(keep);
      var j :| 0 <= j < |keep| && keep[j] == k;
      NoDuplicates(keep, x);
      assert false;
    }
  }

  // ----- every sequence of runs ---------------------------------------------------------------

  /** What happens to a timeline: snapshots are added, and the schedule runs at whatever the clock says. */
  datatype Event = Add(s: Snapshot) | Expire(now: Time, deleted: set<Snapshot>)

  /** An Expire run may stop after any number of its deletions. */
  ghost predicate Step(r: Retention, before: set<Snapshot>, e: Event, after: set<Snapshot>) {
    match e
    case Add(s) => after == before + {s}
    case Expire(now, deleted) =>
      exists timeline, keep, drop ::
        && Lists(timeline, before) && Thins(r, now, timeline, keep, drop)
        && (forall s | s in deleted :: s in drop) && after == before - deleted
  }

  /** A timeline lists every snapshot ref once. */
  ghost predicate Lists(timeline: seq<Snapshot>, refs: set<Snapshot>) {
    && (forall s :: s in timeline <==> s in refs)
    && (forall i, j | 0 <= i < j < |timeline| :: timeline[i] != timeline[j])
  }

  /** Expire: the schedule decides, then the dropped refs are deleted one by one, up to the first failure. */
  method ExpireTimeline(r: Retention, timeline: seq<Snapshot>, refs: set<Snapshot>, now: Time)
    returns (ok: bool, left: set<Snapshot>, ghost deleted: set<Snapshot>)
    requires Lists(timeline, refs)
    ensures Step(r, refs, Expire(now, deleted), left)
    ensures ok ==> FollowsSchedule(r, now, refs, left)
  {
    var keep, drop := Retain(r, timeline, now);
    left, deleted := refs, {};
    for i := 0 to |drop|
      invariant left == refs - deleted && deleted == set s | s in drop[..i]
    {
      ok := *;
      if !ok {
        assert forall s | s in deleted :: s in drop;
        return;
      }
      assert drop[..i + 1] == drop[..i] + [drop[i]];
      left, deleted := left - {drop[i]}, deleted + {drop[i]};
    }
    assert drop[..|drop|] == drop;
    KeptIsOfTheTimeline(timeline, keep, drop);
    forall s | s in keep ensures s !in drop {
      KeptIsNotDropped(timeline, keep, drop, s);
    }
    assert left == Elements(keep) && refs == Elements(timeline);
    ok := true;
  }

  ghost predicate Run(r: Retention, states: seq<set<Snapshot>>, events: seq<Event>) {
    && |states| == |events| + 1 && states[0] == {}
    && forall i | 0 <= i < |events| :: Step(r, states[i], events[i], states[i + 1])
  }

  /** From event `from` on, no run of the schedule finds `s` older than `window`. */
  ghost predicate YoungerThan(events: seq<Event>, from: nat, s: Snapshot, window: Time) {
    forall i | from <= i < |events| && events[i].Expire? :: events[i].now - s.time <= window
  }

  ghost predicate Stands(state: set<Snapshot>, s: Snapshot, slot: Time -> int) {
    exists k :: k in state && slot(k.time) == slot(s.time) && k.time >= s.time
  }

  /** Snapshots of age up to `window` that share a bucket share a slot. */
  ghost predicate Refines(r: Retention, slot: Time -> int, window: Time) {
    forall now, a, b | now - a <= window && BucketOf(r, a, now).Some? && BucketOf(r, a, now) == BucketOf(r, b, now) ::
      slot(a) == slot(b)
  }

  lemma SameSecondSameHour(a: Time, b: Time)
    ensures a / SECOND == b / SECOND ==> HourOf(a) == HourOf(b)
    ensures HourOf(a) == HourOf(b) ==> DayOf(a) == DayOf(b)
    ensures DayOf(a) == DayOf(b) ==> WeekOf(a) == WeekOf(b)
  {
    assert a / HOUR == (a / SECOND) / 3600 && b / HOUR == (b / SECOND) / 3600;
    assert a / DAY == (a / HOUR) / 24 && b / DAY == (b / HOUR) / 24;
  }

  lemma BucketsRefineSlots(r: Retention)
    ensures Refines(r, HourOf, r.hourly) && Refines(r, DayOf, r.daily) && Refines(r, WeekOf, r.weekly)
  {
    forall now, a, b | BucketOf(r, a, now).Some? && BucketOf(r, a, now) == BucketOf(r, b, now)
      ensures now - a <= r.hourly ==> HourOf(a) == HourOf(b)
      ensures now - a <= r.daily ==> DayOf(a) == DayOf(b)
      ensures WeekOf(a) == WeekOf(b)
    {
      SameSecondSameHour(a, b);
    }
  }

  /** Whatever is this young is in some bucket. */
  predicate IsWindow(r: Retention, window: Time) {
    window <= r.hourly || window <= r.daily || window <= r.weekly
  }

  /** One step keeps a representative of `s`, as long as it does not find `s` too old. */
  lemma StepKeepsRepresentative(r: Retention, before: set<Snapshot>, e: Event, after: set<Snapshot>,
                                s: Snapshot, slot: Time -> int, window: Time)
    requires Step(r, before, e, after) && Stands(before, s, slot)
    requires Refines(r, slot, window) && IsWindow(r, window)
    requires e.Expire? ==> e.now - s.time <= window
    ensures Stands(after, s, slot)
  {
    var k: Snapshot :| k in before && slot(k.time) == slot(s.time) && k.time >= s.time;
    match e
    case Add(_) =>
      assert k in after;
    case Expire(now, deleted) =>
      var timeline, keep, drop :| Lists(timeline, before) && Thins(r, now, timeline, keep, drop)
        && (forall x | x in deleted :: x in drop) && after == before - deleted;
      assert BucketOf(r, k.time, now).Some? && k in timeline;
      assert Represented(r, now, keep, k);
      var k': Snapshot :| k' in keep && BucketOf(r, k'.time, now) == BucketOf(r, k.time, now) && k'.time >= k.time;
      KeptIsNotDropped(timeline, keep, drop, k');
      assert k' in after;
  }

  lemma KeptIsNotDropped(timeline: seq<Snapshot>, keep: seq<Snapshot>, drop: seq<Snapshot>, k: Snapshot)
    requires multiset(timeline) == multiset(keep) + multiset(drop) && k in keep
    requires forall i, j | 0 <= i < j < |timeline| :: timeline[i] != timeline[j]
    ensures k in timeline && k !in drop
  {
    NoDuplicates(timeline, k);
    assert k in multiset(keep);
    assert k in multiset(timeline);
  }

  lemma {:induction false} NoDuplicates(s: seq<Snapshot>, k: Snapshot)
    requires forall i, j | 0 <= i < j < |s| :: s[i] != s[j]
    ensures multiset(s)[k] <= 1
  {
    if s != [] {
      NoDuplicates(s[1..], k);
      assert s == [s[0]] + s[1..];
      assert s[0] !in s[1..];
    }
  }

  /** A snapshot taken at some point is represented at every later point, while it is young enough. */
  lemma {:induction false} RunKeepsRepresentative(r: Retention, states: seq<set<Snapshot>>, events: seq<Event>,
                                                  from: nat, to: nat, s: Snapshot, slot: Time -> int, window: Time)
    requires Run(r, states, events) && from <= to <= |events| && Stands(states[from], s, slot)
    requires Refines(r, slot, window) && IsWindow(r, window) && YoungerThan(events, from, s, window)
    ensures Stands(states[to], s, slot)
  {
    if from < to {
      RunKeepsRepresentative(r, states, events, from, to - 1, s, slot, window);
      StepKeepsRepresentative(r, states[to - 1], events[to - 1], states[to], s, slot, window);
    }
  }

  /**
   Over every sequence of snapshots and thinning runs at arbitrary clock values: of each hour a newest
   snapshot survives while it is within the hourly window, of each UTC day while within the daily one,
   of each ISO week while within the weekly one.
   */
  lemma NewestOfEachSlotSurvives(r: Retention, states: seq<set<Snapshot>>, events: seq<Event>, added: nat)
    requires Run(r, states, events) && added < |events| && events[added].Add?
    ensures var s, end := events[added].s, states[|events|];
      && (YoungerThan(events, added + 1, s, r.hourly) ==> Stands(end, s, HourOf))
      && (YoungerThan(events, added + 1, s, r.daily) ==> Stands(end, s, DayOf))
      && (YoungerThan(events, added + 1, s, r.weekly) ==> Stands(end, s, WeekOf))
  {
    var s, n := events[added].s, |events|;
    assert s in states[added + 1];
    BucketsRefineSlots(r);
    if YoungerThan(events, added + 1, s, r.hourly) {
      RunKeepsRepresentative(r, states, events, added + 1, n, s, HourOf, r.hourly);
    }
    if YoungerThan(events, added + 1, s, r.daily) {
      RunKeepsRepresentative(r, states, events, added + 1, n, s, DayOf, r.daily);
    }
    if YoungerThan(events, added + 1, s, r.weekly) {
      RunKeepsRepresentative(r, states, events, added + 1, n, s, WeekOf, r.weekly);
    }
  }
}
