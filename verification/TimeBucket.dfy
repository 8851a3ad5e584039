/**
 Time buckets on a UTC calendar. The code divides with truncation toward zero and corrects for
 negative differences; a timestamp is split into milliseconds, which the calendar holds, and
 microseconds, which are carried beside it.
 */
module TimeBucket {
  import opened Basics

  const MICROS_PER_MSEC: int := 1000
  const MSECS_PER_SEC: int := 1000
  const SECS_PER_MINUTE: int := 60
  const MINS_PER_HOUR: int := 60
  const MSECS_PER_HOUR: int := 3_600_000
  const MSECS_PER_DAY: int := 86_400_000
  const MAX_INT64: int := 0x7FFF_FFFF_FFFF_FFFF
  const MIN_INT64: int := -0x8000_0000_0000_0000
  const MAX_INT32: int := 0x7FFF_FFFF
  const MIN_INT32: int := -0x8000_0000

  predicate InInt32(x: int) { MIN_INT32 <= x <= MAX_INT32 }

  /** Division that truncates toward zero, and its remainder. */
  function DivT(a: int, b: int): int
    requires b > 0
  {
    if a >= 0 then a / b else -((-a) / b)
  }

  function ModT(a: int, b: int): int
    requires b > 0
  {
    if a >= 0 then a % b else -((-a) % b)
  }

  datatype Interval = Interval(months: int, days: int, micros: int)

  lemma Units()
    ensures MSECS_PER_DAY == 24 * MINS_PER_HOUR * SECS_PER_MINUTE * MSECS_PER_SEC
    ensures MSECS_PER_HOUR == MINS_PER_HOUR * SECS_PER_MINUTE * MSECS_PER_SEC
    ensures SECS_PER_MINUTE == MINS_PER_HOUR == 60 && MSECS_PER_SEC == MICROS_PER_MSEC == 1000
    ensures forall x :: InInt32(x) <==> -0x8000_0000 <= x < 0x8000_0000
    ensures forall x :: InInt64(x) <==> -0x8000_0000_0000_0000 <= x < 0x8000_0000_0000_0000
  {
  }

  /** Truncating toward zero: the quotient of the absolute value, with the sign. */
  lemma TruncatedIs(a: int, b: int)
    requires b > 0
    ensures a >= 0 ==> b * DivT(a, b) <= a < b * DivT(a, b) + b && ModT(a, b) == a - b * DivT(a, b)
    ensures a <= 0 ==> b * DivT(a, b) - b < a <= b * DivT(a, b) && ModT(a, b) == a - b * DivT(a, b)
  {
    TruncatedParts(a, b);
  }

  // ---------------------------------------------------------------- boundaries

  /** The greatest boundary, counted in widths from the origin, that is not after a timestamp. */
  function FloorBucket(ts: int, origin: int, width: int): int
    requires width > 0
  {
    origin + (ts - origin) / width * width
  }

  lemma FloorMultiple(x: int, w: int)
    requires w > 0
    ensures x / w * w <= x < x / w * w + w
  {
  }

  lemma QuotientIs(x: int, w: int, k: int)
    requires w > 0 && k * w <= x < k * w + w
    ensures x / w == k
  {
    FloorMultiple(x, w);
    var q := x / w;
    if q < k {
      MultipleOrder(q + 1, k, w);
    } else if q > k {
      MultipleOrder(k + 1, q, w);
    }
  }

  lemma MultipleOrder(i: int, j: int, w: int)
    requires w > 0 && i <= j
    ensures i * w <= j * w
  {
  }

  lemma GreatestBoundary(ts: int, origin: int, width: int, k: int)
    requires width > 0
    ensures
      var b := FloorBucket(ts, origin, width);
      && (b - origin) % width == 0 && b <= ts < b + width
      && (origin + k * width <= ts ==> origin + k * width <= b)
  {
    var x := ts - origin;
    FloorMultiple(x, width);
    MultipleHasNoRest(x / width, width);
    if k * width <= x {
      if k > x / width {
        MultipleOrder(x / width + 1, k, width);
      } else {
        MultipleOrder(k, x / width, width);
      }
    }
  }

  /** Bucketing a bucket changes nothing, and buckets keep the order of timestamps. */
  lemma BucketsAreStable(ts: int, later: int, origin: int, width: int)
    requires width > 0 && ts <= later
    ensures FloorBucket(FloorBucket(ts, origin, width), origin, width) == FloorBucket(ts, origin, width)
    ensures FloorBucket(ts, origin, width) <= FloorBucket(later, origin, width)
  {
    var k := (ts - origin) / width;
    QuotientIs(k * width, width, k);
    GreatestBoundary(ts, origin, width, k);
    GreatestBoundary(later, origin, width, k);
  }

  // ---------------------------------------------------------------- adding an interval

  /** Moving a time by months, which is the calendar's own business; no months leave it where it is. */
  type MonthMover = (int, int) -> int

  /** A calendar of UTC, in which all units but months have fixed lengths. */
  class Calendar {
    var millis: int
    const moveMonths: MonthMover

    constructor (moveMonths: MonthMover)
      ensures this.moveMonths == moveMonths
    {
      millis, this.moveMonths := 0, moveMonths;
    }

    ghost predicate Valid() {
      forall t: int :: moveMonths(t, 0) == t
    }

    method AddMonths(amount: int)
      requires InInt32(amount)
      modifies this
      ensures millis == moveMonths(old(millis), amount)
    {
      millis := moveMonths(millis, amount);
    }

    method SetTime(ts: int) returns (micros: int)
      modifies this
      ensures ts == MICROS_PER_MSEC * millis + micros && 0 <= micros < MICROS_PER_MSEC
    {
      var ms := DivT(ts, MICROS_PER_MSEC);
      micros := ModT(ts, MICROS_PER_MSEC);
      if micros < 0 {
        ms := ms - 1;
        micros := micros + MICROS_PER_MSEC;
      }
      millis := ms;
    }

    method Add(unit: int, amount: int)
      requires InInt32(amount)
      modifies this
      ensures millis == old(millis) + unit * amount
    {
      millis := millis + unit * amount;
    }

    /** Adds hours in pieces that fit into 32 bits. */
    method AddHours(hours: int)
      modifies this
      ensures millis == old(millis) + MSECS_PER_HOUR * hours
    {
      var intervalHour := hours;
      if intervalHour >= 0 {
        while intervalHour > 0
          invariant millis + MSECS_PER_HOUR * (if intervalHour > 0 then intervalHour else 0) ==
            old(millis) + MSECS_PER_HOUR * hours
        {
          Add(MSECS_PER_HOUR, if intervalHour > MAX_INT32 then MAX_INT32 else intervalHour);
          intervalHour := intervalHour - MAX_INT32;
        }
      } else {
        while intervalHour < 0
          invariant millis + MSECS_PER_HOUR * (if intervalHour < 0 then intervalHour else 0) ==
            old(millis) + MSECS_PER_HOUR * hours
          decreases -intervalHour
        {
          Add(MSECS_PER_HOUR, if intervalHour < MIN_INT32 then MIN_INT32 else intervalHour);
          intervalHour := intervalHour - MIN_INT32;
        }
      }
    }

    /** The number of whole days to a timestamp, truncated toward zero. */
    method SubtractDays(end: int) returns (days: int)
      ensures days == DivT(DivT(end, MICROS_PER_MSEC) - millis, MSECS_PER_DAY)
    {
      days := DivT(DivT(end, MICROS_PER_MSEC) - millis, MSECS_PER_DAY);
    }
  }

  lemma TruncatedParts(a: int, b: int)
    requires b > 0
    ensures a == b * DivT(a, b) + ModT(a, b) && -b < ModT(a, b) < b
    ensures (a >= 0 ==> 0 <= DivT(a, b) && 0 <= ModT(a, b)) && (a <= 0 ==> DivT(a, b) <= 0 && ModT(a, b) <= 0)
  {
  }

  /** The parts of an interval: milliseconds, seconds, minutes and hours. */
  function Split(micros: int): (int, int, int, int) {
    var h0 := DivT(micros, MICROS_PER_MSEC);
    var h1 := DivT(h0, MSECS_PER_SEC);
    var h2 := DivT(h1, SECS_PER_MINUTE);
    (ModT(h0, MSECS_PER_SEC), ModT(h1, SECS_PER_MINUTE), ModT(h2, MINS_PER_HOUR), DivT(h2, MINS_PER_HOUR))
  }

  lemma SplitAddsUp(micros: int)
    ensures
      var (ms, s, m, h) := Split(micros);
      && ms + 1000 * s + 60_000 * m + MSECS_PER_HOUR * h == DivT(micros, MICROS_PER_MSEC)
      && -1000 < ms < 1000 && -60 < s < 60 && -60 < m < 60
  {
    var h0 := DivT(micros, MICROS_PER_MSEC);
    var h1 := DivT(h0, MSECS_PER_SEC);
    var h2 := DivT(h1, SECS_PER_MINUTE);
    TruncatedParts(h0, MSECS_PER_SEC);
    TruncatedParts(h1, SECS_PER_MINUTE);
    TruncatedParts(h2, MINS_PER_HOUR);
  }

  predicate HasNegative(interval: Interval) {
    interval.months < 0 || interval.days < 0 || interval.micros < 0
  }

  /**
   The sum of a time in milliseconds and an interval without its part below a millisecond: months are
   added first, and last if some part of the interval is negative, before the days.
   */
  function Moved(moveMonths: MonthMover, start: int, interval: Interval): int {
    var msecs := DivT(interval.micros, MICROS_PER_MSEC);
    if HasNegative(interval) then moveMonths(start + msecs, interval.months) + interval.days * MSECS_PER_DAY
    else moveMonths(start, interval.months) + interval.days * MSECS_PER_DAY + msecs
  }

  /** The milliseconds that the calendar starts from, and the microseconds carried beside it. */
  function Carried(ts: int, intervalMicros: int): (int, int) {
    var millis, micros := DivT(ts, MICROS_PER_MSEC), ModT(ts, MICROS_PER_MSEC) + ModT(intervalMicros, MICROS_PER_MSEC);
    if micros >= MICROS_PER_MSEC then (millis + 1, micros - MICROS_PER_MSEC)
    else if micros < 0 then (millis - 1, micros + MICROS_PER_MSEC)
    else (millis, micros)
  }

  lemma CarriedAddsUp(ts: int, intervalMicros: int)
    ensures
      var (start, micros) := Carried(ts, intervalMicros);
      && MICROS_PER_MSEC * start + micros == ts + ModT(intervalMicros, MICROS_PER_MSEC)
      && -MICROS_PER_MSEC < micros < MICROS_PER_MSEC
  {
    hide DivT, ModT;
    TruncatedParts(ts, MICROS_PER_MSEC);
    TruncatedParts(intervalMicros, MICROS_PER_MSEC);
  }

  /**
   Adding an interval. Below a millisecond the parts are added beside the calendar, where they may
   stay negative; the rest is split into units. The sum is exact, months as the calendar moves them.
   */
  method AddInterval(calendar: Calendar, ts: int, interval: Interval) returns (r: int)
    requires calendar.Valid() && InInt32(interval.months) && InInt32(interval.days)
    modifies calendar
    ensures interval.months == 0 ==> r == ts + interval.days * 86_400_000_000 + interval.micros
    ensures
      var (start, micros) := Carried(ts, interval.micros);
      r == MICROS_PER_MSEC * Moved(calendar.moveMonths, start, interval) + micros
  {
    hide DivT, ModT;
    CarriedAddsUp(ts, interval.micros);
    var millis := DivT(ts, MICROS_PER_MSEC);
    var micros := ModT(ts, MICROS_PER_MSEC);
    TruncatedParts(interval.micros, MICROS_PER_MSEC);
    micros := micros + ModT(interval.micros, MICROS_PER_MSEC);
    if micros >= MICROS_PER_MSEC {
      micros := micros - MICROS_PER_MSEC;
      millis := millis + 1;
    } else if micros < 0 {
      micros := micros + MICROS_PER_MSEC;
      millis := millis - 1;
    }
    calendar.millis := millis;
    AddParts(calendar, interval);
    r := calendar.millis * MICROS_PER_MSEC + micros;
  }

  /** Where the calendar starts; what is beside it is negative only if both parts exceed a millisecond together. */
  lemma CarriedIs(ts: int, intervalMicros: int)
    ensures
      var (start, micros) := Carried(ts, intervalMicros);
      && 1000 * start + micros == ts + ModT(intervalMicros, 1000) && -1000 < micros < 1000
      && (micros < 0 <==> ts < 0 && intervalMicros < 0 && (-ts) % 1000 + (-intervalMicros) % 1000 > 1000)
  {
  }

  /** The order of the parts: months before all others, or behind the smaller units if a part is negative. */
  lemma MovedIs(moveMonths: MonthMover, start: int, months: int, days: int, micros: int)
    ensures months >= 0 && days >= 0 && micros >= 0 ==>
      Moved(moveMonths, start, Interval(months, days, micros)) ==
        moveMonths(start, months) + days * 86_400_000 + micros / 1000
    ensures months < 0 || days < 0 || micros < 0 ==>
      Moved(moveMonths, start, Interval(months, days, micros)) ==
        moveMonths(start + DivT(micros, 1000), months) + days * 86_400_000
  {
  }

  /** Adds the units of an interval to a calendar, from the lowest to the highest or the other way round. */
  method AddParts(calendar: Calendar, interval: Interval)
    requires calendar.Valid() && InInt32(interval.months) && InInt32(interval.days)
    modifies calendar
    ensures calendar.millis == Moved(calendar.moveMonths, old(calendar.millis), interval)
    ensures interval.months == 0 ==>
      calendar.millis == old(calendar.millis) + interval.days * MSECS_PER_DAY + DivT(interval.micros, MICROS_PER_MSEC)
  {
    hide DivT, Split;
    var (ms, s, m, h) := Split(interval.micros);
    SplitAddsUp(interval.micros);
    if HasNegative(interval) {
      calendar.Add(1, ms);
      calendar.Add(1000, s);
      calendar.Add(60_000, m);
      calendar.AddHours(h);
      calendar.AddMonths(interval.months);
      calendar.Add(MSECS_PER_DAY, interval.days);
    } else {
      calendar.AddMonths(interval.months);
      calendar.Add(MSECS_PER_DAY, interval.days);
      calendar.AddHours(h);
      calendar.Add(60_000, m);
      calendar.Add(1000, s);
      calendar.Add(1, ms);
    }
  }

  // ---------------------------------------------------------------- widths in microseconds

  predicate InInt64(x: int) { MIN_INT64 <= x <= MAX_INT64 }

  function Multiple(q: int, w: int): int { q * w }

  /** The result of truncating division, corrected for negative differences, is a floor. */
  lemma TruncationCorrected(x: int, w: int)
    requires w > 0
    ensures Multiple(x / w, w) == Multiple(DivT(x, w), w) - if x < 0 && ModT(x, w) != 0 then w else 0
    ensures x >= 0 ==> 0 <= Multiple(DivT(x, w), w) <= x
    ensures x < 0 ==> x <= Multiple(DivT(x, w), w) <= 0
  {
    TruncatedParts(x, w);
    var q := DivT(x, w);
    assert w * q == Multiple(q, w);
    if x < 0 && ModT(x, w) != 0 {
      assert (q - 1) * w == q * w - w;
      QuotientIs(x, w, q - 1);
    } else {
      QuotientIs(x, w, q);
    }
  }

  /** No result if a difference does not fit into 64 bits. */
  method WidthConvertibleToMicros(width: int, ts: int, origin: int, calendar: Calendar) returns (r: Option<int>)
    requires width > 0 && calendar.Valid()
    modifies calendar
    ensures r.Some? ==> r.value == FloorBucket(ts, origin, width)
    ensures r.None? <==> !InInt64(ts - origin) || !InInt64(FloorBucket(ts, origin, width) - origin)
  {
    hide DivT, ModT, Multiple;
    var tsMicros := ts - origin;
    TruncationCorrected(tsMicros, width);
    FloorIs(ts, origin, width);
    if !InInt64(tsMicros) {
      return None;
    }
    var resultMicros := Multiple(DivT(tsMicros, width), width);
    if tsMicros < 0 && ModT(tsMicros, width) != 0 {
      if !InInt64(resultMicros - width) {
        return None;
      }
      resultMicros := resultMicros - width;
    }
    var bucket := AddInterval(calendar, origin, Interval(0, 0, resultMicros));
    r := Some(bucket);
  }

  lemma FloorIs(ts: int, origin: int, width: int)
    requires width > 0
    ensures FloorBucket(ts, origin, width) == origin + Multiple((ts - origin) / width, width)
  {
  }

  // ---------------------------------------------------------------- widths in days

  lemma TruncatedNegative(y: int, w: int)
    requires y >= 0 && w > 0
    ensures DivT(-y, w) == -(y / w) && DivT(y, w) == y / w && y / w >= 0
  {
  }

  lemma NestedTruncation(x: int, d: int, w: int)
    requires d > 0 && w > 0
    ensures d * w > 0 && DivT(DivT(x, d), w) == DivT(x, d * w)
  {
    hide DivT;
    var y := if x >= 0 then x else -x;
    NestedFloor(y, d, w);
    TruncatedNegative(y, d);
    TruncatedNegative(y / d, w);
    TruncatedNegative(y, d * w);
  }

  lemma NestedFloor(x: int, d: int, w: int)
    requires d > 0 && w > 0
    ensures d * w > 0 && x / d / w == x / (d * w)
  {
    var q := x / d / w;
    FloorMultiple(x, d);
    FloorMultiple(x / d, w);
    MultipleOrder(q * w, x / d, d);
    MultipleOrder(x / d + 1, q * w + w, d);
    assert d * w > 0 by {
      MultipleOrder(1, w, d);
    }
    assert q * w * d == q * (d * w) && (q * w + w) * d == q * (d * w) + d * w;
    QuotientIs(x, d * w, q);
  }

  /** Whole milliseconds before a timestamp, and the microseconds behind them. */
  function Msecs(ts: int): int { ts / MICROS_PER_MSEC }

  function Micros(ts: int): int { ts % MICROS_PER_MSEC }

  /** What the day form computes, with days counted in widths of w milliseconds. */
  function DayBucket(w: int, ts: int, origin: int): int
    requires w > 0
  {
    var bucket := origin + DivT(DivT(ts, MICROS_PER_MSEC) - Msecs(origin), w) * w * MICROS_PER_MSEC;
    if ts < bucket then bucket - w * MICROS_PER_MSEC else bucket
  }

  /**
   The cases in which the day form fails: before the epoch and before the origin, when the timestamp
   and the origin are whole widths apart up to the microseconds behind their milliseconds.
   */
  predicate Straddles(w: int, ts: int, origin: int)
    requires w > 0
  {
    ts < 0 && 0 < Micros(ts) < Micros(origin) && Msecs(ts) < Msecs(origin) && (Msecs(origin) - Msecs(ts)) % w == 0
  }

  lemma AfterOrigin(w: int, ts: int, origin: int, x: int, k: int)
    requires w > 1 && x == DivT(ts, MICROS_PER_MSEC) - Msecs(origin) && x >= 0
    requires k * w <= x < k * w + w
    ensures
      var c := origin + k * w * MICROS_PER_MSEC;
      && c - w * MICROS_PER_MSEC <= ts < c + w * MICROS_PER_MSEC
      && DivT(x, w) == k
  {
    QuotientIs(x, w, k);
    TruncatedParts(ts, MICROS_PER_MSEC);
  }

  lemma BeforeOrigin(w: int, ts: int, origin: int, x: int, k: int)
    requires w > 1 && x == DivT(ts, MICROS_PER_MSEC) - Msecs(origin) && x < 0
    requires k * w <= -x < k * w + w
    ensures
      var c := origin - k * w * MICROS_PER_MSEC;
      && ts < c + w * MICROS_PER_MSEC
      && (c - w * MICROS_PER_MSEC <= ts <==> !Straddles(w, ts, origin))
      && c - w * MICROS_PER_MSEC - w * MICROS_PER_MSEC <= ts
      && DivT(x, w) == -k
  {
    QuotientIs(-x, w, k);
    TruncatedParts(ts, MICROS_PER_MSEC);
    var gap := Msecs(origin) - Msecs(ts);
    if ts < 0 && ModT(ts, MICROS_PER_MSEC) != 0 {
      assert gap == -x + 1;
      if gap == k * w + w {
        assert gap == (k + 1) * w;
        MultipleHasNoRest(k + 1, w);
      } else {
        RestOf(gap, w, k);
      }
    }
  }

  lemma MultipleHasNoRest(k: int, w: int)
    requires w > 0
    ensures (k * w) % w == 0
  {
    QuotientIs(k * w, w, k);
  }

  lemma RestOf(x: int, w: int, k: int)
    requires w > 0 && k * w < x < k * w + w
    ensures x % w == x - k * w != 0
  {
    QuotientIs(x, w, k);
  }

  /** The day form gives the greatest boundary not after the timestamp, except in the straddling cases. */
  lemma DayBucketExactly(w: int, ts: int, origin: int)
    requires w > 1
    ensures w * MICROS_PER_MSEC > 0
    ensures DayBucket(w, ts, origin) == FloorBucket(ts, origin, w * MICROS_PER_MSEC) <==> !Straddles(w, ts, origin)
    ensures Straddles(w, ts, origin) ==> DayBucket(w, ts, origin) > ts
    ensures Straddles(w, ts, origin) ==>
      DayBucket(w, ts, origin) == FloorBucket(ts, origin, w * MICROS_PER_MSEC) + w * MICROS_PER_MSEC
  {
    hide Straddles, DayBucket, FloorBucket, DivT;
    if DivT(ts, MICROS_PER_MSEC) >= Msecs(origin) {
      DaysAfter(w, ts, origin);
    } else {
      DaysBefore(w, ts, origin);
    }
  }

  lemma DaysAfter(w: int, ts: int, origin: int)
    requires w > 1 && DivT(ts, MICROS_PER_MSEC) >= Msecs(origin)
    ensures w * MICROS_PER_MSEC > 0 && !Straddles(w, ts, origin)
    ensures DayBucket(w, ts, origin) == FloorBucket(ts, origin, w * MICROS_PER_MSEC)
  {
    hide Straddles, DayBucket, FloorBucket, DivT;
    var x := DivT(ts, MICROS_PER_MSEC) - Msecs(origin);
    FloorMultiple(x, w);
    AfterOrigin(w, ts, origin, x, x / w);
    NoStraddle(w, ts, origin);
    BucketBetween(w, ts, origin, x / w);
  }

  lemma DaysBefore(w: int, ts: int, origin: int)
    requires w > 1 && DivT(ts, MICROS_PER_MSEC) < Msecs(origin)
    ensures w * MICROS_PER_MSEC > 0
    ensures DayBucket(w, ts, origin) == FloorBucket(ts, origin, w * MICROS_PER_MSEC) <==> !Straddles(w, ts, origin)
    ensures Straddles(w, ts, origin) ==> DayBucket(w, ts, origin) > ts
    ensures Straddles(w, ts, origin) ==>
      DayBucket(w, ts, origin) == FloorBucket(ts, origin, w * MICROS_PER_MSEC) + w * MICROS_PER_MSEC
  {
    hide Straddles, DayBucket, FloorBucket, DivT;
    var x := DivT(ts, MICROS_PER_MSEC) - Msecs(origin);
    var k := -x / w;
    FloorMultiple(-x, w);
    BeforeOrigin(w, ts, origin, x, k);
    Negated(k, w);
    BucketBetween(w, ts, origin, -k);
  }

  lemma Negated(k: int, w: int)
    ensures -k * w * MICROS_PER_MSEC == -(k * w * MICROS_PER_MSEC)
  {
  }

  lemma NoStraddle(w: int, ts: int, origin: int)
    requires w > 1 && DivT(ts, MICROS_PER_MSEC) >= Msecs(origin)
    ensures !Straddles(w, ts, origin)
  {
    TruncatedParts(ts, MICROS_PER_MSEC);
    if Msecs(ts) < Msecs(origin) {
      assert Msecs(origin) - Msecs(ts) == 1;
    }
  }

  /** One of the two candidates is the floor as soon as the timestamp lies between them and the next one. */
  lemma BucketBetween(w: int, ts: int, origin: int, k: int)
    requires w > 1 && DivT(DivT(ts, MICROS_PER_MSEC) - Msecs(origin), w) == k
    requires ts < origin + k * w * MICROS_PER_MSEC + w * MICROS_PER_MSEC
    requires origin + k * w * MICROS_PER_MSEC - w * MICROS_PER_MSEC - w * MICROS_PER_MSEC <= ts
    ensures w * MICROS_PER_MSEC > 0
    ensures DayBucket(w, ts, origin) > ts ==>
      DayBucket(w, ts, origin) == FloorBucket(ts, origin, w * MICROS_PER_MSEC) + w * MICROS_PER_MSEC
    ensures DayBucket(w, ts, origin) == FloorBucket(ts, origin, w * MICROS_PER_MSEC)
            <==> origin + k * w * MICROS_PER_MSEC - w * MICROS_PER_MSEC <= ts
    ensures DayBucket(w, ts, origin) > ts <==> origin + k * w * MICROS_PER_MSEC - w * MICROS_PER_MSEC > ts
  {
    hide DivT, FloorBucket;
    var width := w * MICROS_PER_MSEC;
    assert k * w * MICROS_PER_MSEC == k * width;
    FloorBetween(ts, origin, width, k, k * width);
  }

  lemma FloorBetween(ts: int, origin: int, width: int, k: int, offset: int)
    requires width > 0 && offset == k * width && origin + offset - width - width <= ts < origin + offset + width
    ensures
      var bucket := if ts < origin + offset then origin + offset - width else origin + offset;
      && (bucket == FloorBucket(ts, origin, width) <==> origin + offset - width <= ts)
      && (bucket > ts <==> origin + offset - width > ts)
      && (bucket > ts ==> bucket == FloorBucket(ts, origin, width) + width)
  {
    var x := ts - origin;
    FloorMultiple(x, width);
    if x >= offset {
      QuotientIs(x, width, k);
    } else if x >= offset - width {
      assert (k - 1) * width == offset - width;
      QuotientIs(x, width, k - 1);
    } else {
      assert (k - 2) * width == offset - width - width;
      QuotientIs(x, width, k - 2);
    }
  }

  /** For an origin at a whole millisecond the day form is right for every timestamp. */
  lemma WholeMillisecondOrigin(w: int, ts: int, origin: int)
    requires w > 1 && origin % MICROS_PER_MSEC == 0
    ensures w * MICROS_PER_MSEC > 0 && DayBucket(w, ts, origin) == FloorBucket(ts, origin, w * MICROS_PER_MSEC)
  {
    DayBucketExactly(w, ts, origin);
  }

  /** An origin half a millisecond after the epoch: a timestamp just below a boundary lands above itself. */
  lemma StraddlingExample()
    ensures DayBucket(MSECS_PER_DAY, -86_399_999_600, 500) == -86_399_999_500
  {
  }

  lemma DayProducts(k: int, width: int)
    ensures k * width * MSECS_PER_DAY * MICROS_PER_MSEC == k * (MSECS_PER_DAY * width) * MICROS_PER_MSEC
    ensures -width * MSECS_PER_DAY * MICROS_PER_MSEC == -(MSECS_PER_DAY * width * MICROS_PER_MSEC)
  {
    assert k * width * MSECS_PER_DAY == k * (MSECS_PER_DAY * width);
  }

  lemma DayBucketIs(w: int, ts: int, origin: int, k: int)
    requires w > 0 && DivT(DivT(ts, MICROS_PER_MSEC) - Msecs(origin), w) == k
    ensures DayBucket(w, ts, origin) ==
      if ts < origin + k * w * MICROS_PER_MSEC then origin + k * w * MICROS_PER_MSEC - w * MICROS_PER_MSEC
      else origin + k * w * MICROS_PER_MSEC
  {
    hide DivT;
  }

  /** No result if the number of days does not fit into 32 bits. */
  method WidthConvertibleToDays(width: int, ts: int, origin: int, calendar: Calendar) returns (r: Option<int>)
    requires 0 < width <= MAX_INT32 && calendar.Valid()
    modifies calendar
    ensures
      var w := MSECS_PER_DAY * width;
      && w * MICROS_PER_MSEC > 0
      && (r.Some? ==> r.value == DayBucket(w, ts, origin))
      && (r.Some? ==> (r.value == FloorBucket(ts, origin, w * MICROS_PER_MSEC) <==> !Straddles(w, ts, origin)))
      && (r.Some? && Straddles(w, ts, origin) ==>
            r.value == FloorBucket(ts, origin, w * MICROS_PER_MSEC) + w * MICROS_PER_MSEC)
    ensures
      var days := DivT(DivT(ts, MICROS_PER_MSEC) - Msecs(origin), MSECS_PER_DAY);
      r.None? <==> !InInt32(Multiple(DivT(days, width), width))
  {
    hide DivT, ModT, DayBucket, FloorBucket, Straddles;
    DayBucketExactly(MSECS_PER_DAY * width, ts, origin);
    var _ := calendar.SetTime(origin);
    assert calendar.millis == Msecs(origin);
    var tsDays := calendar.SubtractDays(ts);
    ghost var w := MSECS_PER_DAY * width;
    NestedTruncation(DivT(ts, MICROS_PER_MSEC) - Msecs(origin), MSECS_PER_DAY, width);
    ghost var k := DivT(tsDays, width);
    var resultDays := Multiple(DivT(tsDays, width), width);
    if !InInt32(resultDays) {
      return None;
    }
    DayProducts(k, width);
    DayBucketIs(w, ts, origin, k);
    var bucket := AddInterval(calendar, origin, Interval(0, resultDays, 0));
    assert bucket == origin + k * w * MICROS_PER_MSEC;
    if ts < bucket {
      bucket := AddInterval(calendar, bucket, Interval(0, -width, 0));
    }
    r := Some(bucket);
  }

  // ---------------------------------------------------------------- widths in months

  /** Where months start, in milliseconds, and the month of a time. */
  datatype Months = Months(start: int -> int, of: int -> int) {
    ghost predicate Good() {
      && (forall m: int, n: int :: m < n ==> start(m) < start(n))
      && (forall t: int :: start(of(t)) <= t < start(of(t) + 1))
    }

    /** The calendar moves the start of a month to the start of a month. */
    ghost predicate MovedBy(moveMonths: MonthMover) {
      forall m: int, n: int :: moveMonths(start(m), n) == start(m + n)
    }

    lemma MonthOf(t: int, m: int)
      requires Good() && start(m) <= t < start(m + 1)
      ensures of(t) == m
    {
      Ordered(of(t) + 1, m);
      Ordered(m + 1, of(t));
    }

    lemma Ordered(m: int, n: int)
      requires Good()
      ensures m <= n ==> start(m) <= start(n)
    {
    }
  }

  function MonthBucket(months: Months, width: int, ts: int, origin: int): int
    requires width > 0
  {
    months.start(FloorBucket(months.of(Msecs(ts)), months.of(Msecs(origin)), width)) * MICROS_PER_MSEC
  }

  /**
   The bucket is the greatest boundary, in months counted from the month of the origin, that is not
   after the timestamp.
   */
  lemma MonthBucketIsGreatest(months: Months, width: int, ts: int, origin: int, k: int)
    requires width > 0 && months.Good()
    ensures
      var bucket := MonthBucket(months, width, ts, origin);
      var boundary := months.start(months.of(Msecs(origin)) + k * width) * MICROS_PER_MSEC;
      && (exists j :: bucket == months.start(months.of(Msecs(origin)) + Multiple(j, width)) * MICROS_PER_MSEC)
      && bucket <= ts && (boundary <= ts ==> boundary <= bucket)
  {
    var m, o := months.of(Msecs(ts)), months.of(Msecs(origin));
    GreatestBoundary(m, o, width, k);
    var b := FloorBucket(m, o, width);
    assert b == o + Multiple((m - o) / width, width);
    assert b < m ==> months.start(b) < months.start(m);
    var j := o + k * width;
    if months.start(j) * MICROS_PER_MSEC <= ts {
      assert months.start(j) <= Msecs(ts);
      months.Ordered(m + 1, j);
      assert j <= m;
      assert j < b ==> months.start(j) < months.start(b);
    }
  }

  lemma MonthBucketsAreStable(months: Months, width: int, ts: int, later: int, origin: int)
    requires width > 0 && months.Good() && ts <= later
    ensures MonthBucket(months, width, MonthBucket(months, width, ts, origin), origin) ==
      MonthBucket(months, width, ts, origin)
    ensures MonthBucket(months, width, ts, origin) <= MonthBucket(months, width, later, origin)
  {
    var m, n, o := months.of(Msecs(ts)), months.of(Msecs(later)), months.of(Msecs(origin));
    var b := FloorBucket(m, o, width);
    assert months.start(b) < months.start(b + 1);
    months.MonthOf(months.start(b), b);
    assert Msecs(months.start(b) * MICROS_PER_MSEC) == months.start(b);
    months.Ordered(n + 1, m);
    assert m <= n;
    BucketsAreStable(m, n, o, width);
    var c := FloorBucket(n, o, width);
    assert b < c ==> months.start(b) < months.start(c);
  }

  /** No result if a number of months does not fit into 32 bits. */
  method WidthConvertibleToMonths(months: Months, width: int, ts: int, origin: int, calendar: Calendar)
    returns (r: Option<int>)
    requires months.Good() && months.MovedBy(calendar.moveMonths) && calendar.Valid() && 0 < width <= MAX_INT32
    modifies calendar
    ensures r.Some? ==> r.value == MonthBucket(months, width, ts, origin)
    ensures r.None? <==>
      var d := months.of(Msecs(ts)) - months.of(Msecs(origin));
      !InInt32(d) || !InInt32(Multiple(d / width, width))
  {
    hide DivT, ModT, Multiple, Moved, Carried;
    var _ := calendar.SetTime(ts);
    assert calendar.millis == Msecs(ts);
    TruncateMonth(calendar, months);
    ghost var m := months.of(Msecs(ts));
    var truncatedTs := calendar.millis;
    var _ := calendar.SetTime(origin);
    assert calendar.millis == Msecs(origin);
    TruncateMonth(calendar, months);
    ghost var o := months.of(Msecs(origin));
    var truncatedOrigin := calendar.millis;
    var tsMonths := SubtractMonths(calendar, months, truncatedTs, m, o);
    TruncationCorrected(tsMonths, width);
    FloorIs(m, o, width);
    if !InInt32(tsMonths) {
      return None;
    }
    var resultMonths := Multiple(DivT(tsMonths, width), width);
    if tsMonths < 0 && ModT(tsMonths, width) != 0 {
      if !InInt32(resultMonths - width) {
        return None;
      }
      resultMonths := resultMonths - width;
    }
    MonthsAdded(months, calendar.moveMonths, o, resultMonths);
    var bucket := AddInterval(calendar, truncatedOrigin * MICROS_PER_MSEC, Interval(resultMonths, 0, 0));
    r := Some(bucket);
  }

  method TruncateMonth(calendar: Calendar, months: Months)
    modifies calendar
    ensures calendar.millis == months.start(months.of(old(calendar.millis)))
  {
    calendar.millis := months.start(months.of(calendar.millis));
  }

  /** The number of months between two starts of months. */
  method SubtractMonths(calendar: Calendar, months: Months, end: int, ghost m: int, ghost o: int) returns (n: int)
    requires months.Good() && calendar.millis == months.start(o) && end == months.start(m)
    ensures n == m - o
  {
    assert months.start(m) < months.start(m + 1) && months.start(o) < months.start(o + 1);
    months.MonthOf(end, m);
    months.MonthOf(calendar.millis, o);
    n := months.of(end) - months.of(calendar.millis);
  }

  /** Adding months to the start of a month gives the start of a month. */
  lemma MonthsAdded(months: Months, moveMonths: MonthMover, o: int, n: int)
    requires months.MovedBy(moveMonths)
    ensures
      var (start, micros) := Carried(months.start(o) * MICROS_PER_MSEC, 0);
      MICROS_PER_MSEC * Moved(moveMonths, start, Interval(n, 0, 0)) + micros == months.start(o + n) * MICROS_PER_MSEC
  {
    WholeMillis(months.start(o));
    assert Moved(moveMonths, months.start(o), Interval(n, 0, 0)) == moveMonths(months.start(o), n);
  }

  lemma WholeMillis(t: int)
    ensures Carried(t * MICROS_PER_MSEC, 0) == (t, 0)
  {
  }

  // ---------------------------------------------------------------- which form is used

  datatype WidthType = ToMicros | ToDays | ToMonths | Unclassified | Refused

  function ClassifyBucketWidth(width: Interval): WidthType {
    if width.months == 0 && width.days == 0 && width.micros > 0 then ToMicros
    else if width.months == 0 && width.days >= 0 && width.micros == 0 then ToDays
    else if width.months > 0 && width.days == 0 && width.micros == 0 then ToMonths
    else Unclassified
  }

  function ClassifyOrThrow(width: Interval): WidthType {
    if width.months == 0 && width.days == 0 then (if width.micros <= 0 then Refused else ToMicros)
    else if width.months == 0 && width.micros == 0 then (if width.days <= 0 then Refused else ToDays)
    else if width.days == 0 && width.micros == 0 then (if width.months <= 0 then Refused else ToMonths)
    else Refused
  }

  /** A constant width is classified exactly if one part alone is not zero, and positive; none counts as days. */
  lemma ClassifiedExactly(width: Interval)
    ensures ClassifyBucketWidth(width) == ToMicros <==> width.micros > 0 && width == Interval(0, 0, width.micros)
    ensures ClassifyBucketWidth(width) == ToDays <==> width.days >= 0 && width == Interval(0, width.days, 0)
    ensures ClassifyBucketWidth(width) == ToMonths <==> width.months > 0 && width == Interval(width.months, 0, 0)
    ensures ClassifyBucketWidth(width) != Refused
  {
  }

  /** The classification of a constant width and that of a varying one agree, but for the empty interval. */
  lemma ClassificationsAgree(width: Interval)
    ensures ClassifyBucketWidth(width) != Unclassified <==>
      ClassifyOrThrow(width) != Refused || width == Interval(0, 0, 0)
    ensures ClassifyOrThrow(width) != Refused ==> ClassifyBucketWidth(width) == ClassifyOrThrow(width)
  {
  }
}
