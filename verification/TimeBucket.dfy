/** Adding microseconds to a timestamp through a calendar that counts milliseconds, and cutting time into buckets of
    equal width that way. */
module TimeBucket {
  const INT64_MIN: int := -0x8000_0000_0000_0000
  const INT64_MAX: int := 0x7FFF_FFFF_FFFF_FFFF
  const INT32_MIN: int := -0x8000_0000
  const INT32_MAX: int := 0x7FFF_FFFF

  const MICROS_PER_MSEC: int := 1000
  const MICROS_PER_DAY: int := 86_400_000_000
  const MSECS_PER_SEC: int := 1000
  const SECS_PER_MINUTE: int := 60
  const MINS_PER_HOUR: int := 60
  const MSECS_PER_HOUR: int := 3_600_000

  predicate IsInt64(x: int) {
    INT64_MIN <= x <= INT64_MAX
  }

  type int64 = x: int | INT64_MIN <= x <= INT64_MAX witness 0

  /** Division and remainder that truncate towards zero. */
  function Quotient(x: int, y: int): (q: int)
    requires y > 0
    ensures x == q * y + Remainder(x, y)
    ensures (x >= 0 ==> q >= 0) && (x <= 0 ==> q <= 0)
  {
    if x >= 0 then x / y else -(-x / y)
  }

  function Remainder(x: int, y: int): (r: int)
    requires y > 0
    ensures -y < r < y && (x >= 0 ==> r >= 0) && (x <= 0 ==> r <= 0)
  {
    if x >= 0 then x % y else -(-x % y)
  }

  /** An unsigned 64-bit integer keeps what a signed one held. */
  function ToUnsigned(x: int64): (u: nat)
    ensures ToSigned(u) == x
  {
    if x >= 0 then x else x + 0x1_0000_0000_0000_0000
  }

  function ToSigned(u: nat): int {
    if u <= INT64_MAX then u else u - 0x1_0000_0000_0000_0000
  }

  /** The two values that stand for infinity. */
  predicate IsFinite(ts: int) {
    ts != INT64_MAX && ts != -INT64_MAX
  }

  /** The day of a timestamp, rounded down, or what stands for the infinite days. */
  function DateOf(ts: int64): int {
    if ts == INT64_MAX then INT32_MAX
    else if ts == -INT64_MAX then -INT32_MAX
    else if ts < 0 then Quotient(ts + 1, MICROS_PER_DAY) - 1
    else Quotient(ts, MICROS_PER_DAY)
  }

  /** The first microsecond of its day can be held. */
  predicate DayFits(ts: int64) {
    IsInt64(DateOf(ts) * MICROS_PER_DAY)
  }

  /** The timestamps that the calendar functions can give. */
  predicate InRange(ts: int) {
    -106_751_991 * MICROS_PER_DAY <= ts < INT64_MAX
  }

  lemma DayFitsInRange(ts: int64)
    ensures DayFits(ts) <==> InRange(ts)
  {
  }

  datatype Result = Ok(value: int64) | Null | OutOfRange | NotPositive

  // ---------- the calendar ----------

  /** A calendar as a counter of milliseconds. */
  class Calendar {
    var millis: int

    constructor ()
    {
      millis := 0;
    }

    method SetTime(ms: int)
      modifies this
      ensures millis == ms
    {
      millis := ms;
    }

    /** Add a 32-bit number of units. */
    method Add(unit: nat, amount: int)
      requires INT32_MIN <= amount <= INT32_MAX
      modifies this
      ensures millis == old(millis) + amount * unit
    {
      millis := millis + amount * unit;
    }
  }

  /** Hours may be more than fit into 32 bits, and are added in parts. */
  method CalendarAddHour(calendar: Calendar, hours: int64)
    modifies calendar
    ensures calendar.millis == old(calendar.millis) + hours * MSECS_PER_HOUR
  {
    var left := hours;
    if left >= 0 {
      while left > 0
        invariant calendar.millis + (if left > 0 then left else 0) * MSECS_PER_HOUR
                  == old(calendar.millis) + hours * MSECS_PER_HOUR
      {
        calendar.Add(MSECS_PER_HOUR, if left > INT32_MAX then INT32_MAX else left);
        left := left - INT32_MAX;
      }
    } else {
      while left < 0
        invariant calendar.millis + (if left < 0 then left else 0) * MSECS_PER_HOUR
                  == old(calendar.millis) + hours * MSECS_PER_HOUR
      {
        calendar.Add(MSECS_PER_HOUR, if left < INT32_MIN then INT32_MIN else left);
        left := left - INT32_MIN;
      }
    }
  }

  /** Put a timestamp into the calendar; what is left is less than a millisecond, also before the epoch. */
  method SetTime(calendar: Calendar, ts: int64) returns (micros: nat)
    modifies calendar
    ensures micros < MICROS_PER_MSEC && calendar.millis * MICROS_PER_MSEC + micros == ts
  {
    var millis := Quotient(ts, MICROS_PER_MSEC);
    var rest: int64 := Remainder(ts, MICROS_PER_MSEC);
    if rest < 0 {
      millis := millis - 1;
      rest := rest + MICROS_PER_MSEC;
    }
    calendar.SetTime(millis);
    micros := ToUnsigned(rest);
  }

  /** The inverse of SetTime, for a calendar in range. */
  method GetTimeUnsafe(calendar: Calendar, micros: nat) returns (ts: int64)
    requires micros <= 0xFFFF_FFFF_FFFF_FFFF
    requires IsInt64(calendar.millis * MICROS_PER_MSEC) && IsInt64(calendar.millis * MICROS_PER_MSEC + ToSigned(micros))
    ensures ts == calendar.millis * MICROS_PER_MSEC + ToSigned(micros)
  {
    ts := calendar.millis * MICROS_PER_MSEC + ToSigned(micros);
  }

  /** A timestamp comes back out of the calendar as it went in, unless its milliseconds, in microseconds again,
      overflow. */
  method SetAndGetUnsafe(calendar: Calendar, ts: int64) returns (overflows: bool, back: int64)
    modifies calendar
    ensures overflows <==> ts < INT64_MIN + 808
    ensures !overflows ==> back == ts
  {
    var micros := SetTime(calendar, ts);
    SetIsFloor(calendar.millis, micros, ts);
    overflows, back := !IsInt64(calendar.millis * MICROS_PER_MSEC), 0;
    if !overflows {
      back := GetTimeUnsafe(calendar, micros);
    }
  }

  /** Checked, it comes back exactly if it is in range. */
  method SetAndGet(calendar: Calendar, ts: int64) returns (r: Result)
    modifies calendar
    ensures r == if InRange(ts) then Ok(ts) else OutOfRange
  {
    var micros := SetTime(calendar, ts);
    SetIsFloor(calendar.millis, micros, ts);
    r := GetTime(calendar, micros);
  }

  lemma SetIsFloor(millis: int, micros: nat, ts: int)
    requires micros < MICROS_PER_MSEC && millis * MICROS_PER_MSEC + micros == ts
    ensures millis * MICROS_PER_MSEC == Floor(ts, MICROS_PER_MSEC)
  {
  }

  /** The timestamp of the calendar, with the microseconds left over. */
  method GetTime(calendar: Calendar, micros: nat) returns (r: Result)
    requires micros <= 0xFFFF_FFFF_FFFF_FFFF
    ensures r == var ts := calendar.millis * MICROS_PER_MSEC + ToSigned(micros);
      if IsInt64(calendar.millis) && IsInt64(calendar.millis * MICROS_PER_MSEC) && InRange(ts) then Ok(ts)
      else OutOfRange
  {
    var millis := calendar.millis;
    if !IsInt64(millis) || !IsInt64(millis * MICROS_PER_MSEC) {
      return OutOfRange;
    }
    millis := millis * MICROS_PER_MSEC;
    if !IsInt64(millis + ToSigned(micros)) {
      return OutOfRange;
    }
    millis := millis + ToSigned(micros);
    DayFitsInRange(millis);
    return if DayFits(millis) then Ok(millis) else OutOfRange;
  }

  /** Milliseconds are added as milliseconds, seconds, minutes and hours, the small ones first for negative ones. */
  method AddMillis(calendar: Calendar, amount: int64, negative: bool)
    modifies calendar
    ensures calendar.millis == old(calendar.millis) + amount
  {
    var ms := Remainder(amount, MSECS_PER_SEC);
    var hours := Quotient(amount, MSECS_PER_SEC);
    var s := Remainder(hours, SECS_PER_MINUTE);
    hours := Quotient(hours, SECS_PER_MINUTE);
    var m := Remainder(hours, MINS_PER_HOUR);
    hours := Quotient(hours, MINS_PER_HOUR);
    if negative {
      calendar.Add(1, ms);
      calendar.Add(1000, s);
      calendar.Add(60_000, m);
      CalendarAddHour(calendar, hours);
    } else {
      CalendarAddHour(calendar, hours);
      calendar.Add(60_000, m);
      calendar.Add(1000, s);
      calendar.Add(1, ms);
    }
  }

  /** What adding microseconds gives. What comes on top of whole milliseconds is added first, and this much of the sum
      has to be in range too. */
  function Added(ts: int64, micros: int): Result {
    if !IsFinite(ts) then Ok(ts)
    else if InRange(ts + micros) && InRange(ts + Remainder(micros, MICROS_PER_MSEC)) then Ok(ts + micros)
    else OutOfRange
  }

  /** From a timestamp in range, only the sum has to be in range. */
  lemma AddedInRange(ts: int64, micros: int)
    requires InRange(ts)
    ensures Added(ts, micros) == if InRange(ts + micros) then Ok(ts + micros) else OutOfRange
  {
    RemainderBetween(micros, MICROS_PER_MSEC);
  }

  lemma RemainderBetween(x: int, y: int)
    requires y > 0
    ensures if x >= 0 then Remainder(x, y) <= x else x <= Remainder(x, y)
  {
    var q, r := Quotient(x, y), Remainder(x, y);
    assert x == q * y + r;
    assert x >= 0 ==> q * y >= 0;
    assert x < 0 ==> -q * y >= 0;
  }

  /** Whole milliseconds, and the rest of what is carried apart. */
  method Carry(ts: int64, micros: int64) returns (millis: int, rest: int)
    ensures millis * MICROS_PER_MSEC + rest == ts + Remainder(micros, MICROS_PER_MSEC) && -1000 < rest < 1000
    ensures rest < 0 ==> ts >= millis * MICROS_PER_MSEC
  {
    millis := Quotient(ts, MICROS_PER_MSEC);
    rest := Remainder(ts, MICROS_PER_MSEC);
    rest := rest + Remainder(micros, MICROS_PER_MSEC);
    if rest >= MICROS_PER_MSEC {
      rest := rest - MICROS_PER_MSEC;
      millis := millis + 1;
    } else if rest < 0 {
      rest := rest + MICROS_PER_MSEC;
      millis := millis - 1;
    }
  }

  /** Whether the milliseconds are in range tells whether the first sum is, unless the whole sum is out of range. */
  lemma CarriedInRange(ts: int64, micros: int64, millis: int, rest: int)
    requires IsFinite(ts) && millis * MICROS_PER_MSEC + rest == ts + Remainder(micros, MICROS_PER_MSEC)
    requires -1000 < rest < 1000 && (rest < 0 ==> ts >= millis * MICROS_PER_MSEC)
    ensures InRange(ts + micros) ==>
      (Added(ts, micros).Ok? <==> IsInt64(millis * MICROS_PER_MSEC) && InRange(millis * MICROS_PER_MSEC))
  {
    RemainderBetween(micros, MICROS_PER_MSEC);
  }

  /** Adding an interval of microseconds only, split into milliseconds, seconds, minutes and hours, with the rest of
      a millisecond carried apart, adds exactly these microseconds, and fails just when a sum is out of range. */
  method Add(ts: int64, micros: int64, calendar: Calendar) returns (r: Result)
    modifies calendar
    ensures r == Added(ts, micros)
  {
    if !IsFinite(ts) {
      return Ok(ts);
    }
    var millis, rest := Carry(ts, micros);
    CarriedInRange(ts, micros, millis, rest);
    if !IsInt64(millis * MICROS_PER_MSEC) {
      return OutOfRange;
    }
    DayFitsInRange(millis * MICROS_PER_MSEC);
    if !DayFits(millis * MICROS_PER_MSEC) {
      return OutOfRange;
    }
    hide DayFits;
    calendar.SetTime(millis);
    var wholeMs := Quotient(micros, MICROS_PER_MSEC);
    AddMillis(calendar, wholeMs, micros < 0);
    assert calendar.millis * MICROS_PER_MSEC + rest == ts + micros;
    r := GetTime(calendar, ToUnsigned(rest));
  }

  /** The negation of a 64-bit integer, which leaves the smallest as it is. */
  function Negated(x: int64): int64 {
    if x == INT64_MIN then x else -x
  }

  method Sub(ts: int64, micros: int64, calendar: Calendar) returns (r: Result)
    modifies calendar
    ensures r == Added(ts, Negated(micros))
  {
    r := Add(ts, Negated(micros), calendar);
  }

  // ---------- buckets ----------

  /** 2000-01-03, a Monday. */
  const DEFAULT_ORIGIN: int := 10959 * MICROS_PER_DAY

  /** The last multiple of the width that is no greater. */
  function Floor(x: int, width: int): int
    requires width > 0
  {
    x / width * width
  }

  /** The start of the bucket of `ts`, when buckets start at `origin`. */
  function Bucket(width: int64, ts: int64, origin: int64): Result
    requires width > 0
  {
    if IsInt64(ts - origin) && IsInt64(Floor(ts - origin, width)) then Added(origin, Floor(ts - origin, width))
    else OutOfRange
  }

  lemma TruncatedIsFloor(x: int, width: int)
    requires width > 0
    ensures var q := Quotient(x, width) * width;
      Floor(x, width) == if x < 0 && Remainder(x, width) != 0 then q - width else q
  {
    var q, r := Quotient(x, width), Remainder(x, width);
    var d := x / width - q;
    assert d * width == r - x % width;
    assert d >= 1 ==> d * width >= width;
    assert d <= -2 ==> d * width <= -2 * width;
    assert d == 0 || d == -1;
  }

  method WidthConvertibleToMicrosCommon(width: int64, ts: int64, origin: int64, calendar: Calendar) returns (r: Result)
    requires width >= 0 && IsFinite(ts) && IsFinite(origin)
    modifies calendar
    ensures r == if width == 0 then OutOfRange else Bucket(width, ts, origin)
  {
    if width == 0 {
      return OutOfRange;
    }
    if !IsInt64(ts - origin) {
      return OutOfRange;
    }
    var tsMicros := ts - origin;
    TruncatedIsFloor(tsMicros, width);
    var resultMicros := Quotient(tsMicros, width) * width;
    if tsMicros < 0 && Remainder(tsMicros, width) != 0 {
      if !IsInt64(resultMicros - width) {
        return OutOfRange;
      }
      resultMicros := resultMicros - width;
    }
    r := Add(origin, resultMicros, calendar);
  }

  /** What the function gives without an offset or an origin of its own. */
  function TimeBucketSpec(width: int64, ts: int64): Result {
    if width <= 0 then NotPositive else if !IsFinite(ts) then Ok(ts) else Bucket(width, ts, DEFAULT_ORIGIN)
  }

  method TimeBucket(width: int64, ts: int64, calendar: Calendar) returns (r: Result)
    modifies calendar
    ensures r == TimeBucketSpec(width, ts)
  {
    if width <= 0 {
      return NotPositive;
    }
    if !IsFinite(ts) {
      return Ok(ts);
    }
    r := WidthConvertibleToMicrosCommon(width, ts, DEFAULT_ORIGIN, calendar);
  }

  method TimeBucketWithOrigin(width: int64, ts: int64, origin: int64, calendar: Calendar) returns (r: Result)
    modifies calendar
    ensures r == if !IsFinite(origin) then Null else if width <= 0 then NotPositive
      else if !IsFinite(ts) then Ok(ts) else Bucket(width, ts, origin)
  {
    if !IsFinite(origin) {
      return Null;
    }
    if width <= 0 {
      return NotPositive;
    }
    if !IsFinite(ts) {
      return Ok(ts);
    }
    r := WidthConvertibleToMicrosCommon(width, ts, origin, calendar);
  }

  /** The bucket of the timestamp moved back by `offset`, moved forward again. */
  function OffsetBucket(width: int64, ts: int64, offset: int64): Result
    requires width > 0
  {
    match Added(ts, Negated(offset))
    case Ok(moved) =>
      (match Bucket(width, moved, DEFAULT_ORIGIN)
       case Ok(bucket) => Added(bucket, offset)
       case _ => OutOfRange)
    case _ => OutOfRange
  }

  method TimeBucketWithOffset(width: int64, ts: int64, offset: int64, calendar: Calendar) returns (r: Result)
    modifies calendar
    ensures r == if width <= 0 then NotPositive else if !IsFinite(ts) then Ok(ts) else OffsetBucket(width, ts, offset)
  {
    if width <= 0 {
      return NotPositive;
    }
    if !IsFinite(ts) {
      return Ok(ts);
    }
    r := Sub(ts, offset, calendar);
    if !r.Ok? {
      return;
    }
    r := WidthConvertibleToMicrosCommon(width, r.value, DEFAULT_ORIGIN, calendar);
    if !r.Ok? {
      return;
    }
    r := Add(r.value, offset, calendar);
  }

  // ---------- what buckets are ----------

  lemma FloorIs(x: int, width: int)
    requires width > 0
    ensures Floor(x, width) <= x < Floor(x, width) + width && Floor(x, width) % width == 0
  {
    MultipleIsZero(x / width, width);
  }

  lemma MultipleIsZero(q: int, width: int)
    requires width > 0
    ensures q * width % width == 0 && q * width / width == q
  {
    var d := q * width / width - q;
    assert d * width == -(q * width % width);
    assert d >= 1 ==> d * width >= width;
    assert d <= -1 ==> d * width <= -width;
  }

  /** A multiple of the width that starts a window with `x` in it is the floor. */
  lemma FloorUnique(x: int, y: int, width: int)
    requires width > 0 && y % width == 0 && y <= x < y + width
    ensures Floor(x, width) == y
  {
    var d := x / width - y / width;
    assert d * width == x - x % width - y;
    assert d >= 1 ==> d * width >= width;
    assert d <= -1 ==> d * width <= -width;
  }

  lemma FloorMonotone(x: int, y: int, width: int)
    requires width > 0 && x <= y
    ensures Floor(x, width) <= Floor(y, width)
  {
    var d := y / width - x / width;
    assert d * width == y - y % width - (x - x % width);
    assert d <= -1 ==> d * width <= -width;
    assert d >= 0 ==> d * width >= 0;
  }

  /** A bucket starts at a multiple of the width from the origin and holds the timestamp. There is one just when the
      differences to the origin fit into 64 bits and its start can be added to the origin; where the origin is in
      range, this is when the start is no earlier than the first whole day. */
  lemma BucketIsFloor(width: int64, ts: int64, origin: int64)
    requires width > 0 && IsFinite(ts) && IsFinite(origin)
    ensures var start := origin + Floor(ts - origin, width);
      && (Bucket(width, ts, origin).Ok? <==>
          && IsInt64(ts - origin) && start - origin >= INT64_MIN && start >= -106_751_991 * MICROS_PER_DAY
          && InRange(origin + Remainder(start - origin, MICROS_PER_MSEC)))
      && (Bucket(width, ts, origin).Ok? ==>
          Bucket(width, ts, origin).value == start <= ts < start + width && (start - origin) % width == 0)
      && (InRange(origin) && InRange(start) ==> InRange(origin + Remainder(start - origin, MICROS_PER_MSEC)))
  {
    FloorIs(ts - origin, width);
    RemainderBetween(Floor(ts - origin, width), MICROS_PER_MSEC);
  }

  lemma BucketIdempotent(width: int64, ts: int64, origin: int64)
    requires width > 0 && IsFinite(ts) && IsFinite(origin) && Bucket(width, ts, origin).Ok?
    ensures Bucket(width, Bucket(width, ts, origin).value, origin) == Bucket(width, ts, origin)
  {
    FloorIs(ts - origin, width);
    FloorUnique(Floor(ts - origin, width), Floor(ts - origin, width), width);
  }

  lemma BucketMonotone(width: int64, ts: int64, later: int64, origin: int64)
    requires width > 0 && IsFinite(ts) && IsFinite(later) && IsFinite(origin) && ts <= later
    requires Bucket(width, ts, origin).Ok? && Bucket(width, later, origin).Ok?
    ensures Bucket(width, ts, origin).value <= Bucket(width, later, origin).value
  {
    FloorMonotone(ts - origin, later - origin, width);
  }

  /** An offset does the same as moving the origin by it: the bucket starts at a multiple of the width from the moved
      origin and holds the timestamp, and it is the bucket from that origin wherever there is one. */
  lemma OffsetIsShiftedOrigin(width: int64, ts: int64, offset: int64)
    requires width > 0 && IsFinite(ts) && OffsetBucket(width, ts, offset).Ok?
    ensures var origin, bucket := DEFAULT_ORIGIN + offset, OffsetBucket(width, ts, offset).value;
      && bucket == origin + Floor(ts - origin, width)
      && bucket <= ts < bucket + width && (bucket - origin) % width == 0
      && (IsInt64(origin) && IsFinite(origin) && Bucket(width, ts, origin).Ok? ==>
          Bucket(width, ts, origin).value == bucket)
  {
    var origin := DEFAULT_ORIGIN + offset;
    SmallestOffset(width, ts);
    assert ts - offset - DEFAULT_ORIGIN == ts - origin;
    FloorIs(ts - origin, width);
  }

  /** The smallest offset, which has no negation, never gives a bucket. */
  lemma SmallestOffset(width: int64, ts: int64)
    requires width > 0 && IsFinite(ts)
    ensures !OffsetBucket(width, ts, INT64_MIN).Ok?
  {
    FloorIs(ts + INT64_MIN - DEFAULT_ORIGIN, width);
  }

  // ---------- the default origin ----------

  predicate IsLeap(year: nat) {
    year % 4 == 0 && (year % 100 != 0 || year % 400 == 0)
  }

  /** The days from 1970-01-01 to the first of January of the year. */
  function DaysTo(year: nat): nat
    requires year >= 1970
  {
    if year == 1970 then 0 else DaysTo(year - 1) + (if IsLeap(year - 1) then 366 else 365)
  }

  /** 0 is Monday; 1970-01-01 was a Thursday. */
  function Weekday(days: int): int {
    (days + 3) % 7
  }

  /** The origin is the third of January 2000, at midnight, and a Monday. */
  lemma OriginIsMonday()
    ensures DEFAULT_ORIGIN == (DaysTo(2000) + 2) * MICROS_PER_DAY && Weekday(DaysTo(2000) + 2) == 0
  {
    assert DaysTo(1980) == 3652;
    assert DaysTo(1990) == 7305;
    assert DaysTo(2000) == 10957;
  }

  lemma MondayMidnight(week: int)
    ensures var start := DEFAULT_ORIGIN + week * (7 * MICROS_PER_DAY);
      start % MICROS_PER_DAY == 0 && Weekday(start / MICROS_PER_DAY) == 0
  {
    MultipleIsZero(10959 + 7 * week, MICROS_PER_DAY);
    assert DEFAULT_ORIGIN + week * (7 * MICROS_PER_DAY) == (10959 + 7 * week) * MICROS_PER_DAY;
  }

  /** A bucket of a week starts on a Monday, at midnight. */
  lemma WeekStartsOnMonday(ts: int64)
    requires IsFinite(ts) && Bucket(7 * MICROS_PER_DAY, ts, DEFAULT_ORIGIN).Ok?
    ensures var start := Bucket(7 * MICROS_PER_DAY, ts, DEFAULT_ORIGIN).value;
      start % MICROS_PER_DAY == 0 && Weekday(start / MICROS_PER_DAY) == 0
  {
    BucketIsFloor(7 * MICROS_PER_DAY, ts, DEFAULT_ORIGIN);
    MondayMidnight((ts - DEFAULT_ORIGIN) / (7 * MICROS_PER_DAY));
  }
}
