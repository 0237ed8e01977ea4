// Local time at a fixed offset from UTC, and the hour, day and week a moment falls in, as
// database_evaluate computes them.  Times are seconds since the epoch.
module Calendar {

  datatype Kind = HOURLY | DAILY | WEEKLY

  // Seconds into the local hour or day; localtime rounds down for times before the epoch too.
  function Into(t: int, offset: int, unit: int): int
    requires unit > 0
  {
    (t + offset) % unit
  }

  function HourOf(t: int, offset: int): int {
    t - Into(t, offset, 3600)
  }

  function Midnight(t: int, offset: int): int {
    t - Into(t, offset, 86400)
  }

  // tm_wday: the epoch was a Thursday.
  function Weekday(t: int, offset: int): (d: int)
    ensures 0 <= d < 7
  {
    ((t + offset) / 86400 + 4) % 7
  }

  // The loop back to Sunday, in one step.
  function WeekOf(t: int, offset: int): int {
    Midnight(t, offset) - 86400 * Weekday(t, offset)
  }

  function Bucket(kind: Kind, t: int, offset: int): int {
    match kind
    case HOURLY => HourOf(t, offset)
    case DAILY => Midnight(t, offset)
    case WEEKLY => WeekOf(t, offset)
  }

  ghost predicate IsMidnight(t: int, offset: int) {
    (t + offset) % 86400 == 0
  }

  ghost predicate IsSundayMidnight(t: int, offset: int) {
    IsMidnight(t, offset) && Weekday(t, offset) == 0
  }

  // An hour or day number and the seconds into it.
  lemma Parts(x: int, unit: int, q: int, r: int)
    requires unit == 3600 || unit == 86400
    requires x == unit * q + r && 0 <= r < unit
    ensures x / unit == q && x % unit == r
  {
    if unit == 3600 {
    } else {
    }
  }

  lemma MidnightParts(t: int, offset: int)
    ensures IsMidnight(Midnight(t, offset), offset) && Midnight(t, offset) <= t < Midnight(t, offset) + 86400
    ensures (Midnight(t, offset) + offset) / 86400 == (t + offset) / 86400
  {
    var x := t + offset;
    Parts(Midnight(t, offset) + offset, 86400, x / 86400, 0);
  }

  // 1 January 1970 was a Thursday, and 2 January 2000 a Sunday.
  lemma KnownDays()
    ensures Weekday(0, 0) == 4 && Weekday(946771200, 0) == 0 && IsSundayMidnight(946771200, 0)
  {
  }

  // One turn of the loop: a second before midnight belongs to the day before.
  lemma DayBefore(a: int, offset: int)
    requires IsMidnight(a, offset) && Weekday(a, offset) > 0
    ensures Midnight(a - 1, offset) == a - 86400 && Weekday(a - 86400, offset) == Weekday(a, offset) - 1
    ensures IsMidnight(a - 86400, offset)
  {
    var n := (a + offset) / 86400;
    Parts(a - 1 + offset, 86400, n - 1, 86399);
    Parts(a - 86400 + offset, 86400, n - 1, 0);
  }

  // The loop of the weekly case.
  method WeekStart(t: int, offset: int) returns (a: int)
    ensures a == WeekOf(t, offset)
  {
    a := Midnight(t, offset);
    MidnightParts(t, offset);
    while Weekday(a, offset) > 0
      invariant IsMidnight(a, offset)
      invariant a - 86400 * Weekday(a, offset) == WeekOf(t, offset)
      decreases Weekday(a, offset)
    {
      DayBefore(a, offset);
      a := a - 1;
      a := Midnight(a, offset);
    }
  }

  // The week starts at the latest Sunday midnight that is not after the moment.
  lemma WeekIsLatestSunday(t: int, offset: int, s: int)
    ensures IsSundayMidnight(WeekOf(t, offset), offset) && WeekOf(t, offset) <= t < WeekOf(t, offset) + 7 * 86400
    ensures IsSundayMidnight(s, offset) && s <= t ==> s <= WeekOf(t, offset)
  {
    var n, w := (t + offset) / 86400, Weekday(t, offset);
    MidnightParts(t, offset);
    Parts(WeekOf(t, offset) + offset, 86400, n - w, 0);
    if IsSundayMidnight(s, offset) && s <= t {
      LatestSunday(n, (s + offset) / 86400);
    }
  }

  lemma LatestSunday(n: int, k: int)
    requires k <= n && (k + 4) % 7 == 0
    ensures k <= n - (n + 4) % 7
  {
  }

  // Each bucket starts at or before its moment and is its own bucket.
  lemma BucketIdempotent(kind: Kind, t: int, offset: int)
    ensures Bucket(kind, t, offset) <= t && Bucket(kind, Bucket(kind, t, offset), offset) == Bucket(kind, t, offset)
  {
    match kind
    case HOURLY => HourParts(t, offset);
    case DAILY => MidnightParts(t, offset);
    case WEEKLY =>
      WeekIsLatestSunday(t, offset, t);
  }

  lemma HourParts(t: int, offset: int)
    ensures (HourOf(t, offset) + offset) % 3600 == 0 && HourOf(t, offset) <= t < HourOf(t, offset) + 3600
  {
    var x := t + offset;
    Parts(HourOf(t, offset) + offset, 3600, x / 3600, 0);
  }

  // No bucket is mktime's error value, unless local hours start a second late.
  lemma NeverError(offset: int)
    ensures (forall kind: Kind, t: int :: Bucket(kind, t, offset) != -1) <==> offset % 3600 != 1
  {
    if offset % 3600 == 1 {
      Parts(offset - 1, 3600, offset / 3600, 0);
      assert Bucket(HOURLY, -1, offset) == -1;
    } else {
      forall kind: Kind, t: int ensures Bucket(kind, t, offset) != -1 {
        OnTheHour(kind, t, offset);
      }
    }
  }

  lemma OnTheHour(kind: Kind, t: int, offset: int)
    ensures (Bucket(kind, t, offset) + offset) % 3600 == 0
  {
    match kind
    case HOURLY => HourParts(t, offset);
    case DAILY =>
      MidnightParts(t, offset);
      DayIsHours(Midnight(t, offset) + offset);
    case WEEKLY =>
      WeekIsLatestSunday(t, offset, t);
      DayIsHours(WeekOf(t, offset) + offset);
  }

  lemma DayIsHours(x: int)
    requires x % 86400 == 0
    ensures x % 3600 == 0
  {
    Parts(x, 3600, 24 * (x / 86400), 0);
  }

  // The hour determines the day, and the day the week.
  lemma HourInDay(t: int, offset: int)
    ensures Midnight(HourOf(t, offset), offset) == Midnight(t, offset)
  {
    var x := t + offset;
    var q, r := x / 86400, x % 86400;
    var h := r / 3600;
    Parts(x, 3600, 24 * q + h, r % 3600);
    Parts(HourOf(t, offset) + offset, 86400, q, 3600 * h);
  }

  lemma DayInWeek(t: int, offset: int)
    ensures WeekOf(Midnight(t, offset), offset) == WeekOf(t, offset)
  {
    MidnightParts(t, offset);
  }

  lemma BucketMonotone(kind: Kind, s: int, t: int, offset: int)
    requires s <= t
    ensures Bucket(kind, s, offset) <= Bucket(kind, t, offset)
  {
    match kind
    case HOURLY =>
      HourParts(s, offset);
      HourParts(t, offset);
      MultipleGap(HourOf(s, offset) + offset, HourOf(t, offset) + offset, 3600);
    case DAILY =>
      MidnightParts(s, offset);
      MidnightParts(t, offset);
      MultipleGap(Midnight(s, offset) + offset, Midnight(t, offset) + offset, 86400);
    case WEEKLY =>
      WeekIsLatestSunday(s, offset, s);
      WeekIsLatestSunday(t, offset, WeekOf(s, offset));
  }

  lemma MultipleGap(x: int, y: int, unit: int)
    requires unit == 3600 || unit == 86400
    requires x % unit == 0 && y % unit == 0 && x < y + unit
    ensures x <= y
  {
    if unit == 3600 {
    } else {
    }
  }
}
