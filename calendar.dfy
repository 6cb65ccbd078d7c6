/**
 * UTC instants as integer microseconds since 1970-01-01T00:00:00Z, the
 * precision of Python's `datetime`. Euclidean `/` and `%` agree with
 * Python's floor semantics for the positive divisors used here, so the
 * field extraction below is right for instants before 1970 as well.
 * The civil calendar is the proleptic Gregorian one that `datetime` uses.
 */
module Calendar {
  import opened Text

  const SECOND: int := 1_000_000
  const MINUTE: int := 60_000_000
  const HOUR: int := 3_600_000_000
  const DAY: int := 86_400_000_000

  /** `dt.hour` of the UTC datetime at instant `t`. */
  function HourOf(t: int): (h: int)
    ensures 0 <= h < 24
  {
    (t / HOUR) % 24
  }

  /** Midnight (UTC) of the day containing `t`. */
  function DayStart(t: int): (d: int)
    ensures d <= t < d + DAY
    ensures d % DAY == 0
  {
    t - t % DAY
  }

  /**
   * `dt.replace(hour=h, minute=0, second=0, microsecond=0)` for the UTC
   * datetime at `t`: for an hour of day `h` it keeps the day, has hour `h`
   * and nothing below the hour.
   */
  function AtHour(t: int, h: int): (r: int)
    ensures 0 <= h < 24 ==> DayStart(r) == DayStart(t) && HourOf(r) == h && r % HOUR == 0
  {
    assert DayStart(t) == (t / DAY) * DAY;
    HoursAfterMidnight(t / DAY, h);
    DayStart(t) + h * HOUR
  }

  /** Hour `h` of day `q`, counted in whole hours and within its day. */
  lemma HoursAfterMidnight(q: int, h: int)
    ensures 0 <= h < 24 ==> var r := q * DAY + h * HOUR;
      && r % HOUR == 0 && (r / HOUR) % 24 == h && r % DAY == h * HOUR
  {
    if 0 <= h < 24 {
      var r := q * DAY + h * HOUR;
      assert r == (q * 24 + h) * HOUR;
      assert r / HOUR == q * 24 + h;
      assert r == q * DAY + h * HOUR && 0 <= h * HOUR < DAY;
    }
  }

  /** An instant splits into its day, its hour of day and what is left within the hour. */
  lemma Decompose(t: int)
    ensures t == DayStart(t) + HourOf(t) * HOUR + t % HOUR
    ensures t % DAY == HourOf(t) * HOUR + t % HOUR
  {
    var q := t / HOUR;
    assert t == q * HOUR + t % HOUR;
    assert q == (q / 24) * 24 + q % 24;
    assert t == (q / 24) * DAY + (q % 24) * HOUR + t % HOUR;
    assert 0 <= (q % 24) * HOUR + t % HOUR < DAY;
  }

  // ---------------------------------------------------------------------
  // The civil calendar

  predicate IsLeap(y: int) {
    y % 4 == 0 && (y % 100 != 0 || y % 400 == 0)
  }

  function DaysInYear(y: int): int {
    if IsLeap(y) then 366 else 365
  }

  function DaysInMonth(y: int, m: int): int
    requires 1 <= m <= 12
  {
    if m == 2 then (if IsLeap(y) then 29 else 28)
    else if m == 4 || m == 6 || m == 9 || m == 11 then 30
    else 31
  }

  /** Days from January 1st of year `y` to the first day of month `m`. */
  function DaysBeforeMonth(y: int, m: int): int
    requires 1 <= m <= 12
  {
    [0, 31, 59, 90, 120, 151, 181, 212, 243, 273, 304, 334][m - 1]
      + (if m > 2 && IsLeap(y) then 1 else 0)
  }

  /** The month table and the month lengths agree, and the twelve months fill the year. */
  lemma DaysBeforeMonthStep(y: int, m: int)
    requires 1 <= m <= 12
    ensures m < 12 ==> DaysBeforeMonth(y, m + 1) == DaysBeforeMonth(y, m) + DaysInMonth(y, m)
    ensures m == 12 ==> DaysBeforeMonth(y, m) + DaysInMonth(y, m) == DaysInYear(y)
  {
  }

  /** Days from 1970-01-01 to January 1st of year `y` (negative before 1970). */
  function DaysBeforeYear(y: int): int
    decreases if y < 1970 then 1970 - y else y - 1970
  {
    if y == 1970 then 0
    else if y > 1970 then DaysBeforeYear(y - 1) + DaysInYear(y - 1)
    else DaysBeforeYear(y + 1) - DaysInYear(y)
  }

  lemma {:induction false} DaysBeforeNextYear(y: int)
    ensures DaysBeforeYear(y + 1) == DaysBeforeYear(y) + DaysInYear(y)
    decreases if y < 1970 then 1970 - y else y - 1970
  {
  }

  /**
   * Day `z` counted from January 1st of year `y`, walked year by year into
   * the year it falls in: the result is that year and the day within it.
   */
  function YearSplit(z: int, y: int): (r: (int, int))
    ensures 0 <= r.1 < DaysInYear(r.0)
    ensures DaysBeforeYear(r.0) + r.1 == DaysBeforeYear(y) + z
    decreases if z < 0 then 1 else 0, if z < 0 then -z else z
  {
    if z < 0 then
      DaysBeforeNextYear(y - 1);
      YearSplit(z + DaysInYear(y - 1), y - 1)
    else if z >= DaysInYear(y) then
      DaysBeforeNextYear(y);
      YearSplit(z - DaysInYear(y), y + 1)
    else
      (y, z)
  }

  /** The month, searched downward from `m`, whose first day is at or before day `doy` of year `y`. */
  function MonthOf(y: int, doy: int, m: int): (r: int)
    requires 1 <= m <= 12
    ensures 1 <= r <= m
    ensures doy >= 0 ==> DaysBeforeMonth(y, r) <= doy
    ensures r < m ==> doy < DaysBeforeMonth(y, r + 1)
    decreases m
  {
    if m == 1 || DaysBeforeMonth(y, m) <= doy then m else MonthOf(y, doy, m - 1)
  }

  datatype Date = Date(year: int, month: int, day: int)

  predicate ValidDate(d: Date) {
    1 <= d.month <= 12 && 1 <= d.day <= DaysInMonth(d.year, d.month)
  }

  /** Days since 1970-01-01 of a civil date. */
  function DaysFromCivil(d: Date): int
    requires 1 <= d.month <= 12
  {
    DaysBeforeYear(d.year) + DaysBeforeMonth(d.year, d.month) + d.day - 1
  }

  /** The civil date of day number `z` (days since 1970-01-01). */
  function CivilFromDays(z: int): (d: Date)
    ensures ValidDate(d)
    ensures DaysFromCivil(d) == z
  {
    var (y, doy) := YearSplit(z, 1970);
    var m := MonthOf(y, doy, 12);
    DaysBeforeMonthStep(y, m);
    Date(y, m, doy - DaysBeforeMonth(y, m) + 1)
  }

  /** Two days with the same civil date are the same day. */
  lemma CivilInjective(a: int, b: int)
    requires CivilFromDays(a) == CivilFromDays(b)
    ensures a == b
  {
  }

  /** The UTC date of instant `t`. */
  function DateOf(t: int): (d: Date)
    ensures ValidDate(d)
  {
    CivilFromDays(t / DAY)
  }

  /** Instants that a Python `datetime` can hold: years 1 to 9999. */
  predicate InDatetimeRange(t: int) {
    1 <= DateOf(t).year <= 9999
  }

  function YearText(y: int): string {
    if y < 0 then "-" + ZeroPad(-y, 4) else ZeroPad(y, 4)
  }

  /** `%Y%m%d%H` of a date and an hour. */
  function DateHourText(d: Date, h: int): (s: string)
    requires ValidDate(d) && 0 <= h < 24
    ensures 0 <= d.year <= 9999 ==> |s| == 10 && AllDigits(s)
  {
    YearText(d.year) + ZeroPad(d.month, 2) + ZeroPad(d.day, 2) + ZeroPad(h, 2)
  }

  /** `strftime("%Y%m%d%H")` of the UTC datetime at `t`. */
  function HourStamp(t: int): (s: string)
    ensures InDatetimeRange(t) ==> |s| == 10 && AllDigits(s)
  {
    DateHourText(DateOf(t), HourOf(t))
  }

  /** `strftime("%Y-%m-%d %H:%M:%S UTC")` of the UTC datetime at `t`. */
  function UtcTimestamp(t: int): string
  {
    var d := DateOf(t);
    YearText(d.year) + "-" + ZeroPad(d.month, 2) + "-" + ZeroPad(d.day, 2) + " "
      + ZeroPad(HourOf(t), 2) + ":" + ZeroPad((t / MINUTE) % 60, 2) + ":"
      + ZeroPad((t / SECOND) % 60, 2) + " UTC"
  }

  /**
   * The layout of `refTime`: `YYYY-MM-DD HH:MM:SS UTC`, 23 characters, each
   * field its zero-padded digits and reading back as the date, hour, minute
   * and second of `t`.
   */
  lemma UtcTimestampLayout(t: int)
    requires InDatetimeRange(t)
    ensures var s, d := UtcTimestamp(t), DateOf(t);
      && |s| == 23
      && s[4] == '-' && s[7] == '-' && s[10] == ' ' && s[13] == ':' && s[16] == ':' && s[19..] == " UTC"
      && s[..4] == ZeroPad(d.year, 4) && s[5..7] == ZeroPad(d.month, 2) && s[8..10] == ZeroPad(d.day, 2)
      && s[11..13] == ZeroPad(HourOf(t), 2) && s[14..16] == ZeroPad((t / MINUTE) % 60, 2)
      && s[17..19] == ZeroPad((t / SECOND) % 60, 2)
      && Value(s[..4]) == d.year && Value(s[5..7]) == d.month && Value(s[8..10]) == d.day
      && Value(s[11..13]) == HourOf(t) && Value(s[14..16]) == (t / MINUTE) % 60
      && Value(s[17..19]) == (t / SECOND) % 60
  {
    var d := DateOf(t);
    assert d.day < 100 by {
      assert DaysInMonth(d.year, d.month) <= 31;
    }
    PadWidth(d.year, 4);
    PadWidth(d.month, 2);
    PadWidth(d.day, 2);
    PadWidth(HourOf(t), 2);
    PadWidth((t / MINUTE) % 60, 2);
    PadWidth((t / SECOND) % 60, 2);
    TimestampPieces(ZeroPad(d.year, 4), ZeroPad(d.month, 2), ZeroPad(d.day, 2),
                    ZeroPad(HourOf(t), 2), ZeroPad((t / MINUTE) % 60, 2), ZeroPad((t / SECOND) % 60, 2));
    ValueOfZeroPad(d.year, 4);
    ValueOfZeroPad(d.month, 2);
    ValueOfZeroPad(d.day, 2);
    ValueOfZeroPad(HourOf(t), 2);
    ValueOfZeroPad((t / MINUTE) % 60, 2);
    ValueOfZeroPad((t / SECOND) % 60, 2);
  }

  /** Where each field of a `YYYY-MM-DD HH:MM:SS UTC` text sits. */
  lemma TimestampPieces(y: string, mo: string, dd: string, hh: string, mi: string, ss: string)
    requires |y| == 4 && |mo| == 2 && |dd| == 2 && |hh| == 2 && |mi| == 2 && |ss| == 2
    ensures var s := y + "-" + mo + "-" + dd + " " + hh + ":" + mi + ":" + ss + " UTC";
      && |s| == 23
      && s[4] == '-' && s[7] == '-' && s[10] == ' ' && s[13] == ':' && s[16] == ':' && s[19..] == " UTC"
      && s[..4] == y && s[5..7] == mo && s[8..10] == dd && s[11..13] == hh && s[14..16] == mi && s[17..19] == ss
  {
    var p1 := y + "-" + mo;
    var p2 := p1 + "-" + dd;
    var p3 := p2 + " " + hh;
    var p4 := p3 + ":" + mi;
    var p5 := p4 + ":" + ss;
    var s := p5 + " UTC";
    assert p1[..4] == y && p1[4] == '-' && p1[5..] == mo;
    assert p2[..7] == p1 && p2[7] == '-' && p2[8..] == dd;
    assert p3[..10] == p2 && p3[10] == ' ' && p3[11..] == hh;
    assert p4[..13] == p3 && p4[13] == ':' && p4[14..] == mi;
    assert p5[..16] == p4 && p5[16] == ':' && p5[17..] == ss;
    assert s[..19] == p5 && s[19..] == " UTC";
  }

  /** `ZeroPad` to width `w` of a number with at most `w` digits has exactly `w` characters. */
  lemma PadWidth(n: nat, w: nat)
    requires (w == 2 && n < 100) || (w == 4 && n < 10000)
    ensures |ZeroPad(n, w)| == w
  {
  }

  lemma DateHourTextPieces(d: Date, h: int)
    requires ValidDate(d) && 0 <= h < 24 && 0 <= d.year <= 9999
    ensures DateHourText(d, h) == ZeroPad(d.year, 4) + (ZeroPad(d.month, 2) + (ZeroPad(d.day, 2) + ZeroPad(h, 2)))
    ensures |ZeroPad(d.year, 4)| == 4 && |ZeroPad(d.month, 2)| == 2 && |ZeroPad(d.day, 2)| == 2
  {
    assert YearText(d.year) == ZeroPad(d.year, 4);
    PadWidth(d.year, 4);
    PadWidth(d.month, 2);
    PadWidth(d.day, 2);
  }

  /** In years 0 to 9999 the `%Y%m%d%H` text determines the date and the hour. */
  lemma DateHourTextInjective(da: Date, ha: int, db: Date, hb: int)
    requires ValidDate(da) && 0 <= ha < 24 && 0 <= da.year <= 9999
    requires ValidDate(db) && 0 <= hb < 24 && 0 <= db.year <= 9999
    requires DateHourText(da, ha) == DateHourText(db, hb)
    ensures da == db && ha == hb
  {
    DateHourTextPieces(da, ha);
    DateHourTextPieces(db, hb);
    SplitEqual4(ZeroPad(da.year, 4), ZeroPad(da.month, 2), ZeroPad(da.day, 2), ZeroPad(ha, 2),
                ZeroPad(db.year, 4), ZeroPad(db.month, 2), ZeroPad(db.day, 2), ZeroPad(hb, 2));
    ZeroPadInjective(da.year, db.year, 4);
    ZeroPadInjective(da.month, db.month, 2);
    ZeroPadInjective(da.day, db.day, 2);
    ZeroPadInjective(ha, hb, 2);
  }

  /**
   * Within Python's datetime range the hour stamp determines the hour:
   * two whole-hour instants with the same stamp are the same instant.
   */
  lemma HourStampInjective(a: int, b: int)
    requires InDatetimeRange(a) && InDatetimeRange(b)
    requires a % HOUR == 0 && b % HOUR == 0
    requires HourStamp(a) == HourStamp(b)
    ensures a == b
  {
    DateHourTextInjective(DateOf(a), HourOf(a), DateOf(b), HourOf(b));
    CivilInjective(a / DAY, b / DAY);
    Decompose(a);
    Decompose(b);
  }
}
