/** Timestamps as whole milliseconds of naive local time counted from
    1970-01-01T00:00:00, so that a day begins at every multiple of
    MsPerDay. */
module Timestamps {
  import opened Common
  import opened TimeOfDay

  const MsPerSecond: int := 1000
  const MsPerDay: int := 86_400_000

  /** `now.replace(hour=0, minute=0, second=0, microsecond=0)`. */
  function DayStart(t: int): (d: int)
    ensures d <= t < d + MsPerDay && d % MsPerDay == 0
  {
    t - t % MsPerDay
  }

  /** `now.strftime('%Y-%m-%d %H:%M:%S')` read back by the store: the
      instant truncated to a whole second. */
  function WholeSecond(t: int): (s: int)
    ensures s <= t < s + MsPerSecond && s % MsPerSecond == 0
  {
    t - t % MsPerSecond
  }

  /** Two instants fall on the same day exactly when the second lies in
      the half-open interval that begins at the first one's day start. */
  lemma SameDay(t: int, u: int)
    ensures DayStart(t) == DayStart(u) <==> DayStart(t) <= u < DayStart(t) + MsPerDay
  {
    var d := DayStart(t);
    if d <= u < d + MsPerDay {
      assert u - d == u % MsPerDay by {
        assert (u - d) % MsPerDay == u % MsPerDay;
      }
    }
  }

  /** Proleptic Gregorian (year, month, day) of a count of days since
      1970-01-01. */
  function CivilFromDays(days: int): (int, int, int) {
    var z := days + 719468;
    var era := z / 146097;
    var doe := z - era * 146097;
    var yoe := YearOfEra(doe);
    var doy := DayOfYear(doe, yoe);
    var mp := (5 * doy + 2) / 153;
    var day := doy - (153 * mp + 2) / 5 + 1;
    var month := if mp < 10 then mp + 3 else mp - 9;
    var year := yoe + era * 400;
    (if month <= 2 then year + 1 else year, month, day)
  }

  /** The year within a 400-year era of the day `doe` of that era (the
      era begins on March 1 of a year divisible by 400). */
  function YearOfEra(doe: int): int {
    (doe - doe / 1460 + doe / 36524 - doe / 146096) / 365
  }

  /** The day of the year, counted from March 1 of year `yoe` of the era. */
  function DayOfYear(doe: int, yoe: int): int {
    doe - (365 * yoe + yoe / 4 - yoe / 100)
  }

  /** One when the day lies past the 1460 days that `doe / 1460` treats as
      four years, so that the quotient counts one leap day too many. */
  function LeapCarry(c: int, q: int, s: int): int {
    if 24 * c + q + s >= 1460 then 1 else 0
  }

  lemma LeapDays(c: int, q: int, s: int)
    requires 0 <= c <= 3 && 0 <= q <= 24 && 0 <= s <= 1460
    ensures (36524 * c + 1461 * q + s) / 1460 == 25 * c + q + LeapCarry(c, q, s)
  {
    var k := 25 * c + q + LeapCarry(c, q, s);
    assert 1460 * k <= 36524 * c + 1461 * q + s < 1460 * k + 1460;
  }

  /** Day `s` of four-year cycle `q` of century `c` falls in year
      100c + 4q + y of the era. */
  lemma YearOfEraParts(doe: int, c: int, q: int, s: int)
    requires 0 <= c <= 3 && 0 <= q <= 24 && 0 <= s <= 1460
    requires 1461 * q + s < 36524 && doe == 36524 * c + 1461 * q + s
    ensures YearOfEra(doe) == 100 * c + 4 * q + (s - LeapCarry(c, q, s)) / 365
  {
    LeapDays(c, q, s);
    var ext := LeapCarry(c, q, s);
    assert doe / 36524 == c;
    assert doe / 146096 == 0;
    var y := (s - ext) / 365;
    assert 0 <= y <= 3 && 365 * y <= s - ext < 365 * y + 365;
    assert doe - doe / 1460 + doe / 36524 - doe / 146096
      == 365 * (100 * c + 4 * q + y) + (s - ext - 365 * y);
  }

  /** Year 100c + 4q + y of the era begins on day 36524c + 1461q + 365y. */
  lemma DayOfYearParts(doe: int, c: int, q: int, y: int)
    requires 0 <= c <= 3 && 0 <= q <= 24 && 0 <= y <= 3
    ensures DayOfYear(doe, 100 * c + 4 * q + y) == doe - (36524 * c + 1461 * q + 365 * y)
  {
    assert (100 * c + 4 * q + y) / 4 == 25 * c + q;
    assert (100 * c + 4 * q + y) / 100 == c;
  }

  lemma DayOfYearFromParts(doe: int, c: int, q: int, s: int)
    requires 0 <= c <= 3 && 0 <= q <= 24 && 0 <= s <= 1460
    requires 1461 * q + s < 36524 && doe == 36524 * c + 1461 * q + s
    ensures 0 <= YearOfEra(doe) <= 399 && 0 <= DayOfYear(doe, YearOfEra(doe)) <= 365
  {
    YearOfEraParts(doe, c, q, s);
    var ext := LeapCarry(c, q, s);
    var y := (s - ext) / 365;
    assert 0 <= y <= 3 && 365 * y <= s - ext < 365 * y + 365;
    DayOfYearParts(doe, c, q, y);
  }

  /** Within a 400-year era the year index is below 400 and the day of the
      year (counted from March 1) is below 366. */
  lemma DayOfYearBounds(doe: int)
    requires 0 <= doe <= 146096
    ensures 0 <= YearOfEra(doe) <= 399 && 0 <= DayOfYear(doe, YearOfEra(doe)) <= 365
  {
    if doe < 146096 {
      var c := doe / 36524;
      var r := doe - 36524 * c;
      assert 0 <= r < 36524;
      var q := r / 1461;
      assert 0 <= r - 1461 * q < 1461;
      DayOfYearFromParts(doe, c, q, r - 1461 * q);
    }
  }

  lemma MonthOfDay(doy: int)
    requires 0 <= doy <= 365
    ensures var mp := (5 * doy + 2) / 153;
      0 <= mp <= 11 && 1 <= doy - (153 * mp + 2) / 5 + 1 <= 31
  {
  }

  /** Every day count names a month 1..12 and a day of the month 1..31. */
  lemma CivilRange(days: int)
    ensures 1 <= CivilFromDays(days).1 <= 12 && 1 <= CivilFromDays(days).2 <= 31
  {
    var z := days + 719468;
    var era := z / 146097;
    var doe := z - era * 146097;
    DayOfYearBounds(doe);
    MonthOfDay(DayOfYear(doe, YearOfEra(doe)));
  }

  lemma EpochDay()
    ensures CivilFromDays(0) == (1970, 1, 1)
  {
    assert 719468 / 146097 == 4;
    assert YearOfEra(135080) == 369;
    assert (5 * 306 + 2) / 153 == 10;
  }

  lemma LeapDay2000()
    ensures CivilFromDays(11016) == (2000, 2, 29)
  {
    assert 730484 / 146097 == 4;
    assert YearOfEra(146096) == 399;
    assert (5 * 365 + 2) / 153 == 11;
  }

  /** The time of day of an instant, to the whole second. */
  function DayTime(t: int): (c: Time)
    ensures Valid(c) && c.nanosecond == 0
  {
    var secs := t % MsPerDay / MsPerSecond;
    Time(secs / 3600, secs / 60 % 60, secs % 60, 0)
  }

  lemma SplitSeconds(a: int, q: int, m: int)
    requires a == 1000 * q + m && 0 <= m < 1000
    ensures a / 1000 == q && a % 1000 == m
  {
  }

  lemma SplitDays(a: int, q: int, m: int)
    requires a == 86_400_000 * q + m && 0 <= m < 86_400_000
    ensures a / 86_400_000 == q && a % 86_400_000 == m
  {
  }

  /** Dropping the milliseconds keeps the second of the day. */
  lemma WholeSecondOfDay(t: int)
    ensures WholeSecond(t) % MsPerDay / MsPerSecond == t % MsPerDay / MsPerSecond
  {
    var k := t / 86_400_000;
    var r := t % 86_400_000;
    var j := r / 1000;
    var m := r % 1000;
    SplitSeconds(t, 86_400 * k + j, m);
    SplitDays(WholeSecond(t), k, 1000 * j);
    SplitSeconds(1000 * j, j, 0);
  }

  /** Dropping the milliseconds does not change the clock. */
  lemma WholeSecondClock(t: int)
    ensures DayTime(WholeSecond(t)) == DayTime(t)
  {
    WholeSecondOfDay(t);
  }

  /** "YYYY-MM-DD" of a day count. */
  function IsoDate(days: int): string {
    var (year, month, day) := CivilFromDays(days);
    SignedPad(year, 4) + "-" + SignedPad(month, 2) + "-" + SignedPad(day, 2)
  }

  /** ".ffffff" of the milliseconds within a second, or nothing for none. */
  function Fraction(ms: nat): string {
    if ms == 0 then "" else "." + ZeroPad(ms * 1000, 6)
  }

  /** `datetime.isoformat()` of the instant the store returns:
      "YYYY-MM-DDTHH:MM:SS", followed by ".ffffff" only when the
      sub-second part is not zero. */
  function IsoFormat(t: int): string {
    IsoDate(t / MsPerDay) + "T" + Clock(DayTime(t)) + Fraction(t % MsPerSecond)
  }

  function Pow10(w: nat): nat {
    if w == 0 then 1 else 10 * Pow10(w - 1)
  }

  /** A number below 10^w is written in exactly w digits. */
  lemma {:induction false} PadLength(n: nat, w: nat)
    requires 1 <= w && n < Pow10(w)
    ensures |ZeroPad(n, w)| == w && forall i :: 0 <= i < w ==> IsDigit(ZeroPad(n, w)[i])
  {
    if !(n < 10 && w <= 1) {
      PadLength(n / 10, w - 1);
    }
  }

  /** "YYYY-MM-DD": ten characters, dashes at 4 and 7, digits elsewhere. */
  lemma IsoDateShape(days: int)
    requires 1 <= CivilFromDays(days).0 <= 9999
    ensures var date := IsoDate(days);
      && |date| == 10 && date[4] == '-' && date[7] == '-'
      && (forall i :: 0 <= i < 10 && i != 4 && i != 7 ==> IsDigit(date[i]))
  {
    var (year, month, day) := CivilFromDays(days);
    CivilRange(days);
    PadLength(year, 4);
    PadLength(month, 2);
    PadLength(day, 2);
  }

  /** The shape of the creation dates in documents: 19 characters
      "YYYY-MM-DDTHH:MM:SS", the time part being the instant's clock text,
      and 26 with ".ffffff" when the instant is not a whole second. */
  lemma IsoShape(t: int)
    requires 1 <= CivilFromDays(t / MsPerDay).0 <= 9999
    ensures var s := IsoFormat(t);
      && |s| == (if t % MsPerSecond == 0 then 19 else 26)
      && s[4] == '-' && s[7] == '-' && s[10] == 'T'
      && (forall i :: 0 <= i < 10 && i != 4 && i != 7 ==> IsDigit(s[i]))
      && s[11..19] == Clock(DayTime(t))
      && (t % MsPerSecond != 0 ==> s[19] == '.')
  {
    var date := IsoDate(t / MsPerDay);
    IsoDateShape(t / MsPerDay);
    ClockShape(DayTime(t));
    var ms := t % MsPerSecond;
    if ms != 0 {
      PadLength(ms * 1000, 6);
    }
    var s := IsoFormat(t);
    assert s == date + "T" + Clock(DayTime(t)) + Fraction(ms);
    assert s[..10] == date;
  }

  /** A row written by create_activity, at a whole second, comes back with
      a creation date of exactly "YYYY-MM-DDTHH:MM:SS". */
  lemma WholeSecondIso(now: int)
    requires 1 <= CivilFromDays(WholeSecond(now) / MsPerDay).0 <= 9999
    ensures |IsoFormat(WholeSecond(now))| == 19
  {
    IsoShape(WholeSecond(now));
  }
}
