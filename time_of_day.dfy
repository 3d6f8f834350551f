/** Times of day as the daily report stores them: parsing the "HH:MM:SS"
    text a caller sends (Python's `datetime.strptime(s, "%H:%M:%S").time()`)
    and shaping a stored value back into text (`str(v).split('.')[0]`). */
module TimeOfDay {
  import opened Common

  /** A value of the store's TIME column: a time of day to the nanosecond. */
  datatype Time = Time(hour: nat, minute: nat, second: nat, nanosecond: nat)

  predicate Valid(t: Time) {
    t.hour < 24 && t.minute < 60 && t.second < 60 && t.nanosecond < 1_000_000_000
  }

  /** A value of Python's `datetime.time` can only hold a valid time. */
  type ClockTime = t: Time | Valid(t) witness Time(0, 0, 0, 0)

  /** A directive matched at the front of the text: its number and how many
      characters it took. */
  datatype Field = Field(value: nat, width: nat)

  function TwoDigitValue(s: string): nat
    requires |s| >= 2 && IsDigit(s[0]) && IsDigit(s[1])
  {
    10 * DigitValue(s[0]) + DigitValue(s[1])
  }

  /** `p` is one or two decimal digits that spell `n`. */
  predicate Spells(p: string, n: nat) {
    || (|p| == 1 && IsDigit(p[0]) && DigitValue(p[0]) == n)
    || (|p| == 2 && IsDigit(p[0]) && IsDigit(p[1]) && TwoDigitValue(p) == n)
  }

  /** `%H` matches `2[0-3]|[0-1]\d|\d`; the first alternative that matches wins. */
  function MatchHour(s: string): (f: Option<Field>)
    ensures f.Some? ==> 1 <= f.value.width <= 2 && f.value.width <= |s| && f.value.value < 24
    ensures f.Some? ==> Spells(s[..f.value.width], f.value.value)
  {
    if |s| >= 2 && ((s[0] == '2' && '0' <= s[1] <= '3') || ('0' <= s[0] <= '1' && IsDigit(s[1]))) then
      Some(Field(TwoDigitValue(s), 2))
    else if |s| >= 1 && IsDigit(s[0]) then Some(Field(DigitValue(s[0]), 1))
    else None
  }

  /** `%M` matches `[0-5]\d|\d`. */
  function MatchMinute(s: string): (f: Option<Field>)
    ensures f.Some? ==> 1 <= f.value.width <= 2 && f.value.width <= |s| && f.value.value < 60
    ensures f.Some? ==> Spells(s[..f.value.width], f.value.value)
  {
    if |s| >= 2 && '0' <= s[0] <= '5' && IsDigit(s[1]) then Some(Field(TwoDigitValue(s), 2))
    else if |s| >= 1 && IsDigit(s[0]) then Some(Field(DigitValue(s[0]), 1))
    else None
  }

  /** `%S` matches `6[0-1]|[0-5]\d|\d`: it admits 60 and 61, which the
      construction of the time value then rejects. */
  function MatchSecond(s: string): (f: Option<Field>)
    ensures f.Some? ==> 1 <= f.value.width <= 2 && f.value.width <= |s| && f.value.value < 62
    ensures f.Some? ==> Spells(s[..f.value.width], f.value.value)
  {
    if |s| >= 2 && ((s[0] == '6' && '0' <= s[1] <= '1') || ('0' <= s[0] <= '5' && IsDigit(s[1]))) then
      Some(Field(TwoDigitValue(s), 2))
    else if |s| >= 1 && IsDigit(s[0]) then Some(Field(DigitValue(s[0]), 1))
    else None
  }

  function NoMatch(s: string): string {
    "time data '" + s + "' does not match format '%H:%M:%S'"
  }

  function Unconverted(rest: string): string {
    "unconverted data remains: " + rest
  }

  const SecondOutOfRange := "second must be in 0..59"

  /** `datetime.strptime(s, "%H:%M:%S").time()`: the three fields must match
      in order, separated by colons, with nothing left over; the seconds
      must then be below 60. Any failure raises ValueError with the message
      given here. */
  function ParseTime(s: string): (r: Result<Time>)
    ensures r.Ok? ==> Valid(r.value) && r.value.nanosecond == 0
  {
    match MatchHour(s)
    case None => Err(NoMatch(s))
    case Some(h) => AfterHour(s, s[h.width..], h.value)
  }

  /** The rest of the parse once `%H` has read `hour`; `s1` is the text
      after the hour. */
  function AfterHour(s: string, s1: string, hour: nat): (r: Result<Time>)
    requires hour < 24
    ensures r.Ok? ==> Valid(r.value) && r.value.nanosecond == 0 && r.value.hour == hour
  {
    if s1 == [] || s1[0] != ':' then Err(NoMatch(s))
    else
      match MatchMinute(s1[1..])
      case None => Err(NoMatch(s))
      case Some(m) => AfterMinute(s, s1[1 + m.width..], hour, m.value)
  }

  /** The rest of the parse once `%M` has read `minute`; `s2` is the text
      after the minute. */
  function AfterMinute(s: string, s2: string, hour: nat, minute: nat): (r: Result<Time>)
    requires hour < 24 && minute < 60
    ensures r.Ok? ==> Valid(r.value) && r.value.nanosecond == 0 && r.value.hour == hour && r.value.minute == minute
  {
    if s2 == [] || s2[0] != ':' then Err(NoMatch(s))
    else
      match MatchSecond(s2[1..])
      case None => Err(NoMatch(s))
      case Some(sec) =>
        var rest := s2[1 + sec.width..];
        if rest != [] then Err(Unconverted(rest))
        else if sec.value > 59 then Err(SecondOutOfRange)
        else Ok(Time(hour, minute, sec.value, 0))
  }

  /** `str()` of the driver's time value: "HH:MM:SS.nnnnnnnnn". */
  function DriverText(t: Time): string {
    ZeroPad(t.hour, 2) + ":" + ZeroPad(t.minute, 2) + ":" + ZeroPad(t.second, 2) + "." + ZeroPad(t.nanosecond, 9)
  }

  /** `s.split('.')[0]`: the text before the first dot, or all of it. */
  function BeforeDot(s: string): string {
    if s == [] || s[0] == '.' then [] else [s[0]] + BeforeDot(s[1..])
  }

  /** The zero-padded "HH:MM:SS" form of a time, without any fraction. */
  function Clock(t: Time): string {
    ZeroPad(t.hour, 2) + ":" + ZeroPad(t.minute, 2) + ":" + ZeroPad(t.second, 2)
  }

  /** `str(v).split('.')[0] if v else None` on a stored, possibly absent,
      time (a present time value is always truthy). */
  function ShowTime(v: Option<Time>): Option<string> {
    match v
    case None => None
    case Some(t) => Some(BeforeDot(DriverText(t)))
  }

  lemma {:induction false} BeforeDotStops(a: string, b: string)
    requires forall i :: 0 <= i < |a| ==> a[i] != '.'
    ensures BeforeDot(a + "." + b) == a
  {
    if a == [] {
      assert a + "." + b == "." + b;
    } else {
      BeforeDotStops(a[1..], b);
      assert (a + "." + b)[1..] == a[1..] + "." + b;
    }
  }

  lemma ClockShape(t: Time)
    requires Valid(t)
    ensures var c := Clock(t);
      |c| == 8 && c[2] == ':' && c[5] == ':' &&
      IsDigit(c[0]) && IsDigit(c[1]) && IsDigit(c[3]) && IsDigit(c[4]) && IsDigit(c[6]) && IsDigit(c[7]) &&
      c[0] == DigitChar(t.hour / 10) && c[1] == DigitChar(t.hour % 10) &&
      c[3] == DigitChar(t.minute / 10) && c[4] == DigitChar(t.minute % 10) &&
      c[6] == DigitChar(t.second / 10) && c[7] == DigitChar(t.second % 10)
  {
    TwoDigits(t.hour);
    TwoDigits(t.minute);
    TwoDigits(t.second);
  }

  /** Shaping a stored time for output drops the fractional seconds: the
      result is the zero-padded "HH:MM:SS" text; an absent value stays absent. */
  lemma ShowDropsFraction(v: Option<Time>)
    requires v.Some? ==> Valid(v.value)
    ensures v.None? ==> ShowTime(v).None?
    ensures v.Some? ==> ShowTime(v) == Some(Clock(v.value)) && |Clock(v.value)| == 8
  {
    if v.Some? {
      var t := v.value;
      ClockShape(t);
      assert DriverText(t) == Clock(t) + "." + ZeroPad(t.nanosecond, 9);
      BeforeDotStops(Clock(t), ZeroPad(t.nanosecond, 9));
    }
  }

  /** The text a caller writes when it zero-pads every field. */
  predicate Canonical(s: string) {
    && |s| == 8 && s[2] == ':' && s[5] == ':'
    && IsDigit(s[0]) && IsDigit(s[1]) && IsDigit(s[3]) && IsDigit(s[4]) && IsDigit(s[6]) && IsDigit(s[7])
    && TwoDigitValue(s[0..2]) < 24 && TwoDigitValue(s[3..5]) < 60 && TwoDigitValue(s[6..8]) < 60
  }

  /** The clock text of a valid time is a canonical "HH:MM:SS" text. */
  lemma ClockCanonical(t: Time)
    requires Valid(t)
    ensures Canonical(Clock(t))
  {
    var c := Clock(t);
    ClockShape(t);
    assert TwoDigitValue(c[0..2]) == t.hour;
    assert TwoDigitValue(c[3..5]) == t.minute;
    assert TwoDigitValue(c[6..8]) == t.second;
  }

  /** A time written out as "HH:MM:SS" parses back to itself, less its
      fraction. */
  lemma ClockParses(t: Time)
    requires Valid(t)
    ensures ParseTime(Clock(t)) == Ok(t.(nanosecond := 0))
  {
    var c := Clock(t);
    ClockShape(t);
    assert MatchHour(c) == Some(Field(t.hour, 2));
    assert c[2..][1..] == c[3..];
    assert MatchMinute(c[3..]) == Some(Field(t.minute, 2));
    assert c[3..][2..] == c[5..];
    assert c[5..][1..] == c[6..];
    assert MatchSecond(c[6..]) == Some(Field(t.second, 2));
    assert c[6..][2..] == [];
  }

  /** Two digits read as a number and written back give the same digits. */
  lemma DigitsBack(c0: char, c1: char)
    requires IsDigit(c0) && IsDigit(c1)
    ensures var n := 10 * DigitValue(c0) + DigitValue(c1);
      DigitChar(n / 10) == c0 && DigitChar(n % 10) == c1
  {
  }

  /** The time a canonical text parses to. */
  function CanonicalTime(s: string): Time
    requires Canonical(s)
  {
    Time(TwoDigitValue(s[0..2]), TwoDigitValue(s[3..5]), TwoDigitValue(s[6..8]), 0)
  }

  lemma CanonicalParses(s: string)
    requires Canonical(s)
    ensures ParseTime(s) == Ok(CanonicalTime(s))
  {
    var t := CanonicalTime(s);
    assert MatchHour(s) == Some(Field(t.hour, 2));
    assert s[2..][1..] == s[3..];
    assert MatchMinute(s[3..]) == Some(Field(t.minute, 2));
    assert s[3..][2..] == s[5..];
    assert s[5..][1..] == s[6..];
    assert MatchSecond(s[6..]) == Some(Field(t.second, 2));
    assert s[6..][2..] == [];
  }

  lemma CanonicalClock(s: string)
    requires Canonical(s)
    ensures Clock(CanonicalTime(s)) == s
  {
    var t := CanonicalTime(s);
    ClockShape(t);
    DigitsBack(s[0], s[1]);
    DigitsBack(s[3], s[4]);
    DigitsBack(s[6], s[7]);
    var c := Clock(t);
    assert forall i | 0 <= i < 8 :: c[i] == s[i];
  }

  /** A canonical "HH:MM:SS" text that is stored and read back comes back
      as the same text. */
  lemma CanonicalRoundTrip(s: string)
    requires Canonical(s)
    ensures ParseTime(s).Ok? && ShowTime(Some(ParseTime(s).value)) == Some(s)
  {
    CanonicalParses(s);
    ShowDropsFraction(Some(CanonicalTime(s)));
    CanonicalClock(s);
  }

  // ---------------------------------------------------------------------
  // Which texts parse, and what the failures are.

  /** What a successful parse read: the text is the hour, minute and second
      of the result, each as one or two digits, joined by colons. */
  lemma ParsedSpelling(s: string)
    requires ParseTime(s).Ok?
    ensures var t := ParseTime(s).value;
      exists hs, ms, ss :: s == hs + ":" + ms + ":" + ss && Spells(hs, t.hour) && Spells(ms, t.minute) && Spells(ss, t.second)
  {
    var t := ParseTime(s).value;
    var h := MatchHour(s).value;
    var s1 := s[h.width..];
    var m := MatchMinute(s1[1..]).value;
    var s2 := s1[1 + m.width..];
    var sec := MatchSecond(s2[1..]).value;
    var hs, ms, ss := s[..h.width], s1[1..][..m.width], s2[1..][..sec.width];
    assert s2[1..] == ss;
    assert s2 == ":" + ss;
    assert s1[1..] == ms + s2;
    assert s1 == ":" + ms + ":" + ss;
    assert s == hs + ":" + ms + ":" + ss;
  }

  /** One or two digits below `bound` read as one field, whatever follows
      them, as long as a single digit is not followed by another digit. */
  ghost predicate FieldEnds(p: string, rest: string) {
    |p| == 2 || rest == [] || !IsDigit(rest[0])
  }

  lemma HourSpelled(p: string, rest: string, n: nat)
    requires Spells(p, n) && n < 24 && FieldEnds(p, rest)
    ensures MatchHour(p + rest) == Some(Field(n, |p|))
  {
    var s := p + rest;
    assert s[0] == p[0];
    if |p| == 2 {
      assert s[1] == p[1];
    } else if rest != [] {
      assert s[1] == rest[0];
    }
  }

  lemma MinuteSpelled(p: string, rest: string, n: nat)
    requires Spells(p, n) && n < 60 && FieldEnds(p, rest)
    ensures MatchMinute(p + rest) == Some(Field(n, |p|))
  {
    var s := p + rest;
    assert s[0] == p[0];
    if |p| == 2 {
      assert s[1] == p[1];
    } else if rest != [] {
      assert s[1] == rest[0];
    }
  }

  lemma SecondSpelled(p: string, rest: string, n: nat)
    requires Spells(p, n) && n < 62 && FieldEnds(p, rest)
    ensures MatchSecond(p + rest) == Some(Field(n, |p|))
  {
    var s := p + rest;
    assert s[0] == p[0];
    if |p| == 2 {
      assert s[1] == p[1];
    } else if rest != [] {
      assert s[1] == rest[0];
    }
  }

  lemma HourStage(hs: string, s1: string, h: nat)
    requires Spells(hs, h) && h < 24 && s1 != [] && s1[0] == ':'
    ensures ParseTime(hs + s1) == AfterHour(hs + s1, s1, h)
  {
    HourSpelled(hs, s1, h);
    assert (hs + s1)[|hs|..] == s1;
  }

  lemma MinuteStage(s: string, ms: string, s2: string, h: nat, m: nat)
    requires Spells(ms, m) && h < 24 && m < 60 && s2 != [] && s2[0] == ':'
    ensures AfterHour(s, [':'] + (ms + s2), h) == AfterMinute(s, s2, h, m)
  {
    var s1 := [':'] + (ms + s2);
    assert s1[1..] == ms + s2;
    MinuteSpelled(ms, s2, m);
    assert (ms + s2)[|ms|..] == s2;
  }

  lemma SecondStage(s: string, ss: string, x: string, h: nat, m: nat, sec: nat)
    requires Spells(ss, sec) && h < 24 && m < 60 && sec < 62 && FieldEnds(ss, x)
    ensures x != [] ==> AfterMinute(s, [':'] + (ss + x), h, m) == Err(Unconverted(x))
    ensures x == [] && sec < 60 ==> AfterMinute(s, [':'] + (ss + x), h, m) == Ok(Time(h, m, sec, 0))
    ensures x == [] && 60 <= sec ==> AfterMinute(s, [':'] + (ss + x), h, m) == Err(SecondOutOfRange)
  {
    var s2 := [':'] + (ss + x);
    assert s2[1..] == ss + x;
    SecondSpelled(ss, x, sec);
    assert (ss + x)[|ss|..] == x;
  }

  /** A text that spells an hour, a minute and a second in range, joined by
      colons, parses to that time; anything after the seconds is
      unconverted data; a second of 60 or 61 is out of range. */
  lemma SpelledParses(hs: string, ms: string, ss: string, x: string, h: nat, m: nat, sec: nat)
    requires Spells(hs, h) && Spells(ms, m) && Spells(ss, sec) && h < 24 && m < 60 && sec < 62
    requires FieldEnds(ss, x)
    ensures var s := hs + ":" + ms + ":" + ss + x;
      && (x != [] ==> ParseTime(s) == Err(Unconverted(x)))
      && (x == [] && sec < 60 ==> ParseTime(s) == Ok(Time(h, m, sec, 0)))
      && (x == [] && 60 <= sec ==> ParseTime(s) == Err(SecondOutOfRange))
  {
    var s2 := [':'] + (ss + x);
    var s1 := [':'] + (ms + s2);
    var s := hs + s1;
    assert hs + ":" + ms + ":" + ss + x == s;
    HourStage(hs, s1, h);
    MinuteStage(s, ms, s2, h, m);
    SecondStage(s, ss, x, h, m, sec);
  }

  /** A canonical time followed by anything at all leaves that text
      unconverted. */
  lemma CanonicalTrailing(c: string, x: string)
    requires Canonical(c) && x != []
    ensures ParseTime(c + x) == Err(Unconverted(x))
  {
    var hs, ms, ss := c[0..2], c[3..5], c[6..8];
    assert c == hs + ":" + ms + ":" + ss;
    SpelledParses(hs, ms, ss, x, TwoDigitValue(hs), TwoDigitValue(ms), TwoDigitValue(ss));
  }

  /** Two digits that make an hour of 24 or more match no format: `%H`
      takes only the first digit, and a digit then stands where the colon
      must be. */
  lemma HourTooLarge(s: string)
    requires |s| >= 2 && IsDigit(s[0]) && IsDigit(s[1]) && TwoDigitValue(s) >= 24
    ensures ParseTime(s) == Err(NoMatch(s))
  {
    assert MatchHour(s) == Some(Field(DigitValue(s[0]), 1));
  }

  /** The same for a minute of 60 or more after a valid hour. */
  lemma MinuteTooLarge(hs: string, rest: string, h: nat)
    requires Spells(hs, h) && h < 24
    requires |rest| >= 2 && IsDigit(rest[0]) && IsDigit(rest[1]) && TwoDigitValue(rest) >= 60
    ensures ParseTime(hs + ":" + rest) == Err(NoMatch(hs + ":" + rest))
  {
    var s1 := [':'] + rest;
    assert hs + ":" + rest == hs + s1;
    HourStage(hs, s1, h);
    assert s1[1..] == rest;
    assert MatchMinute(rest) == Some(Field(DigitValue(rest[0]), 1));
  }


  /** Two digits that make a second of 62 or more: `%S` takes the first
      digit, and the rest is unconverted data. */
  lemma SecondTooLarge(hs: string, ms: string, rest: string, h: nat, m: nat)
    requires Spells(hs, h) && Spells(ms, m) && h < 24 && m < 60
    requires |rest| >= 2 && IsDigit(rest[0]) && IsDigit(rest[1]) && TwoDigitValue(rest) >= 62
    ensures ParseTime(hs + ":" + ms + ":" + rest) == Err(Unconverted(rest[1..]))
  {
    var s2 := [':'] + rest;
    var s1 := [':'] + (ms + s2);
    var s := hs + s1;
    assert hs + ":" + ms + ":" + rest == s;
    HourStage(hs, s1, h);
    MinuteStage(s, ms, s2, h, m);
    assert s2[1..] == rest;
    assert MatchSecond(rest) == Some(Field(DigitValue(rest[0]), 1));
  }

}
