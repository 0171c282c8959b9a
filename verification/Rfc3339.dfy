/** The instant that a time stamp denotes (section 5.6 of RFC 3339). */
module Rfc3339 {
  import opened Common
  import opened LineScan

  // ----------------------------------------------------------------------- calendar

  predicate IsLeap(y: nat) {
    y % 4 == 0 && (y % 100 != 0 || y % 400 == 0)
  }

  function DaysIn(y: nat, m: nat): nat
    requires 1 <= m <= 12
  {
    if m == 2 then (if IsLeap(y) then 29 else 28) else if m == 4 || m == 6 || m == 9 || m == 11 then 30 else 31
  }

  predicate IsDate(y: nat, m: nat, d: nat) {
    y <= 9999 && 1 <= m <= 12 && 1 <= d <= DaysIn(y, m)
  }

  /** The days of the year before a month. */
  function DaysBefore(y: nat, m: nat): nat
    requires 1 <= m <= 12
  {
    if m == 1 then 0 else DaysBefore(y, m - 1) + DaysIn(y, m - 1)
  }

  /** Days since the first day of the year 0. */
  function DayNumber(y: nat, m: nat, d: nat): int
    requires IsDate(y, m, d)
  {
    365 * y + (y + 3) / 4 - (y + 99) / 100 + (y + 399) / 400 + DaysBefore(y, m) + d - 1
  }

  /** The day after a date. */
  function NextDay(y: nat, m: nat, d: nat): (nat, nat, nat)
    requires IsDate(y, m, d)
  {
    if d < DaysIn(y, m) then (y, m, d + 1) else if m < 12 then (y, m + 1, 1) else (y + 1, 1, 1)
  }

  /** Day numbers count the days of the calendar one by one. */
  lemma DaysAreCounted(y: nat, m: nat, d: nat)
    requires IsDate(y, m, d) && (y, m, d) != (9999, 12, 31)
    ensures
      var (y', m', d') := NextDay(y, m, d);
      IsDate(y', m', d') && DayNumber(y', m', d') == DayNumber(y, m, d) + 1
  {
    if d == DaysIn(y, m) && m == 12 {
      YearLength(y);
    }
  }

  lemma YearLength(y: nat)
    ensures DaysBefore(y, 12) + 31 == if IsLeap(y) then 366 else 365
    ensures (y + 4) / 4 - (y + 100) / 100 + (y + 400) / 400
            == (y + 3) / 4 - (y + 99) / 100 + (y + 399) / 400 + if IsLeap(y) then 1 else 0
  {
    assert DaysBefore(y, 2) == 31;
    assert DaysBefore(y, 3) == 31 + DaysIn(y, 2);
    assert DaysBefore(y, 5) == DaysBefore(y, 3) + 61;
    assert DaysBefore(y, 7) == DaysBefore(y, 5) + 61;
    assert DaysBefore(y, 9) == DaysBefore(y, 7) + 62;
    assert DaysBefore(y, 11) == DaysBefore(y, 9) + 61;
    assert DaysBefore(y, 12) == DaysBefore(y, 11) + 30;
    StartsIn(y, 4);
    StartsIn(y, 100);
    StartsIn(y, 400);
    Hundreds(y);
  }

  lemma Hundreds(y: nat)
    ensures y % 400 == 0 ==> y % 100 == 0
    ensures y % 100 == 0 ==> y % 4 == 0
  {
    if y % 100 == 0 {
      assert y == 4 * (25 * (y / 100));
    }
    if y % 400 == 0 {
      assert y == 100 * (4 * (y / 400));
    }
  }

  /** Rounding up moves on exactly at the multiples. */
  lemma StartsIn(y: nat, k: nat)
    requires k == 4 || k == 100 || k == 400
    ensures (y + k) / k == (y + k - 1) / k + if y % k == 0 then 1 else 0
  {
  }

  // ------------------------------------------------------------------------ reading

  predicate DigitsAt(s: string, i: nat, n: nat)
    requires i + n <= |s|
  {
    forall k :: i <= k < i + n ==> IsDigit(s[k])
  }

  function Two(s: string, i: nat): nat
    requires i + 2 <= |s| && DigitsAt(s, i, 2)
  {
    (s[i] - '0') as int * 10 + (s[i + 1] - '0') as int
  }

  /** Year, month and day, as a day number. */
  function ReadDate(s: string): Option<int> {
    if |s| != 10 || !DigitsAt(s, 0, 4) || s[4] != '-' || !DigitsAt(s, 5, 2) || s[7] != '-' || !DigitsAt(s, 8, 2) then None
    else
      var y, m, d := Two(s, 0) * 100 + Two(s, 2), Two(s, 5), Two(s, 8);
      if IsDate(y, m, d) then Some(DayNumber(y, m, d)) else None
  }

  /** The separator and hour, minute and second. */
  function ReadTime(s: string): Option<(nat, nat, nat)> {
    if |s| != 9 || (s[0] != 'T' && s[0] != 't' && s[0] != ' ')
       || !DigitsAt(s, 1, 2) || s[3] != ':' || !DigitsAt(s, 4, 2) || s[6] != ':' || !DigitsAt(s, 7, 2) then None
    else
      var h, m, sec := Two(s, 1), Two(s, 4), Two(s, 7);
      if h <= 23 && m <= 59 && sec <= 60 then Some((h, m, sec)) else None
  }

  /** The offset from UTC in minutes. */
  function ReadZone(s: string): Option<int> {
    if s == "Z" || s == "z" then Some(0)
    else if |s| != 6 || (s[0] != '+' && s[0] != '-') || !DigitsAt(s, 1, 2) || s[3] != ':' || !DigitsAt(s, 4, 2) then None
    else
      var h, m := Two(s, 1), Two(s, 4);
      if h > 23 || m > 59 then None else Some(if s[0] == '+' then h * 60 + m else -(h * 60 + m))
  }

  /** Nanoseconds; digits beyond the ninth are dropped. */
  function Nanoseconds(digits: string): nat {
    if |digits| > 9 then Value(digits[..9]) else Value(digits) * Power10(9 - |digits|)
  }

  function Power10(n: nat): nat {
    if n == 0 then 1 else 10 * Power10(n - 1)
  }

  /** How many digits of a fraction follow the seconds, if a point does. */
  function FractionLength(rest: string): Option<nat> {
    if |rest| == 0 || rest[0] != '.' then Some(0)
    else if DigitRun(rest[1..]) == 0 then None
    else Some(DigitRun(rest[1..]))
  }

  const TICKS: int := 2_000_000_000

  /** A position on the time line. Every second has room for a leap second after it. */
  function At(day: int, h: nat, m: nat, s: nat, nanos: nat, zone: int): int {
    (((day * 24 + h) * 60 + m - zone) * 60 + (if s == 60 then 59 else s)) * TICKS
    + (if s == 60 then TICKS / 2 else 0) + nanos
  }

  /** The instant of a stamp, if it is one. */
  function Instant(text: string): Option<int> {
    if |text| < 19 then None
    else
      var date, time, rest := ReadDate(text[..10]), ReadTime(text[10..19]), text[19..];
      match FractionLength(rest)
      case None => None
      case Some(n) =>
        var digits := if n == 0 then "" else rest[1..1 + n];
        var zone := ReadZone(if n == 0 then rest else rest[1 + n..]);
        if date.None? || time.None? || zone.None? then None
        else Some(At(date.value, time.value.0, time.value.1, time.value.2, Nanoseconds(digits), zone.value))
  }

  // ------------------------------------------------------------------------ writing

  function Digit(n: nat): char
    requires n < 10
  {
    '0' + n as char
  }

  function TwoDigits(n: nat): (r: string)
    requires n < 100
    ensures |r| == 2
  {
    [Digit(n / 10), Digit(n % 10)]
  }

  function WriteDate(y: nat, m: nat, d: nat): string
    requires IsDate(y, m, d)
  {
    TwoDigits(y / 100) + TwoDigits(y % 100) + "-" + TwoDigits(m) + "-" + TwoDigits(d)
  }

  function WriteTime(h: nat, m: nat, s: nat): string
    requires h <= 23 && m <= 59 && s <= 60
  {
    "T" + TwoDigits(h) + ":" + TwoDigits(m) + ":" + TwoDigits(s)
  }

  function WriteZone(zone: int): string
    requires -1440 < zone < 1440
  {
    if zone < 0 then "-" + TwoDigits(-zone / 60) + ":" + TwoDigits(-zone % 60)
    else "+" + TwoDigits(zone / 60) + ":" + TwoDigits(zone % 60)
  }

  lemma DigitValue(n: nat)
    requires n < 10
    ensures IsDigit(Digit(n)) && (Digit(n) - '0') as int == n
  {
  }

  lemma TwoOf(s: string, i: nat, n: nat)
    requires n < 100 && i + 2 <= |s| && s[i..i + 2] == TwoDigits(n)
    ensures DigitsAt(s, i, 2) && Two(s, i) == n
  {
    DigitValue(n / 10);
    DigitValue(n % 10);
    assert s[i] == s[i..i + 2][0] && s[i + 1] == s[i..i + 2][1];
    hide Digit, IsDigit;
  }

  lemma DateIsRead(y: nat, m: nat, d: nat)
    requires IsDate(y, m, d)
    ensures |WriteDate(y, m, d)| == 10 && ReadDate(WriteDate(y, m, d)) == Some(DayNumber(y, m, d))
  {
    var s := WriteDate(y, m, d);
    hide TwoDigits;
    assert s[0..2] == TwoDigits(y / 100) && s[2..4] == TwoDigits(y % 100) && s[5..7] == TwoDigits(m) && s[8..10] == TwoDigits(d);
    TwoOf(s, 0, y / 100);
    TwoOf(s, 2, y % 100);
    TwoOf(s, 5, m);
    TwoOf(s, 8, d);
    hide Two, IsDigit, DayNumber;
  }

  lemma TimeIsRead(h: nat, m: nat, s: nat)
    requires h <= 23 && m <= 59 && s <= 60
    ensures |WriteTime(h, m, s)| == 9 && ReadTime(WriteTime(h, m, s)) == Some((h, m, s))
  {
    var t := WriteTime(h, m, s);
    hide TwoDigits;
    assert t[1..3] == TwoDigits(h) && t[4..6] == TwoDigits(m) && t[7..9] == TwoDigits(s);
    TwoOf(t, 1, h);
    TwoOf(t, 4, m);
    TwoOf(t, 7, s);
    hide Two, IsDigit;
  }

  lemma ZoneIsRead(zone: int)
    requires -1440 < zone < 1440
    ensures |WriteZone(zone)| == 6 && ReadZone(WriteZone(zone)) == Some(zone)
  {
    var s := WriteZone(zone);
    var n := if zone < 0 then -zone else zone;
    TwoOf(s, 1, n / 60);
    TwoOf(s, 4, n % 60);
    hide Two, TwoDigits, IsDigit;
  }

  /** A stamp written from its fields denotes their instant. */
  lemma WrittenIsRead(y: nat, m: nat, d: nat, h: nat, min: nat, s: nat, zone: int)
    requires IsDate(y, m, d) && h <= 23 && min <= 59 && s <= 60 && -1440 < zone < 1440
    ensures Instant(WriteDate(y, m, d) + WriteTime(h, min, s) + WriteZone(zone))
            == Some(At(DayNumber(y, m, d), h, min, s, 0, zone))
  {
    DateIsRead(y, m, d);
    TimeIsRead(h, min, s);
    ZoneIsRead(zone);
    var zoneText := WriteZone(zone);
    var text := WriteDate(y, m, d) + WriteTime(h, min, s) + zoneText;
    assert zoneText[0] != '.';
    hide WriteDate, WriteTime, WriteZone, ReadDate, ReadTime, ReadZone, DayNumber, At;
    assert text[..10] == WriteDate(y, m, d) && text[10..19] == WriteTime(h, min, s) && text[19..] == zoneText;
    assert Nanoseconds("") == 0;
  }

  // -------------------------------------------------------------------- the time line

  /** On the clock of UTC, later dates, hours, minutes, seconds and fractions are later
      instants; second 60 lies between 59 and the next minute. */
  lemma LaterIsGreater(day: int, h: nat, m: nat, s: nat, nanos: nat, day': int, h': nat, m': nat, s': nat, nanos': nat)
    requires h <= 23 && m <= 59 && s <= 60 && nanos < 1_000_000_000
    requires h' <= 23 && m' <= 59 && s' <= 60 && nanos' < 1_000_000_000
    ensures At(day, h, m, s, nanos, 0) < At(day', h', m', s', nanos', 0) <==>
            day < day' || (day == day' && (h < h' || (h == h' && (m < m' || (m == m' && (s < s' || (s == s' && nanos < nanos')))))))
  {
    var minutes, minutes' := (day * 24 + h) * 60 + m, (day' * 24 + h') * 60 + m';
    assert minutes < minutes' <==> day < day' || (day == day' && (h < h' || (h == h' && m < m')));
  }

  /** An offset moves the clock: local time minus the offset is UTC. */
  lemma OffsetIsSubtracted(day: int, h: nat, m: nat, s: nat, nanos: nat, zone: int, day': int, h': nat, m': nat)
    requires (day * 24 + h) * 60 + m - zone == (day' * 24 + h') * 60 + m'
    ensures At(day, h, m, s, nanos, zone) == At(day', h', m', s, nanos, 0)
  {
  }

  lemma {:induction false} FractionRun(digits: string, zone: int)
    requires DigitsBefore(digits, |digits|) && -1440 < zone < 1440
    ensures DigitRun(digits + WriteZone(zone)) == |digits|
  {
    var text := digits + WriteZone(zone);
    assert !IsDigit(WriteZone(zone)[0]);
    hide WriteZone, IsDigit;
    ZoneIsRead(zone);
    DigitRunIs(text, |digits|);
  }

  /** A fraction of one digit or more is read to the nanosecond. */
  lemma FractionIsRead(y: nat, mo: nat, d: nat, h: nat, min: nat, s: nat, digits: string, zone: int)
    requires IsDate(y, mo, d) && h <= 23 && min <= 59 && s <= 60 && -1440 < zone < 1440
    requires |digits| > 0 && DigitsBefore(digits, |digits|)
    ensures Instant(WriteDate(y, mo, d) + WriteTime(h, min, s) + ("." + (digits + WriteZone(zone))))
            == Some(At(DayNumber(y, mo, d), h, min, s, Nanoseconds(digits), zone))
  {
    DateIsRead(y, mo, d);
    TimeIsRead(h, min, s);
    ZoneIsRead(zone);
    FractionRun(digits, zone);
    hide *;
    PartsAreRead(WriteDate(y, mo, d), WriteTime(h, min, s), digits, WriteZone(zone));
  }

  lemma PartsAreRead(date: string, time: string, digits: string, zone: string)
    requires |date| == 10 && |time| == 9 && |digits| > 0 && DigitRun(digits + zone) == |digits|
    requires ReadDate(date).Some? && ReadTime(time).Some? && ReadZone(zone).Some?
    ensures Instant(date + time + ("." + (digits + zone)))
            == Some(At(ReadDate(date).value, ReadTime(time).value.0, ReadTime(time).value.1, ReadTime(time).value.2,
                       Nanoseconds(digits), ReadZone(zone).value))
  {
    hide ReadDate, ReadTime, ReadZone, At, DigitRun, Nanoseconds;
    var rest := "." + (digits + zone);
    var text := date + time + rest;
    assert text[..10] == date && text[10..19] == time && text[19..] == rest;
    assert rest[1..] == digits + zone;
    assert rest[1..1 + |digits|] == digits && rest[1 + |digits|..] == zone;
  }

  /** Digits after the point count tenths, hundredths and so on, down to the ninth. */
  lemma NanosecondsAre(digits: string)
    ensures |digits| == 9 ==> Nanoseconds(digits) == Value(digits)
    ensures |digits| == 1 ==> Nanoseconds(digits) == Value(digits) * 100_000_000
    ensures |digits| == 3 ==> Nanoseconds(digits) == Value(digits) * 1_000_000
    ensures |digits| == 6 ==> Nanoseconds(digits) == Value(digits) * 1_000
    ensures |digits| > 9 ==> Nanoseconds(digits) == Nanoseconds(digits[..9])
  {
    Powers();
    hide Value, Power10;
  }

  lemma Powers()
    ensures Power10(0) == 1 && Power10(3) == 1_000 && Power10(6) == 1_000_000 && Power10(8) == 100_000_000
  {
    assert Power10(2) == 100;
    assert Power10(4) == 10_000;
    assert Power10(6) == 1_000_000;
  }
}
