/** The dates and instants of snapshot keys on the calendar and the clock
    (ingestion/jobs/rental_history_snapshot_policy.py, collect_rental_history_raw.py). */
module KeyMeaning {
  import opened Basics
  import opened ManifestKey

  const MONTHS: seq<int> := [31, 28, 31, 30, 31, 30, 31, 31, 30, 31, 30, 31]

  predicate LeapYear(year: int) {
    if year % 100 == 0 then year % 400 == 0 else year % 4 == 0
  }

  function LastDay(year: int, month: int): int
    requires 1 <= month <= 12
  {
    if month == 2 && LeapYear(year) then 29 else MONTHS[month - 1]
  }

  /** The dates that exist, month by month. */
  lemma DatesOfTheCalendar(d: Date)
    ensures RealDate(d) <==> 1 <= d.year <= 9999 && 1 <= d.month <= 12 && 1 <= d.day <= LastDay(d.year, d.month)
  {
  }

  function Tomorrow(d: Date): Date
    requires 1 <= d.month <= 12
  {
    if d.day < LastDay(d.year, d.month) then d.(day := d.day + 1)
    else if d.month < 12 then Date(d.year, d.month + 1, 1)
    else Date(d.year + 1, 1, 1)
  }

  lemma LastDayIs(year: int, month: int)
    requires 1 <= month <= 12
    ensures DaysIn(year, month) == LastDay(year, month)
  {
  }

  lemma YearBegins(year: int)
    ensures DaysBeforeMonth(year, 1) == 0
    ensures Ordinal(Date(1, 1, 1)) == 1
  {
  }

  lemma MonthFollows(year: int, month: int)
    requires 1 <= month
    ensures DaysBeforeMonth(year, month + 1) == DaysBeforeMonth(year, month) + DaysIn(year, month)
  {
  }

  lemma DecemberEnds(year: int, december: int)
    requires december == 12
    ensures DaysBeforeMonth(year, december) == if Leap(year) then 335 else 334
  {
    MonthsOfYear(year);
  }

  lemma InJanuary(year: int)
    ensures Ordinal(Date(year, 1, 1)) == (year - 1) * 365 + LeapDays(year - 1) + 1
  {
    hide LeapDays;
  }

  lemma InMonth(year: int, month: int, day: int)
    ensures Ordinal(Date(year, month, day)) == (year - 1) * 365 + LeapDays(year - 1) + DaysBeforeMonth(year, month) + day
  {
    hide LeapDays, DaysBeforeMonth;
  }

  lemma YearFollows(year: int, december: int)
    requires december == 12
    ensures Ordinal(Date(year + 1, 1, 1)) == Ordinal(Date(year, december, 31)) + 1
  {
    hide LeapDays, DaysBeforeMonth, Ordinal, Leap;
    YearAddsUp(year);
    InJanuary(year);
    InMonth(year, december, 31);
    DecemberEnds(year, december);
  }

  /** Day numbers count the calendar: 1 for the first day of year 1, and one more each day. */
  lemma DaysAreCounted(d: Date)
    requires RealDate(d)
    ensures Ordinal(Date(1, 1, 1)) == 1
    ensures Ordinal(Tomorrow(d)) == Ordinal(d) + 1
  {
    hide LeapDays, DaysBeforeMonth, LastDay, DaysIn, Leap, LeapYear, Ordinal;
    YearBegins(d.year);
    LastDayIs(d.year, d.month);
    InMonth(d.year, d.month, d.day);
    if d.day < LastDay(d.year, d.month) {
      InMonth(d.year, d.month, d.day + 1);
    } else if d.month < 12 {
      MonthFollows(d.year, d.month);
      InMonth(d.year, d.month + 1, 1);
    } else {
      DecemberLasts(d.year, d.month);
      YearFollows(d.year, d.month);
    }
  }

  lemma DecemberLasts(year: int, december: int)
    requires december == 12
    ensures DaysIn(year, december) == 31
  {
  }

  /** Every second of a day has its time, and midnight follows the last one. */
  lemma SecondsAreCounted(d: Date, n: int)
    requires RealDate(d) && 0 <= n < 86400
    ensures RealTime(n / 3600, n % 3600 / 60, n % 60)
    ensures InstantOf(Stamp(d, n / 3600, n % 3600 / 60, n % 60)) == InstantOf(Stamp(d, 0, 0, 0)) + n
    ensures InstantOf(Stamp(Tomorrow(d), 0, 0, 0)) == InstantOf(Stamp(d, 23, 59, 59)) + 1
  {
    hide Ordinal, Tomorrow, InstantOf;
    DaysAreCounted(d);
    Decomposed(n);
    OnTheClock(d, n / 3600, n % 3600 / 60, n % 60);
    OnTheClock(d, 23, 59, 59);
    OnTheClock(Tomorrow(d), 0, 0, 0);
  }

  lemma OnTheClock(d: Date, hour: int, minute: int, second: int)
    ensures InstantOf(Stamp(d, hour, minute, second)) == Ordinal(d) * 86400 + hour * 3600 + minute * 60 + second
    ensures InstantOf(Stamp(d, 0, 0, 0)) == Ordinal(d) * 86400
  {
    hide Ordinal;
  }

  lemma Decomposed(n: int)
    requires 0 <= n < 86400
    ensures 0 <= n / 3600 < 24 && 0 <= n % 3600 / 60 < 60 && 0 <= n % 60 < 60
    ensures n == n / 3600 * 3600 + n % 3600 / 60 * 60 + n % 60
  {
    var m := n % 3600;
    assert n == n / 3600 * 3600 + m;
    assert m == m / 60 * 60 + m % 60;
    assert n % 60 == m % 60;
  }

  /** A key's time may be printed in any offset. */
  function OffsetText(t: Stamp, east: bool, hours: int, minutes: int): string
    requires RealStamp(t) && 0 <= hours < 100 && 0 <= minutes < 100
  {
    Four(t.date.year) + Two(t.date.month) + Two(t.date.day) + "T" + Two(t.hour) + Two(t.minute) + Two(t.second)
    + (if east then "+" else "-") + Two(hours) + Two(minutes)
  }

  /** Read back, it is the instant that many minutes from the Korean time, and nothing for an offset of a
      day or more or of sixty minutes or more. */
  lemma AnyOffsetIsRead(t: Stamp, east: bool, hours: int, minutes: int)
    requires RealStamp(t) && 0 <= hours < 100 && 0 <= minutes < 100
    ensures |OffsetText(t, east, hours, minutes)| == 20 && StampShape(OffsetText(t, east, hours, minutes))
    ensures ReadInstant(OffsetText(t, east, hours, minutes))
         == if hours >= 24 || minutes >= 60 then None
            else if east then Some(InstantOf(t) + (9 * 60 - (hours * 60 + minutes)) * 60)
            else Some(InstantOf(t) + (9 * 60 + (hours * 60 + minutes)) * 60)
  {
    hide Four, Two, ReadFour, ReadTwo, Instant, InstantOf, OffsetText, RealStamp, StampShape, StampDigits;
    OffsetDigitsRead(t, east, hours, minutes);
    InstantShifts(t, if east then hours * 3600 + minutes * 60 else -(hours * 3600 + minutes * 60));
  }

  lemma OffsetDigitsRead(t: Stamp, east: bool, hours: int, minutes: int)
    requires RealStamp(t) && 0 <= hours < 100 && 0 <= minutes < 100
    ensures var s := OffsetText(t, east, hours, minutes);
            && |s| == 20 && StampShape(s) && StampDigits(s) == t && (s[15] == '+' <==> east)
            && ReadTwo(s[16..18]) == Some(hours) && ReadTwo(s[18..20]) == Some(minutes)
  {
    ReadFourPrinted(t.date.year);
    ReadTwoPrinted(t.date.month);
    ReadTwoPrinted(t.date.day);
    ReadTwoPrinted(t.hour);
    ReadTwoPrinted(t.minute);
    ReadTwoPrinted(t.second);
    ReadTwoPrinted(hours);
    ReadTwoPrinted(minutes);
    OffsetSlices(t, east, hours, minutes);
    hide Four, Two, ReadFour, ReadTwo, OffsetText, RealDate;
  }

  lemma InstantShifts(t: Stamp, offset: int)
    ensures Instant(t, offset) == InstantOf(t) + 32400 - offset
  {
    hide Ordinal;
  }

  lemma OffsetSlices(t: Stamp, east: bool, hours: int, minutes: int)
    requires RealStamp(t) && 0 <= hours < 100 && 0 <= minutes < 100
    ensures var s := OffsetText(t, east, hours, minutes);
            && |s| == 20 && s[..4] == Four(t.date.year) && s[4..6] == Two(t.date.month) && s[6..8] == Two(t.date.day)
            && s[8] == 'T' && s[9..11] == Two(t.hour) && s[11..13] == Two(t.minute) && s[13..15] == Two(t.second)
            && s[15] == (if east then '+' else '-') && s[16..18] == Two(hours) && s[18..20] == Two(minutes)
  {
  }

  /** A snapshot type is one or more capital letters or underscores. */
  lemma KindLetters(s: string)
    ensures KindText(s) <==> |s| > 0 && forall i | 0 <= i < |s| :: s[i] in "ABCDEFGHIJKLMNOPQRSTUVWXYZ_"
  {
    forall i | 0 <= i < |s|
      ensures 'A' <= s[i] <= 'Z' || s[i] == '_' <==> s[i] in "ABCDEFGHIJKLMNOPQRSTUVWXYZ_"
    {
      Letter(s[i]);
    }
    assert forall i | 0 <= i < |s| :: s[i] in s;
  }

  lemma Letter(c: char)
    ensures ('A' <= c <= 'Z' || c == '_') <==> c in "ABCDEFGHIJKLMNOPQRSTUVWXYZ_"
  {
    var n := c as int;
    assert c == n as char;
  }

  lemma OffsetPrintsBack(x: string) returns (t: Stamp, east: bool, hours: int, minutes: int)
    requires |x| == 20 && StampShape(x) && RealStamp(StampDigits(x))
    ensures t == StampDigits(x) && RealStamp(t) && 0 <= hours < 100 && 0 <= minutes < 100
    ensures ReadTwo(x[16..18]) == Some(hours) && ReadTwo(x[18..20]) == Some(minutes)
    ensures x == OffsetText(t, east, hours, minutes)
  {
    t, east, hours, minutes := StampDigits(x), x[15] == '+', ReadTwo(x[16..18]).value, ReadTwo(x[18..20]).value;
    PrintFourRead(x[..4]);
    PrintTwoRead(x[4..6]);
    PrintTwoRead(x[6..8]);
    PrintTwoRead(x[9..11]);
    PrintTwoRead(x[11..13]);
    PrintTwoRead(x[13..15]);
    PrintTwoRead(x[16..18]);
    PrintTwoRead(x[18..20]);
    assert x[8..9] == "T" && x[15..16] == (if east then "+" else "-");
    TwentyCharacters(x);
  }

  lemma TwentyCharacters(x: string)
    requires |x| == 20
    ensures x == x[..4] + x[4..6] + x[6..8] + x[8..9] + x[9..11] + x[11..13] + x[13..15] + x[15..16] + x[16..18] + x[18..20]
  {
  }

  function Printed(date: Date, t: Stamp, east: bool, hours: int, minutes: int, kind: string): string
    requires RealDate(date) && RealStamp(t) && 0 <= hours < 100 && 0 <= minutes < 100
  {
    HEAD + DateText(date) + OBSERVED + OffsetText(t, east, hours, minutes) + TYPE + kind
  }

  /** Nothing but a printed key parses: a date that exists, a time in some offset below a day, a type of
      capital letters or underscores, and the payload beside it. */
  lemma EveryKeyIsPrinted(s: string) returns (t: Stamp, east: bool, hours: int, minutes: int)
    requires ParseManifestKey(s).Key?
    ensures RealStamp(t) && 0 <= hours < 24 && 0 <= minutes < 60 && KindText(ParseManifestKey(s).kind)
    ensures s == Printed(ParseManifestKey(s).date, t, east, hours, minutes, ParseManifestKey(s).kind) + MANIFEST
    ensures ParseManifestKey(s).payloadKey
         == Printed(ParseManifestKey(s).date, t, east, hours, minutes, ParseManifestKey(s).kind) + PAYLOAD
    ensures ParseManifestKey(s).observed
         == InstantOf(t) + (9 * 60 - (if east then hours * 60 + minutes else -(hours * 60 + minutes))) * 60
  {
    t, east, hours, minutes := OffsetPrintsBack(s[58..78]);
    AnyOffsetIsRead(t, east, hours, minutes);
    DatePrintsBack(s[35..45]);
    Pieces(s);
  }

  /** Any two dates are ordered. */
  lemma DatesAreOrdered(a: Date, b: Date)
    ensures a == b || Earlier(a, b) || Earlier(b, a)
  {
  }
}
