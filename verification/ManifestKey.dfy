/** The S3 keys of raw snapshots: printing them (ingestion/jobs/collect_rental_history_raw.py) and
    reading them back (ingestion/jobs/rental_history_snapshot_policy.py). */
module ManifestKey {
  import opened Basics

  /** A calendar date, and a KST wall-clock time to the second. */
  datatype Date = Date(year: int, month: int, day: int)

  datatype Stamp = Stamp(date: Date, hour: int, minute: int, second: int)

  predicate Leap(year: int) {
    year % 4 == 0 && (year % 100 != 0 || year % 400 == 0)
  }

  function DaysIn(year: int, month: int): int {
    if month == 2 then if Leap(year) then 29 else 28
    else if month in {4, 6, 9, 11} then 30
    else 31
  }

  predicate RealDate(d: Date) {
    1 <= d.year <= 9999 && 1 <= d.month <= 12 && 1 <= d.day <= DaysIn(d.year, d.month)
  }

  predicate RealTime(hour: int, minute: int, second: int) {
    0 <= hour < 24 && 0 <= minute < 60 && 0 <= second < 60
  }

  predicate RealStamp(t: Stamp) {
    RealDate(t.date) && RealTime(t.hour, t.minute, t.second)
  }

  function DaysBeforeMonth(year: int, month: int): int
    decreases month
  {
    if month <= 1 then 0 else DaysBeforeMonth(year, month - 1) + DaysIn(year, month - 1)
  }

  /** Leap days in the years 1 through `year`. */
  function LeapDays(year: int): int {
    year / 4 - year / 100 + year / 400
  }

  /** The proleptic Gregorian ordinal, as date.toordinal counts it. */
  function Ordinal(d: Date): Day {
    (d.year - 1) * 365 + LeapDays(d.year - 1) + DaysBeforeMonth(d.year, d.month) + d.day
  }

  predicate Earlier(a: Date, b: Date) {
    || a.year < b.year
    || (a.year == b.year && a.month < b.month)
    || (a.year == b.year && a.month == b.month && a.day < b.day)
  }

  lemma {:induction false} MonthsAddUp(year: int, m: int, n: int)
    requires 1 <= m < n <= 13
    ensures DaysBeforeMonth(year, m) + DaysIn(year, m) <= DaysBeforeMonth(year, n)
    decreases n
  {
    if m + 1 < n {
      MonthsAddUp(year, m, n - 1);
    }
  }

  lemma MonthsOfYear(year: int)
    ensures DaysBeforeMonth(year, 13) == if Leap(year) then 366 else 365
  {
    assert DaysBeforeMonth(year, 4) == 31 + DaysIn(year, 2) + 31;
    assert DaysBeforeMonth(year, 7) == DaysBeforeMonth(year, 4) + 30 + 31 + 30;
    assert DaysBeforeMonth(year, 10) == DaysBeforeMonth(year, 7) + 31 + 31 + 30;
    assert DaysBeforeMonth(year, 13) == DaysBeforeMonth(year, 10) + 31 + 30 + 31;
  }

  lemma EveryFourth(y: int)
    ensures y / 4 == (y - 1) / 4 + if y % 4 == 0 then 1 else 0
  {
  }

  lemma EveryHundredth(y: int)
    ensures y / 100 == (y - 1) / 100 + if y % 100 == 0 then 1 else 0
  {
  }

  lemma EveryFourHundredth(y: int)
    ensures y / 400 == (y - 1) / 400 + if y % 400 == 0 then 1 else 0
  {
  }

  lemma Divisors(y: int)
    ensures y % 100 == 0 ==> y % 4 == 0
    ensures y % 400 == 0 ==> y % 100 == 0
  {
  }

  /** One more year adds its quotients' steps, whatever the quotients are. */
  lemma QuotientSteps(fourth: bool, hundredth: bool, fourHundredth: bool, a: int, b: int, c: int, a': int, b': int, c': int)
    requires (fourHundredth ==> hundredth) && (hundredth ==> fourth)
    requires a' == a + (if fourth then 1 else 0) && b' == b + (if hundredth then 1 else 0)
    requires c' == c + (if fourHundredth then 1 else 0)
    ensures a' - b' + c' == a - b + c + if fourth && (!hundredth || fourHundredth) then 1 else 0
  {
  }

  lemma LeapDaysStep(year: int)
    ensures LeapDays(year) == LeapDays(year - 1) + if Leap(year) then 1 else 0
  {
    EveryFourth(year);
    EveryHundredth(year);
    EveryFourHundredth(year);
    Divisors(year);
    QuotientSteps(year % 4 == 0, year % 100 == 0, year % 400 == 0, (year - 1) / 4, (year - 1) / 100, (year - 1) / 400,
                  year / 4, year / 100, year / 400);
  }

  lemma YearAddsUp(year: int)
    ensures Ordinal(Date(year + 1, 1, 1)) == Ordinal(Date(year, 1, 1)) + if Leap(year) then 366 else 365
  {
    LeapDaysStep(year);
    hide LeapDays;
    assert DaysBeforeMonth(year + 1, 1) == DaysBeforeMonth(year, 1) == 0;
  }

  lemma {:induction false} YearsAddUp(y: int, z: int)
    requires y < z
    ensures Ordinal(Date(y, 1, 1)) + DaysBeforeMonth(y, 13) <= Ordinal(Date(z, 1, 1))
    decreases z - y
  {
    YearAddsUp(z - 1);
    MonthsOfYear(z - 1);
    if y < z - 1 {
      YearsAddUp(y, z - 1);
    }
  }

  lemma InsideYear(d: Date)
    requires RealDate(d)
    ensures Ordinal(d) == Ordinal(Date(d.year, 1, 1)) - 1 + DaysBeforeMonth(d.year, d.month) + d.day
    ensures 0 < DaysBeforeMonth(d.year, d.month) + d.day <= DaysBeforeMonth(d.year, 13)
  {
    hide LeapDays, DaysIn;
    MonthsAddUp(d.year, d.month, 13);
    if 1 < d.month {
      MonthsAddUp(d.year, 1, d.month);
      DaysInIsPositive(d.year, 1);
    }
  }

  lemma DaysInIsPositive(year: int, month: int)
    ensures DaysIn(year, month) > 0
  {
  }

  /** Later dates have larger day numbers, so a day number names one date. */
  lemma OrdinalKeepsOrder(a: Date, b: Date)
    requires RealDate(a) && RealDate(b) && Earlier(a, b)
    ensures Ordinal(a) < Ordinal(b)
  {
    hide Ordinal, DaysBeforeMonth, DaysIn;
    InsideYear(a);
    InsideYear(b);
    if a.year < b.year {
      YearsAddUp(a.year, b.year);
    } else if a.month < b.month {
      MonthsAddUp(a.year, a.month, b.month);
    }
  }

  lemma OrdinalIsInjective(a: Date, b: Date)
    requires RealDate(a) && RealDate(b) && Ordinal(a) == Ordinal(b)
    ensures a == b
  {
    if Earlier(a, b) {
      OrdinalKeepsOrder(a, b);
    } else if Earlier(b, a) {
      OrdinalKeepsOrder(b, a);
    }
  }

  const DAY_SECONDS := 86400
  const KST_OFFSET := 32400

  /** An instant is counted in seconds so that its KST date is instant / 86400. */
  function Instant(t: Stamp, offset: int): int {
    Ordinal(t.date) * DAY_SECONDS + t.hour * 3600 + t.minute * 60 + t.second - offset + KST_OFFSET
  }

  function InstantOf(t: Stamp): int {
    Instant(t, KST_OFFSET)
  }

  // ---------------------------------------------------------------- digits

  function Digit(n: int): char
    requires 0 <= n < 10
  {
    '0' + n as char
  }

  predicate IsDigit(c: char) {
    '0' <= c <= '9'
  }

  function Two(n: int): string
    requires 0 <= n < 100
  {
    [Digit(n / 10), Digit(n % 10)]
  }

  function Four(n: int): string
    requires 0 <= n < 10000
  {
    Two(n / 100) + Two(n % 100)
  }

  function Value(c: char): int
    requires IsDigit(c)
  {
    c as int - '0' as int
  }

  function ReadTwo(s: string): Option<int>
    requires |s| == 2
  {
    if IsDigit(s[0]) && IsDigit(s[1]) then Some(Value(s[0]) * 10 + Value(s[1])) else None
  }

  function ReadFour(s: string): Option<int>
    requires |s| == 4
  {
    var high, low := ReadTwo(s[..2]), ReadTwo(s[2..]);
    if high.Some? && low.Some? then Some(high.value * 100 + low.value) else None
  }

  lemma ReadTwoPrinted(n: int)
    requires 0 <= n < 100
    ensures ReadTwo(Two(n)) == Some(n)
  {
  }

  lemma ReadFourPrinted(n: int)
    requires 0 <= n < 10000
    ensures ReadFour(Four(n)) == Some(n)
  {
    assert Four(n)[..2] == Two(n / 100) && Four(n)[2..] == Two(n % 100);
    ReadTwoPrinted(n / 100);
    ReadTwoPrinted(n % 100);
  }

  lemma PrintTwoRead(s: string)
    requires |s| == 2 && ReadTwo(s).Some?
    ensures 0 <= ReadTwo(s).value < 100 && Two(ReadTwo(s).value) == s
  {
  }

  lemma PrintFourRead(s: string)
    requires |s| == 4 && ReadFour(s).Some?
    ensures 0 <= ReadFour(s).value < 10000 && Four(ReadFour(s).value) == s
  {
    PrintTwoRead(s[..2]);
    PrintTwoRead(s[2..]);
    assert s == s[..2] + s[2..];
  }

  // ---------------------------------------------------------------- the parts of a key

  function DateText(d: Date): string
    requires RealDate(d)
  {
    Four(d.year) + "-" + Two(d.month) + "-" + Two(d.day)
  }

  /** %Y%m%dT%H%M%S%z of a KST time. */
  function StampText(t: Stamp): string
    requires RealStamp(t)
  {
    Four(t.date.year) + Two(t.date.month) + Two(t.date.day) + "T" + Two(t.hour) + Two(t.minute) + Two(t.second) + "+0900"
  }

  /** \d{4}-\d{2}-\d{2} */
  function ReadDateDigits(s: string): Option<Date>
    requires |s| == 10
  {
    var y, m, d := ReadFour(s[..4]), ReadTwo(s[5..7]), ReadTwo(s[8..10]);
    if y.Some? && m.Some? && d.Some? && s[4] == '-' && s[7] == '-' then Some(Date(y.value, m.value, d.value)) else None
  }

  /** \d{8}T\d{6}[+-]\d{4} */
  predicate StampShape(s: string)
    requires |s| == 20
  {
    && ReadFour(s[..4]).Some? && ReadTwo(s[4..6]).Some? && ReadTwo(s[6..8]).Some? && s[8] == 'T'
    && ReadTwo(s[9..11]).Some? && ReadTwo(s[11..13]).Some? && ReadTwo(s[13..15]).Some?
    && (s[15] == '+' || s[15] == '-') && ReadTwo(s[16..18]).Some? && ReadTwo(s[18..20]).Some?
  }

  function StampDigits(s: string): Stamp
    requires |s| == 20 && StampShape(s)
  {
    Stamp(Date(ReadFour(s[..4]).value, ReadTwo(s[4..6]).value, ReadTwo(s[6..8]).value),
          ReadTwo(s[9..11]).value, ReadTwo(s[11..13]).value, ReadTwo(s[13..15]).value)
  }

  /** strptime: None when the numbers name no time or no offset. */
  function ReadInstant(s: string): Option<int>
    requires |s| == 20 && StampShape(s)
  {
    var t, hours, minutes := StampDigits(s), ReadTwo(s[16..18]).value, ReadTwo(s[18..20]).value;
    var offset := hours * 3600 + minutes * 60;
    if RealStamp(t) && hours < 24 && minutes < 60 then Some(Instant(t, if s[15] == '+' then offset else -offset)) else None
  }

  const HEAD := "raw/rental_history/api/target_date="
  const OBSERVED := "/observed_at="
  const TYPE := "/snapshot_type="
  const MANIFEST := "/manifest.json"
  const PAYLOAD := "/payload.json"

  function KeyPrefix(date: Date, t: Stamp, kind: string): string
    requires RealDate(date) && RealStamp(t)
  {
    HEAD + DateText(date) + OBSERVED + StampText(t) + TYPE + kind
  }

  /** snapshot_keys, for a normalised snapshot type. */
  function SnapshotKeys(date: Date, t: Stamp, kind: string): (string, string)
    requires RealDate(date) && RealStamp(t)
  {
    (KeyPrefix(date, t, kind) + PAYLOAD, KeyPrefix(date, t, kind) + MANIFEST)
  }

  type CalendarDate = d: Date | RealDate(d) witness Date(2000, 1, 1)

  /** The outcome of parse_manifest_key; an impossible target date makes it raise. */
  datatype Parsed =
    | NoKey
    | Raises
    | Key(date: CalendarDate, observed: int, kind: string, payloadKey: string)

  predicate KindText(s: string) {
    s != "" && forall c | c in s :: 'A' <= c <= 'Z' || c == '_'
  }

  predicate KeyShape(s: string) {
    && |s| > 107
    && s[..35] == HEAD && ReadDateDigits(s[35..45]).Some?
    && s[45..58] == OBSERVED && StampShape(s[58..78])
    && s[78..93] == TYPE && KindText(s[93..|s| - 14])
    && s[|s| - 14..] == MANIFEST
  }

  function ParseManifestKey(s: string): Parsed {
    if !KeyShape(s) then NoKey
    else
      var date, observed := ReadDateDigits(s[35..45]).value, ReadInstant(s[58..78]);
      if observed.None? then NoKey
      else if !RealDate(date) then Raises
      else Key(date, observed.value, s[93..|s| - 14], s[..|s| - 14] + PAYLOAD)
  }

  // ---------------------------------------------------------------- round trips

  lemma DateReadBack(d: Date)
    requires RealDate(d)
    ensures |DateText(d)| == 10 && ReadDateDigits(DateText(d)) == Some(d)
  {
    var s := DateText(d);
    ReadFourPrinted(d.year);
    ReadTwoPrinted(d.month);
    ReadTwoPrinted(d.day);
    assert s[..4] == Four(d.year) && s[5..7] == Two(d.month) && s[8..10] == Two(d.day);
  }

  lemma StampReadBack(t: Stamp)
    requires RealStamp(t)
    ensures |StampText(t)| == 20 && StampShape(StampText(t)) && ReadInstant(StampText(t)) == Some(InstantOf(t))
  {
    var s := StampText(t);
    ReadFourPrinted(t.date.year);
    ReadTwoPrinted(t.date.month);
    ReadTwoPrinted(t.date.day);
    ReadTwoPrinted(t.hour);
    ReadTwoPrinted(t.minute);
    ReadTwoPrinted(t.second);
    ReadTwoPrinted(9);
    ReadTwoPrinted(0);
    assert s[..4] == Four(t.date.year) && s[4..6] == Two(t.date.month) && s[6..8] == Two(t.date.day);
    assert s[9..11] == Two(t.hour) && s[11..13] == Two(t.minute) && s[13..15] == Two(t.second);
    assert s[16..18] == "09" == Two(9) && s[18..20] == "00" == Two(0);
  }

  lemma Slices(a: string, b: string, c: string, d: string, e: string, f: string, g: string)
    requires |a| == 35 && |b| == 10 && |c| == 13 && |d| == 20 && |e| == 15 && |g| == 14
    ensures var s := a + b + c + d + e + f + g;
            && |s| == 107 + |f|
            && s[..35] == a && s[35..45] == b && s[45..58] == c && s[58..78] == d
            && s[78..93] == e && s[93..|s| - 14] == f && s[|s| - 14..] == g
            && s[..|s| - 14] == a + b + c + d + e + f
  {
  }

  lemma KeyParts(date: Date, t: Stamp, kind: string)
    requires RealDate(date) && RealStamp(t)
    ensures var s := SnapshotKeys(date, t, kind).1;
            && |s| == 107 + |kind|
            && s[..35] == HEAD && s[35..45] == DateText(date) && s[45..58] == OBSERVED && s[58..78] == StampText(t)
            && s[78..93] == TYPE && s[93..|s| - 14] == kind && s[|s| - 14..] == MANIFEST
            && s[..|s| - 14] == KeyPrefix(date, t, kind)
  {
    hide StampText, DateText;
    DateReadBack(date);
    StampReadBack(t);
    Slices(HEAD, DateText(date), OBSERVED, StampText(t), TYPE, kind, MANIFEST);
  }

  /** Printing a manifest key and parsing it gives back the date, the instant and the type, and the
      payload key that was printed with it. */
  lemma KeyRoundTrip(date: Date, t: Stamp, kind: string)
    requires RealDate(date) && RealStamp(t) && KindText(kind)
    ensures ParseManifestKey(SnapshotKeys(date, t, kind).1)
         == Key(date, InstantOf(t), kind, SnapshotKeys(date, t, kind).0)
  {
    KeyParts(date, t, kind);
    DateReadBack(date);
    StampReadBack(t);
  }

  lemma InstantIsInjective(t: Stamp, t': Stamp)
    requires RealStamp(t) && RealStamp(t') && InstantOf(t) == InstantOf(t')
    ensures t == t'
  {
    hide Ordinal, RealDate;
    var s, s' := t.hour * 3600 + t.minute * 60 + t.second, t'.hour * 3600 + t'.minute * 60 + t'.second;
    SameDayAndSecond(Ordinal(t.date), s, Ordinal(t'.date), s');
    SameTime(t.hour, t.minute, t.second, t'.hour, t'.minute, t'.second);
    OrdinalIsInjective(t.date, t'.date);
  }

  lemma SameDayAndSecond(d: int, s: int, d': int, s': int)
    requires 0 <= s < DAY_SECONDS && 0 <= s' < DAY_SECONDS && d * DAY_SECONDS + s == d' * DAY_SECONDS + s'
    ensures d == d' && s == s'
  {
  }

  lemma SameTime(h: int, m: int, s: int, h': int, m': int, s': int)
    requires RealTime(h, m, s) && RealTime(h', m', s') && h * 3600 + m * 60 + s == h' * 3600 + m' * 60 + s'
    ensures h == h' && m == m' && s == s'
  {
  }

  /** Two snapshots share a key only when they are for the same date, instant and type. */
  lemma KeysDoNotCollide(date: Date, t: Stamp, kind: string, date': Date, t': Stamp, kind': string)
    requires RealDate(date) && RealStamp(t) && KindText(kind) && RealDate(date') && RealStamp(t') && KindText(kind')
    requires SnapshotKeys(date, t, kind).1 == SnapshotKeys(date', t', kind').1
    ensures date == date' && t == t' && kind == kind'
  {
    KeyRoundTrip(date, t, kind);
    KeyRoundTrip(date', t', kind');
    InstantIsInjective(t, t');
  }

  lemma StampPrintsBack(s: string)
    requires |s| == 20 && StampShape(s) && RealStamp(StampDigits(s)) && s[15..] == "+0900"
    ensures StampText(StampDigits(s)) == s
  {
    PrintFourRead(s[..4]);
    PrintTwoRead(s[4..6]);
    PrintTwoRead(s[6..8]);
    PrintTwoRead(s[9..11]);
    PrintTwoRead(s[11..13]);
    PrintTwoRead(s[13..15]);
    assert s[8..9] == "T";
    assert s == s[..4] + s[4..6] + s[6..8] + s[8..9] + s[9..11] + s[11..13] + s[13..15] + s[15..];
  }

  lemma DatePrintsBack(s: string)
    requires |s| == 10 && ReadDateDigits(s).Some? && RealDate(ReadDateDigits(s).value)
    ensures DateText(ReadDateDigits(s).value) == s
  {
    PrintFourRead(s[..4]);
    PrintTwoRead(s[5..7]);
    PrintTwoRead(s[8..10]);
    assert s[4..5] == "-" && s[7..8] == "-";
    assert s == s[..4] + s[4..5] + s[5..7] + s[7..8] + s[8..10];
  }

  /** The other way round: a key that parses, written with the KST offset, is the printed key of what
      it parses to. */
  lemma ParsedKeyPrintsBack(s: string) returns (t: Stamp)
    requires ParseManifestKey(s).Key? && s[73..78] == "+0900"
    ensures RealStamp(t) && InstantOf(t) == ParseManifestKey(s).observed && RealDate(ParseManifestKey(s).date)
    ensures SnapshotKeys(ParseManifestKey(s).date, t, ParseManifestKey(s).kind) == (ParseManifestKey(s).payloadKey, s)
  {
    var stamp, day := s[58..78], s[35..45];
    t := StampDigits(stamp);
    OffsetDigits(s);
    StampPrintsBack(stamp);
    DatePrintsBack(day);
    Pieces(s);
  }

  lemma OffsetDigits(s: string)
    requires |s| > 107 && s[73..78] == "+0900"
    ensures s[58..78][15..] == "+0900" && s[58..78][15] == '+' && s[58..78][16..18] == "09" && s[58..78][18..20] == "00"
  {
    assert s[58..78][15..] == s[73..78];
    assert s[58..78][16..18] == s[73..78][1..3] && s[58..78][18..20] == s[73..78][3..5];
    assert s[58..78][15] == s[73..78][0];
  }

  lemma Pieces(s: string)
    requires |s| > 107
    ensures s[..|s| - 14] == s[..35] + s[35..45] + s[45..58] + s[58..78] + s[78..93] + s[93..|s| - 14]
    ensures s == s[..|s| - 14] + s[|s| - 14..]
  {
  }
}
