// The idempotency key of a materialized task, "<schedule id>:<run time>", where the run time
// is the UTC date-time of section 5.6 of RFC 3339 with whole seconds and offset Z.
module Keys {
  import opened Wrappers
  import opened Retry

  // ----- the Gregorian calendar -----

  predicate Leap(y: nat) {
    y % 4 == 0 && (y % 100 != 0 || y % 400 == 0)
  }

  function DaysInYear(y: nat): nat {
    if Leap(y) then 366 else 365
  }

  /** Days before the first of January of year y, counted from year 0. */
  function YearStart(y: nat): nat {
    if y == 0 then 0 else YearStart(y - 1) + DaysInYear(y - 1)
  }

  function DaysInMonth(y: nat, m: nat): (d: nat)
    ensures 28 <= d <= 31
  {
    if m == 2 then (if Leap(y) then 29 else 28)
    else if m == 4 || m == 6 || m == 9 || m == 11 then 30
    else 31
  }

  /** Days of the year before the first of month m. */
  function MonthStart(y: nat, m: nat): nat
    requires 1 <= m <= 13
  {
    if m == 1 then 0 else MonthStart(y, m - 1) + DaysInMonth(y, m - 1)
  }

  datatype Date = Date(year: nat, month: nat, day: nat) {
    predicate Valid() {
      1 <= month <= 12 && 1 <= day <= DaysInMonth(year, month)
    }
  }

  function DayNumber(date: Date): nat
    requires date.Valid()
  {
    YearStart(date.year) + MonthStart(date.year, date.month) + date.day - 1
  }

  function YearFrom(n: nat, y: nat): nat
    requires YearStart(y) <= n
    decreases n - YearStart(y)
  {
    if n < YearStart(y + 1) then y else YearFrom(n, y + 1)
  }

  // Days of a common year before the first of each month, and of the whole year.
  const COMMON: seq<nat> := [0, 31, 59, 90, 120, 151, 181, 212, 243, 273, 304, 334, 365]

  /** The lengths of the months sum up to the calendar's own days; leap years add one from March on. */
  lemma {:induction false} MonthStartTable(y: nat, m: nat)
    requires 1 <= m <= 13
    ensures MonthStart(y, m) ==
            COMMON[m - 1] + if m > 2 && (y % 400 == 0 || (y % 4 == 0 && y % 100 != 0)) then 1 else 0
    decreases m
  {
    if m > 1 {
      MonthStartTable(y, m - 1);
      LeapMeans(y);
    }
  }

  lemma LeapMeans(y: nat)
    ensures Leap(y) <==> y % 400 == 0 || (y % 4 == 0 && y % 100 != 0)
  {
    FourCenturies(y);
    CenturyIsFourth(y);
  }

  lemma {:induction false} YearFromHolds(n: nat, y: nat)
    requires YearStart(y) <= n
    ensures YearStart(YearFrom(n, y)) <= n < YearStart(YearFrom(n, y) + 1)
    decreases n - YearStart(y)
  {
    if n >= YearStart(y + 1) {
      YearFromHolds(n, y + 1);
    }
  }

  lemma MonthTotal(y: nat)
    ensures MonthStart(y, 13) == DaysInYear(y)
  {
    assert MonthStart(y, 2) == 31;
    assert MonthStart(y, 3) == 59 + (if Leap(y) then 1 else 0);
    assert MonthStart(y, 5) == MonthStart(y, 3) + 61;
    assert MonthStart(y, 7) == MonthStart(y, 5) + 61;
    assert MonthStart(y, 9) == MonthStart(y, 7) + 62;
    assert MonthStart(y, 11) == MonthStart(y, 9) + 61;
  }

  function MonthFrom(y: nat, n: nat, m: nat): (r: nat)
    requires 1 <= m <= 12
    ensures m <= r <= 12
    decreases 12 - m
  {
    if m == 12 || n < MonthStart(y, m + 1) then m else MonthFrom(y, n, m + 1)
  }

  lemma {:induction false} MonthFromHolds(y: nat, n: nat, m: nat)
    requires 1 <= m <= 12 && MonthStart(y, m) <= n < MonthStart(y, 13)
    ensures MonthStart(y, MonthFrom(y, n, m)) <= n < MonthStart(y, MonthFrom(y, n, m) + 1)
    decreases 12 - m
  {
    if m < 12 && n >= MonthStart(y, m + 1) {
      MonthFromHolds(y, n, m + 1);
    }
  }

  /** The civil date of a day number. */
  function DateOf(n: nat): Date {
    YearFromHolds(n, 0);
    var y := YearFrom(n, 0);
    MonthTotal(y);
    MonthFromHolds(y, n - YearStart(y), 1);
    var m := MonthFrom(y, n - YearStart(y), 1);
    Date(y, m, n - YearStart(y) - MonthStart(y, m) + 1)
  }

  lemma DayOfMonth(n: nat, y: nat, m: nat)
    requires 1 <= m <= 12 && YearStart(y) <= n
    requires MonthStart(y, m) <= n - YearStart(y) < MonthStart(y, m + 1)
    ensures var date := Date(y, m, n - YearStart(y) - MonthStart(y, m) + 1);
            date.Valid() && DayNumber(date) == n
  {
  }

  /** Every day has a civil date that counts back to it. */
  lemma DayRoundTrip(n: nat)
    ensures DateOf(n).Valid() && DayNumber(DateOf(n)) == n
  {
    var y := YearFrom(n, 0);
    YearFromHolds(n, 0);
    MonthTotal(y);
    MonthFromHolds(y, n - YearStart(y), 1);
    DayOfMonth(n, y, MonthFrom(y, n - YearStart(y), 1));
  }

  lemma {:induction false} YearStartGrows(a: nat, b: nat)
    requires a < b
    ensures YearStart(a + 1) <= YearStart(b)
    decreases b - a
  {
    if a + 1 < b {
      YearStartGrows(a, b - 1);
    }
  }

  lemma {:induction false} MonthStartGrows(y: nat, a: nat, b: nat)
    requires 1 <= a < b <= 13
    ensures MonthStart(y, a + 1) <= MonthStart(y, b)
    decreases b - a
  {
    if a + 1 < b {
      MonthStartGrows(y, a, b - 1);
    }
  }

  lemma DayInYear(date: Date)
    requires date.Valid()
    ensures YearStart(date.year) <= DayNumber(date) < YearStart(date.year + 1)
  {
    MonthTotal(date.year);
    MonthStartGrows(date.year, date.month, 13);
  }

  /** Every civil date is the date of its day. */
  lemma DateRoundTrip(date: Date)
    requires date.Valid()
    ensures DateOf(DayNumber(date)) == date
  {
    var back := DateOf(DayNumber(date));
    DayRoundTrip(DayNumber(date));
    DayInYear(date);
    DayInYear(back);
    if back.year < date.year { YearStartGrows(back.year, date.year); }
    if date.year < back.year { YearStartGrows(date.year, back.year); }
    if back.month < date.month { MonthStartGrows(date.year, back.month, date.month); }
    if date.month < back.month { MonthStartGrows(date.year, date.month, back.month); }
  }

  lemma FourthCount(p: nat)
    ensures (p + 4) / 4 - (p + 3) / 4 == if p % 4 == 0 then 1 else 0
  {
    assert p == 4 * (p / 4) + p % 4;
  }

  lemma CenturyCount(p: nat)
    ensures (p + 100) / 100 - (p + 99) / 100 == if p % 100 == 0 then 1 else 0
  {
    assert p == 100 * (p / 100) + p % 100;
  }

  lemma FourCenturyCount(p: nat)
    ensures (p + 400) / 400 - (p + 399) / 400 == if p % 400 == 0 then 1 else 0
  {
    assert p == 400 * (p / 400) + p % 400;
  }

  lemma CenturyIsFourth(p: nat)
    ensures p % 100 == 0 ==> p % 4 == 0
  {
    assert p == 100 * (p / 100) + p % 100;
    assert 100 * (p / 100) == 4 * (25 * (p / 100));
  }

  lemma FourCenturies(p: nat)
    ensures p % 400 == 0 ==> p % 100 == 0
  {
    assert p == 400 * (p / 400) + p % 400;
    assert 400 * (p / 400) == 100 * (4 * (p / 400));
  }

  lemma {:induction false} YearStartClosed(y: nat)
    ensures YearStart(y) == 365 * y + (y + 3) / 4 - (y + 99) / 100 + (y + 399) / 400
  {
    if y > 0 {
      YearStartClosed(y - 1);
      FourthCount(y - 1);
      CenturyCount(y - 1);
      FourCenturyCount(y - 1);
      CenturyIsFourth(y - 1);
      FourCenturies(y - 1);
    }
  }

  // The zero of the instants, and the first year with five digits.
  const EPOCH_YEAR: nat := 1970
  const END_YEAR: nat := 10000

  // Days from 0000-01-01 to the first of January of those years.
  const EPOCH_DAY: nat := 719528
  const END_DAY: nat := 3652425

  /** The two day constants are the calendar's own. */
  lemma Anchors(epoch: nat, end: nat)
    requires epoch == EPOCH_YEAR && end == END_YEAR
    ensures YearStart(epoch) == EPOCH_DAY && YearStart(end) == END_DAY
  {
    YearStartClosed(epoch);
    YearStartClosed(end);
  }

  // ----- digits -----

  function Digit(d: nat): char
    requires d < 10
  {
    '0' + d as char
  }

  function DigitValue(c: char): Option<nat> {
    if '0' <= c <= '9' then Some((c - '0') as nat) else None
  }

  /** The last n decimal digits of v, padded with zeros. */
  function Padded(v: nat, n: nat): (s: string)
    ensures |s| == n
  {
    if n == 0 then "" else Padded(v / 10, n - 1) + [Digit(v % 10)]
  }

  function Decimal(v: nat): (s: string)
    ensures |s| >= 1
  {
    if v < 10 then [Digit(v)] else Decimal(v / 10) + [Digit(v % 10)]
  }

  /** %d */
  function Signed(v: int): string {
    if v < 0 then "-" + Decimal(-v) else Decimal(v)
  }

  function ParseNat(s: string): Option<nat> {
    if s == "" then Some(0) else
    var front, last := ParseNat(s[..|s| - 1]), DigitValue(s[|s| - 1]);
    if front.None? || last.None? then None else Some(10 * front.value + last.value)
  }

  function ParseSigned(s: string): Option<int> {
    if s != "" && s[0] == '-' then
      var v := ParseNat(s[1..]);
      if v.None? then None else
      Some(0 - v.value)
    else
      var v := ParseNat(s);
      if v.None? then None else Some(v.value)
  }

  function Pow10(n: nat): nat {
    if n == 0 then 1 else 10 * Pow10(n - 1)
  }

  lemma ParseSnoc(s: string, c: char)
    requires ParseNat(s).Some? && DigitValue(c).Some?
    ensures ParseNat(s + [c]) == Some(10 * ParseNat(s).value + DigitValue(c).value)
  {
    assert (s + [c])[..|s + [c]| - 1] == s;
  }

  lemma DigitParses(d: nat)
    requires d < 10
    ensures DigitValue(Digit(d)) == Some(d)
  {
  }

  lemma {:induction false} PaddedParses(v: nat, n: nat)
    requires v < Pow10(n)
    ensures ParseNat(Padded(v, n)) == Some(v)
  {
    if n > 0 {
      PaddedParses(v / 10, n - 1);
      DigitParses(v % 10);
      ParseSnoc(Padded(v / 10, n - 1), Digit(v % 10));
    }
  }

  lemma {:induction false} DecimalParses(v: nat)
    ensures ParseNat(Decimal(v)) == Some(v)
    ensures Decimal(v)[0] != '-'
  {
    DigitParses(v % 10);
    if v < 10 {
      ParseSnoc("", Digit(v));
      assert "" + [Digit(v)] == [Digit(v)];
    } else {
      DecimalParses(v / 10);
      ParseSnoc(Decimal(v / 10), Digit(v % 10));
    }
  }

  lemma MinusParses(digits: string, n: nat)
    requires digits != "" && ParseNat(digits) == Some(n)
    ensures ParseSigned("-" + digits) == Some(0 - n)
  {
    assert ("-" + digits)[1..] == digits && ("-" + digits)[0] == '-';
  }

  lemma PlainParses(digits: string, n: nat)
    requires digits != "" && digits[0] != '-' && ParseNat(digits) == Some(n)
    ensures ParseSigned(digits) == Some(n)
  {
  }

  lemma SignedParses(v: int)
    ensures ParseSigned(Signed(v)) == Some(v)
  {
    if v < 0 {
      DecimalParses(-v);
      MinusParses(Decimal(-v), -v);
    } else {
      DecimalParses(v);
      PlainParses(Decimal(v), v);
    }
  }

  // ----- timestamps and keys -----

  const DAY_SECONDS: int := 86400

  /** The years 0000 to 9999, to which the format is limited. */
  predicate InRange(t: int) {
    0 <= SecondsFromYearZero(t) < END_DAY * DAY_SECONDS
  }

  function SecondsFromYearZero(t: int): int {
    t / SECOND + EPOCH_DAY * DAY_SECONDS
  }

  /** full-date "T" partial-time "Z", on a date and a second of the day. */
  function DateTime(date: Date, rest: nat): (s: string)
    ensures |s| == 20
  {
    Padded(date.year, 4) + "-" + Padded(date.month, 2) + "-" + Padded(date.day, 2) + "T" +
    Padded(rest / 3600, 2) + ":" + Padded(rest / 60 % 60, 2) + ":" + Padded(rest % 60, 2) + "Z"
  }

  function Timestamp(t: int): (s: string)
    requires InRange(t)
    ensures |s| == 20
  {
    var total: nat := SecondsFromYearZero(t);
    DateTime(DateOf(total / DAY_SECONDS), total % DAY_SECONDS)
  }

  /** IdempotencyKeyFor. */
  function KeyFor(scheduleId: int, t: int): string
    requires InRange(t)
  {
    Signed(scheduleId) + ":" + Timestamp(t)
  }

  /** The second, counted from year zero, that six fields name. */
  function Assemble(y: Option<nat>, m: Option<nat>, d: Option<nat>,
                    hh: Option<nat>, mm: Option<nat>, ss: Option<nat>): Option<int> {
    if y.None? || m.None? || d.None? || hh.None? || mm.None? || ss.None? then None else
    var date := Date(y.value, m.value, d.value);
    if !date.Valid() || hh.value > 23 || mm.value > 59 || ss.value > 59 then None else
    Some(DayNumber(date) * DAY_SECONDS + (hh.value * 3600 + mm.value * 60 + ss.value))
  }

  /** The separators of a date-time stand where they must. */
  predicate Separated(s: string)
    requires |s| == 20
  {
    s[4] == '-' && s[7] == '-' && s[10] == 'T' && s[13] == ':' && s[16] == ':' && s[19] == 'Z'
  }

  function ParseDateTime(s: string): Option<int>
    requires |s| == 20
  {
    if !Separated(s) then None else
    Assemble(ParseNat(s[0..4]), ParseNat(s[5..7]), ParseNat(s[8..10]),
             ParseNat(s[11..13]), ParseNat(s[14..16]), ParseNat(s[17..19]))
  }

  function ParseTimestamp(s: string): Option<int>
    requires |s| == 20
  {
    var total := ParseDateTime(s);
    if total.None? then None else Some((total.value - EPOCH_DAY * DAY_SECONDS) * SECOND)
  }

  /** Read the key back: the timestamp is the last twenty characters. */
  function ParseKey(key: string): Option<(int, int)> {
    if |key| < 21 || key[|key| - 21] != ':' then None else
    var id, t := ParseSigned(key[..|key| - 21]), ParseTimestamp(key[|key| - 20..]);
    if id.None? || t.None? then None else Some((id.value, t.value))
  }

  lemma Powers()
    ensures Pow10(2) == 100 && Pow10(4) == 10000
  {
    assert Pow10(2) == 100;
  }

  lemma YearBelow(n: nat, end: nat)
    requires n < END_DAY && end == END_YEAR
    ensures DateOf(n).year < end
  {
    Anchors(EPOCH_YEAR, end);
    DayRoundTrip(n);
    DayInYear(DateOf(n));
    if end < DateOf(n).year {
      YearStartGrows(end, DateOf(n).year);
    }
  }

  lemma ClockParts(rest: nat)
    requires rest < DAY_SECONDS
    ensures rest / 3600 < 24 && rest / 60 % 60 < 60
    ensures rest / 3600 * 3600 + rest / 60 % 60 * 60 + rest % 60 == rest
  {
  }

  lemma Slices(a: string, b: string, c: string, d: string, e: string, f: string)
    requires |a| == 4 && |b| == |c| == |d| == |e| == |f| == 2
    ensures var s := a + "-" + b + "-" + c + "T" + d + ":" + e + ":" + f + "Z";
            |s| == 20 && s[0..4] == a && s[5..7] == b && s[8..10] == c &&
            s[11..13] == d && s[14..16] == e && s[17..19] == f && Separated(s)
  {
  }

  lemma FieldParses(v: nat, n: nat, bound: nat)
    requires v < bound && (n == 2 ==> bound <= 100) && (n == 4 ==> bound <= 10000) && (n == 2 || n == 4)
    ensures Field(v, n) == Some(v)
  {
    Powers();
    PaddedParses(v, n);
  }

  lemma DateTimeFields(date: Date, rest: nat)
    ensures ParseDateTime(DateTime(date, rest)) ==
            Assemble(Field(date.year, 4), Field(date.month, 2), Field(date.day, 2),
                     Field(rest / 3600, 2), Field(rest / 60 % 60, 2), Field(rest % 60, 2))
  {
    Slices(Padded(date.year, 4), Padded(date.month, 2), Padded(date.day, 2),
           Padded(rest / 3600, 2), Padded(rest / 60 % 60, 2), Padded(rest % 60, 2));
  }

  lemma AssembleValues(y: Option<nat>, m: Option<nat>, d: Option<nat>,
                       hh: Option<nat>, mm: Option<nat>, ss: Option<nat>,
                       date: Date, rest: nat)
    requires date.Valid() && rest < DAY_SECONDS
    requires y == Some(date.year) && m == Some(date.month) && d == Some(date.day)
    requires hh == Some(rest / 3600) && mm == Some(rest / 60 % 60) && ss == Some(rest % 60)
    ensures Assemble(y, m, d, hh, mm, ss) == Some(DayNumber(date) * DAY_SECONDS + rest)
  {
    ClockParts(rest);
  }

  function Field(v: nat, n: nat): Option<nat> {
    ParseNat(Padded(v, n))
  }

  lemma FieldsAssemble(date: Date, rest: nat)
    requires date.Valid() && date.year < 10000 && rest < DAY_SECONDS
    ensures Assemble(Field(date.year, 4), Field(date.month, 2), Field(date.day, 2),
                     Field(rest / 3600, 2), Field(rest / 60 % 60, 2), Field(rest % 60, 2))
            == Some(DayNumber(date) * DAY_SECONDS + rest)
  {
    ClockParts(rest);
    FieldParses(date.year, 4, 10000);
    FieldParses(date.month, 2, 100);
    FieldParses(date.day, 2, 100);
    FieldParses(rest / 3600, 2, 100);
    FieldParses(rest / 60 % 60, 2, 100);
    FieldParses(rest % 60, 2, 100);
    AssembleValues(Field(date.year, 4), Field(date.month, 2), Field(date.day, 2),
                   Field(rest / 3600, 2), Field(rest / 60 % 60, 2), Field(rest % 60, 2), date, rest);
  }

  lemma DateTimeRoundTrip(date: Date, rest: nat)
    requires date.Valid() && date.year < 10000 && rest < DAY_SECONDS
    ensures ParseDateTime(DateTime(date, rest)) == Some(DayNumber(date) * DAY_SECONDS + rest)
  {
    DateTimeFields(date, rest);
    FieldsAssemble(date, rest);
  }

  lemma WholeSecond(t: int, total: nat)
    requires t % SECOND == 0 && total == SecondsFromYearZero(t)
    ensures (total - EPOCH_DAY * DAY_SECONDS) * SECOND == t
  {
  }

  /** The day and the second of the day that a timestamp shows. */
  lemma SplitInstant(t: int) returns (day: nat, rest: nat)
    requires InRange(t)
    ensures Timestamp(t) == DateTime(DateOf(day), rest)
    ensures day < END_DAY && rest < DAY_SECONDS && day * DAY_SECONDS + rest == SecondsFromYearZero(t)
  {
    var total: nat := SecondsFromYearZero(t);
    day, rest := total / DAY_SECONDS, total % DAY_SECONDS;
  }

  lemma TimestampValue(s: string, t: int)
    requires |s| == 20 && t % SECOND == 0 && ParseDateTime(s) == Some(SecondsFromYearZero(t))
    ensures ParseTimestamp(s) == Some(t)
  {
    WholeSecond(t, SecondsFromYearZero(t));
  }

  lemma DateTimeValue(date: Date, rest: nat, t: int)
    requires date.Valid() && date.year < 10000 && rest < DAY_SECONDS && t % SECOND == 0
    requires DayNumber(date) * DAY_SECONDS + rest == SecondsFromYearZero(t)
    ensures ParseTimestamp(DateTime(date, rest)) == Some(t)
  {
    DateTimeRoundTrip(date, rest);
    TimestampValue(DateTime(date, rest), t);
  }

  /** A whole-second instant can be read back from its timestamp. */
  lemma TimestampRoundTrip(t: int)
    requires InRange(t) && t % SECOND == 0
    ensures ParseTimestamp(Timestamp(t)) == Some(t)
  {
    var day, rest := SplitInstant(t);
    YearBelow(day, END_YEAR);
    DayRoundTrip(day);
    DateTimeValue(DateOf(day), rest, t);
  }

  /** An instant is shown as the civil date and time of day that lie as far behind the first of
      January 1970 as the instant lies behind zero. */
  lemma InstantShown(t: int, date: Date, rest: nat, epoch: nat)
    requires InRange(t) && date.Valid() && rest < DAY_SECONDS && epoch == EPOCH_YEAR
    requires t == ((DayNumber(date) - DayNumber(Date(epoch, 1, 1))) * DAY_SECONDS + rest) * SECOND
    ensures Timestamp(t) == DateTime(date, rest)
  {
    Anchors(epoch, END_YEAR);
    assert DayNumber(Date(epoch, 1, 1)) == EPOCH_DAY;
    var day, part := SplitInstant(t);
    SameDay(t, DayNumber(date), rest, day, part);
    DateRoundTrip(date);
  }

  lemma SameDay(t: int, n: nat, rest: nat, day: nat, part: nat)
    requires rest < DAY_SECONDS && part < DAY_SECONDS
    requires t == ((n - EPOCH_DAY) * DAY_SECONDS + rest) * SECOND
    requires day * DAY_SECONDS + part == SecondsFromYearZero(t)
    ensures day == n && part == rest
  {
    assert SecondsFromYearZero(t) == n * DAY_SECONDS + rest;
  }

  /** Schedule and instant can be read back from the key. */
  lemma KeyRoundTrip(scheduleId: int, t: int)
    requires InRange(t) && t % SECOND == 0
    ensures ParseKey(KeyFor(scheduleId, t)) == Some((scheduleId, t))
  {
    var key := KeyFor(scheduleId, t);
    assert key[..|key| - 21] == Signed(scheduleId);
    assert key[|key| - 20..] == Timestamp(t);
    SignedParses(scheduleId);
    TimestampRoundTrip(t);
  }

  /** Distinct fires of any schedules get distinct keys. */
  lemma KeyInjective(i: int, t: int, j: int, u: int)
    requires InRange(t) && t % SECOND == 0 && InRange(u) && u % SECOND == 0
    ensures KeyFor(i, t) == KeyFor(j, u) <==> i == j && t == u
  {
    KeyRoundTrip(i, t);
    KeyRoundTrip(j, u);
  }
}
