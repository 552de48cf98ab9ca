/** Python's proleptic Gregorian calendar, years 1 to 9999, at microsecond resolution. */
module Calendar {

  predicate IsLeap(y: int) {
    y % 4 == 0 && (y % 100 != 0 || y % 400 == 0)
  }

  function DaysInMonth(y: int, m: int): (n: int)
    ensures 28 <= n <= 31
  {
    if m == 2 then (if IsLeap(y) then 29 else 28)
    else if m == 4 || m == 6 || m == 9 || m == 11 then 30
    else 31
  }

  function DaysBeforeYear(y: int): int {
    var p := y - 1;
    365 * p + p / 4 - p / 100 + p / 400
  }

  function DaysBeforeMonth(y: int, m: int): int
    requires 1 <= m
  {
    if m == 1 then 0 else DaysBeforeMonth(y, m - 1) + DaysInMonth(y, m - 1)
  }

  datatype Date = Date(year: int, month: int, day: int)

  predicate ValidDate(d: Date) {
    1 <= d.year <= 9999 && 1 <= d.month <= 12 && 1 <= d.day <= DaysInMonth(d.year, d.month)
  }

  /** Days since 31 December of year 0, so that 1 January of year 1 is day 1. */
  function Ordinal(d: Date): int
    requires ValidDate(d)
  {
    DaysBeforeYear(d.year) + DaysBeforeMonth(d.year, d.month) + d.day
  }

  predicate DateBefore(a: Date, b: Date) {
    a.year < b.year || (a.year == b.year &&
      (a.month < b.month || (a.month == b.month && a.day < b.day)))
  }

  lemma DivStep4(y: int)
    ensures y / 4 == (y - 1) / 4 + if y % 4 == 0 then 1 else 0
  {
  }

  lemma DivStep100(y: int)
    ensures y / 100 == (y - 1) / 100 + if y % 100 == 0 then 1 else 0
    ensures y % 100 == 0 ==> y % 4 == 0
  {
  }

  lemma DivStep400(y: int)
    ensures y / 400 == (y - 1) / 400 + if y % 400 == 0 then 1 else 0
    ensures y % 400 == 0 ==> y % 100 == 0
  {
  }

  lemma YearLength(y: int)
    ensures DaysBeforeYear(y + 1) == DaysBeforeYear(y) + if IsLeap(y) then 366 else 365
  {
    DivStep4(y);
    DivStep100(y);
    DivStep400(y);
  }

  lemma {:induction false} YearsGrow(y: int, z: int)
    requires y < z
    ensures DaysBeforeYear(y) + 365 <= DaysBeforeYear(y + 1) <= DaysBeforeYear(z)
    decreases z - y
  {
    YearLength(y);
    if y + 1 < z { YearsGrow(y + 1, z); }
  }

  lemma {:induction false} MonthsGrow(y: int, m: int, n: int)
    requires 1 <= m < n
    ensures DaysBeforeMonth(y, m) + DaysInMonth(y, m) <= DaysBeforeMonth(y, n)
    decreases n
  {
    if m < n - 1 { MonthsGrow(y, m, n - 1); }
  }

  const MONTHS: seq<int> := [31, 28, 31, 30, 31, 30, 31, 31, 30, 31, 30, 31]

  /** The calendar's month lengths: February has one day more in years divisible by 4, centuries only by 400. */
  lemma MonthLengths(y: int, m: int)
    requires 1 <= m <= 12
    ensures DaysInMonth(y, m) ==
            MONTHS[m - 1] + if m == 2 && ((y % 4 == 0 && y % 100 != 0) || y % 400 == 0) then 1 else 0
  {
    if y % 400 == 0 { DivStep400(y); DivStep100(y); }
  }

  lemma MonthTable(y: int)
    ensures DaysBeforeMonth(y, 13) == if IsLeap(y) then 366 else 365
  {
    assert DaysBeforeMonth(y, 2) == 31;
    assert DaysBeforeMonth(y, 3) == 31 + DaysInMonth(y, 2);
    assert DaysBeforeMonth(y, 5) == DaysBeforeMonth(y, 3) + 61;
    assert DaysBeforeMonth(y, 7) == DaysBeforeMonth(y, 5) + 61;
    assert DaysBeforeMonth(y, 9) == DaysBeforeMonth(y, 7) + 62;
    assert DaysBeforeMonth(y, 11) == DaysBeforeMonth(y, 9) + 61;
    assert DaysBeforeMonth(y, 13) == DaysBeforeMonth(y, 11) + 61;
  }

  lemma OrdinalWithinYear(d: Date)
    requires ValidDate(d)
    ensures DaysBeforeYear(d.year) < Ordinal(d) <= DaysBeforeYear(d.year + 1)
  {
    MonthTable(d.year);
    YearLength(d.year);
    MonthsGrow(d.year, d.month, 13);
    if d.month > 1 { MonthsGrow(d.year, 1, d.month); }
  }

  lemma OrdinalIncreases(a: Date, b: Date)
    requires ValidDate(a) && ValidDate(b) && DateBefore(a, b)
    ensures Ordinal(a) < Ordinal(b)
  {
    if a.year < b.year {
      OrdinalWithinYear(a);
      OrdinalWithinYear(b);
      YearsGrow(a.year, b.year);
    } else if a.month < b.month {
      MonthsGrow(a.year, a.month, b.month);
    }
  }

  /** Day numbers order and identify dates. */
  lemma OrdinalOrder(a: Date, b: Date)
    requires ValidDate(a) && ValidDate(b)
    ensures Ordinal(a) < Ordinal(b) <==> DateBefore(a, b)
    ensures Ordinal(a) == Ordinal(b) <==> a == b
  {
    if DateBefore(a, b) {
      OrdinalIncreases(a, b);
    } else if a != b {
      OrdinalIncreases(b, a);
    }
  }

  // ---------- From a day number back to the date ----------

  function YearFrom(n: int, y: int): (r: int)
    requires DaysBeforeYear(y) < n
    ensures y <= r && DaysBeforeYear(r) < n <= DaysBeforeYear(r + 1)
    decreases n - DaysBeforeYear(y)
  {
    YearLength(y);
    if n <= DaysBeforeYear(y + 1) then y else YearFrom(n, y + 1)
  }

  function MonthFrom(y: int, k: int, m: int): (r: int)
    requires 1 <= m && DaysBeforeMonth(y, m) < k
    ensures m <= r && DaysBeforeMonth(y, r) < k <= DaysBeforeMonth(y, r) + DaysInMonth(y, r)
    decreases k - DaysBeforeMonth(y, m)
  {
    if k <= DaysBeforeMonth(y, m) + DaysInMonth(y, m) then m else MonthFrom(y, k, m + 1)
  }

  const LAST_DAY := 3_652_059  // 31 December 9999

  function FromOrdinal(n: int): (d: Date)
    requires 1 <= n <= LAST_DAY
    ensures ValidDate(d) && Ordinal(d) == n
  {
    var y := YearFrom(n, 1);
    var k := n - DaysBeforeYear(y);
    var m := MonthFrom(y, k, 1);
    YearInRange(n, y);
    MonthInRange(y, k, m);
    Date(y, m, k - DaysBeforeMonth(y, m))
  }

  lemma YearInRange(n: int, y: int)
    requires n <= LAST_DAY && 1 <= y && DaysBeforeYear(y) < n
    ensures y <= 9999
  {
    if y > 9999 && y != 10000 { YearsGrow(10000, y); }
    assert DaysBeforeYear(10000) == LAST_DAY;
  }

  lemma MonthInRange(y: int, k: int, m: int)
    requires 1 <= m && DaysBeforeMonth(y, m) < k <= DaysBeforeYear(y + 1) - DaysBeforeYear(y)
    ensures m <= 12
  {
    MonthTable(y);
    YearLength(y);
    if m > 13 { MonthsGrow(y, 13, m); }
  }

  lemma OrdinalInRange(d: Date)
    requires ValidDate(d)
    ensures 1 <= Ordinal(d) <= LAST_DAY
  {
    OrdinalWithinYear(d);
    if d.year < 9999 { YearsGrow(d.year + 1, 10000); }
    if d.year > 1 { YearsGrow(1, d.year); }
    assert DaysBeforeYear(10000) == LAST_DAY && DaysBeforeYear(1) == 0;
  }

  // ---------- Date and time of day ----------

  const SECOND := 1_000_000  // microseconds
  const MINUTE := 60 * SECOND
  const HOUR := 60 * MINUTE
  const DAY := 24 * HOUR

  datatype DateTime = DateTime(date: Date, hour: int, minute: int, second: int, micro: int)

  predicate ValidDateTime(t: DateTime) {
    ValidDate(t.date) && 0 <= t.hour < 24 && 0 <= t.minute < 60 && 0 <= t.second < 60 && 0 <= t.micro < SECOND
  }

  function TimeOfDay(t: DateTime): int {
    t.hour * HOUR + t.minute * MINUTE + t.second * SECOND + t.micro
  }

  /** Microseconds on a clock with no offset, counted in days from day 0. */
  function Micros(t: DateTime): int
    requires ValidDateTime(t)
  {
    Ordinal(t.date) * DAY + TimeOfDay(t)
  }

  const FIRST_MICRO := DAY
  const LAST_MICRO := LAST_DAY * DAY + DAY - 1

  /** The microseconds that fall in years 1 to 9999. */
  predicate Representable(u: int) {
    FIRST_MICRO <= u <= LAST_MICRO
  }

  function FromMicros(u: int): (t: DateTime)
    requires Representable(u)
    ensures ValidDateTime(t) && Micros(t) == u
  {
    var r := u % DAY;
    DayInRange(u);
    SplitTimeOfDay(r);
    DateTime(FromOrdinal(u / DAY), r / HOUR, r % HOUR / MINUTE, r % MINUTE / SECOND, r % SECOND)
  }

  lemma DayInRange(u: int)
    requires Representable(u)
    ensures 1 <= u / DAY <= LAST_DAY && 0 <= u % DAY < DAY && u == u / DAY * DAY + u % DAY
  {
  }

  lemma SplitTimeOfDay(r: int)
    requires 0 <= r < DAY
    ensures 0 <= r / HOUR < 24 && 0 <= r % HOUR / MINUTE < 60 && 0 <= r % MINUTE / SECOND < 60
    ensures r / HOUR * HOUR + r % HOUR / MINUTE * MINUTE + r % MINUTE / SECOND * SECOND + r % SECOND == r
  {
    var minutes := r / MINUTE;
    var seconds := r / SECOND;
    assert r == seconds * SECOND + r % SECOND;
    assert minutes == seconds / 60 && r / HOUR == minutes / 60;
    assert r % MINUTE / SECOND == seconds % 60;
    assert r % HOUR / MINUTE == minutes % 60;
  }

  predicate Before(a: DateTime, b: DateTime) {
    DateBefore(a.date, b.date) || (a.date == b.date &&
      (a.hour < b.hour || (a.hour == b.hour &&
      (a.minute < b.minute || (a.minute == b.minute &&
      (a.second < b.second || (a.second == b.second && a.micro < b.micro)))))))
  }

  lemma SixtiethsOrder(m: int, n: int, x: int, y: int)
    requires 0 <= x < 60 && 0 <= y < 60
    ensures m * 60 + x < n * 60 + y <==> m < n || (m == n && x < y)
    ensures m * 60 + x == n * 60 + y <==> m == n && x == y
  {
  }

  lemma SecondsOrder(m: int, n: int, x: int, y: int)
    requires 0 <= x < SECOND && 0 <= y < SECOND
    ensures m * SECOND + x < n * SECOND + y <==> m < n || (m == n && x < y)
    ensures m * SECOND + x == n * SECOND + y <==> m == n && x == y
  {
  }

  lemma TimeOfDayOrder(a: DateTime, b: DateTime)
    requires ValidDateTime(a) && ValidDateTime(b) && a.date == b.date
    ensures 0 <= TimeOfDay(a) < DAY
    ensures TimeOfDay(a) < TimeOfDay(b) <==> Before(a, b)
    ensures TimeOfDay(a) == TimeOfDay(b) <==> a == b
  {
    var m, n := a.hour * 60 + a.minute, b.hour * 60 + b.minute;
    SixtiethsOrder(a.hour, b.hour, a.minute, b.minute);
    SixtiethsOrder(m, n, a.second, b.second);
    SecondsOrder(m * 60 + a.second, n * 60 + b.second, a.micro, b.micro);
    assert TimeOfDay(a) == (m * 60 + a.second) * SECOND + a.micro;
    assert TimeOfDay(b) == (n * 60 + b.second) * SECOND + b.micro;
  }

  lemma WholeDays(m: int, n: int, x: int, y: int)
    requires 0 <= x < DAY && 0 <= y < DAY
    ensures m * DAY + x < n * DAY + y <==> m < n || (m == n && x < y)
    ensures m * DAY + x == n * DAY + y <==> m == n && x == y
  {
  }

  /** The microsecond count orders and identifies date-times field by field. */
  lemma MicrosOrder(a: DateTime, b: DateTime)
    requires ValidDateTime(a) && ValidDateTime(b)
    ensures Micros(a) < Micros(b) <==> Before(a, b)
    ensures Micros(a) == Micros(b) <==> a == b
  {
    OrdinalOrder(a.date, b.date);
    TimeOfDayOrder(a, a);
    TimeOfDayOrder(b, b);
    WholeDays(Ordinal(a.date), Ordinal(b.date), TimeOfDay(a), TimeOfDay(b));
    if a.date == b.date { TimeOfDayOrder(a, b); }
  }

  lemma MicrosInRange(t: DateTime)
    requires ValidDateTime(t)
    ensures Representable(Micros(t))
    ensures FromMicros(Micros(t)) == t
  {
    OrdinalInRange(t.date);
    TimeOfDayOrder(t, t);
    MicrosOrder(FromMicros(Micros(t)), t);
  }
}
