/**
 UTC instants as Python's datetime represents them, as microseconds, and as the text the
 database and the wire carry (section 5.1 of RFC 3339: fixed-width text sorts chronologically).
 */
module Timestamps {
  import opened Prelude
  import opened Digits

  // ---- Calendar ----

  datatype Fields = Fields(year: int, month: int, day: int, hour: int, minute: int, second: int, micro: int)

  predicate IsLeap(year: int) {
    year % 4 == 0 && (year % 100 != 0 || year % 400 == 0)
  }

  function DaysInMonth(year: int, month: int): int {
    if month == 2 then (if IsLeap(year) then 29 else 28)
    else if month == 4 || month == 6 || month == 9 || month == 11 then 30
    else 31
  }

  predicate ValidFields(f: Fields) {
    && 1 <= f.year <= 9999
    && 1 <= f.month <= 12
    && 1 <= f.day <= DaysInMonth(f.year, f.month)
    && 0 <= f.hour < 24
    && 0 <= f.minute < 60
    && 0 <= f.second < 60
    && 0 <= f.micro < 1000000
  }

  type DateTime = f: Fields | ValidFields(f) witness Fields(1, 1, 1, 0, 0, 0, 0)

  // ---- Microseconds ----

  /** Microseconds from 0001-01-01T00:00:00 to the last instant Python's datetime can hold. */
  const MAX_MICROS: int := 315537897599999999

  predicate Representable(t: int) {
    0 <= t <= MAX_MICROS
  }

  type Instant = t: int | 0 <= t <= MAX_MICROS witness 0

  function DaysBeforeYear(year: int): int {
    (year - 1) * 365 + (year - 1) / 4 - (year - 1) / 100 + (year - 1) / 400
  }

  function DaysBeforeMonth(year: int, month: int): int
    decreases month
  {
    if month <= 1 then 0 else DaysBeforeMonth(year, month - 1) + DaysInMonth(year, month - 1)
  }

  function Days(d: DateTime): int {
    DaysBeforeYear(d.year) + DaysBeforeMonth(d.year, d.month) + d.day - 1
  }

  function MicrosOfDay(d: DateTime): (m: int)
    ensures 0 <= m < 86400000000
  {
    ((d.hour * 60 + d.minute) * 60 + d.second) * 1000000 + d.micro
  }

  function Micros(d: DateTime): Instant {
    DaysRange(d);
    Days(d) * 86400000000 + MicrosOfDay(d)
  }

  lemma MonthsFit(year: int, month: int)
    requires 1 <= month <= 12
    ensures 0 <= DaysBeforeMonth(year, month)
    ensures DaysBeforeMonth(year, month) + DaysInMonth(year, month) <= 365 + (if IsLeap(year) then 1 else 0)
  {
    var f := m => DaysBeforeMonth(year, m);
    assert f(2) == 31;
    var feb := DaysInMonth(year, 2);
    assert f(3) == 31 + feb;
    assert f(4) == 62 + feb;
    assert f(5) == 92 + feb;
    assert f(6) == 123 + feb;
    assert f(7) == 153 + feb;
    assert f(8) == 184 + feb;
    assert f(9) == 215 + feb;
    assert f(10) == 245 + feb;
    assert f(11) == 276 + feb;
    assert f(12) == 306 + feb;
  }

  lemma {:induction false} MonthsMonotone(year: int, m: int, n: int)
    requires 1 <= m < n
    ensures DaysBeforeMonth(year, m) + DaysInMonth(year, m) <= DaysBeforeMonth(year, n)
    decreases n
  {
    if m < n - 1 { MonthsMonotone(year, m, n - 1); }
  }

  lemma FourthYears(y: int)
    ensures y / 4 - (y - 1) / 4 == if y % 4 == 0 then 1 else 0
  {
  }

  lemma By100(q: int, r: int)
    requires 0 <= r < 100
    ensures (100 * q + r) / 100 == q && (100 * q + r) % 100 == r
  {
  }

  lemma Centuries(y: int)
    ensures y / 100 - (y - 1) / 100 == if y % 100 == 0 then 1 else 0
  {
    var q, r := y / 100, y % 100;
    assert y == 100 * q + r;
    if r == 0 { By100(q - 1, 99); } else { By100(q, r - 1); }
  }

  lemma By400(q: int, r: int)
    requires 0 <= r < 400
    ensures (400 * q + r) / 400 == q && (400 * q + r) % 400 == r
  {
  }

  lemma FourthCenturies(y: int)
    ensures y / 400 - (y - 1) / 400 == if y % 400 == 0 then 1 else 0
  {
    var q, r := y / 400, y % 400;
    assert y == 400 * q + r;
    if r == 0 { By400(q - 1, 399); } else { By400(q, r - 1); }
  }

  lemma By4(q: int)
    ensures (4 * q) % 4 == 0
  {
  }

  lemma CenturiesAreFourths(y: int)
    requires y % 100 == 0
    ensures y % 4 == 0
  {
    var q := y / 100;
    assert y == 100 * q == 4 * (25 * q);
    By4(25 * q);
  }

  lemma FourthCenturiesAreCenturies(y: int)
    requires y % 400 == 0
    ensures y % 100 == 0
  {
    var q := y / 400;
    assert y == 400 * q == 100 * (4 * q) + 0;
    By100(4 * q, 0);
  }

  lemma YearStep(year: int)
    requires 1 <= year
    ensures DaysBeforeYear(year + 1) == DaysBeforeYear(year) + 365 + (if IsLeap(year) then 1 else 0)
  {
    FourthYears(year);
    Centuries(year);
    FourthCenturies(year);
    if year % 100 == 0 { CenturiesAreFourths(year); }
    if year % 400 == 0 { FourthCenturiesAreCenturies(year); }
  }

  lemma {:induction false} YearsMonotone(m: int, n: int)
    requires 1 <= m <= n
    ensures DaysBeforeYear(m) <= DaysBeforeYear(n)
    decreases n
  {
    if m < n {
      YearsMonotone(m, n - 1);
      YearStep(n - 1);
    }
  }

  lemma DaysRange(d: DateTime)
    ensures 0 <= DaysBeforeYear(d.year) <= Days(d) < DaysBeforeYear(d.year + 1) <= 3652059
  {
    MonthsFit(d.year, d.month);
    YearStep(d.year);
    YearsMonotone(1, d.year);
    YearsMonotone(d.year + 1, 10000);
  }

  /** The calendar day after d, at the same time of day. */
  function NextDay(d: DateTime): Fields {
    if d.day < DaysInMonth(d.year, d.month) then d.(day := d.day + 1)
    else if d.month < 12 then d.(month := d.month + 1, day := 1)
    else d.(year := d.year + 1, month := 1, day := 1)
  }

  lemma NextMonthDays(year: int, month: int)
    requires 1 <= month < 12
    ensures DaysBeforeMonth(year, month + 1) == DaysBeforeMonth(year, month) + DaysInMonth(year, month)
  {
  }

  lemma YearDays(year: int)
    ensures DaysBeforeMonth(year, 12) + DaysInMonth(year, 12) == 365 + (if IsLeap(year) then 1 else 0)
  {
    MonthsFit(year, 12);
    var f := m => DaysBeforeMonth(year, m);
    assert f(2) == 31;
    assert f(4) == 62 + DaysInMonth(year, 2);
    assert f(6) == 123 + DaysInMonth(year, 2);
    assert f(8) == 184 + DaysInMonth(year, 2);
    assert f(10) == 245 + DaysInMonth(year, 2);
    assert f(12) == 306 + DaysInMonth(year, 2);
  }

  /** The next calendar day, across month ends, leap days and year ends, is 86400 seconds later. */
  lemma NextDayIsADayLater(d: DateTime)
    requires ValidFields(NextDay(d))
    ensures Micros(NextDay(d)) == Micros(d) + 86400 * 1000000
  {
    if d.day == DaysInMonth(d.year, d.month) {
      if d.month < 12 {
        NextMonthDays(d.year, d.month);
      } else {
        YearDays(d.year);
        YearStep(d.year);
      }
    }
  }

  function Midnight(d: DateTime): DateTime {
    d.(hour := 0, minute := 0, second := 0, micro := 0)
  }

  /** Midnight is a whole number of days of 86400 seconds. */
  lemma MidnightStarts(d: DateTime)
    ensures Days(Midnight(d)) == Days(d) && Micros(Midnight(d)) == Days(d) * 86400000000
  {
    assert MicrosOfDay(Midnight(d)) == 0;
  }

  /** Within a day microseconds go by the clock. */
  lemma MicrosByTheClock(d: DateTime)
    ensures Micros(d) == Micros(Midnight(d)) + ((d.hour * 60 + d.minute) * 60 + d.second) * 1000000 + d.micro
  {
    MidnightStarts(d);
  }

  lemma FirstDay()
    ensures DaysBeforeYear(1) + DaysBeforeMonth(1, 1) == 0
  {
  }

  /** Days count from 1 January of year 1. */
  lemma CalendarStarts(d: DateTime)
    requires d.year == 1 && d.month == 1 && d.day == 1
    ensures Days(d) == 0
  {
    FirstDay();
  }

  /** Field-by-field comparison: how Python orders two UTC datetimes. */
  predicate Earlier(a: Fields, b: Fields) {
    ValuesLess(Numbers(a), Numbers(b))
  }

  function Numbers(f: Fields): seq<int> {
    [f.year, f.month, f.day, f.hour, f.minute, f.second, f.micro]
  }

  predicate ValuesLess(a: seq<int>, b: seq<int>)
    requires |a| == |b|
  {
    a != [] && (a[0] < b[0] || (a[0] == b[0] && ValuesLess(a[1..], b[1..])))
  }

  lemma EarlierUnfolds(a: Fields, b: Fields)
    ensures Earlier(a, b) <==>
      || a.year < b.year
      || (a.year == b.year && (
        || a.month < b.month
        || (a.month == b.month && (
          || a.day < b.day
          || (a.day == b.day && (
            || a.hour < b.hour
            || (a.hour == b.hour && (
              || a.minute < b.minute
              || (a.minute == b.minute && (
                || a.second < b.second
                || (a.second == b.second && a.micro < b.micro)))))))))))
  {
    var x, y := Numbers(a), Numbers(b);
    assert x[1..][1..] == x[2..] && y[1..][1..] == y[2..];
    assert x[2..][1..] == x[3..] && y[2..][1..] == y[3..];
    assert x[3..][1..] == x[4..] && y[3..][1..] == y[4..];
    assert x[4..][1..] == x[5..] && y[4..][1..] == y[5..];
    assert x[5..][1..] == x[6..] && y[5..][1..] == y[6..];
    assert x[6..][1..] == [] && y[6..][1..] == [];
    assert ValuesLess(x[6..], y[6..]) <==> a.micro < b.micro;
    assert ValuesLess(x[5..], y[5..]) <==> a.second < b.second || (a.second == b.second && ValuesLess(x[6..], y[6..]));
    assert ValuesLess(x[4..], y[4..]) <==> a.minute < b.minute || (a.minute == b.minute && ValuesLess(x[5..], y[5..]));
    assert ValuesLess(x[3..], y[3..]) <==> a.hour < b.hour || (a.hour == b.hour && ValuesLess(x[4..], y[4..]));
    assert ValuesLess(x[2..], y[2..]) <==> a.day < b.day || (a.day == b.day && ValuesLess(x[3..], y[3..]));
    assert ValuesLess(x[1..], y[1..]) <==> a.month < b.month || (a.month == b.month && ValuesLess(x[2..], y[2..]));
  }

  lemma EarlierInYear(year: int, m: int, d: int, n: int, e: int)
    requires 1 <= m <= 12 && 1 <= n <= 12 && 1 <= d <= DaysInMonth(year, m) && 1 <= e
    requires m < n || (m == n && d < e)
    ensures DaysBeforeMonth(year, m) + d < DaysBeforeMonth(year, n) + e
  {
    if m < n { MonthsMonotone(year, m, n); }
  }

  lemma EarlierDay(a: DateTime, b: DateTime)
    requires a.year < b.year || (a.year == b.year && (a.month < b.month || (a.month == b.month && a.day < b.day)))
    ensures Days(a) < Days(b)
  {
    if a.year < b.year {
      DaysRange(a);
      DaysRange(b);
      YearsMonotone(a.year + 1, b.year);
    } else {
      EarlierInYear(a.year, a.month, a.day, b.month, b.day);
    }
  }

  lemma EarlierMicros(a: DateTime, b: DateTime)
    requires Earlier(a, b)
    ensures Micros(a) < Micros(b)
  {
    EarlierUnfolds(a, b);
    if !(a.year == b.year && a.month == b.month && a.day == b.day) {
      EarlierDay(a, b);
    }
  }

  /** The microsecond clock orders instants exactly as the calendar does, and tells any two apart. */
  lemma Chronology(a: DateTime, b: DateTime)
    ensures Earlier(a, b) <==> Micros(a) < Micros(b)
    ensures a == b <==> Micros(a) == Micros(b)
  {
    EarlierUnfolds(a, b);
    EarlierUnfolds(b, a);
    if Earlier(a, b) { EarlierMicros(a, b); }
    if Earlier(b, a) { EarlierMicros(b, a); }
  }

  // ---- Text ----

  /** Each value zero-padded to its width and followed by its one-character separator. */
  function Render(values: seq<nat>, widths: seq<nat>, separators: string): string
    requires |values| == |widths| == |separators|
  {
    if values == [] then ""
    else Pad(values[0], widths[0]) + ([separators[0]] + Render(values[1..], widths[1..], separators[1..]))
  }

  predicate Fits(values: seq<nat>, widths: seq<nat>) {
    |values| == |widths| && forall i :: 0 <= i < |values| ==> values[i] < Pow10(widths[i])
  }

  /** Reads back what Render wrote; anything of another shape is refused. */
  function Scan(text: string, widths: seq<nat>, separators: string): (r: Option<seq<nat>>)
    requires |widths| == |separators|
    ensures r.Some? ==> |r.value| == |widths|
    decreases |widths|
  {
    if widths == [] then (if text == "" then Some([]) else None)
    else
      var w := widths[0];
      if |text| <= w || !AllDigits(text[..w]) || text[w] != separators[0] then None
      else
        match Scan(text[w + 1..], widths[1..], separators[1..])
        case None => None
        case Some(rest) => Some([Value(text[..w])] + rest)
  }

  lemma FirstPart(head: string, separator: char, rest: string)
    ensures var text, w := head + ([separator] + rest), |head|;
      |text| > w && text[..w] == head && text[w] == separator && text[w + 1..] == rest
  {
  }

  lemma ScanFirst(head: string, rest: string, widths: seq<nat>, separators: string)
    requires |widths| == |separators| > 0 && |head| == widths[0] && AllDigits(head)
    ensures Scan(head + ([separators[0]] + rest), widths, separators) ==
      match Scan(rest, widths[1..], separators[1..])
      case None => None
      case Some(values) => Some([Value(head)] + values)
  {
    FirstPart(head, separators[0], rest);
  }

  lemma {:induction false} ScanRender(values: seq<nat>, widths: seq<nat>, separators: string)
    requires |values| == |widths| == |separators| && Fits(values, widths)
    ensures Scan(Render(values, widths, separators), widths, separators) == Some(values)
  {
    if values != [] {
      ScanRender(values[1..], widths[1..], separators[1..]);
      PadValue(values[0], widths[0]);
      ScanFirst(Pad(values[0], widths[0]), Render(values[1..], widths[1..], separators[1..]), widths, separators);
      assert values == [values[0]] + values[1..];
    }
  }

  lemma {:induction false} RenderOrder(a: seq<nat>, b: seq<nat>, widths: seq<nat>, separators: string)
    requires |a| == |b| == |widths| == |separators| && Fits(a, widths) && Fits(b, widths)
    ensures TextLess(Render(a, widths, separators), Render(b, widths, separators)) <==> ValuesLess(a, b)
  {
    if a != [] {
      var ra, rb := Render(a[1..], widths[1..], separators[1..]), Render(b[1..], widths[1..], separators[1..]);
      RenderOrder(a[1..], b[1..], widths[1..], separators[1..]);
      PadOrder(a[0], b[0], widths[0]);
      PadShape(a[0], widths[0]);
      PadShape(b[0], widths[0]);
      TextLessSplits(Pad(a[0], widths[0]), Pad(b[0], widths[0]), [separators[0]] + ra, [separators[0]] + rb);
      TextLessSplits([separators[0]], [separators[0]], ra, rb);
      TextLessIrreflexive([separators[0]]);
    }
  }

  const STORED_WIDTHS: seq<nat> := [4, 2, 2, 2, 2, 2, 6]
  const WHOLE_WIDTHS: seq<nat> := [4, 2, 2, 2, 2, 2]
  const STORED_SEPARATORS: string := "--T::.Z"
  const WHOLE_SEPARATORS: string := "--T::Z"

  lemma PowersOfTen()
    ensures Pow10(2) == 100 && Pow10(4) == 10000 && Pow10(6) == 1000000
  {
    assert Pow10(3) == 1000;
    assert Pow10(5) == 100000;
  }

  lemma NumbersFit(d: DateTime)
    ensures Fits(Numbers(d), STORED_WIDTHS) && Fits(Numbers(d)[..6], WHOLE_WIDTHS)
  {
    PowersOfTen();
  }

  /** The column text: isoformat(timespec="microseconds") with +00:00 written as Z. */
  function StoredText(d: DateTime): string {
    Render(Numbers(d), STORED_WIDTHS, STORED_SEPARATORS)
  }

  function FromNumbers(v: seq<nat>): Option<DateTime>
    requires |v| == 7
  {
    var f := Fields(v[0], v[1], v[2], v[3], v[4], v[5], v[6]);
    if ValidFields(f) then Some(f) else None
  }

  function ParseStored(text: string): Option<DateTime> {
    match Scan(text, STORED_WIDTHS, STORED_SEPARATORS)
    case None => None
    case Some(v) => FromNumbers(v)
  }

  /** The stored text of any two instants compares as a string exactly as the instants compare. */
  lemma StoredTextOrder(a: DateTime, b: DateTime)
    ensures TextLess(StoredText(a), StoredText(b)) <==> Micros(a) < Micros(b)
  {
    NumbersFit(a);
    NumbersFit(b);
    RenderOrder(Numbers(a), Numbers(b), STORED_WIDTHS, STORED_SEPARATORS);
    Chronology(a, b);
  }

  lemma StoredRoundTrip(d: DateTime)
    ensures ParseStored(StoredText(d)) == Some(d)
  {
    NumbersFit(d);
    ScanRender(Numbers(d), STORED_WIDTHS, STORED_SEPARATORS);
  }

  /** The signed form: the fraction is dropped when it is zero. */
  function WireText(d: DateTime): string {
    if d.micro == 0 then Render(Numbers(d)[..6], WHOLE_WIDTHS, WHOLE_SEPARATORS) else StoredText(d)
  }

  function ParseWire(text: string): Option<DateTime> {
    match Scan(text, WHOLE_WIDTHS, WHOLE_SEPARATORS)
    case Some(v) => FromNumbers(v + [0])
    case None => ParseStored(text)
  }

  lemma {:induction false} RenderLength(values: seq<nat>, widths: seq<nat>, separators: string)
    requires |values| == |widths| == |separators|
    ensures |Render(values, widths, separators)| == Total(widths) + |widths|
  {
    if values != [] {
      RenderLength(values[1..], widths[1..], separators[1..]);
      PadShape(values[0], widths[0]);
    }
  }

  lemma {:induction false} ScanLength(text: string, widths: seq<nat>, separators: string)
    requires |widths| == |separators| && Scan(text, widths, separators).Some?
    ensures |text| == Total(widths) + |widths|
    decreases |widths|
  {
    if widths != [] { ScanLength(text[widths[0] + 1..], widths[1..], separators[1..]); }
  }

  function Total(widths: seq<nat>): nat {
    if widths == [] then 0 else widths[0] + Total(widths[1..])
  }

  lemma Totals()
    ensures Total(STORED_WIDTHS) == 20 && Total(WHOLE_WIDTHS) == 14
  {
    assert WHOLE_WIDTHS[1..] == [2, 2, 2, 2, 2] && STORED_WIDTHS[1..] == [2, 2, 2, 2, 2, 6];
    assert Total([2, 2, 2]) == 6 && Total([2, 2, 2, 6]) == 12 by {
      assert [2, 2, 2][1..] == [2, 2] && [2, 2][1..] == [2] && [2, 2, 2, 6][1..] == [2, 2, 6] && [2, 2, 6][1..] == [2, 6];
      assert [2, 6][1..] == [6];
    }
    assert Total([2, 2, 2, 2, 2]) == 10 by {
      assert [2, 2, 2, 2, 2][1..] == [2, 2, 2, 2] && [2, 2, 2, 2][1..] == [2, 2, 2];
    }
    assert Total([2, 2, 2, 2, 2, 6]) == 16 by {
      assert [2, 2, 2, 2, 2, 6][1..] == [2, 2, 2, 2, 6] && [2, 2, 2, 2, 6][1..] == [2, 2, 2, 6];
    }
  }

  lemma WireRoundTrip(d: DateTime)
    ensures ParseWire(WireText(d)) == Some(d)
  {
    NumbersFit(d);
    if d.micro == 0 {
      ScanRender(Numbers(d)[..6], WHOLE_WIDTHS, WHOLE_SEPARATORS);
      assert Numbers(d)[..6] + [0] == Numbers(d);
    } else {
      StoredRoundTrip(d);
      RenderLength(Numbers(d), STORED_WIDTHS, STORED_SEPARATORS);
      Totals();
      if Scan(StoredText(d), WHOLE_WIDTHS, WHOLE_SEPARATORS).Some? {
        ScanLength(StoredText(d), WHOLE_WIDTHS, WHOLE_SEPARATORS);
      }
    }
  }
}
