/** How a moment becomes a column and comes back: fixed-width UTC stamps whose text order is
    the order of time (sections 5.1 and 5.6 of RFC 3339), on the proleptic Gregorian
    calendar from year 1 to year 9999. */
module Times {
  import opened Wrappers
  import opened Text

  const MICROS_PER_DAY := 86_400_000_000
  const DAYS_IN_CALENDAR := 3_652_059

  /** An instant a datetime can hold, in microseconds since the start of year 1, UTC. */
  predicate OnCalendar(i: int) {
    0 <= i < DAYS_IN_CALENDAR * MICROS_PER_DAY
  }

  datatype Date = Date(year: int, month: int, day: int)

  datatype Civil = Civil(date: Date, hour: int, minute: int, second: int, micro: int)

  /** A datetime: what the wall shows, and how far east of UTC the wall is, in microseconds,
      when that is known. */
  datatype Moment = Moment(civil: Civil, offset: Option<int>)

  datatype TimeError = NaiveDatetime | OutOfRange | NotAStamp

  // ---- the calendar -------------------------------------------------------------------

  predicate IsLeap(y: int) {
    y % 4 == 0 && (y % 100 != 0 || y % 400 == 0)
  }

  function YearLength(y: int): int {
    if IsLeap(y) then 366 else 365
  }

  function MonthLength(y: int, m: int): int {
    if m == 2 then if IsLeap(y) then 29 else 28
    else if m == 4 || m == 6 || m == 9 || m == 11 then 30
    else 31
  }

  /** Days in the years before `y`. */
  function DaysBefore(y: nat): nat
    requires y >= 1
  {
    if y == 1 then 0 else DaysBefore(y - 1) + YearLength(y - 1)
  }

  function DaysBeforeMonth(y: int, m: nat): nat
    requires m >= 1
  {
    if m == 1 then 0 else DaysBeforeMonth(y, m - 1) + MonthLength(y, m - 1)
  }

  predicate IsDate(d: Date) {
    1 <= d.year <= 9999 && 1 <= d.month <= 12 && 1 <= d.day <= MonthLength(d.year, d.month)
  }

  predicate IsCivil(c: Civil) {
    IsDate(c.date) && 0 <= c.hour < 24 && 0 <= c.minute < 60 && 0 <= c.second < 60 && 0 <= c.micro < 1_000_000
  }

  function DayNumber(d: Date): int
    requires IsDate(d)
  {
    DaysBefore(d.year) + DaysBeforeMonth(d.year, d.month) + d.day - 1
  }

  /** The year that day `n` after the start of year `y` falls in, and the day of that year. */
  function YearFrom(y: nat, n: nat): (r: (nat, nat))
    requires y >= 1
    ensures r.0 >= y && r.1 < YearLength(r.0) && DaysBefore(r.0) + r.1 == DaysBefore(y) + n
    decreases n
  {
    if n < YearLength(y) then (y, n) else YearFrom(y + 1, n - YearLength(y))
  }

  function MonthFrom(y: int, m: nat, n: nat): (r: (nat, nat))
    requires 1 <= m <= 12 && DaysBeforeMonth(y, m) + n < YearLength(y)
    ensures m <= r.0 <= 12 && r.1 < MonthLength(y, r.0)
    ensures DaysBeforeMonth(y, r.0) + r.1 == DaysBeforeMonth(y, m) + n
    decreases 12 - m
  {
    if n < MonthLength(y, m) then (m, n)
    else
      TwelveMonths(y);
      MonthFrom(y, m + 1, n - MonthLength(y, m))
  }

  lemma TwelveMonths(y: int)
    ensures DaysBeforeMonth(y, 12) + MonthLength(y, 12) == YearLength(y)
  {
    assert DaysBeforeMonth(y, 2) == 31;
    assert DaysBeforeMonth(y, 4) == DaysBeforeMonth(y, 3) + 31;
    assert DaysBeforeMonth(y, 6) == DaysBeforeMonth(y, 5) + 31;
    assert DaysBeforeMonth(y, 8) == DaysBeforeMonth(y, 7) + 31;
    assert DaysBeforeMonth(y, 10) == DaysBeforeMonth(y, 9) + 30;
    assert DaysBeforeMonth(y, 12) == DaysBeforeMonth(y, 11) + 30;
  }

  /** The sum over years, in closed form. */
  lemma {:induction false} DaysBeforeClosed(y: nat)
    requires y >= 1
    ensures DaysBefore(y) == 365 * (y - 1) + (y - 1) / 4 - (y - 1) / 100 + (y - 1) / 400
  {
    if y > 1 {
      DaysBeforeClosed(y - 1);
      LeapStep(y - 1);
    }
  }

  lemma LeapStep(y: nat)
    requires y >= 1
    ensures y / 4 - y / 100 + y / 400 == (y - 1) / 4 - (y - 1) / 100 + (y - 1) / 400 + if IsLeap(y) then 1 else 0
  {
    DivStep(y, 4);
    DivStep(y, 100);
    DivStep(y, 400);
    assert y % 400 == 0 ==> y % 100 == 0;
    assert y % 100 == 0 ==> y % 4 == 0;
  }

  lemma DivStep(y: nat, d: nat)
    requires y >= 1 && d in {4, 100, 400}
    ensures y / d == (y - 1) / d + if y % d == 0 then 1 else 0
  {
    if d == 4 { } else if d == 100 { } else { }
  }

  lemma {:induction false} YearsAccumulate(a: nat, b: nat)
    requires 1 <= a < b
    ensures DaysBefore(a) + YearLength(a) <= DaysBefore(b)
  {
    if b > a + 1 { YearsAccumulate(a, b - 1); }
  }

  lemma {:induction false} MonthsAccumulate(y: int, a: nat, b: nat)
    requires 1 <= a < b
    ensures DaysBeforeMonth(y, a) + MonthLength(y, a) <= DaysBeforeMonth(y, b)
  {
    if b > a + 1 { MonthsAccumulate(y, a, b - 1); }
  }

  /** The date of a day number. */
  function DateOf(n: nat): (d: Date)
    requires n < DAYS_IN_CALENDAR
    ensures IsDate(d) && DayNumber(d) == n
  {
    var (y, r) := YearFrom(1, n);
    WithinCalendar(y, r);
    var (m, k) := MonthFrom(y, 1, r);
    Date(y, m, k + 1)
  }

  lemma {:induction false} WithinCalendar(y: nat, r: nat)
    requires y >= 1 && DaysBefore(y) + r < DAYS_IN_CALENDAR
    ensures y <= 9999
  {
    DaysBeforeClosed(10000);
    if y > 10000 { YearsAccumulate(10000, y); }
  }

  lemma DayFitsYear(d: Date)
    requires IsDate(d)
    ensures 0 <= DaysBeforeMonth(d.year, d.month) + d.day - 1 < YearLength(d.year)
  {
    TwelveMonths(d.year);
    if d.month < 12 { MonthsAccumulate(d.year, d.month, 12); }
  }

  // ---- instants -------------------------------------------------------------------------

  function TimeOfDay(c: Civil): int {
    ((c.hour * 60 + c.minute) * 60 + c.second) * 1_000_000 + c.micro
  }

  /** The instant at which a wall in UTC shows `c`. */
  function InstantOf(c: Civil): int
    requires IsCivil(c)
  {
    DayNumber(c.date) * MICROS_PER_DAY + TimeOfDay(c)
  }

  lemma HandsTellTime(t: int)
    requires 0 <= t < MICROS_PER_DAY
    ensures t / 3_600_000_000 < 24
    ensures ((t / 3_600_000_000 * 60 + t / 60_000_000 % 60) * 60 + t / 1_000_000 % 60) * 1_000_000 + t % 1_000_000 == t
  {
    var seconds := t / 1_000_000;
    var minutes := seconds / 60;
    assert t / 60_000_000 == minutes;
    assert t / 3_600_000_000 == minutes / 60;
  }

  function CivilOf(i: int): (c: Civil)
    requires OnCalendar(i)
    ensures IsCivil(c) && InstantOf(c) == i
  {
    var t := i % MICROS_PER_DAY;
    HandsTellTime(t);
    Civil(DateOf(i / MICROS_PER_DAY), t / 3_600_000_000, t / 60_000_000 % 60, t / 1_000_000 % 60, t % 1_000_000)
  }

  /** `value.astimezone(UTC)` as an instant. */
  function UtcInstant(m: Moment): Result<int, TimeError>
    requires IsCivil(m.civil)
  {
    if m.offset.None? then Failure(NaiveDatetime)
    else if !OnCalendar(InstantOf(m.civil) - m.offset.value) then Failure(OutOfRange)
    else Success(InstantOf(m.civil) - m.offset.value)
  }

  lemma CivilIsTotal(a: Civil, b: Civil)
    ensures a == b || CivilLess(a, b) || CivilLess(b, a)
  {
  }

  /** That instant is the one at which a clock so far ahead of UTC shows what the moment says. */
  lemma ClockShows(m: Moment, i: int)
    requires IsCivil(m.civil) && UtcInstant(m) == Success(i) && OnCalendar(i + m.offset.value)
    ensures CivilOf(i + m.offset.value) == m.civil
  {
    CivilIsTotal(CivilOf(i + m.offset.value), m.civil);
    CivilOrderIsTime(CivilOf(i + m.offset.value), m.civil);
    CivilOrderIsTime(m.civil, CivilOf(i + m.offset.value));
  }

  // ---- stamps ---------------------------------------------------------------------------

  function Digit(v: int): char
    requires 0 <= v < 10
  {
    ('0' as int + v) as char
  }

  function Pow10(w: nat): int {
    if w == 0 then 1 else 10 * Pow10(w - 1)
  }

  /** `n` in exactly `w` digits. */
  function Digits(n: int, w: nat): (s: string)
    requires 0 <= n < Pow10(w)
    ensures |s| == w
  {
    if w == 0 then "" else Digits(n / 10, w - 1) + [Digit(n % 10)]
  }

  /** A number, the digits it takes, and what is written after it. */
  datatype Part = Part(n: int, width: nat, after: string)

  predicate Fits(p: Part) {
    0 <= p.n < Pow10(p.width)
  }

  function Stamp(parts: seq<Part>): string
    requires forall i :: 0 <= i < |parts| ==> Fits(parts[i])
  {
    assert parts != [] ==> Fits(parts[0]);
    if parts == [] then "" else Digits(parts[0].n, parts[0].width) + parts[0].after + Stamp(parts[1..])
  }

  function Parts(c: Civil): seq<Part> {
    [Part(c.date.year, 4, "-"), Part(c.date.month, 2, "-"), Part(c.date.day, 2, "T"), Part(c.hour, 2, ":"),
     Part(c.minute, 2, ":"), Part(c.second, 2, "."), Part(c.micro, 6, "+00:00")]
  }

  lemma PartsFit(c: Civil)
    requires IsCivil(c)
    ensures forall i :: 0 <= i < 7 ==> Fits(Parts(c)[i])
  {
    assert Pow10(1) == 10 && Pow10(2) == 100 && Pow10(4) == 100 * Pow10(2) && Pow10(6) == 100 * Pow10(4) by {
      assert Pow10(3) == 1000 && Pow10(5) == 10 * Pow10(4);
    }
  }

  /** `isoformat(timespec="microseconds")` of a UTC datetime. */
  function Isoformat(c: Civil): string
    requires IsCivil(c)
  {
    PartsFit(c);
    Stamp(Parts(c))
  }

  function ToColumn(m: Moment): Result<string, TimeError>
    requires IsCivil(m.civil)
  {
    var i := UtcInstant(m);
    if i.Failure? then Failure(i.error) else Success(Isoformat(CivilOf(i.value)))
  }

  predicate IsDecimal(c: char) {
    '0' <= c <= '9'
  }

  function Number(s: string): (n: int)
    requires forall i :: 0 <= i < |s| ==> IsDecimal(s[i])
    ensures n >= 0
  {
    assert s != "" ==> IsDecimal(s[|s| - 1]);
    if s == "" then 0 else Number(s[..|s| - 1]) * 10 + (s[|s| - 1] as int - '0' as int)
  }

  function ReadPart(s: string, from: nat, to: nat): (n: Option<int>)
    requires from <= to <= |s|
  {
    if forall i :: 0 <= i < to - from ==> IsDecimal(s[from..to][i]) then Some(Number(s[from..to])) else None
  }

  /** `datetime.fromisoformat` on the 32 characters `ToColumn` writes. */
  function FromColumn(s: string): Result<Moment, TimeError> {
    if |s| != 32 then Failure(NotAStamp)
    else
      var y, m, d := ReadPart(s, 0, 4), ReadPart(s, 5, 7), ReadPart(s, 8, 10);
      var h, mi, sec, us := ReadPart(s, 11, 13), ReadPart(s, 14, 16), ReadPart(s, 17, 19), ReadPart(s, 20, 26);
      if y.None? || m.None? || d.None? || h.None? || mi.None? || sec.None? || us.None?
         || s[4] != '-' || s[7] != '-' || s[10] != 'T' || s[13] != ':' || s[16] != ':' || s[19] != '.'
         || s[26..] != "+00:00"
      then Failure(NotAStamp)
      else
        var c := Civil(Date(y.value, m.value, d.value), h.value, mi.value, sec.value, us.value);
        if IsCivil(c) then Success(Moment(c, Some(0))) else Failure(NotAStamp)
  }

  // ---- the order of stamps is the order of time -------------------------------------------

  lemma {:induction false} DigitsOrder(a: int, b: int, w: nat, x: string, y: string)
    requires 0 <= a < Pow10(w) && 0 <= b < Pow10(w)
    ensures Less(Digits(a, w) + x, Digits(b, w) + y) <==> a < b || (a == b && Less(x, y))
    decreases w
  {
    if w == 0 {
      assert Digits(a, 0) + x == x && Digits(b, 0) + y == y;
    } else {
      var x', y' := [Digit(a % 10)] + x, [Digit(b % 10)] + y;
      assert Digits(a, w) + x == Digits(a / 10, w - 1) + x';
      assert Digits(b, w) + y == Digits(b / 10, w - 1) + y';
      DigitsOrder(a / 10, b / 10, w - 1, x', y');
      assert x'[1..] == x && y'[1..] == y;
    }
  }

  /** Comparing part by part. */
  predicate PartsLess(a: seq<Part>, b: seq<Part>)
    requires |a| == |b|
  {
    a != [] && (a[0].n < b[0].n || (a[0].n == b[0].n && PartsLess(a[1..], b[1..])))
  }

  predicate SameShape(a: seq<Part>, b: seq<Part>) {
    |a| == |b| && forall i ::
        0 <= i < |a| ==> Fits(a[i]) && Fits(b[i]) && a[i].width == b[i].width && a[i].after == b[i].after
  }

  lemma {:induction false} StampOrder(a: seq<Part>, b: seq<Part>)
    requires SameShape(a, b)
    ensures Less(Stamp(a), Stamp(b)) <==> PartsLess(a, b)
  {
    if a != [] {
      var p, q := a[0], b[0];
      assert Fits(p) && Fits(q) && p.width == q.width && p.after == q.after;
      var x, y := Stamp(a[1..]), Stamp(b[1..]);
      StampOrder(a[1..], b[1..]);
      LessAfterPrefix(p.after, x, y);
      DigitsOrder(p.n, q.n, p.width, p.after + x, q.after + y);
      StampUnfolds(a);
      StampUnfolds(b);
    }
  }

  lemma StampUnfolds(a: seq<Part>)
    requires a != [] && forall i :: 0 <= i < |a| ==> Fits(a[i])
    ensures Fits(a[0]) && Stamp(a) == Digits(a[0].n, a[0].width) + (a[0].after + Stamp(a[1..]))
  {
    assert Fits(a[0]);
  }

  /** The order of two civil times, largest unit first. */
  predicate CivilLess(a: Civil, b: Civil) {
    a.date.year < b.date.year || (a.date.year == b.date.year &&
    (a.date.month < b.date.month || (a.date.month == b.date.month &&
    (a.date.day < b.date.day || (a.date.day == b.date.day && TimeLess(a, b))))))
  }

  predicate TimeLess(a: Civil, b: Civil) {
    a.hour < b.hour || (a.hour == b.hour && (a.minute < b.minute || (a.minute == b.minute &&
    (a.second < b.second || (a.second == b.second && a.micro < b.micro)))))
  }

  lemma PartsOrderIsCivil(a: Civil, b: Civil)
    ensures PartsLess(Parts(a), Parts(b)) <==> CivilLess(a, b)
  {
    var p, q := Parts(a), Parts(b);
    assert p[6..][1..] == [] && q[6..][1..] == [];
    assert PartsLess(p[6..], q[6..]) <==> a.micro < b.micro;
    assert p[5..][1..] == p[6..] && q[5..][1..] == q[6..];
    assert PartsLess(p[5..], q[5..]) <==> a.second < b.second || (a.second == b.second && PartsLess(p[6..], q[6..]));
    assert p[4..][1..] == p[5..] && q[4..][1..] == q[5..];
    assert PartsLess(p[4..], q[4..]) <==> a.minute < b.minute || (a.minute == b.minute && PartsLess(p[5..], q[5..]));
    assert p[3..][1..] == p[4..] && q[3..][1..] == q[4..];
    assert PartsLess(p[3..], q[3..]) <==> TimeLess(a, b);
    DatePartsOrder(a, b);
  }

  lemma DatePartsOrder(a: Civil, b: Civil)
    requires PartsLess(Parts(a)[3..], Parts(b)[3..]) <==> TimeLess(a, b)
    ensures PartsLess(Parts(a), Parts(b)) <==> CivilLess(a, b)
  {
    var p, q := Parts(a), Parts(b);
    assert p[2..][1..] == p[3..] && q[2..][1..] == q[3..];
    assert p[1..][1..] == p[2..] && q[1..][1..] == q[2..];
    assert PartsLess(p[2..], q[2..]) <==> a.date.day < b.date.day || (a.date.day == b.date.day && TimeLess(a, b));
    assert PartsLess(p[1..], q[1..]) <==>
      a.date.month < b.date.month || (a.date.month == b.date.month && PartsLess(p[2..], q[2..]));
  }

  lemma EarlierDate(a: Date, b: Date)
    requires IsDate(a) && IsDate(b)
    requires a.year < b.year || (a.year == b.year && (a.month < b.month || (a.month == b.month && a.day < b.day)))
    ensures DayNumber(a) < DayNumber(b)
  {
    if a.year < b.year {
      DayFitsYear(a);
      DayFitsYear(b);
      YearsAccumulate(a.year, b.year);
    } else if a.month < b.month {
      MonthsAccumulate(a.year, a.month, b.month);
    }
  }

  lemma TimeFitsDay(c: Civil)
    requires IsCivil(c)
    ensures 0 <= TimeOfDay(c) < MICROS_PER_DAY
  {
  }

  lemma EarlierTime(a: Civil, b: Civil)
    requires IsCivil(a) && IsCivil(b)
    ensures TimeLess(a, b) <==> TimeOfDay(a) < TimeOfDay(b)
  {
  }

  lemma CivilOrderIsTime(a: Civil, b: Civil)
    requires IsCivil(a) && IsCivil(b)
    ensures CivilLess(a, b) <==> InstantOf(a) < InstantOf(b)
  {
    TimeFitsDay(a);
    TimeFitsDay(b);
    if a.date == b.date {
      EarlierTime(a, b);
    } else if CivilLess(a, b) {
      EarlierDate(a.date, b.date);
    } else {
      EarlierDate(b.date, a.date);
    }
  }

  lemma IsoformatOrder(a: Civil, b: Civil)
    requires IsCivil(a) && IsCivil(b)
    ensures Less(Isoformat(a), Isoformat(b)) <==> InstantOf(a) < InstantOf(b)
  {
    PartsFit(a);
    PartsFit(b);
    StampOrder(Parts(a), Parts(b));
    PartsOrderIsCivil(a, b);
    CivilOrderIsTime(a, b);
  }

  /** Text order is chronological order, whatever zones the two moments were given in. */
  lemma ColumnOrderIsTime(a: Moment, b: Moment)
    requires IsCivil(a.civil) && IsCivil(b.civil) && ToColumn(a).Success? && ToColumn(b).Success?
    ensures Less(ToColumn(a).value, ToColumn(b).value) <==> UtcInstant(a).value < UtcInstant(b).value
    ensures ToColumn(a).value == ToColumn(b).value <==> UtcInstant(a).value == UtcInstant(b).value
  {
    IsoformatOrder(CivilOf(UtcInstant(a).value), CivilOf(UtcInstant(b).value));
    IsoformatOrder(CivilOf(UtcInstant(b).value), CivilOf(UtcInstant(a).value));
    LessIrreflexive(ToColumn(a).value);
  }

  // ---- reading a stamp back -----------------------------------------------------------------

  lemma {:induction false} NumberOfDigits(n: int, w: nat)
    requires 0 <= n < Pow10(w)
    ensures forall i :: 0 <= i < w ==> IsDecimal(Digits(n, w)[i])
    ensures Number(Digits(n, w)) == n
    decreases w
  {
    if w > 0 {
      NumberOfDigits(n / 10, w - 1);
      var s := Digits(n, w);
      assert s[..w - 1] == Digits(n / 10, w - 1);
    }
  }

  lemma ReadsPart(s: string, from: nat, w: nat, n: int)
    requires 0 <= n < Pow10(w) && from + w <= |s| && s[from..from + w] == Digits(n, w)
    ensures ReadPart(s, from, from + w) == Some(n)
  {
    NumberOfDigits(n, w);
  }

  /** What stands where in the 32 characters. */
  lemma IsoformatLayout(c: Civil)
    requires IsCivil(c)
    ensures var s := Isoformat(c);
            && |s| == 32
            && 0 <= c.date.year < Pow10(4) && s[0..4] == Digits(c.date.year, 4) && s[4] == '-'
            && 0 <= c.date.month < Pow10(2) && s[5..7] == Digits(c.date.month, 2) && s[7] == '-'
            && 0 <= c.date.day < Pow10(2) && s[8..10] == Digits(c.date.day, 2) && s[10] == 'T'
            && 0 <= c.hour < Pow10(2) && s[11..13] == Digits(c.hour, 2) && s[13] == ':'
            && 0 <= c.minute < Pow10(2) && s[14..16] == Digits(c.minute, 2) && s[16] == ':'
            && 0 <= c.second < Pow10(2) && s[17..19] == Digits(c.second, 2) && s[19] == '.'
            && 0 <= c.micro < Pow10(6) && s[20..26] == Digits(c.micro, 6) && s[26..] == "+00:00"
  {
    PartsFit(c);
    assert forall i :: 0 <= i < 7 ==> Fits(Parts(c)[i]);
    assert Fits(Parts(c)[0]) && Fits(Parts(c)[1]) && Fits(Parts(c)[2]) && Fits(Parts(c)[3]);
    assert Fits(Parts(c)[4]) && Fits(Parts(c)[5]) && Fits(Parts(c)[6]);
    TimeText(c);
    DateText(c);
    DateSlices(Digits(c.date.year, 4), Digits(c.date.month, 2), Digits(c.date.day, 2), Stamp(Parts(c)[3..]));
    TimeSlices(Digits(c.hour, 2), Digits(c.minute, 2), Digits(c.second, 2), Digits(c.micro, 6));
    TimeWithin(Isoformat(c), Stamp(Parts(c)[3..]));
  }

  /** Where the time stands in a text that ends with it. */
  lemma TimeWithin(s: string, t: string)
    requires |s| == 32 && |t| == 21 && s[11..] == t
    ensures s[11..13] == t[0..2] && s[14..16] == t[3..5] && s[17..19] == t[6..8] && s[20..26] == t[9..15]
    ensures s[26..] == t[15..]
    ensures s[13] == t[2] && s[16] == t[5] && s[19] == t[8]
  {
    assert forall i, j :: 0 <= i <= j <= 21 ==> s[11 + i..11 + j] == t[i..j];
  }

  lemma TimeText(c: Civil)
    requires IsCivil(c) && forall i :: 0 <= i < 7 ==> Fits(Parts(c)[i])
    ensures 0 <= c.hour < Pow10(2) && 0 <= c.minute < Pow10(2) && 0 <= c.second < Pow10(2) && 0 <= c.micro < Pow10(6)
    ensures Stamp(Parts(c)[3..])
              == TimeString(Digits(c.hour, 2), Digits(c.minute, 2), Digits(c.second, 2), Digits(c.micro, 6))
  {
    var p := Parts(c);
    assert Fits(p[3]) && Fits(p[4]) && Fits(p[5]) && Fits(p[6]);
    var s6 := Digits(c.micro, 6) + "+00:00";
    assert p[6..][1..] == [] && Stamp([]) == "" && Stamp(p[6..]) == s6;
    assert p[5..][1..] == p[6..] && Stamp(p[5..]) == Digits(c.second, 2) + "." + s6;
    assert p[4..][1..] == p[5..] && Stamp(p[4..]) == Digits(c.minute, 2) + ":" + Stamp(p[5..]);
    assert p[3..][1..] == p[4..] && Stamp(p[3..]) == Digits(c.hour, 2) + ":" + Stamp(p[4..]);
  }

  function TimeString(h: string, m: string, s: string, us: string): string {
    h + ":" + (m + ":" + (s + "." + (us + "+00:00")))
  }

  lemma DateText(c: Civil)
    requires IsCivil(c) && forall i :: 0 <= i < 7 ==> Fits(Parts(c)[i])
    ensures 0 <= c.date.year < Pow10(4) && 0 <= c.date.month < Pow10(2) && 0 <= c.date.day < Pow10(2)
    ensures Isoformat(c)
              == DateString(Digits(c.date.year, 4), Digits(c.date.month, 2), Digits(c.date.day, 2),
                            Stamp(Parts(c)[3..]))
  {
    var p := Parts(c);
    assert Fits(p[0]) && Fits(p[1]) && Fits(p[2]);
    assert p[2..][1..] == p[3..] && Stamp(p[2..]) == Digits(c.date.day, 2) + "T" + Stamp(p[3..]);
    assert p[1..][1..] == p[2..] && Stamp(p[1..]) == Digits(c.date.month, 2) + "-" + Stamp(p[2..]);
  }

  function DateString(y: string, m: string, d: string, time: string): string {
    y + "-" + (m + "-" + (d + "T" + time))
  }

  lemma DateSlices(y: string, m: string, d: string, time: string)
    requires |y| == 4 && |m| == 2 && |d| == 2
    ensures var s := DateString(y, m, d, time);
            |s| == 11 + |time| && s[0..4] == y && s[4] == '-' && s[5..7] == m && s[7] == '-' && s[8..10] == d
            && s[10] == 'T' && s[11..] == time
  {
  }

  lemma TimeSlices(h: string, m: string, s: string, us: string)
    requires |h| == 2 && |m| == 2 && |s| == 2 && |us| == 6
    ensures var t := TimeString(h, m, s, us);
            |t| == 21 && t[0..2] == h && t[2] == ':' && t[3..5] == m && t[5] == ':' && t[6..8] == s && t[8] == '.'
            && t[9..15] == us && t[15..] == "+00:00"
  {
  }

  lemma IsoformatRoundTrip(c: Civil)
    requires IsCivil(c)
    ensures FromColumn(Isoformat(c)) == Success(Moment(c, Some(0)))
  {
    var s := Isoformat(c);
    IsoformatLayout(c);
    ReadsPart(s, 0, 4, c.date.year);
    ReadsPart(s, 5, 2, c.date.month);
    ReadsPart(s, 8, 2, c.date.day);
    ReadsPart(s, 11, 2, c.hour);
    ReadsPart(s, 14, 2, c.minute);
    ReadsPart(s, 17, 2, c.second);
    ReadsPart(s, 20, 6, c.micro);
  }

  /** A stamp is 32 characters and reads back as the same instant, in UTC. */
  lemma ColumnRoundTrip(m: Moment)
    requires IsCivil(m.civil) && ToColumn(m).Success?
    ensures |ToColumn(m).value| == 32
    ensures var back := FromColumn(ToColumn(m).value);
            back.Success? && IsCivil(back.value.civil) && back.value.offset == Some(0)
            && UtcInstant(back.value) == UtcInstant(m)
  {
    var c := CivilOf(UtcInstant(m).value);
    IsoformatRoundTrip(c);
    IsoformatLayout(c);
    ReadInUtc(Isoformat(c), c);
  }

  lemma ReadInUtc(s: string, c: Civil)
    requires IsCivil(c) && OnCalendar(InstantOf(c)) && FromColumn(s) == Success(Moment(c, Some(0)))
    ensures UtcInstant(FromColumn(s).value) == Success(InstantOf(c))
  {
  }
}
