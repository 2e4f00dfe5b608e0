/** Date-times as the server stores and compares them: as text. */
module Clock {
  import opened Text

  /** A naive date-time. Years have four digits. */
  datatype Fields = Fields(year: nat, month: nat, day: nat, hour: nat, minute: nat, second: nat, micro: nat)

  type Stamp = t: Fields | ValidFields(t) witness Fields(2026, 1, 1, 0, 0, 0, 0)

  predicate ValidFields(t: Fields) {
    && 1000 <= t.year <= 9999
    && 1 <= t.month <= 12
    && 1 <= t.day <= DaysInMonth(t.year, t.month)
    && t.hour < 24 && t.minute < 60 && t.second < 60 && t.micro < 1_000_000
  }

  // ---------------------------------------------------------------------
  // The calendar
  // ---------------------------------------------------------------------

  predicate Leap(year: nat) {
    year % 4 == 0 && (year % 100 != 0 || year % 400 == 0)
  }

  function DaysInMonth(year: nat, month: nat): nat {
    if month == 2 then (if Leap(year) then 29 else 28)
    else if month in {4, 6, 9, 11} then 30
    else 31
  }

  function DaysBeforeYear(year: nat): int {
    var y := year - 1;
    y * 365 + y / 4 - y / 100 + y / 400
  }

  function DaysBeforeMonth(year: nat, month: nat): nat {
    if month <= 1 then 0 else DaysBeforeMonth(year, month - 1) + DaysInMonth(year, month - 1)
  }

  function Days(t: Stamp): int {
    DaysBeforeYear(t.year) + DaysBeforeMonth(t.year, t.month) + t.day
  }

  function SecondOfDay(t: Stamp): nat {
    (t.hour * 60 + t.minute) * 60 + t.second
  }

  function WholeSeconds(t: Stamp): int {
    Days(t) * 86400 + SecondOfDay(t)
  }

  /** The point in time, in microseconds. */
  function Instant(t: Stamp): int {
    WholeSeconds(t) * 1_000_000 + t.micro
  }

  lemma NextQuotient(y: nat, k: nat)
    requires k == 4 || k == 100 || k == 400
    ensures (y + 1) / k == y / k + if (y + 1) % k == 0 then 1 else 0
  {
    if k == 4 {
    } else if k == 100 {
    } else {
    }
  }

  lemma CenturyRule(year: nat)
    ensures year % 100 == 0 ==> year % 4 == 0
    ensures year % 400 == 0 ==> year % 100 == 0
  {
    if year % 100 == 0 {
      assert year == 4 * (25 * (year / 100));
    }
    if year % 400 == 0 {
      assert year == 100 * (4 * (year / 400));
    }
  }

  lemma YearLength(year: nat)
    requires year > 0
    ensures DaysBeforeYear(year + 1) == DaysBeforeYear(year) + if Leap(year) then 366 else 365
  {
    NextQuotient(year - 1, 4);
    NextQuotient(year - 1, 100);
    NextQuotient(year - 1, 400);
    CenturyRule(year);
  }

  lemma {:induction false} YearsGrow(y: nat, y': nat)
    requires 0 < y <= y'
    ensures DaysBeforeYear(y) <= DaysBeforeYear(y')
  {
    if y < y' {
      YearsGrow(y, y' - 1);
      YearLength(y' - 1);
    }
  }

  lemma {:induction false} MonthsGrow(year: nat, m: nat, m': nat)
    requires 0 < m < m'
    ensures DaysBeforeMonth(year, m) + DaysInMonth(year, m) <= DaysBeforeMonth(year, m')
  {
    if m + 1 < m' {
      MonthsGrow(year, m, m' - 1);
    }
  }

  lemma MonthsFillYear(year: nat)
    ensures DaysBeforeMonth(year, 13) == if Leap(year) then 366 else 365
  {
    assert DaysBeforeMonth(year, 2) == 31;
    var march := 31 + DaysInMonth(year, 2);
    assert DaysBeforeMonth(year, 3) == march;
    assert DaysBeforeMonth(year, 4) == march + 31;
    assert DaysBeforeMonth(year, 5) == march + 61;
    assert DaysBeforeMonth(year, 6) == march + 92;
    assert DaysBeforeMonth(year, 7) == march + 122;
    assert DaysBeforeMonth(year, 8) == march + 153;
    assert DaysBeforeMonth(year, 9) == march + 184;
    assert DaysBeforeMonth(year, 10) == march + 214;
    assert DaysBeforeMonth(year, 11) == march + 245;
    assert DaysBeforeMonth(year, 12) == march + 275;
  }

  predicate EarlierDay(a: Stamp, b: Stamp) {
    a.year < b.year || (a.year == b.year && (a.month < b.month || (a.month == b.month && a.day < b.day)))
  }

  lemma EarlierDayFewerDays(a: Stamp, b: Stamp)
    requires EarlierDay(a, b)
    ensures Days(a) < Days(b)
  {
    if a.year < b.year {
      MonthsGrow(a.year, a.month, 13);
      MonthsFillYear(a.year);
      YearLength(a.year);
      YearsGrow(a.year + 1, b.year);
    } else if a.month < b.month {
      MonthsGrow(a.year, a.month, b.month);
    }
  }

  predicate EarlierSecond(a: Stamp, b: Stamp) {
    || EarlierDay(a, b)
    || (SameDay(a, b)
        && (a.hour < b.hour
            || (a.hour == b.hour && (a.minute < b.minute || (a.minute == b.minute && a.second < b.second)))))
  }

  predicate SameDay(a: Stamp, b: Stamp) {
    a.year == b.year && a.month == b.month && a.day == b.day
  }

  predicate SameSecond(a: Stamp, b: Stamp) {
    SameDay(a, b) && a.hour == b.hour && a.minute == b.minute && a.second == b.second
  }

  /** Comparing the fields from the year down is comparing points in time. */
  lemma FieldOrder(a: Stamp, b: Stamp)
    ensures EarlierSecond(a, b) <==> WholeSeconds(a) < WholeSeconds(b)
    ensures SameSecond(a, b) <==> WholeSeconds(a) == WholeSeconds(b)
  {
    if EarlierDay(a, b) {
      EarlierDayFewerDays(a, b);
    } else if EarlierDay(b, a) {
      EarlierDayFewerDays(b, a);
    }
  }

  // ---------------------------------------------------------------------
  // The text
  // ---------------------------------------------------------------------

  function Digit(n: nat): char
    requires n < 10
  {
    (48 + n) as char
  }

  /** Decimal digits with leading zeros. */
  function Digits(n: nat, width: nat): string {
    if width == 0 then "" else Digits(n / 10, width - 1) + [Digit(n % 10)]
  }

  function SecondText(t: Stamp): string {
    Digits(t.year, 4) + "-" + Digits(t.month, 2) + "-" + Digits(t.day, 2) + " "
    + Digits(t.hour, 2) + ":" + Digits(t.minute, 2) + ":" + Digits(t.second, 2)
  }

  /** How the database stores a date-time: always with six digits of microseconds. */
  function StoredText(t: Stamp): string {
    SecondText(t) + "." + Digits(t.micro, 6)
  }

  /** How the sweep writes its cutoff: without microseconds. */
  function CutoffText(t: Stamp): string {
    SecondText(t)
  }

  function Pow10(n: nat): nat {
    if n == 0 then 1 else 10 * Pow10(n - 1)
  }

  /** Texts that start with numbers of one width compare by the numbers first. */
  lemma {:induction false} DigitsOrder(n: nat, m: nat, width: nat, s: string, t: string)
    requires n < Pow10(width) && m < Pow10(width)
    ensures Less(Digits(n, width) + s, Digits(m, width) + t) <==> n < m || (n == m && Less(s, t))
  {
    if width == 0 {
      assert "" + s == s && "" + t == t;
    } else {
      var s1, t1 := [Digit(n % 10)] + s, [Digit(m % 10)] + t;
      assert Digits(n, width) + s == Digits(n / 10, width - 1) + s1;
      assert Digits(m, width) + t == Digits(m / 10, width - 1) + t1;
      DigitsOrder(n / 10, m / 10, width - 1, s1, t1);
      assert s1[1..] == s && t1[1..] == t;
    }
  }

  lemma FieldThenText(n: nat, m: nat, width: nat, sep: string, s: string, t: string)
    requires n < Pow10(width) && m < Pow10(width)
    ensures Less(Digits(n, width) + sep + s, Digits(m, width) + sep + t) <==> n < m || (n == m && Less(s, t))
  {
    DigitsOrder(n, m, width, sep + s, sep + t);
    LessCommon(sep, s, t);
    assert Digits(n, width) + sep + s == Digits(n, width) + (sep + s);
    assert Digits(m, width) + sep + t == Digits(m, width) + (sep + t);
  }

  lemma Pow10Values()
    ensures Pow10(2) == 100 && Pow10(4) == 10_000 && Pow10(6) == 1_000_000
  {
    assert Pow10(1) == 10 && Pow10(3) == 1000 && Pow10(5) == 100_000;
  }

  function TimeTail(t: Stamp, rest: string): string {
    Digits(t.hour, 2) + ":" + (Digits(t.minute, 2) + ":" + (Digits(t.second, 2) + rest))
  }

  lemma TimeOrder(a: Stamp, b: Stamp, s: string, t: string)
    ensures Less(TimeTail(a, s), TimeTail(b, t)) <==>
            || a.hour < b.hour
            || (a.hour == b.hour && (a.minute < b.minute || (a.minute == b.minute && (a.second < b.second || (a.second == b.second && Less(s, t))))))
  {
    Pow10Values();
    DigitsOrder(a.second, b.second, 2, s, t);
    var s1, t1 := Digits(a.second, 2) + s, Digits(b.second, 2) + t;
    FieldThenText(a.minute, b.minute, 2, ":", s1, t1);
    FieldThenText(a.hour, b.hour, 2, ":", Digits(a.minute, 2) + ":" + s1, Digits(b.minute, 2) + ":" + t1);
  }

  function DayTail(t: Stamp, rest: string): string {
    Digits(t.year, 4) + "-" + (Digits(t.month, 2) + "-" + (Digits(t.day, 2) + " " + rest))
  }

  lemma DayOrder(a: Stamp, b: Stamp, s: string, t: string)
    ensures Less(DayTail(a, s), DayTail(b, t)) <==> EarlierDay(a, b) || (SameDay(a, b) && Less(s, t))
  {
    Pow10Values();
    FieldThenText(a.day, b.day, 2, " ", s, t);
    var s1, t1 := Digits(a.day, 2) + " " + s, Digits(b.day, 2) + " " + t;
    FieldThenText(a.month, b.month, 2, "-", s1, t1);
    FieldThenText(a.year, b.year, 4, "-", Digits(a.month, 2) + "-" + s1, Digits(b.month, 2) + "-" + t1);
  }

  lemma SecondTextParts(t: Stamp, rest: string)
    ensures SecondText(t) + rest == DayTail(t, TimeTail(t, rest))
  {
  }

  /** Two date-times as text compare as their whole seconds do, and only then by what follows. */
  lemma TextOrder(a: Stamp, b: Stamp, s: string, t: string)
    ensures Less(SecondText(a) + s, SecondText(b) + t) <==>
            WholeSeconds(a) < WholeSeconds(b) || (WholeSeconds(a) == WholeSeconds(b) && Less(s, t))
  {
    SecondTextParts(a, s);
    SecondTextParts(b, t);
    DayOrder(a, b, TimeTail(a, s), TimeTail(b, t));
    TimeOrder(a, b, s, t);
    FieldOrder(a, b);
  }

  /** Stored date-times sort as text in the order of time. */
  lemma StoredTextOrder(a: Stamp, b: Stamp)
    ensures Less(StoredText(a), StoredText(b)) <==> Instant(a) < Instant(b)
  {
    var s, t := "." + Digits(a.micro, 6), "." + Digits(b.micro, 6);
    assert StoredText(a) == SecondText(a) + s && StoredText(b) == SecondText(b) + t;
    TextOrder(a, b, s, t);
    LessCommon(".", Digits(a.micro, 6), Digits(b.micro, 6));
    Pow10Values();
    DigitsOrder(a.micro, b.micro, 6, "", "");
    assert Digits(a.micro, 6) + "" == Digits(a.micro, 6) && Digits(b.micro, 6) + "" == Digits(b.micro, 6);
  }

  /** A stored date-time is below a cutoff text exactly when it is so in whole seconds. */
  lemma CutoffOrder(stored: Stamp, cutoff: Stamp)
    ensures Less(StoredText(stored), CutoffText(cutoff)) <==> WholeSeconds(stored) < WholeSeconds(cutoff)
  {
    var s := "." + Digits(stored.micro, 6);
    assert StoredText(stored) == SecondText(stored) + s;
    assert SecondText(cutoff) + "" == CutoffText(cutoff);
    TextOrder(stored, cutoff, s, "");
  }

  // ---------------------------------------------------------------------
  // The calendar and the text by example
  // ---------------------------------------------------------------------

  /** How long the months are. */
  lemma MonthLengths(year: nat)
    ensures forall m :: m in {1, 3, 5, 7, 8, 10, 12} ==> DaysInMonth(year, m) == 31
    ensures forall m :: m in {4, 6, 9, 11} ==> DaysInMonth(year, m) == 30
    ensures DaysInMonth(year, 2) == if year % 4 == 0 && (year % 100 != 0 || year % 400 == 0) then 29 else 28
  {
  }

  /** u is the second after t. */
  predicate FollowsAtOnce(t: Stamp, u: Stamp) {
    if t.second < 59 then u == t.(second := t.second + 1)
    else if t.minute < 59 then u == t.(second := 0, minute := t.minute + 1)
    else if t.hour < 23 then u == t.(second := 0, minute := 0, hour := t.hour + 1)
    else if t.day < DaysInMonth(t.year, t.month) then u == t.(second := 0, minute := 0, hour := 0, day := t.day + 1)
    else if t.month < 12 then u == t.(second := 0, minute := 0, hour := 0, day := 1, month := t.month + 1)
    else u == Fields(t.year + 1, 1, 1, 0, 0, 0, t.micro)
  }

  /** From one second to the next, through minutes, hours, days, months and years, a
      million microseconds pass. */
  lemma OneSecondLater(t: Stamp, u: Stamp)
    requires FollowsAtOnce(t, u)
    ensures WholeSeconds(u) == WholeSeconds(t) + 1 && Instant(u) == Instant(t) + 1_000_000
  {
    if t.month == 12 && u.year == t.year + 1 {
      YearLength(t.year);
      MonthsFillYear(t.year);
      assert DaysBeforeMonth(t.year, 13) == DaysBeforeMonth(t.year, 12) + 31;
    } else if u.month == t.month + 1 {
      assert DaysBeforeMonth(t.year, u.month) == DaysBeforeMonth(t.year, t.month) + DaysInMonth(t.year, t.month);
    }
  }

  lemma TwoDigits(n: nat)
    requires n < 100
    ensures Digits(n, 2) == [Digit(n / 10), Digit(n % 10)]
  {
    assert Digits(n, 2) == Digits(n / 10, 1) + [Digit(n % 10)];
    assert Digits(n / 10, 1) == Digits(n / 100, 0) + [Digit(n / 10)];
  }

  lemma SplitDigits(n: nat, width: nat)
    ensures Digits(n, width + 2) == Digits(n / 100, width) + [Digit(n / 10 % 10), Digit(n % 10)]
  {
    assert Digits(n, width + 2) == Digits(n / 10, width + 1) + [Digit(n % 10)];
    assert Digits(n / 10, width + 1) == Digits(n / 10 / 10, width) + [Digit(n / 10 % 10)];
    assert n / 10 / 10 == n / 100;
  }

  lemma DayExample(y: nat, m: nat, d: nat)
    requires y == 2026 && m == 1 && d == 2
    ensures Digits(y, 4) + "-" + Digits(m, 2) + "-" + Digits(d, 2) == "2026-01-02"
  {
    hide Digits;
    SplitDigits(y, 2);
    TwoDigits(y / 100);
    TwoDigits(m);
    TwoDigits(d);
  }

  lemma MicroExample(n: nat)
    requires n == 67
    ensures Digits(n, 6) == "000067"
  {
    SplitDigits(67, 4);
    SplitDigits(0, 2);
    TwoDigits(0);
  }

  /** A stored date-time in full, and the cutoff of the same second. */
  lemma TextExample(t: Stamp)
    requires t == Fields(2026, 1, 2, 3, 4, 5, 67)
    ensures StoredText(t) == "2026-01-02 03:04:05.000067" && CutoffText(t) == "2026-01-02 03:04:05"
  {
    DayExample(t.year, t.month, t.day);
    TwoDigits(3);
    TwoDigits(4);
    TwoDigits(5);
    MicroExample(t.micro);
    hide Digits;
    assert SecondText(t) == "2026-01-02" + " " + Digits(t.hour, 2) + ":" + Digits(t.minute, 2) + ":" + Digits(t.second, 2);
    assert SecondText(t) == "2026-01-02 03:04:05";
  }
}
