/**
 Calendar days, their ISO spelling and their position on the day line.

 The source keeps an event's day as UTC midnight and spells it "YYYY-MM-DD", both in
 the identity key and in the change history. The windows of the matcher are
 differences of days.
 */
module Calendar {
  import opened Prelude

  datatype Date = Date(year: nat, month: nat, day: nat)

  predicate Leap(y: nat) {
    y % 4 == 0 && (y % 100 != 0 || y % 400 == 0)
  }

  function DaysInMonth(y: nat, m: nat): (n: nat)
    requires 1 <= m <= 12
    ensures 28 <= n <= 31
  {
    if m == 2 then if Leap(y) then 29 else 28
    else if m == 4 || m == 6 || m == 9 || m == 11 then 30
    else 31
  }

  predicate ValidDate(d: Date) {
    d.year <= 9999 && 1 <= d.month <= 12 && 1 <= d.day <= DaysInMonth(d.year, d.month)
  }

  type Day = d: Date | ValidDate(d) witness Date(2026, 1, 1)

  function DaysInYear(y: nat): nat {
    if Leap(y) then 366 else 365
  }

  function DaysBeforeYear(y: nat): nat {
    if y == 0 then 0 else DaysBeforeYear(y - 1) + DaysInYear(y - 1)
  }

  function DaysBeforeMonth(y: nat, m: nat): nat
    requires 1 <= m <= 13
  {
    if m == 1 then 0 else DaysBeforeMonth(y, m - 1) + DaysInMonth(y, m - 1)
  }

  /** The day's position on the day line. */
  function Ordinal(d: Day): nat {
    DaysBeforeYear(d.year) + DaysBeforeMonth(d.year, d.month) + d.day - 1
  }

  /** How far apart two days are, in days. */
  function Distance(a: Day, b: Day): nat {
    var x, y := Ordinal(a), Ordinal(b);
    if x <= y then y - x else x - y
  }

  lemma YearLength(y: nat)
    ensures DaysBeforeMonth(y, 13) == DaysInYear(y)
  {
    assert DaysBeforeMonth(y, 2) == 31;
    assert DaysBeforeMonth(y, 4) == DaysBeforeMonth(y, 3) + 31;
    assert DaysBeforeMonth(y, 6) == DaysBeforeMonth(y, 4) + 61;
    assert DaysBeforeMonth(y, 8) == DaysBeforeMonth(y, 6) + 61;
    assert DaysBeforeMonth(y, 10) == DaysBeforeMonth(y, 8) + 61;
    assert DaysBeforeMonth(y, 12) == DaysBeforeMonth(y, 10) + 61;
  }

  lemma {:induction false} YearsAscend(a: nat, b: nat)
    requires a < b
    ensures DaysBeforeYear(a) + DaysInYear(a) <= DaysBeforeYear(b)
    decreases b
  {
    if a + 1 < b {
      YearsAscend(a, b - 1);
    }
  }

  lemma {:induction false} MonthsAscend(y: nat, a: nat, b: nat)
    requires 1 <= a < b <= 13
    ensures DaysBeforeMonth(y, a) + DaysInMonth(y, a) <= DaysBeforeMonth(y, b)
    decreases b
  {
    if a + 1 < b {
      MonthsAscend(y, a, b - 1);
    }
  }

  lemma OrdinalWithinYear(d: Day)
    ensures Ordinal(d) < DaysBeforeYear(d.year) + DaysInYear(d.year)
  {
    MonthsAscend(d.year, d.month, 13);
    YearLength(d.year);
  }

  /** Two stored days at distance zero are the same day. */
  lemma OrdinalInjective(a: Day, b: Day)
    requires Distance(a, b) == 0
    ensures a == b
  {
    OrdinalWithinYear(a);
    OrdinalWithinYear(b);
    if a.year < b.year {
      YearsAscend(a.year, b.year);
    } else if b.year < a.year {
      YearsAscend(b.year, a.year);
    } else if a.month < b.month {
      MonthsAscend(a.year, a.month, b.month);
    } else if b.month < a.month {
      MonthsAscend(a.year, b.month, a.month);
    }
  }

  // ----------------------------------------------------------- the calendar itself

  /** Months of 31 and 30 days, and a February of 28, or of 29 in every fourth year but three centuries of four. */
  lemma ValidDateIs(d: Date)
    ensures ValidDate(d) <==>
              d.year <= 9999 && d.day >= 1 &&
              if d.month in {1, 3, 5, 7, 8, 10, 12} then d.day <= 31
              else if d.month in {4, 6, 9, 11} then d.day <= 30
              else d.month == 2 && d.day <= if d.year % 4 == 0 && (d.year % 100 != 0 || d.year % 400 == 0) then 29 else 28
  {
  }

  /** The days before each month of a common year. */
  const MONTH_STARTS: seq<nat> := [0, 31, 59, 90, 120, 151, 181, 212, 243, 273, 304, 334]

  /** The number of a day in the proleptic Gregorian calendar, in closed form. */
  function DayNumber(d: Day): int {
    365 * d.year + (d.year + 3) / 4 - (d.year + 99) / 100 + (d.year + 399) / 400 + MONTH_STARTS[d.month - 1] + d.day +
    if d.month > 2 && d.year % 4 == 0 && (d.year % 100 != 0 || d.year % 400 == 0) then 1 else 0
  }

  lemma NextFour(z: nat)
    ensures (z + 4) / 4 == (z + 3) / 4 + if z % 4 == 0 then 1 else 0
  {
  }

  lemma NextCentury(z: nat)
    ensures (z + 100) / 100 == (z + 99) / 100 + if z % 100 == 0 then 1 else 0
  {
  }

  lemma NextFourCenturies(z: nat)
    ensures (z + 400) / 400 == (z + 399) / 400 + if z % 400 == 0 then 1 else 0
  {
  }

  lemma FourTimes(k: nat)
    ensures 4 * k % 4 == 0
  {
  }

  lemma HundredTimes(k: nat)
    ensures 100 * k % 100 == 0
  {
  }

  lemma CenturiesAreFours(z: nat)
    ensures (z % 100 == 0 ==> z % 4 == 0) && (z % 400 == 0 ==> z % 100 == 0)
  {
    if z % 100 == 0 {
      FourTimes(25 * (z / 100));
      assert z == 4 * (25 * (z / 100));
    }
    if z % 400 == 0 {
      HundredTimes(4 * (z / 400));
      assert z == 100 * (4 * (z / 400));
    }
  }

  lemma {:induction false} YearsBefore(y: nat)
    ensures DaysBeforeYear(y) == 365 * y + (y + 3) / 4 - (y + 99) / 100 + (y + 399) / 400
  {
    if y > 0 {
      YearsBefore(y - 1);
      NextFour(y - 1);
      NextCentury(y - 1);
      NextFourCenturies(y - 1);
      CenturiesAreFours(y - 1);
    }
  }

  lemma MonthsBefore(y: nat, m: nat)
    requires 1 <= m <= 12
    ensures DaysBeforeMonth(y, m) == MONTH_STARTS[m - 1] + if m > 2 && Leap(y) then 1 else 0
  {
    assert DaysBeforeMonth(y, 2) == 31;
    assert DaysBeforeMonth(y, 3) == 31 + DaysInMonth(y, 2);
    assert DaysBeforeMonth(y, 5) == DaysBeforeMonth(y, 3) + 61;
    assert DaysBeforeMonth(y, 7) == DaysBeforeMonth(y, 5) + 61;
    assert DaysBeforeMonth(y, 9) == DaysBeforeMonth(y, 7) + 62;
    assert DaysBeforeMonth(y, 11) == DaysBeforeMonth(y, 9) + 61;
    assert m == 1 || m == 2 || m == 3 || m == 4 || m == 5 || m == 6 || m == 7 || m == 8 || m == 9 || m == 10 || m == 11 || m == 12;
  }

  lemma OrdinalIs(d: Day)
    ensures Ordinal(d) + 1 == DayNumber(d)
  {
    YearsBefore(d.year);
    MonthsBefore(d.year, d.month);
  }

  /** How far apart two days are is how far apart their numbers are. */
  lemma DistanceIs(a: Day, b: Day)
    ensures Distance(a, b) == if DayNumber(a) <= DayNumber(b) then DayNumber(b) - DayNumber(a) else DayNumber(a) - DayNumber(b)
  {
    OrdinalIs(a);
    OrdinalIs(b);
  }

  // ------------------------------------------------------------------ spelling

  function Digit(n: nat): char
    requires n < 10
  {
    ('0' as int + n) as char
  }

  predicate IsDigit(c: char) {
    '0' <= c <= '9'
  }

  function DigitValue(c: char): nat
    requires IsDigit(c)
  {
    c as int - '0' as int
  }

  function TwoDigits(n: nat): string
    requires n < 100
  {
    [Digit(n / 10), Digit(n % 10)]
  }

  /** "YYYY-MM-DD". */
  function Iso(d: Day): (s: string)
    ensures |s| == 10
    ensures '|' !in s
  {
    TwoDigits(d.year / 100) + TwoDigits(d.year % 100) + ['-'] + TwoDigits(d.month) + ['-'] + TwoDigits(d.day)
  }

  /** The digit pattern of the viability gate: `^\d{4}-\d{2}-\d{2}$`. */
  predicate IsoShaped(s: string) {
    && |s| == 10
    && (forall i | 0 <= i < 10 :: if i == 4 || i == 7 then s[i] == '-' else IsDigit(s[i]))
  }

  function Pair(s: string, i: nat): (n: nat)
    requires IsoShaped(s) && (i == 0 || i == 2 || i == 5 || i == 8)
    ensures n < 100
  {
    10 * DigitValue(s[i]) + DigitValue(s[i + 1])
  }

  /** The calendar day a string spells, if it spells one. */
  function ParseIso(s: string): Option<Day> {
    if !IsoShaped(s) then None
    else
      var d := Date(100 * Pair(s, 0) + Pair(s, 2), Pair(s, 5), Pair(s, 8));
      if ValidDate(d) then Some(d) else None
  }

  /** The ten characters of a spelling. */
  lemma IsoChars(d: Day)
    ensures var t := Iso(d);
            t[0] == Digit(d.year / 100 / 10) && t[1] == Digit(d.year / 100 % 10) &&
            t[2] == Digit(d.year % 100 / 10) && t[3] == Digit(d.year % 100 % 10) && t[4] == '-' &&
            t[5] == Digit(d.month / 10) && t[6] == Digit(d.month % 10) && t[7] == '-' &&
            t[8] == Digit(d.day / 10) && t[9] == Digit(d.day % 10)
  {
  }

  lemma TwoDigitsRead(n: nat)
    requires n < 100
    ensures IsDigit(Digit(n / 10)) && IsDigit(Digit(n % 10))
    ensures 10 * DigitValue(Digit(n / 10)) + DigitValue(Digit(n % 10)) == n
  {
  }

  lemma DigitsSpell(x: char, y: char)
    requires IsDigit(x) && IsDigit(y)
    ensures var n := 10 * DigitValue(x) + DigitValue(y); Digit(n / 10) == x && Digit(n % 10) == y
  {
  }

  /** A day reads back as itself. */
  lemma IsoReads(d: Day)
    ensures ParseIso(Iso(d)) == Some(d)
  {
    IsoChars(d);
    TwoDigitsRead(d.year / 100);
    TwoDigitsRead(d.year % 100);
    TwoDigitsRead(d.month);
    TwoDigitsRead(d.day);
    var t := Iso(d);
    assert IsoShaped(t);
    assert Pair(t, 0) == d.year / 100 && Pair(t, 2) == d.year % 100;
  }

  lemma PairSpells(s: string, i: nat)
    requires IsoShaped(s) && (i == 0 || i == 2 || i == 5 || i == 8)
    ensures s[i] == Digit(Pair(s, i) / 10) && s[i + 1] == Digit(Pair(s, i) % 10)
  {
    DigitsSpell(s[i], s[i + 1]);
  }

  lemma SameTen(s: string, t: string)
    requires |s| == |t| == 10 && s[0] == t[0] && s[1] == t[1] && s[2] == t[2] && s[3] == t[3] && s[4] == t[4]
    requires s[5] == t[5] && s[6] == t[6] && s[7] == t[7] && s[8] == t[8] && s[9] == t[9]
    ensures s == t
  {
  }

  /** Only its own spelling reads as a day. */
  lemma ReadsIso(s: string, d: Day)
    requires ParseIso(s) == Some(d)
    ensures s == Iso(d)
  {
    PairSpells(s, 0);
    PairSpells(s, 2);
    PairSpells(s, 5);
    PairSpells(s, 8);
    IsoChars(d);
    assert d.year / 100 == Pair(s, 0) && d.year % 100 == Pair(s, 2);
    assert s[4] == '-' && s[7] == '-';
    SameTen(s, Iso(d));
  }

  /** Spelling and reading are inverse: a day reads back as itself, and only its own spelling reads as it. */
  lemma IsoRoundTrip(s: string, d: Day)
    ensures ParseIso(s) == Some(d) <==> s == Iso(d)
  {
    if ParseIso(s) == Some(d) {
      ReadsIso(s, d);
    }
    IsoReads(d);
  }

  lemma IsoInjective(a: Day, b: Day)
    requires Iso(a) == Iso(b)
    ensures a == b
  {
    IsoReads(a);
    IsoReads(b);
  }

  /** The number a decimal numeral stands for. */
  function Decimal(s: string): int {
    if s == [] then 0 else 10 * Decimal(s[..|s| - 1]) + (s[|s| - 1] as int - 48)
  }

  lemma DecimalTwo(n: nat)
    requires n < 100
    ensures Decimal(TwoDigits(n)) == n
  {
    var s := TwoDigits(n);
    assert s[..1] == [s[0]] && s[..1][..0] == [];
    assert Decimal(s[..1]) == n / 10;
  }

  lemma DecimalFour(s: string, a: nat, b: nat)
    requires a < 100 && b < 100 && s == TwoDigits(a) + TwoDigits(b)
    ensures Decimal(s) == 100 * a + b
  {
    var high, low := TwoDigits(a), TwoDigits(b);
    DecimalTwo(a);
    DecimalTwo(b);
    assert s[..3] == high + [low[0]] && s[..3][..2] == high;
    assert low[..1] == [low[0]] && low[..1][..0] == [];
    assert Decimal(s) == 10 * Decimal(s[..3]) + (low[1] as int - 48);
    assert Decimal(s[..3]) == 10 * Decimal(high) + (low[0] as int - 48);
    assert Decimal(low) == 10 * Decimal(low[..1]) + (low[1] as int - 48);
  }

  /** A spelling is year, month and day in decimal, in that order, four digits, two and two. */
  lemma IsoIs(d: Day)
    ensures var s := Iso(d);
            |s| == 10 && s[4] == s[7] == '-' &&
            Decimal(s[0..4]) == d.year && Decimal(s[5..7]) == d.month && Decimal(s[8..10]) == d.day
  {
    var s := Iso(d);
    assert s[0..4] == TwoDigits(d.year / 100) + TwoDigits(d.year % 100);
    assert s[5..7] == TwoDigits(d.month) && s[8..10] == TwoDigits(d.day);
    DecimalFour(s[0..4], d.year / 100, d.year % 100);
    DecimalTwo(d.month);
    DecimalTwo(d.day);
  }
}
