// Days since an epoch from a Gregorian date, for all years.

module Calendar {
  datatype Date = Date(year: int, month: int, day: int)

  predicate Leap(y: int) {
    y % 4 == 0 && (y % 100 != 0 || y % 400 == 0)
  }

  function MonthDays(y: int, m: int): int {
    if m == 2 then if Leap(y) then 29 else 28
    else if m == 4 || m == 6 || m == 9 || m == 11 then 30
    else 31
  }

  predicate ValidDate(x: Date) {
    1 <= x.month <= 12 && 1 <= x.day <= MonthDays(x.year, x.month)
  }

  function NextDay(x: Date): (r: Date)
    requires ValidDate(x)
    ensures ValidDate(r)
  {
    if x.day < MonthDays(x.year, x.month) then Date(x.year, x.month, x.day + 1)
    else if x.month < 12 then Date(x.year, x.month + 1, 1)
    else Date(x.year + 1, 1, 1)
  }

  // ---- days_from_civil: years that begin in March, in eras of 400 years -----------------

  function MarchYear(x: Date): int {
    if x.month <= 2 then x.year - 1 else x.year
  }

  function DayOfYear(x: Date): int {
    (153 * (x.month + if x.month > 2 then -3 else 9) + 2) / 5 + x.day - 1
  }

  // C's division truncates: the numerator is made to round down.
  function Era(y: int): int {
    if y >= 0 then y / 400 else -((399 - y) / 400)
  }

  function DaysFromCivil(x: Date): int {
    var y := MarchYear(x);
    var yoe := y - Era(y) * 400;
    Era(y) * 146097 + (yoe * 365 + yoe / 4 - yoe / 100 + DayOfYear(x)) - 719468
  }

  lemma EraRoundsDown(y: int)
    ensures Era(y) == y / 400 && 0 <= y - Era(y) * 400 < 400
  {
  }

  // Days before the first of March of a year, counted from March of year 0.
  function Before(y: int): int {
    Era(y) * 146097 + (y - Era(y) * 400) * 365 + (y - Era(y) * 400) / 4 - (y - Era(y) * 400) / 100
  }

  // A March year has 366 days when the calendar year it ends in is a leap year.
  lemma MarchYearLength(y: int)
    ensures Before(y + 1) - Before(y) == if Leap(y + 1) then 366 else 365
  {
    EraRoundsDown(y);
    EraRoundsDown(y + 1);
    var e := y - Era(y) * 400;
    LeapInEra(y + 1, Era(y), e + 1);
    if e == 399 {
      assert Era(y + 1) == Era(y) + 1;
    } else {
      assert Era(y + 1) == Era(y);
    }
  }

  lemma LeapInEra(y: int, era: int, e: int)
    requires y == era * 400 + e
    ensures Leap(y) <==> Leap(e)
  {
    Mod4(100 * era, e);
    Mod100(4 * era, e);
    Mod400(era, e);
  }

  lemma Mod4(q: int, e: int)
    ensures (4 * q + e) % 4 == e % 4
  {
  }

  lemma Mod100(q: int, e: int)
    ensures (100 * q + e) % 100 == e % 100
  {
  }

  lemma Mod400(q: int, e: int)
    ensures (400 * q + e) % 400 == e % 400
  {
  }

  // Where a month begins in a March year.
  lemma MonthStarts(y: int, m: int)
    requires 1 <= m < 12 && m != 2
    ensures DayOfYear(Date(y, m + 1, 1)) == DayOfYear(Date(y, m, MonthDays(y, m))) + 1
  {
  }

  // Each day's successor is the next integer, in every year.
  lemma NextDayIsNext(x: Date)
    requires ValidDate(x)
    ensures DaysFromCivil(NextDay(x)) == DaysFromCivil(x) + 1
  {
    if x.day == MonthDays(x.year, x.month) {
      MonthEnds(x.year, x.month);
    } else {
      ByMarchYear(x);
      ByMarchYear(NextDay(x));
    }
  }

  lemma MonthEnds(y: int, m: int)
    requires 1 <= m <= 12
    ensures var x := Date(y, m, MonthDays(y, m)); DaysFromCivil(NextDay(x)) == DaysFromCivil(x) + 1
  {
    if m == 2 {
      FebruaryEnds(y);
    } else if m < 12 {
      OtherMonthEnds(y, m);
    } else {
      DecemberEnds(y);
    }
  }

  lemma OtherMonthEnds(y: int, m: int)
    requires 1 <= m < 12 && m != 2
    ensures DaysFromCivil(Date(y, m + 1, 1)) == DaysFromCivil(Date(y, m, MonthDays(y, m))) + 1
  {
    ByMarchYear(Date(y, m, MonthDays(y, m)));
    ByMarchYear(Date(y, m + 1, 1));
    MonthStarts(y, m);
  }

  lemma DecemberEnds(y: int)
    ensures DaysFromCivil(Date(y + 1, 1, 1)) == DaysFromCivil(Date(y, 12, 31)) + 1
  {
    ByMarchYear(Date(y, 12, 31));
    ByMarchYear(Date(y + 1, 1, 1));
  }

  lemma FebruaryEnds(y: int)
    ensures DaysFromCivil(Date(y, 3, 1)) == DaysFromCivil(Date(y, 2, MonthDays(y, 2))) + 1
  {
    ByMarchYear(Date(y, 2, MonthDays(y, 2)));
    ByMarchYear(Date(y, 3, 1));
    MarchYearLength(y - 1);
  }

  lemma ByMarchYear(x: Date)
    ensures DaysFromCivil(x) == Before(MarchYear(x)) + DayOfYear(x) - 719468
  {
  }

  lemma Epoch()
    ensures DaysFromCivil(Date(1970, 1, 1)) == 0
  {
  }

  // amiga_days_from_civil counts from the first of January 1978.
  function AmigaDays(x: Date): int {
    DaysFromCivil(x) - DaysFromCivil(Date(1978, 1, 1))
  }

  // The calendar the sidecar writer uses: the date n days after the epoch.
  function CivilAt(n: nat): (x: Date)
    ensures ValidDate(x)
  {
    if n == 0 then Date(1978, 1, 1) else NextDay(CivilAt(n - 1))
  }

  lemma {:induction false} AmigaDaysInvertsCalendar(n: nat)
    ensures AmigaDays(CivilAt(n)) == n
    decreases n
  {
    if n > 0 {
      AmigaDaysInvertsCalendar(n - 1);
      NextDayIsNext(CivilAt(n - 1));
    }
  }

  lemma {:induction false} NoYearsBefore1978(n: nat)
    ensures CivilAt(n).year >= 1978
    decreases n
  {
    if n > 0 {
      NoYearsBefore1978(n - 1);
    }
  }
}
