/** The civil calendar from year 0 on, as dates counted in days and as moments
    counted in seconds. */
module Calendar {
  import opened NumberLaws

  const SECONDS_PER_DAY := 86400

  predicate IsLeap(year: nat) { year % 4 == 0 && (year % 100 != 0 || year % 400 == 0) }

  function YearLength(year: nat): nat { if IsLeap(year) then 366 else 365 }

  // Months count from 1.
  function MonthLength(year: nat, month: nat): nat {
    if month == 2 then if IsLeap(year) then 29 else 28
    else if month in {4, 6, 9, 11} then 30
    else 31
  }

  function DaysBeforeYear(year: nat): nat {
    if year == 0 then 0 else DaysBeforeYear(year - 1) + YearLength(year - 1)
  }

  // One more for every leap year since year 0.
  lemma {:induction false} DaysBeforeYearIs(year: nat)
    ensures DaysBeforeYear(year) == 365 * year + (year + 3) / 4 - (year + 99) / 100 + (year + 399) / 400
  {
    if year > 0 {
      var y := year - 1;
      DaysBeforeYearIs(y);
      NextMultiple(y, 4);
      NextMultiple(y, 100);
      NextMultiple(y, 400);
      LeapCases(y);
      hide IsLeap;
    }
  }

  lemma LeapCases(y: nat)
    ensures YearLength(y)
         == 365 + (if y % 4 == 0 then 1 else 0) - (if y % 100 == 0 then 1 else 0) + (if y % 400 == 0 then 1 else 0)
  {
    MultipleOf(y, 25, 4);
    MultipleOf(y, 4, 100);
  }

  function DaysBeforeMonth(year: nat, month: nat): nat {
    if month <= 1 then 0 else DaysBeforeMonth(year, month - 1) + MonthLength(year, month - 1)
  }

  // Before March the year is one month or none old; from March on the months take
  // 153 days every five.
  lemma {:induction false} DaysBeforeMonthIs(year: nat, month: nat)
    requires 1 <= month <= 13
    ensures DaysBeforeMonth(year, month) ==
      if month < 3 then 31 * (month - 1) else (if IsLeap(year) then 60 else 59) + (153 * (month - 3) + 2) / 5
  {
    if month > 1 { DaysBeforeMonthIs(year, month - 1); }
  }

  datatype Civil = Civil(year: nat, month: nat, day: nat, hour: nat, minute: nat, second: nat) {
    predicate Valid() {
      && 1 <= month <= 12 && 1 <= day <= MonthLength(year, month)
      && hour < 24 && minute < 60 && second < 60
    }

    predicate Before(c: Civil) {
      year < c.year || (year == c.year &&
      (month < c.month || (month == c.month &&
      (day < c.day || (day == c.day &&
      (hour < c.hour || (hour == c.hour &&
      (minute < c.minute || (minute == c.minute && second < c.second)))))))))
    }

    function Date(): nat
      requires Valid()
    {
      DaysBeforeYear(year) + DaysBeforeMonth(year, month) + day - 1
    }

    // Whole seconds since the start of year 0.
    function Seconds(): nat
      requires Valid()
    {
      Date() * SECONDS_PER_DAY + (hour * 60 + minute) * 60 + second
    }
  }

  // Counts off whole years, then whole months.
  function SplitYear(year: nat, days: nat): (r: (nat, nat))
    ensures DaysBeforeYear(r.0) + r.1 == DaysBeforeYear(year) + days
    ensures r.1 < YearLength(r.0)
    decreases days
  {
    if days < YearLength(year) then (year, days) else SplitYear(year + 1, days - YearLength(year))
  }

  function SplitMonth(year: nat, month: nat, days: nat): (r: (nat, nat))
    requires 1 <= month <= 12 && DaysBeforeMonth(year, month) + days < YearLength(year)
    ensures 1 <= r.0 <= 12 && r.1 < MonthLength(year, r.0)
    ensures DaysBeforeMonth(year, r.0) + r.1 == DaysBeforeMonth(year, month) + days
    decreases days
  {
    YearIsTwelveMonths(year);
    if days < MonthLength(year, month) then (month, days)
    else SplitMonth(year, month + 1, days - MonthLength(year, month))
  }

  lemma YearIsTwelveMonths(year: nat)
    ensures DaysBeforeMonth(year, 12) + MonthLength(year, 12) == YearLength(year)
  {
    assert DaysBeforeMonth(year, 2) == 31;
    var march := DaysBeforeMonth(year, 3);
    assert march == if IsLeap(year) then 60 else 59;
    assert DaysBeforeMonth(year, 4) == march + 31;
    assert DaysBeforeMonth(year, 5) == march + 61;
    assert DaysBeforeMonth(year, 6) == march + 92;
    assert DaysBeforeMonth(year, 7) == march + 122;
    assert DaysBeforeMonth(year, 8) == march + 153;
    assert DaysBeforeMonth(year, 9) == march + 184;
    assert DaysBeforeMonth(year, 10) == march + 214;
    assert DaysBeforeMonth(year, 11) == march + 245;
  }

  function CivilOf(seconds: nat): (c: Civil)
    ensures c.Valid() && c.Seconds() == seconds
  {
    var day, time := seconds / SECONDS_PER_DAY, seconds % SECONDS_PER_DAY;
    var y := SplitYear(0, day);
    var m := SplitMonth(y.0, 1, y.1);
    Civil(y.0, m.0, m.1 + 1, time / 3600, time / 60 % 60, time % 60)
  }

  lemma {:induction false} LaterYear(a: nat, b: nat)
    requires a < b
    ensures DaysBeforeYear(a) + YearLength(a) <= DaysBeforeYear(b)
  {
    if a + 1 < b { LaterYear(a, b - 1); }
  }

  lemma {:induction false} LaterMonth(year: nat, a: nat, b: nat)
    requires 1 <= a < b <= 12
    ensures DaysBeforeMonth(year, a) + MonthLength(year, a) <= DaysBeforeMonth(year, b)
  {
    if a + 1 < b { LaterMonth(year, a, b - 1); }
  }

  lemma DateInYear(c: Civil)
    requires c.Valid()
    ensures DaysBeforeYear(c.year) <= c.Date() < DaysBeforeYear(c.year) + YearLength(c.year)
  {
    YearIsTwelveMonths(c.year);
    if c.month < 12 { LaterMonth(c.year, c.month, 12); }
  }

  lemma DateOrder(a: Civil, b: Civil)
    requires a.Valid() && b.Valid()
    requires a.year < b.year || (a.year == b.year && (a.month < b.month || (a.month == b.month && a.day < b.day)))
    ensures a.Date() < b.Date()
  {
    if a.year < b.year {
      DateInYear(a);
      DateInYear(b);
      LaterYear(a.year, b.year);
    } else if a.month < b.month {
      LaterMonth(a.year, a.month, b.month);
    }
  }

  // Dates and times in calendar order are in time order.
  lemma Monotone(a: Civil, b: Civil)
    requires a.Valid() && b.Valid() && a.Before(b)
    ensures a.Seconds() < b.Seconds()
  {
    hide DaysBeforeYear, DaysBeforeMonth, MonthLength;
    if (a.year, a.month, a.day) != (b.year, b.month, b.day) {
      DateOrder(a, b);
      assert (a.Date() + 1) * SECONDS_PER_DAY <= b.Date() * SECONDS_PER_DAY;
    }
  }

  // Seconds and valid dates and times correspond one to one, in order.
  lemma OneToOne(c: Civil, seconds: nat)
    requires c.Valid()
    ensures CivilOf(seconds) == c <==> c.Seconds() == seconds
    ensures c.Before(CivilOf(seconds)) <==> c.Seconds() < seconds
  {
    hide CivilOf, Civil.Seconds;
    var other := CivilOf(seconds);
    if c.Before(other) {
      Monotone(c, other);
    } else if other.Before(c) {
      Monotone(other, c);
    }
  }
}
