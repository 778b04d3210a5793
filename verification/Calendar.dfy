/** The date and time that the console prints for a Unix time in milliseconds. */
module Calendar {
  datatype Date = Date(year: int, month: int, day: int)

  datatype Stamp = Stamp(date: Date, hour: int, minute: int, second: int, millis: int)

  // ---- The Gregorian calendar, one day after the other ----

  predicate Leap(year: int)
  {
    year % 4 == 0 && (year % 100 != 0 || year % 400 == 0)
  }

  function DaysIn(year: int, month: int): (r: int)
    ensures 28 <= r <= 31
  {
    if month == 2 then (if Leap(year) then 29 else 28)
    else if month == 4 || month == 6 || month == 9 || month == 11 then 30
    else 31
  }

  predicate ValidDate(d: Date)
  {
    1 <= d.month <= 12 && 1 <= d.day <= DaysIn(d.year, d.month)
  }

  function NextDay(d: Date): Date
  {
    if d.day < DaysIn(d.year, d.month) then d.(day := d.day + 1)
    else if d.month < 12 then Date(d.year, d.month + 1, 1)
    else Date(d.year + 1, 1, 1)
  }

  /** The date `n` days after 1970-01-01. */
  function DateAfter(n: nat): Date
  {
    if n == 0 then Date(1970, 1, 1) else NextDay(DateAfter(n - 1))
  }

  // ---- The closed form ----

  const DAYS_PER_ERA := 146_097

  /** The year of a 400-year era, counted from the first of March, that day `doe` of the era falls in. */
  function YearOfEra(doe: int): int
  {
    (doe - doe / 1_460 + doe / 36_524 - doe / 146_096) / 365
  }

  /** The days of an era before its year `yoe`. */
  function YearStart(yoe: int): int
  {
    365 * yoe + yoe / 4 - yoe / 100
  }

  /** The date of day `doy` of the year `y` that starts in March. */
  function MarchDate(y: int, doy: int): Date
  {
    var mp := (5 * doy + 2) / 153;
    var d := doy - (153 * mp + 2) / 5 + 1;
    var m := if mp < 10 then mp + 3 else mp - 9;
    Date(if m <= 2 then y + 1 else y, m, d)
  }

  function Civil(days: int): Date
  {
    var z := days + 719_468;
    var era := z / DAYS_PER_ERA;
    var doe := z - era * DAYS_PER_ERA;
    var yoe := YearOfEra(doe);
    MarchDate(yoe + era * 400, doe - YearStart(yoe))
  }

  function StampOf(unixMs: nat): Stamp
  {
    var secs, millis := unixMs / 1000, unixMs % 1000;
    var secsOfDay := secs % 86_400;
    Stamp(Civil(secs / 86_400), secsOfDay / 3600, (secsOfDay / 60) % 60, secsOfDay % 60, millis)
  }

  // ---- Years of an era ----

  function YearLength(yoe: int): int
  {
    if Leap(yoe + 1) then 366 else 365
  }

  /** The days before year `4 * k + j` of century `c` of an era. */
  lemma YearStartSplit(c: int, k: int, j: int)
    requires 0 <= c < 4 && 0 <= k < 25 && 0 <= j < 4
    ensures YearStart(100 * c + 4 * k + j) == 36_524 * c + 1_461 * k + 365 * j
    ensures YearLength(100 * c + 4 * k + j) == if j == 3 && (k < 24 || c == 3) then 366 else 365
  {
    var y := 100 * c + 4 * k + j;
    assert y / 4 == 25 * c + k && y / 100 == c;
  }

  lemma Centuries(q: int, r: int)
    requires 0 <= r < 36_524
    ensures (36_524 * q + r) / 36_524 == q
  {
  }

  lemma FourYears(q: int, r: int)
    requires 0 <= r < 1_460
    ensures (1_460 * q + r) / 1_460 == q
  {
  }

  lemma CorrectionTerms(c: int, k: int, j: int, t: int)
    requires 0 <= c < 4 && 0 <= k < 25 && 0 <= j < 4
    requires 0 <= t < if j == 3 && (k < 24 || c == 3) then 366 else 365
    ensures var doe := 36_524 * c + 1_461 * k + 365 * j + t;
            && doe / 36_524 - doe / 146_096 == c
            && doe / 1_460 == 25 * c + k + if 24 * c + k + 365 * j + t >= 1_460 then 1 else 0
  {
    var r := 1_461 * k + 365 * j + t;
    var doe := 36_524 * c + r;
    if doe == 146_096 {
      assert c == 3;
    } else {
      assert r < 36_524;
      Centuries(c, r);
    }
    var s := 24 * c + k + 365 * j + t;
    if s >= 1_460 {
      FourYears(25 * c + k + 1, s - 1_460);
    } else {
      FourYears(25 * c + k, s);
    }
  }

  lemma Corrected(c: int, k: int, j: int, t: int)
    requires 0 <= c < 4 && 0 <= k < 25 && 0 <= j < 4
    requires 0 <= t < if j == 3 && (k < 24 || c == 3) then 366 else 365
    ensures YearOfEra(36_524 * c + 1_461 * k + 365 * j + t) == 100 * c + 4 * k + j
  {
    CorrectionTerms(c, k, j, t);
    var doe, y := 36_524 * c + 1_461 * k + 365 * j + t, 100 * c + 4 * k + j;
    var sum := doe - doe / 1_460 + doe / 36_524 - doe / 146_096;
    assert 365 * y <= sum <= 365 * y + 364;
  }

  lemma SplitYear(y: int)
    requires 0 <= y < 400
    ensures var c, k, j := y / 100, (y % 100) / 4, y % 4;
            0 <= c < 4 && 0 <= k < 25 && 0 <= j < 4 && y == 100 * c + 4 * k + j
  {
  }

  lemma YearStep(yoe: int)
    requires 0 <= yoe < 399
    ensures YearStart(yoe + 1) == YearStart(yoe) + YearLength(yoe)
  {
    hide YearStart, YearLength;
    SplitYear(yoe);
    var c, k, j := yoe / 100, (yoe % 100) / 4, yoe % 4;
    YearStartSplit(c, k, j);
    if j < 3 {
      YearStartSplit(c, k, j + 1);
    } else if k < 24 {
      YearStartSplit(c, k + 1, 0);
    } else {
      YearStartSplit(c + 1, 0, 0);
    }
  }

  /** The correction terms of `YearOfEra` undo the leap days exactly. */
  lemma YearOfEraIsYear(y: int, t: int)
    requires 0 <= y < 400 && 0 <= t < YearLength(y)
    ensures YearOfEra(YearStart(y) + t) == y
  {
    hide YearStart, YearLength, YearOfEra;
    var c, k, j := y / 100, (y % 100) / 4, y % 4;
    SplitYear(y);
    YearStartSplit(c, k, j);
    Corrected(c, k, j, t);
  }

  /** Every day of an era falls in one of its years. */
  lemma {:induction false} YearExists(doe: int) returns (y: int, t: int)
    requires 0 <= doe < DAYS_PER_ERA
    ensures 0 <= y < 400 && 0 <= t < YearLength(y) && doe == YearStart(y) + t
    decreases doe
  {
    if doe == 0 {
      y, t := 0, 0;
    } else {
      y, t := YearExists(doe - 1);
      t := t + 1;
      if t == YearLength(y) {
        if y < 399 {
          YearStep(y);
          y, t := y + 1, 0;
        } else {
          assert false;
        }
      }
    }
  }

  // ---- Days of a March year ----

  /** The days of the year that starts in March before its month `mp`, 0 for March. */
  function MonthStart(mp: int): int
  {
    (153 * mp + 2) / 5
  }

  lemma MonthOfDay(doy: int)
    requires 0 <= doy < 366
    ensures var mp := (5 * doy + 2) / 153; 0 <= mp < 12 && MonthStart(mp) <= doy < MonthStart(mp + 1)
  {
  }

  lemma MonthLengths(y: int, mp: int)
    requires 0 <= mp < 11
    ensures var m := if mp < 10 then mp + 3 else mp - 9;
            MonthStart(mp + 1) - MonthStart(mp) == DaysIn(if m <= 2 then y + 1 else y, m)
  {
  }

  lemma MonthIs(doy: int, mp: int)
    requires 0 <= mp < 12 && MonthStart(mp) <= doy < MonthStart(mp + 1) && doy < 366
    ensures (5 * doy + 2) / 153 == mp
  {
  }

  /** Within a March year, the next day of the year is the next date. */
  lemma NextInYear(y: int, doy: int)
    requires 0 <= doy && doy + 1 < if Leap(y + 1) then 366 else 365
    ensures MarchDate(y, doy + 1) == NextDay(MarchDate(y, doy))
  {
    MonthOfDay(doy);
    var mp := (5 * doy + 2) / 153;
    if mp < 11 {
      MonthLengths(y, mp);
      if doy + 1 < MonthStart(mp + 1) {
        MonthIs(doy + 1, mp);
      } else {
        MonthIs(doy + 1, mp + 1);
      }
    } else {
      MonthIs(doy + 1, mp);
    }
    hide Leap;
  }

  /** The last day of a March year is the last of February. */
  lemma NextYear(y: int)
    ensures MarchDate(y + 1, 0) == NextDay(MarchDate(y, if Leap(y + 1) then 365 else 364))
  {
  }

  lemma MarchDateValid(y: int, doy: int)
    requires 0 <= doy < if Leap(y + 1) then 366 else 365
    ensures ValidDate(MarchDate(y, doy))
  {
  }

  // ---- The closed form is stepping ----

  lemma EraOf(z: int, era: int, doe: int)
    requires z == era * DAYS_PER_ERA + doe && 0 <= doe < DAYS_PER_ERA
    ensures z / DAYS_PER_ERA == era
  {
  }

  lemma LeapPeriod(y: int, era: int)
    ensures Leap(y + era * 400) == Leap(y)
  {
    assert (y + era * 400) % 400 == y % 400 by {
      assert y + era * 400 == 400 * (y / 400 + era) + y % 400;
    }
    SmallerPeriods(y);
    SmallerPeriods(y + era * 400);
  }

  lemma SmallerPeriods(y: int)
    ensures y % 400 % 100 == y % 100 && y % 400 % 4 == y % 4
  {
    var q, r := y / 400, y % 400;
    Remainder100(4 * q + r / 100, r % 100);
    Remainder100(r / 100, r % 100);
    Remainder4(100 * q + r / 4, r % 4);
    Remainder4(r / 4, r % 4);
  }

  lemma Remainder100(k: int, r: int)
    requires 0 <= r < 100
    ensures (100 * k + r) % 100 == r
  {
  }

  lemma Remainder4(k: int, r: int)
    requires 0 <= r < 4
    ensures (4 * k + r) % 4 == r
  {
  }

  /** The closed form, from the parts of the day number. */
  lemma CivilOf(days: int, era: int, y: int, t: int)
    requires 0 <= y < 400 && 0 <= t < YearLength(y)
    requires days + 719_468 == era * DAYS_PER_ERA + YearStart(y) + t && YearStart(y) + t < DAYS_PER_ERA
    ensures Civil(days) == MarchDate(y + era * 400, t)
  {
    hide YearLength, YearOfEra, MarchDate, Leap;
    YearOfEraIsYear(y, t);
    assert YearStart(y) >= 0;
    EraOf(days + 719_468, era, YearStart(y) + t);
  }

  lemma PartsOf(days: int) returns (era: int, y: int, t: int)
    ensures 0 <= y < 400 && 0 <= t < YearLength(y)
    ensures days + 719_468 == era * DAYS_PER_ERA + YearStart(y) + t && YearStart(y) + t < DAYS_PER_ERA
    ensures t < if Leap(y + era * 400 + 1) then 366 else 365
  {
    hide Leap, YearStart;
    var z := days + 719_468;
    era := z / DAYS_PER_ERA;
    y, t := YearExists(z - era * DAYS_PER_ERA);
    LeapPeriod(y + 1, era);
    assert y + era * 400 + 1 == y + 1 + era * 400;
  }

  lemma CivilSteps(days: int)
    ensures Civil(days + 1) == NextDay(Civil(days))
  {
    hide Leap, YearStart, MarchDate, NextDay, Civil;
    var era, y, t := PartsOf(days);
    CivilOf(days, era, y, t);
    LeapPeriod(y + 1, era);
    assert y + era * 400 + 1 == y + 1 + era * 400;
    if t + 1 < YearLength(y) {
      NextInYear(y + era * 400, t);
      LastDay(y, t + 1);
      CivilOf(days + 1, era, y, t + 1);
    } else {
      NextYear(y + era * 400);
      if y < 399 {
        YearStep(y);
        FirstOfYear(y + 1);
        CivilOf(days + 1, era, y + 1, 0);
      } else {
        LastYear();
        CivilOf(days + 1, era + 1, 0, 0);
        assert y + era * 400 + 1 == (era + 1) * 400;
      }
    }
  }

  lemma LastDay(y: int, t: int)
    requires 0 <= y < 400 && 0 <= t < YearLength(y)
    ensures YearStart(y) + t < DAYS_PER_ERA
  {
  }

  lemma FirstOfYear(y: int)
    requires 0 <= y < 400
    ensures YearLength(y) > 0 && YearStart(y) < DAYS_PER_ERA
  {
  }

  lemma LastYear()
    ensures YearLength(399) == 366 && YearStart(399) + 366 == DAYS_PER_ERA
    ensures YearStart(0) == 0 && YearLength(0) > 0
  {
  }

  /** For every day from 1970 on, the closed form gives the date that stepping one day at a time reaches. */
  lemma {:induction false} CivilIsStepping(n: nat)
    ensures Civil(n) == DateAfter(n)
  {
    hide Civil, NextDay;
    if n == 0 {
      Epoch();
    } else {
      CivilIsStepping(n - 1);
      CivilSteps(n - 1);
    }
  }

  lemma Epoch()
    ensures Civil(0) == Date(1970, 1, 1)
  {
    assert YearStart(369) == 134_774 && YearLength(369) == 365;
    CivilOf(0, 4, 369, 306);
    assert MarchDate(1969, 306) == Date(1970, 1, 1);
    hide Civil;
  }

  lemma CivilValid(days: int)
    ensures ValidDate(Civil(days))
  {
    hide Leap, YearStart, MarchDate, ValidDate, Civil;
    var era, y, t := PartsOf(days);
    CivilOf(days, era, y, t);
    MarchDateValid(y + era * 400, t);
  }

  // ---- The time stamp ----

  predicate ValidStamp(s: Stamp)
  {
    && ValidDate(s.date) && 0 <= s.hour < 24 && 0 <= s.minute < 60 && 0 <= s.second < 60 && 0 <= s.millis < 1000
  }

  /** The time of day in milliseconds. */
  function OfDay(s: Stamp): int
  {
    ((s.hour * 60 + s.minute) * 60 + s.second) * 1000 + s.millis
  }

  lemma TimeOfDay(unixMs: nat)
    ensures var s := StampOf(unixMs);
            && 0 <= s.hour < 24 && 0 <= s.minute < 60 && 0 <= s.second < 60 && 0 <= s.millis < 1000
            && OfDay(s) == unixMs % 86_400_000 && unixMs / 1000 / 86_400 == unixMs / 86_400_000
  {
    hide Civil;
    var secs := unixMs / 1000;
    var sod := secs % 86_400;
    assert sod == sod / 3600 * 3600 + (sod / 60) % 60 * 60 + sod % 60;
  }

  /** The stamp is valid, and says how many whole days after the epoch, and how far into the day, the input is. */
  lemma StampRecombines(unixMs: nat)
    ensures var s := StampOf(unixMs);
            && ValidStamp(s) && s.date == DateAfter(unixMs / 86_400_000)
            && unixMs / 86_400_000 * 86_400_000 + OfDay(s) == unixMs
  {
    hide Civil, DateAfter, ValidDate, OfDay;
    TimeOfDay(unixMs);
    CivilIsStepping(unixMs / 86_400_000);
    CivilValid(unixMs / 86_400_000);
  }

  predicate DateLess(a: Date, b: Date)
  {
    a.year < b.year || (a.year == b.year && (a.month < b.month || (a.month == b.month && a.day < b.day)))
  }

  predicate Less(a: Stamp, b: Stamp)
  {
    DateLess(a.date, b.date) || (a.date == b.date && OfDay(a) < OfDay(b))
  }

  lemma {:induction false} DatesIncrease(m: nat, n: nat)
    requires m < n
    ensures DateLess(DateAfter(m), DateAfter(n))
    decreases n
  {
    DateAfterValid(n - 1);
    NextIsLater(DateAfter(n - 1));
    if m < n - 1 {
      DatesIncrease(m, n - 1);
    }
  }

  lemma DateAfterValid(n: nat)
    ensures ValidDate(DateAfter(n))
  {
  }

  lemma NextIsLater(d: Date)
    requires ValidDate(d)
    ensures DateLess(d, NextDay(d))
  {
  }

  /** Later inputs give later stamps: dates first, then the time of day. */
  lemma StampIncreases(a: nat, b: nat)
    requires a < b
    ensures Less(StampOf(a), StampOf(b))
  {
    hide Civil, DateAfter, ValidStamp, OfDay, DateLess, StampOf;
    StampRecombines(a);
    StampRecombines(b);
    var m, n := a / 86_400_000, b / 86_400_000;
    if m < n {
      DatesIncrease(m, n);
    }
  }
}
