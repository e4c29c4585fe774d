/** The proleptic Gregorian calendar that the log's dates live in: leap years,
    month lengths, stepping a day forward or back, a day count that fixes the
    weekday (weeks start on Monday), and the chronological order of dates. */
module Calendar {

  import opened Outcomes

  datatype Date = Date(year: int, month: int, day: int)

  predicate IsLeapYear(y: int) {
    y % 4 == 0 && (y % 100 != 0 || y % 400 == 0)
  }

  function DaysInMonth(y: int, m: int): (n: int)
    requires 1 <= m <= 12
    ensures 28 <= n <= 31
    ensures n == 29 <==> m == 2 && IsLeapYear(y)
    ensures n == 28 <==> m == 2 && !IsLeapYear(y)
  {
    if m == 2 then (if IsLeapYear(y) then 29 else 28)
    else if m == 4 || m == 6 || m == 9 || m == 11 then 30
    else 31
  }

  /** A real calendar day. */
  predicate Valid(d: Date) {
    1 <= d.month <= 12 && 1 <= d.day <= DaysInMonth(d.year, d.month)
  }

  /** `NaiveDate::from_ymd_opt`: the date if it exists. */
  function FromYmd(y: int, m: int, d: int): (r: Option<Date>)
    ensures r.Some? <==> Valid(Date(y, m, d))
    ensures r.Some? ==> r.value == Date(y, m, d)
  {
    if Valid(Date(y, m, d)) then Some(Date(y, m, d)) else None
  }

  /** A number that grows with the date: the year, then the month, then the
      day, each field outweighing everything the later ones can add. */
  function Key(d: Date): int {
    (d.year * 13 + d.month) * 32 + d.day
  }

  /** Chronological order, as `NaiveDate`'s `<` compares dates. */
  predicate Before(a: Date, b: Date) {
    Key(a) < Key(b)
  }

  predicate AtOrBefore(a: Date, b: Date) {
    Key(a) <= Key(b)
  }

  /** On real days the order is that of the year, then the month, then the
      day, and two days neither before the other are the same day. */
  lemma {:induction false} Lexicographic(a: Date, b: Date)
    requires Valid(a) && Valid(b)
    ensures Before(a, b) <==>
      a.year < b.year || (a.year == b.year && (a.month < b.month || (a.month == b.month && a.day < b.day)))
    ensures AtOrBefore(a, b) <==> a == b || Before(a, b)
  {
  }

  function NextDay(d: Date): (r: Date)
    requires Valid(d)
    ensures Valid(r) && Before(d, r)
  {
    if d.day < DaysInMonth(d.year, d.month) then Date(d.year, d.month, d.day + 1)
    else if d.month < 12 then Date(d.year, d.month + 1, 1)
    else Date(d.year + 1, 1, 1)
  }

  function PrevDay(d: Date): (r: Date)
    requires Valid(d)
    ensures Valid(r) && Before(r, d)
  {
    if d.day > 1 then Date(d.year, d.month, d.day - 1)
    else if d.month > 1 then Date(d.year, d.month - 1, DaysInMonth(d.year, d.month - 1))
    else Date(d.year - 1, 12, 31)
  }

  /** No valid date lies strictly between a day and the next one, so stepping
      forward and back are inverse. */
  lemma {:induction false} NextPrevInverse(d: Date)
    requires Valid(d)
    ensures PrevDay(NextDay(d)) == d && NextDay(PrevDay(d)) == d
  {
  }

  /** A starting day and a signed number of days to move from it. */
  datatype Shift = Shift(from: Date, days: int)

  /** `d + Duration::days(n)`. */
  function AddDays(d: Date, n: int): (r: Date)
    requires Valid(d)
    ensures Valid(r)
    ensures n == 0 ==> r == d
    ensures n > 0 ==> Before(d, r)
    ensures n < 0 ==> Before(r, d)
  {
    Walk(Shift(d, n))
  }

  /** Carries out a shift by stepping one day at a time. */
  function Walk(s: Shift): (r: Date)
    requires Valid(s.from)
    ensures Valid(r)
    ensures s.days == 0 ==> r == s.from
    ensures s.days > 0 ==> Before(s.from, r)
    ensures s.days < 0 ==> Before(r, s.from)
    decreases if s.days < 0 then -s.days else s.days
  {
    if s.days == 0 then s.from
    else if s.days > 0 then Walk(Shift(NextDay(s.from), s.days - 1))
    else Walk(Shift(PrevDay(s.from), s.days + 1))
  }

  /** One step of a walk: moving `n` days is moving one day and then the rest. */
  lemma {:induction false} AddDaysStep(d: Date, n: int)
    requires Valid(d)
    ensures n > 0 ==> AddDays(d, n) == AddDays(NextDay(d), n - 1)
    ensures n < 0 ==> AddDays(d, n) == AddDays(PrevDay(d), n + 1)
  {
  }

  /** Adding `m` days and then `n` days is adding `m + n` days. */
  lemma {:induction false} AddDaysAdd(d: Date, m: int, n: int)
    requires Valid(d)
    ensures AddDays(AddDays(d, m), n) == AddDays(d, m + n)
    decreases if m < 0 then -m else m
  {
    if m > 0 {
      AddDaysAdd(NextDay(d), m - 1, n);
      AddDaysNext(d, m + n - 1);
    } else if m < 0 {
      AddDaysAdd(PrevDay(d), m + 1, n);
      AddDaysPrev(d, m + n + 1);
    }
  }

  lemma {:induction false} AddDaysNext(d: Date, n: int)
    requires Valid(d)
    ensures AddDays(NextDay(d), n) == AddDays(d, n + 1)
  {
    NextPrevInverse(d);
  }

  lemma {:induction false} AddDaysPrev(d: Date, n: int)
    requires Valid(d)
    ensures AddDays(PrevDay(d), n) == AddDays(d, n - 1)
  {
    NextPrevInverse(d);
  }

  /** Monday, January 1, 2024: the day the weekday count starts from. */
  const EPOCH := Date(2024, 1, 1)

  const MONDAY := 0
  const SUNDAY := 6

  /** No valid date lies strictly between a day and the next one. */
  lemma {:induction false} Adjacent(d: Date, e: Date)
    requires Valid(d) && Valid(e)
    ensures Before(d, e) ==> AtOrBefore(NextDay(d), e)
    ensures Before(e, d) ==> AtOrBefore(e, PrevDay(d))
  {
    Lexicographic(d, e);
    Lexicographic(e, d);
    Lexicographic(NextDay(d), e);
    Lexicographic(e, PrevDay(d));
  }

  /** The weekday after `w`, Sunday wrapping round to Monday. */
  function Succ(w: int): int {
    if w == SUNDAY then MONDAY else w + 1
  }

  /** The weekday before `w`, Monday wrapping round to Sunday. */
  function Pred(w: int): int {
    if w == MONDAY then SUNDAY else w - 1
  }

  /** Days since the most recent Monday: 0 for Monday up to 6 for Sunday,
      counted day by day from `EPOCH`. */
  function Weekday(d: Date): (w: int)
    requires Valid(d)
    ensures MONDAY <= w <= SUNDAY
    decreases if Key(d) < Key(EPOCH) then Key(EPOCH) - Key(d) else Key(d) - Key(EPOCH)
  {
    Adjacent(d, EPOCH);
    Adjacent(EPOCH, d);
    if Key(d) == Key(EPOCH) then MONDAY
    else if Key(d) > Key(EPOCH) then Succ(Weekday(PrevDay(d)))
    else Pred(Weekday(NextDay(d)))
  }

  lemma {:induction false} WeekdayAfterEpoch(d: Date)
    requires Valid(d) && Before(EPOCH, d)
    ensures Weekday(d) == Succ(Weekday(PrevDay(d)))
  {
  }

  lemma {:induction false} WeekdayBeforeEpoch(d: Date)
    requires Valid(d) && Before(d, EPOCH)
    ensures Weekday(d) == Pred(Weekday(NextDay(d)))
  {
  }

  /** The day after `d` is one place further round the week. */
  lemma {:induction false} WeekdayNext(d: Date, e: Date)
    requires Valid(d) && e == NextDay(d)
    ensures Weekday(e) == Succ(Weekday(d))
  {
    if Before(EPOCH, e) {
      NextPrevInverse(d);
      WeekdayAfterEpoch(e);
    } else {
      WeekdayBeforeEpoch(d);
    }
  }

  lemma {:induction false} WeekdayAnchors()
    ensures Weekday(Date(2024, 1, 1)) == MONDAY
    ensures Weekday(Date(2023, 12, 31)) == SUNDAY
    ensures Weekday(Date(2024, 1, 7)) == SUNDAY
  {
  }

  /** The weekday `n` places round the week from `w`: forward for positive
      `n`, backward for negative. */
  function Rotate(w: int, n: int): int
    decreases if n < 0 then -n else n
  {
    if n == 0 then w
    else if n > 0 then Rotate(Succ(w), n - 1)
    else Rotate(Pred(w), n + 1)
  }

  /** Going round the week is arithmetic modulo 7. */
  lemma {:induction false} RotateMod(w: int, n: int)
    requires MONDAY <= w <= SUNDAY
    ensures Rotate(w, n) == (w + n) % 7
    decreases if n < 0 then -n else n
  {
    if n > 0 {
      RotateMod(Succ(w), n - 1);
      if w == SUNDAY {
        assert w + n == 7 + (n - 1);
      }
    } else if n < 0 {
      RotateMod(Pred(w), n + 1);
      if w == MONDAY {
        assert SUNDAY + (n + 1) == 7 + n;
      }
    }
  }

  /** Moving `n` days from `d` to `r` moves the weekday `n` places round the
      week. */
  lemma {:induction false} WeekdayShift(d: Date, n: int, r: Date)
    requires Valid(d) && r == AddDays(d, n)
    ensures Weekday(r) == Rotate(Weekday(d), n)
  {
    if n >= 0 {
      WeekdayForward(d, n, r);
    } else {
      WeekdayBackward(d, n, r);
    }
  }

  lemma {:induction false} WeekdayForward(d: Date, n: int, r: Date)
    requires Valid(d) && n >= 0 && r == AddDays(d, n)
    ensures Weekday(r) == Rotate(Weekday(d), n)
    decreases n
  {
    if n > 0 {
      var e := NextDay(d);
      assert r == AddDays(e, n - 1) by { AddDaysStep(d, n); }
      WeekdayForward(e, n - 1, r);
      WeekdayNext(d, e);
    }
  }

  lemma {:induction false} WeekdayBackward(d: Date, n: int, r: Date)
    requires Valid(d) && n <= 0 && r == AddDays(d, n)
    ensures Weekday(r) == Rotate(Weekday(d), n)
    decreases -n
  {
    if n < 0 {
      var p := PrevDay(d);
      assert r == AddDays(p, n + 1) by { AddDaysStep(d, n); }
      WeekdayBackward(p, n + 1, r);
      assert Weekday(p) == Pred(Weekday(d)) by {
        NextPrevInverse(d);
        WeekdayNext(p, d);
      }
    }
  }
}
