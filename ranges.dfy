/** `derive_bounds`: the inclusive date range a `--range` selector stands for,
    as a function of today's date. */
module Ranges {

  import opened Outcomes
  import opened Calendar

  datatype Selector = Today | Yesterday | ThisWeek | LastWeek | ThisMonth | LastMonth

  /** Inclusive bounds on a header's date. `Unbounded` is the pair
      `(NaiveDate::MIN, NaiveDate::MAX)`, which every date lies between. */
  datatype Bounds = Unbounded | Between(start: Date, end: Date)

  /** `date >= bounds.0 && date <= bounds.1`. */
  predicate InRange(b: Bounds, d: Date) {
    match b
    case Unbounded => true
    case Between(s, e) => AtOrBefore(s, d) && AtOrBefore(d, e)
  }

  /** `d.week(Weekday::Mon)`, from its `first_day()` to its `last_day()`: the
      Monday on or before `d` up to the Sunday six days after that Monday. */
  function WeekOf(d: Date): (b: Bounds)
    requires Valid(d)
    ensures b.Between? && Valid(b.start) && Valid(b.end)
    ensures Weekday(b.start) == MONDAY && Weekday(b.end) == SUNDAY
    ensures b.end == AddDays(b.start, 6)
    ensures AtOrBefore(b.start, d) && AtOrBefore(d, b.end)
  {
    var k := Weekday(d);
    var start := AddDays(d, -k);
    var end := AddDays(start, 6);
    WeekFacts(d, k, start, end);
    Between(start, end)
  }

  lemma {:induction false} WeekFacts(d: Date, k: int, start: Date, end: Date)
    requires Valid(d) && k == Weekday(d) && start == AddDays(d, -k) && end == AddDays(start, 6)
    ensures Weekday(start) == MONDAY && Weekday(end) == SUNDAY
    ensures AtOrBefore(start, d) && AtOrBefore(d, end)
  {
    assert Weekday(start) == MONDAY by {
      WeekdayShift(d, -k, start);
      RotateMod(k, -k);
    }
    assert Weekday(end) == SUNDAY by {
      WeekdayShift(start, 6, end);
    }
    assert end == AddDays(d, 6 - k) by {
      AddDaysAdd(d, -k, 6);
    }
  }

  /** The week holding the day six days back is this week when today is a
      Sunday, and otherwise the week before this one, which ends before today. */
  lemma {:induction false} WeekSixDaysBack(today: Date)
    requires Valid(today)
    ensures var b, w := WeekOf(AddDays(today, -6)), WeekOf(today);
      && (Weekday(today) == SUNDAY ==> b == w)
      && (Weekday(today) != SUNDAY ==>
            b == Between(AddDays(w.start, -7), AddDays(w.end, -7)) && Before(b.end, today))
  {
    var k := Weekday(today);
    var a := AddDays(today, -6);
    var ka := Weekday(a);
    assert ka == if k == SUNDAY then MONDAY else k + 1 by {
      WeekdayShift(today, -6, a);
      RotateMod(k, -6);
    }
    var start := AddDays(a, -ka);
    assert start == AddDays(today, -6 - ka) by {
      AddDaysAdd(today, -6, -ka);
    }
    var ws := AddDays(today, -k);
    if k != SUNDAY {
      assert start == AddDays(ws, -7) by {
        AddDaysAdd(today, -k, -7);
      }
      var end := AddDays(start, 6);
      assert end == AddDays(AddDays(ws, 6), -7) by {
        AddDaysAdd(ws, -7, 6);
        AddDaysAdd(ws, 6, -7);
      }
      assert end == AddDays(today, -k - 1) by {
        AddDaysAdd(today, -k - 7, 6);
      }
    }
  }

  /** The `ThisMonth` arm as written: the end is the day before the first of
      month `month + 1`, and the `if false` guard means December asks for month
      13, which does not exist, and `unwrap` panics. */
  function ThisMonthBounds(today: Date): (r: Result<Bounds>)
    requires Valid(today)
  {
    var start := FromYmd(today.year, today.month, 1);
    var next := FromYmd(today.year, today.month + 1, 1);
    if next.None? then Panic("called `Option::unwrap()` on a `None` value")
    else Ok(Between(start.value, PrevDay(next.value)))
  }

  /** The `LastMonth` arm: the first of the previous month (December of the
      previous year in January) up to the day before the first of this month. */
  function LastMonthBounds(today: Date): (b: Bounds)
    requires Valid(today)
  {
    var (y, m) := if today.month == 1 then (today.year - 1, 12) else (today.year, today.month - 1);
    var start := FromYmd(y, m, 1).value;
    var end := PrevDay(FromYmd(today.year, today.month, 1).value);
    Between(start, end)
  }

  /** `derive_bounds(range)` with the clock read as `today`. */
  function DeriveBounds(range: Option<Selector>, today: Date): (r: Result<Bounds>)
    requires Valid(today)
    ensures r.Panic? <==> range == Some(ThisMonth) && today.month == 12
    ensures r.Ok? ==> (r.value.Unbounded? <==> range.None?)
    ensures r.Ok? && r.value.Between? ==>
      Valid(r.value.start) && Valid(r.value.end) && AtOrBefore(r.value.start, r.value.end)
  {
    match range
    case None => Ok(Unbounded)
    case Some(Today) => Ok(Between(today, today))
    case Some(Yesterday) =>
      var day := AddDays(today, -1);
      Ok(Between(day, day))
    case Some(ThisWeek) => Ok(WeekOf(today))
    case Some(LastWeek) => Ok(WeekOf(AddDays(today, -6)))
    case Some(ThisMonth) => ThisMonthBounds(today)
    case Some(LastMonth) => Ok(LastMonthBounds(today))
  }

  /** `Today` is the one day `today`; `Yesterday` is the one day before it. */
  lemma {:induction false} DayBounds(today: Date)
    requires Valid(today)
    ensures DeriveBounds(Some(Today), today) == Ok(Between(today, today))
    ensures DeriveBounds(Some(Yesterday), today) == Ok(Between(PrevDay(today), PrevDay(today)))
  {
    AddDaysStep(today, -1);
  }

  /** `ThisWeek` runs from a Monday on or before today to the Sunday six days
      later, on or after today. */
  lemma {:induction false} ThisWeekBounds(today: Date)
    requires Valid(today)
    ensures var b := DeriveBounds(Some(ThisWeek), today);
      && b.Ok? && b.value.Between?
      && Weekday(b.value.start) == MONDAY && b.value.end == AddDays(b.value.start, 6)
      && AtOrBefore(b.value.start, today) && AtOrBefore(today, b.value.end)
  {
  }

  /** `LastWeek` is the Monday-to-Sunday week holding `today - 6`: the week
      before this one from Monday to Saturday, and this very week on a Sunday. */
  lemma {:induction false} LastWeekBounds(today: Date)
    requires Valid(today)
    ensures var b, w := DeriveBounds(Some(LastWeek), today), WeekOf(today);
      && b.Ok?
      && (Weekday(today) == SUNDAY ==> b.value == w)
      && (Weekday(today) != SUNDAY ==>
            b.value == Between(AddDays(w.start, -7), AddDays(w.end, -7)) && Before(b.value.end, today))
  {
    WeekSixDaysBack(today);
  }

  /** `ThisMonth` covers the whole of today's month, February 29 included in a
      leap year, and panics whenever today is in December. */
  lemma {:induction false} ThisMonthCoversMonth(today: Date)
    requires Valid(today)
    ensures today.month == 12 ==> DeriveBounds(Some(ThisMonth), today).Panic?
    ensures today.month < 12 ==>
      DeriveBounds(Some(ThisMonth), today) ==
      Ok(Between(Date(today.year, today.month, 1),
                 Date(today.year, today.month, DaysInMonth(today.year, today.month))))
  {
  }

  /** `LastMonth` covers the whole of the previous month, wrapping January
      round to December of the previous year. */
  lemma {:induction false} LastMonthCoversPreviousMonth(today: Date)
    requires Valid(today)
    ensures var (y, m) := if today.month == 1 then (today.year - 1, 12) else (today.year, today.month - 1);
      DeriveBounds(Some(LastMonth), today) == Ok(Between(Date(y, m, 1), Date(y, m, DaysInMonth(y, m))))
  {
  }

  /** Worked cases: February of a leap year, and December. */
  lemma {:induction false} WorkedMonthBounds()
    ensures DeriveBounds(Some(ThisMonth), Date(2024, 2, 15)) == Ok(Between(Date(2024, 2, 1), Date(2024, 2, 29)))
    ensures DeriveBounds(Some(ThisMonth), Date(2024, 12, 3)).Panic?
  {
  }

  /** Worked case: on Monday 2024-01-08, `LastWeek` is the previous calendar
      week, 2024-01-01 to 2024-01-07. */
  lemma {:induction false} WorkedLastWeek()
    ensures DeriveBounds(Some(LastWeek), Date(2024, 1, 8)) == Ok(Between(Date(2024, 1, 1), Date(2024, 1, 7)))
  {
    assert AddDays(Date(2024, 1, 8), -6) == Date(2024, 1, 2);
    assert Weekday(Date(2024, 1, 2)) == 1;
  }

  /** `ThisMonth` as the dead `if false` branch evidently meant it: December's
      end is the day before January 1 of the next year. */
  function ThisMonthIntended(today: Date): (b: Bounds)
    requires Valid(today)
    ensures b == Between(Date(today.year, today.month, 1),
                         Date(today.year, today.month, DaysInMonth(today.year, today.month)))
  {
    var start := FromYmd(today.year, today.month, 1).value;
    var next := if today.month == 12 then FromYmd(today.year + 1, 1, 1) else FromYmd(today.year, today.month + 1, 1);
    Between(start, PrevDay(next.value))
  }
}
