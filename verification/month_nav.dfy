/** The month selector of `medicinestats.jsx`. The selected month is always
    the first instant of a calendar month, so it is modelled as a (year,
    month) pair; "now" is a parameter `cur`, the month the present instant
    lies in. A month's first instant is in the future (`isFuture`) exactly
    when that month comes after `cur`. */
module MonthNav {

  /** `getMonth`: January is 0, December is 11. */
  type Month = m: int | 0 <= m < 12

  datatype YearMonth = YearMonth(year: int, month: Month)

  /** Months counted on one line, so that consecutive months differ by one. */
  function Index(ym: YearMonth): int {
    ym.year * 12 + ym.month
  }

  function FromIndex(k: int): (ym: YearMonth)
    ensures Index(ym) == k
  {
    YearMonth(k / 12, k % 12)
  }

  lemma IndexIsInjective(a: YearMonth, b: YearMonth)
    ensures Index(a) == Index(b) <==> a == b
  {
    if Index(a) == Index(b) {
      assert a.year == Index(a) / 12 && b.year == Index(b) / 12;
    }
  }

  /** `addMonths` / `subMonths` on a first-of-month date. */
  function AddMonths(ym: YearMonth, n: int): (r: YearMonth)
    ensures Index(r) == Index(ym) + n
  {
    FromIndex(Index(ym) + n)
  }

  /** `isFuture` of the first instant of the month with index `k`. */
  predicate StartIsFuture(k: int, cur: YearMonth) {
    k > Index(cur)
  }

  /** `isCurrentOrFutureMonth = isFuture(addMonths(selectedMonth, 1))`. */
  predicate IsCurrentOrFutureMonth(sel: YearMonth, cur: YearMonth) {
    StartIsFuture(Index(AddMonths(sel, 1)), cur)
  }

  /** The guard of both select handlers: a date both in the future and after
      the start of the current month is replaced by the current month. */
  function ClampToCurrent(d: YearMonth, cur: YearMonth): YearMonth {
    if StartIsFuture(Index(d), cur) && Index(d) > Index(cur) then cur else d
  }

  /** `handleYearChange`: keep the month, set the year, clamp. */
  function ChangeYear(sel: YearMonth, newYear: int, cur: YearMonth): (r: YearMonth)
    ensures Index(r) <= Index(cur)
    ensures Index(YearMonth(newYear, sel.month)) <= Index(cur) ==> r == YearMonth(newYear, sel.month)
    ensures Index(YearMonth(newYear, sel.month)) > Index(cur) ==> r == cur
  {
    ClampToCurrent(YearMonth(newYear, sel.month), cur)
  }

  /** `handleMonthChange`: keep the year, set the month, clamp. */
  function ChangeMonth(sel: YearMonth, newMonth: Month, cur: YearMonth): (r: YearMonth)
    ensures Index(r) <= Index(cur)
    ensures Index(YearMonth(sel.year, newMonth)) <= Index(cur) ==> r == YearMonth(sel.year, newMonth)
    ensures Index(YearMonth(sel.year, newMonth)) > Index(cur) ==> r == cur
  {
    ClampToCurrent(YearMonth(sel.year, newMonth), cur)
  }

  /** `goPrevMonth`: one month back, with no lower bound; January steps to
      December of the previous year. */
  function GoPrev(sel: YearMonth): (r: YearMonth)
    ensures Index(r) == Index(sel) - 1
    ensures sel.month == 0 ==> r == YearMonth(sel.year - 1, 11)
    ensures sel.month > 0 ==> r == YearMonth(sel.year, sel.month - 1)
  {
    AddMonths(sel, -1)
  }

  /** `goNextMonth`: one month forward while the selection is strictly before
      the current month, otherwise nothing. */
  function GoNext(sel: YearMonth, cur: YearMonth): (r: YearMonth)
    ensures Index(sel) < Index(cur) ==> Index(r) == Index(sel) + 1
    ensures Index(sel) >= Index(cur) ==> r == sel
    ensures sel.month == 11 && Index(sel) < Index(cur) ==> r == YearMonth(sel.year + 1, 0)
  {
    if !IsCurrentOrFutureMonth(sel, cur) then AddMonths(sel, 1) else sel
  }

  /** The "next" button is disabled exactly when the selection is the
      current month or later. */
  lemma NextDisabledIffNotBefore(sel: YearMonth, cur: YearMonth)
    ensures IsCurrentOrFutureMonth(sel, cur) <==> Index(sel) >= Index(cur)
  {
  }

  /** Stepping back and then forward returns to a selection that was not
      after the current month. */
  lemma PrevThenNext(sel: YearMonth, cur: YearMonth)
    requires Index(sel) <= Index(cur)
    ensures GoNext(GoPrev(sel), cur) == sel
  {
    IndexIsInjective(GoNext(GoPrev(sel), cur), sel);
  }

  /** Stepping forward and then back returns to a selection that was before
      the current month. */
  lemma NextThenPrev(sel: YearMonth, cur: YearMonth)
    requires Index(sel) + 1 <= Index(cur)
    ensures GoPrev(GoNext(sel, cur)) == sel
  {
    IndexIsInjective(GoPrev(GoNext(sel, cur)), sel);
  }

  /** One user action on the selector. */
  datatype Action = SelectYear(year: int) | SelectMonth(month: Month) | Prev | Next

  /** Every action keeps a selection that is not after the current month
      not after it. */
  function Apply(sel: YearMonth, a: Action, cur: YearMonth): (r: YearMonth)
    ensures Index(sel) <= Index(cur) ==> Index(r) <= Index(cur)
  {
    match a
    case SelectYear(y) => ChangeYear(sel, y, cur)
    case SelectMonth(m) => ChangeMonth(sel, m, cur)
    case Prev => GoPrev(sel)
    case Next => GoNext(sel, cur)
  }

  function Run(sel: YearMonth, actions: seq<Action>, cur: YearMonth): YearMonth
    decreases |actions|
  {
    if |actions| == 0 then sel else Run(Apply(sel, actions[0], cur), actions[1..], cur)
  }

  /** A selection that starts at or before the current month (the component
      starts at the current month) never passes it, whatever the user does. */
  lemma {:induction false} NeverPastCurrent(sel: YearMonth, actions: seq<Action>, cur: YearMonth)
    decreases |actions|
    requires Index(sel) <= Index(cur)
    ensures Index(Run(sel, actions, cur)) <= Index(cur)
  {
    if |actions| > 0 {
      NeverPastCurrent(Apply(sel, actions[0], cur), actions[1..], cur);
    }
  }
}
