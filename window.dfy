/** The date window the history queries apply to assignment intervals. Only the end date of a
    record takes part: a start bound keeps the records still open or ending on or after it, and
    an end bound keeps the records ending on or before it, plus the open ones when the bound is
    today. The source builds the window as up to two successive `Where` calls; `FilterByWindow`
    does the same and is proved equal to a single filter by `InWindow`. */
module Windows {
  import opened Common
  import opened Sequences

  /** The start-bound condition `EndDate == null || EndDate >= start`. */
  predicate KeptByStart(endDate: Option<Date>, start: Option<Date>)
  {
    start.None? || endDate.None? || endDate.value >= start.value
  }

  /** The end-bound condition `(EndDate == null && end == today) || EndDate <= end`; a comparison
      with a null end date is false, as in SQL. */
  predicate KeptByEnd(endDate: Option<Date>, end: Option<Date>, today: Date)
  {
    end.None? || (endDate.None? && end.value == today) || (endDate.Some? && endDate.value <= end.value)
  }

  predicate InWindow(endDate: Option<Date>, start: Option<Date>, end: Option<Date>, today: Date)
  {
    KeptByStart(endDate, start) && KeptByEnd(endDate, end, today)
  }

  /** The two conditional `Where` calls, in the order the repositories apply them. */
  function FilterByWindow<T(==,!new)>(rows: seq<T>, endOf: T -> Option<Date>,
                                  start: Option<Date>, end: Option<Date>, today: Date): (r: seq<T>)
    ensures r == Where(rows, x => InWindow(endOf(x), start, end, today))
    ensures forall x :: x in r <==> x in rows && InWindow(endOf(x), start, end, today)
  {
    var byStart := if start.Some? then Where(rows, x => endOf(x).None? || endOf(x).value >= start.value) else rows;
    var byEnd := if end.Some? then Where(byStart, x => (endOf(x).None? && end.value == today)
                                                      || (endOf(x).Some? && endOf(x).value <= end.value))
                 else byStart;
    WindowIsOneFilter(rows, endOf, start, end, today);
    byEnd
  }

  /** The proof obligation of `FilterByWindow`: each of the four cases is a single filter. */
  lemma {:induction false} WindowIsOneFilter<T(!new)>(rows: seq<T>, endOf: T -> Option<Date>,
                                                      start: Option<Date>, end: Option<Date>, today: Date)
    ensures var byStart := if start.Some? then Where(rows, x => endOf(x).None? || endOf(x).value >= start.value) else rows;
            var byEnd := if end.Some? then Where(byStart, x => (endOf(x).None? && end.value == today)
                                                              || (endOf(x).Some? && endOf(x).value <= end.value))
                         else byStart;
            byEnd == Where(rows, x => InWindow(endOf(x), start, end, today))
  {
    if start.Some? && end.Some? {
      BothBoundsFilter(rows, endOf, start, end, today);
    } else if start.Some? {
      StartBoundFilter(rows, endOf, start, end, today);
    } else if end.Some? {
      EndBoundFilter(rows, endOf, start, end, today);
    } else {
      WhereAll(rows, x => InWindow(endOf(x), start, end, today));
    }
  }

  /** Both bounds: filtering by the start condition and then the end one is the window. */
  lemma BothBoundsFilter<T(!new)>(rows: seq<T>, endOf: T -> Option<Date>,
                                  start: Option<Date>, end: Option<Date>, today: Date)
    requires start.Some? && end.Some?
    ensures Where(Where(rows, x => endOf(x).None? || endOf(x).value >= start.value),
                  x => (endOf(x).None? && end.value == today) || (endOf(x).Some? && endOf(x).value <= end.value))
            == Where(rows, x => InWindow(endOf(x), start, end, today))
  {
    var ps := x => endOf(x).None? || endOf(x).value >= start.value;
    var pe := x => (endOf(x).None? && end.value == today) || (endOf(x).Some? && endOf(x).value <= end.value);
    WhereThenWhere(rows, ps, pe, x => InWindow(endOf(x), start, end, today));
  }

  /** A start bound alone: its condition is the window. */
  lemma StartBoundFilter<T(!new)>(rows: seq<T>, endOf: T -> Option<Date>,
                                  start: Option<Date>, end: Option<Date>, today: Date)
    requires start.Some? && end.None?
    ensures Where(rows, x => endOf(x).None? || endOf(x).value >= start.value)
            == Where(rows, x => InWindow(endOf(x), start, end, today))
  {
    WhereCongruent(rows, x => endOf(x).None? || endOf(x).value >= start.value,
                   x => InWindow(endOf(x), start, end, today));
  }

  /** An end bound alone: its condition is the window. */
  lemma EndBoundFilter<T(!new)>(rows: seq<T>, endOf: T -> Option<Date>,
                                start: Option<Date>, end: Option<Date>, today: Date)
    requires start.None? && end.Some?
    ensures Where(rows, x => (endOf(x).None? && end.value == today) || (endOf(x).Some? && endOf(x).value <= end.value))
            == Where(rows, x => InWindow(endOf(x), start, end, today))
  {
    WhereCongruent(rows, x => (endOf(x).None? && end.value == today)
                              || (endOf(x).Some? && endOf(x).value <= end.value),
                   x => InWindow(endOf(x), start, end, today));
  }

  /** A `Where` by `keep` followed by the window: one filter by both conditions. */
  function SelectInWindow<T(==,!new)>(rows: seq<T>, keep: T -> bool, endOf: T -> Option<Date>,
                                     start: Option<Date>, end: Option<Date>, today: Date): (r: seq<T>)
    ensures r == Where(rows, x => keep(x) && InWindow(endOf(x), start, end, today))
    ensures forall x :: x in r <==> x in rows && keep(x) && InWindow(endOf(x), start, end, today)
    ensures multiset(r) <= multiset(rows)
  {
    var kept := Where(rows, keep);
    WhereWhere(rows, keep, x => InWindow(endOf(x), start, end, today));
    WhereCongruent(rows, x => keep(x) && (x => InWindow(endOf(x), start, end, today))(x),
                   x => keep(x) && InWindow(endOf(x), start, end, today));
    FilterByWindow(kept, endOf, start, end, today)
  }

  /** `SelectInWindow` is the filter by any predicate that agrees with both of its conditions. */
  lemma SelectInWindowIsWhere<T(!new)>(rows: seq<T>, keep: T -> bool, endOf: T -> Option<Date>,
                                       start: Option<Date>, end: Option<Date>, today: Date, q: T -> bool)
    requires forall x :: q(x) == (keep(x) && InWindow(endOf(x), start, end, today))
    ensures SelectInWindow(rows, keep, endOf, start, end, today) == Where(rows, q)
  {
    WhereCongruent(rows, x => keep(x) && InWindow(endOf(x), start, end, today), q);
  }

  /** Without bounds the window keeps everything. */
  lemma NoBoundsKeepsAll<T(!new)>(rows: seq<T>, endOf: T -> Option<Date>, today: Date)
    ensures FilterByWindow(rows, endOf, None, None, today) == rows
  {
    WhereAll(rows, x => InWindow(endOf(x), None, None, today));
  }

  /** An open interval passes an end bound exactly when the bound is today; a closed one passes
      it when it ends on or before the bound, whatever today is. */
  lemma OpenIntervalPassesEndOnlyToday(end: Date, today: Date, closedAt: Date)
    ensures KeptByEnd(None, Some(end), today) <==> end == today
    ensures KeptByEnd(Some(closedAt), Some(end), today) <==> closedAt <= end
  {
  }

  /** A record open at a later bound is kept by every earlier start bound too: the start bound
      is monotone. */
  lemma StartBoundMonotone(endDate: Option<Date>, s1: Date, s2: Date)
    requires s1 <= s2
    ensures KeptByStart(endDate, Some(s2)) ==> KeptByStart(endDate, Some(s1))
  {
  }
}
