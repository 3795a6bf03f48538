/**
 * The grid arithmetic of `das_crazy_heatmap` in main.py: events are counted
 * per day, the span from the first to the last day is widened to whole
 * weeks running Sunday to Saturday, and a 7-row grid with one column per
 * week is filled with each day's count, column by column.
 *
 * Days are `date.toordinal()` values: day 1 is Monday 0001-01-01, so an
 * ordinal divisible by 7 is a Sunday, the first entry of `DAYS`, and
 * `date.weekday()`, with Monday as 0, is `(toordinal() + 6) % 7`.
 */
module Heatmap {
  import opened Results
  import opened Counting

  const DAYS := ["SUN", "MON", "TUE", "WED", "THU", "FRI", "SAT"]
  /** The weekday names in the order of Python's `date.weekday()`: Monday is 0, and it is `(toordinal() + 6) % 7`. */
  const WEEKDAY_NAMES := ["MON", "TUE", "WED", "THU", "FRI", "SAT", "SUN"]
  const DAYS_PER_WEEK := 7

  /** The ordinals of Python's `date.min` (0001-01-01) and `date.max` (9999-12-31). */
  const MIN_ORDINAL := 1
  const MAX_ORDINAL := 3_652_059
  /** The first Sunday a `date` can hold, and the Sunday just after `date.max`'s week would end. */
  const FIRST_SUNDAY := 7
  const LAST_SUNDAY := 3_652_054

  type Ordinal = d: int | MIN_ORDINAL <= d <= MAX_ORDINAL witness MIN_ORDINAL

  /** The row of `DAYS` a day falls in: the row whose name is the day's weekday. */
  function Weekday(d: Ordinal): (row: nat)
    ensures row < DAYS_PER_WEEK
    ensures (d - row) % DAYS_PER_WEEK == 0
    ensures DAYS[row] == WEEKDAY_NAMES[(d + 6) % DAYS_PER_WEEK]
  {
    d % DAYS_PER_WEEK
  }

  /** What `das_crazy_heatmap` raises: `min()` of no days, or date arithmetic past `date.min`/`date.max`. */
  datatype HeatmapError = NoData | OutOfRange

  /** The days spanned by the data, `[start, stop]`, and the whole weeks `[dstart, dstop)` around them. */
  datatype Weeks = Weeks(start: Ordinal, stop: Ordinal, dstart: Ordinal, dstop: Ordinal, nWeeks: nat)

  function Earliest(days: seq<Ordinal>): (first: Ordinal)
    requires days != []
    ensures first in days && forall d :: d in days ==> first <= d
  {
    if |days| == 1 then days[0]
    else
      var rest := Earliest(days[1..]);
      assert forall d :: d in days ==> d == days[0] || d in days[1..];
      if days[0] <= rest then days[0] else rest
  }

  function Latest(days: seq<Ordinal>): (last: Ordinal)
    requires days != []
    ensures last in days && forall d :: d in days ==> d <= last
  {
    if |days| == 1 then days[0]
    else
      var rest := Latest(days[1..]);
      assert forall d :: d in days ==> d == days[0] || d in days[1..];
      if days[0] >= rest then days[0] else rest
  }

  /** Lines 172-178: `start`, `stop`, the Sunday on or before `start`, the Sunday after `stop`, and `n_weeks`. */
  function WeekSpan(days: seq<Ordinal>): (r: Result<Weeks, HeatmapError>)
    ensures days == [] ==> r == Failure(NoData)
    ensures days != [] ==> (r.Success? <==> forall d :: d in days ==> FIRST_SUNDAY <= d < LAST_SUNDAY)
    ensures days != [] && r.Failure? ==> r.error == OutOfRange
    ensures r.Success? ==>
      var w := r.value;
      && w.start in days && w.stop in days && (forall d :: d in days ==> w.start <= d <= w.stop)
      && w.dstart <= w.start < w.dstart + DAYS_PER_WEEK && w.dstart % DAYS_PER_WEEK == 0
      && w.stop < w.dstop <= w.stop + DAYS_PER_WEEK && w.dstop % DAYS_PER_WEEK == 0
      && w.dstop - w.dstart == DAYS_PER_WEEK * w.nWeeks && w.nWeeks >= 1
  {
    if days == [] then Failure(NoData)
    else
      var start, stop := Earliest(days), Latest(days);
      var dstart := start - start % DAYS_PER_WEEK;
      var dstop := stop + (DAYS_PER_WEEK - stop % DAYS_PER_WEEK);
      if dstart < MIN_ORDINAL || dstop > MAX_ORDINAL then Failure(OutOfRange)
      else Success(Weeks(start, stop, dstart, dstop, (dstop - dstart) / DAYS_PER_WEEK))
  }

  /** The day shown in `row` of week `col` of a grid starting on `dstart`. */
  function DayAt(dstart: int, row: int, col: int): int
  {
    dstart + DAYS_PER_WEEK * col + row
  }

  /** Every day of the widened span sits in exactly one cell: row `(d - dstart) % 7` of column `(d - dstart) / 7`. */
  lemma CellOfDay(w: Weeks, d: int)
    requires w.dstart <= d < w.dstop && w.dstop - w.dstart == DAYS_PER_WEEK * w.nWeeks
    ensures var row, col := (d - w.dstart) % DAYS_PER_WEEK, (d - w.dstart) / DAYS_PER_WEEK;
            && row < DAYS_PER_WEEK && col < w.nWeeks && d == DayAt(w.dstart, row, col)
            && forall row', col' :: 0 <= row' < DAYS_PER_WEEK && 0 <= col' && d == DayAt(w.dstart, row', col')
                 ==> row' == row && col' == col
  {
    var k := d - w.dstart;
    var row, col := k % DAYS_PER_WEEK, k / DAYS_PER_WEEK;
    assert k == DAYS_PER_WEEK * col + row;
    forall row', col' | 0 <= row' < DAYS_PER_WEEK && 0 <= col' && d == DayAt(w.dstart, row', col')
      ensures row' == row && col' == col
    {
      SameCell(k, row, col, row', col');
    }
  }

  lemma SameCell(k: int, row: int, col: int, row': int, col': int)
    requires 0 <= row < DAYS_PER_WEEK && 0 <= row' < DAYS_PER_WEEK
    requires k == DAYS_PER_WEEK * col + row && k == DAYS_PER_WEEK * col' + row'
    ensures row == row' && col == col'
  {
  }

  /**
   * Every day from the first event to the last has a cell, and it sits in the
   * row of `DAYS` that names its weekday.
   */
  lemma EventDayHasCell(days: seq<Ordinal>, d: Ordinal)
    requires WeekSpan(days).Success?
    requires WeekSpan(days).value.start <= d <= WeekSpan(days).value.stop
    ensures var w := WeekSpan(days).value;
            && DAYS[Weekday(d)] == WEEKDAY_NAMES[(d + 6) % DAYS_PER_WEEK]
            && exists col :: 0 <= col < w.nWeeks && d == DayAt(w.dstart, Weekday(d), col)
  {
    var w := WeekSpan(days).value;
    CellOfDay(w, d);
    var col := (d - w.dstart) / DAYS_PER_WEEK;
    var q := w.dstart / DAYS_PER_WEEK;
    assert w.dstart == DAYS_PER_WEEK * q;
    assert d - w.dstart == DAYS_PER_WEEK * col + (d - w.dstart) % DAYS_PER_WEEK;
    assert d == DAYS_PER_WEEK * (q + col) + (d - w.dstart) % DAYS_PER_WEEK;
    assert d % DAYS_PER_WEEK == (d - w.dstart) % DAYS_PER_WEEK;
    assert d == DayAt(w.dstart, Weekday(d), col);
  }

  // ---------------------------------------------------------------------------
  // The grid

  /** Lines 179-187: `dates[row][col]` is the day `dstart + 7*col + row` and `freqs[row][col]` its count. */
  method FillGrid(counts: map<int, nat>, dstart: int, nWeeks: nat) returns (dates: array2<int>, freqs: array2<nat>)
    ensures fresh(dates) && fresh(freqs)
    ensures dates.Length0 == DAYS_PER_WEEK && dates.Length1 == nWeeks
    ensures freqs.Length0 == DAYS_PER_WEEK && freqs.Length1 == nWeeks
    ensures forall row, col :: 0 <= row < DAYS_PER_WEEK && 0 <= col < nWeeks ==>
              dates[row, col] == DayAt(dstart, row, col)
              && freqs[row, col] == CountOf(counts, dates[row, col])
  {
    dates := new int[DAYS_PER_WEEK, nWeeks];
    freqs := new nat[DAYS_PER_WEEK, nWeeks];
    var d := dstart;
    for col := 0 to nWeeks
      invariant d == dstart + DAYS_PER_WEEK * col
      invariant forall r, c :: 0 <= r < DAYS_PER_WEEK && 0 <= c < col ==>
                  dates[r, c] == DayAt(dstart, r, c) && freqs[r, c] == CountOf(counts, dates[r, c])
    {
      for row := 0 to DAYS_PER_WEEK
        invariant d == dstart + DAYS_PER_WEEK * col + row
        invariant forall r, c :: 0 <= r < DAYS_PER_WEEK && 0 <= c < col ==>
                    dates[r, c] == DayAt(dstart, r, c) && freqs[r, c] == CountOf(counts, dates[r, c])
        invariant forall r :: 0 <= r < row ==>
                    dates[r, col] == DayAt(dstart, r, col) && freqs[r, col] == CountOf(counts, dates[r, col])
      {
        dates[row, col] := d;
        freqs[row, col] := CountOf(counts, d);
        d := d + 1;
      }
    }
  }

  /** What the plot is drawn from: the widened weeks and the two grids. */
  datatype Calendar = Calendar(weeks: Weeks, dates: array2<int>, freqs: array2<nat>)

  /** The non-plotting part of `das_crazy_heatmap`, over the days on which the events were sent. */
  method DasCrazyHeatmap(days: seq<Ordinal>) returns (r: Result<Calendar, HeatmapError>)
    ensures r.Failure? <==> WeekSpan(days).Failure?
    ensures r.Failure? ==> r.error == WeekSpan(days).error
    ensures r.Success? ==>
      var c := r.value;
      && c.weeks == WeekSpan(days).value
      && fresh(c.dates) && fresh(c.freqs)
      && c.dates.Length0 == DAYS_PER_WEEK && c.dates.Length1 == c.weeks.nWeeks
      && c.freqs.Length0 == DAYS_PER_WEEK && c.freqs.Length1 == c.weeks.nWeeks
      && (forall row, col :: 0 <= row < DAYS_PER_WEEK && 0 <= col < c.weeks.nWeeks ==>
            c.dates[row, col] == DayAt(c.weeks.dstart, row, col)
            && c.freqs[row, col] == multiset(days)[c.dates[row, col]])
      && GridSum(c.freqs, c.weeks.nWeeks) == |days|
  {
    var events: seq<int> := days;
    var counts := Tally(events);
    var span := WeekSpan(days);
    if span.Failure? {
      return Failure(span.error);
    }
    var w := span.value;
    var dates, freqs := FillGrid(counts, w.dstart, w.nWeeks);
    GridHoldsEveryEvent(events, counts, w, freqs);
    r := Success(Calendar(w, dates, freqs));
  }

  /** The filled grid counts each day's events, and all events, when `w` spans every day. */
  lemma GridHoldsEveryEvent(days: seq<int>, counts: map<int, nat>, w: Weeks, freqs: array2<nat>)
    requires counts == Tally(days)
    requires forall d :: d in days ==> w.dstart <= d < w.dstart + DAYS_PER_WEEK * w.nWeeks
    requires freqs.Length0 == DAYS_PER_WEEK && freqs.Length1 == w.nWeeks
    requires forall row, col :: 0 <= row < DAYS_PER_WEEK && 0 <= col < w.nWeeks ==>
               freqs[row, col] == CountOf(counts, DayAt(w.dstart, row, col))
    ensures forall row, col :: 0 <= row < DAYS_PER_WEEK && 0 <= col < w.nWeeks ==>
              freqs[row, col] == multiset(days)[DayAt(w.dstart, row, col)]
    ensures GridSum(freqs, w.nWeeks) == |days|
  {
    GridTotalIsRangeTotal(counts, w.dstart, w.nWeeks);
    RangeTotalOfTally(days, w.dstart, DAYS_PER_WEEK * w.nWeeks);
    GridSumIsGridTotal(freqs, counts, w.dstart, w.nWeeks, w.nWeeks);
  }

  // ---------------------------------------------------------------------------
  // Totals: the grid holds every event exactly once

  /** The counts of the `len` consecutive days from `lo`. */
  function RangeTotal(counts: map<int, nat>, lo: int, len: nat): nat
  {
    if len == 0 then 0 else RangeTotal(counts, lo, len - 1) + CountOf(counts, lo + len - 1)
  }

  /** The counts of the first `cols` whole weeks from `dstart`, week by week. */
  function GridTotal(counts: map<int, nat>, dstart: int, cols: nat): nat
  {
    if cols == 0 then 0
    else GridTotal(counts, dstart, cols - 1) + RangeTotal(counts, dstart + DAYS_PER_WEEK * (cols - 1), DAYS_PER_WEEK)
  }

  /** The sum of the first `rows` cells of column `col`. */
  ghost function ColumnSum(freqs: array2<nat>, col: nat, rows: nat): nat
    reads freqs
    requires col < freqs.Length1 && rows <= freqs.Length0
  {
    if rows == 0 then 0 else ColumnSum(freqs, col, rows - 1) + freqs[rows - 1, col]
  }

  /** The sum of every cell of the first `cols` columns. */
  ghost function GridSum(freqs: array2<nat>, cols: nat): nat
    reads freqs
    requires cols <= freqs.Length1 && freqs.Length0 == DAYS_PER_WEEK
  {
    if cols == 0 then 0 else GridSum(freqs, cols - 1) + ColumnSum(freqs, cols - 1, DAYS_PER_WEEK)
  }

  lemma {:induction false} RangeTotalSplit(counts: map<int, nat>, lo: int, a: nat, b: nat)
    ensures RangeTotal(counts, lo, a + b) == RangeTotal(counts, lo, a) + RangeTotal(counts, lo + a, b)
  {
    if b > 0 {
      RangeTotalSplit(counts, lo, a, b - 1);
    }
  }

  /** Summing week by week is summing day by day. */
  lemma {:induction false} GridTotalIsRangeTotal(counts: map<int, nat>, dstart: int, cols: nat)
    ensures GridTotal(counts, dstart, cols) == RangeTotal(counts, dstart, DAYS_PER_WEEK * cols)
  {
    if cols > 0 {
      GridTotalIsRangeTotal(counts, dstart, cols - 1);
      RangeTotalSplit(counts, dstart, DAYS_PER_WEEK * (cols - 1), DAYS_PER_WEEK);
    }
  }

  /** Adding one event on day `x` adds one to the total of a range exactly when `x` is in it. */
  lemma {:induction false} RangeTotalBump(before: map<int, nat>, after: map<int, nat>, x: int, lo: int, len: nat)
    requires forall d :: CountOf(after, d) == CountOf(before, d) + (if d == x then 1 else 0)
    ensures RangeTotal(after, lo, len) == RangeTotal(before, lo, len) + (if lo <= x < lo + len then 1 else 0)
  {
    if len > 0 {
      RangeTotalBump(before, after, x, lo, len - 1);
    }
  }

  /** Over a range that holds every day, the day counts add up to the number of events. */
  lemma {:induction false} RangeTotalOfTally(days: seq<int>, lo: int, len: nat)
    requires forall d :: d in days ==> lo <= d < lo + len
    ensures RangeTotal(Tally(days), lo, len) == |days|
  {
    if days == [] {
      RangeTotalOfNothing(lo, len);
    } else {
      var init, x := days[..|days| - 1], days[|days| - 1];
      assert days == init + [x];
      assert forall d :: d in init ==> d in days;
      RangeTotalOfTally(init, lo, len);
      RangeTotalBump(Tally(init), Tally(days), x, lo, len);
    }
  }

  lemma {:induction false} RangeTotalOfNothing(lo: int, len: nat)
    ensures RangeTotal(Tally<int>([]), lo, len) == 0
  {
    if len > 0 {
      RangeTotalOfNothing(lo, len - 1);
    }
  }

  /** A grid filled by `FillGrid` sums to the grid total of its counts. */
  lemma {:induction false} GridSumIsGridTotal(freqs: array2<nat>, counts: map<int, nat>, dstart: int, nWeeks: nat, cols: nat)
    requires freqs.Length0 == DAYS_PER_WEEK && freqs.Length1 == nWeeks && cols <= nWeeks
    requires forall row, col :: 0 <= row < DAYS_PER_WEEK && 0 <= col < nWeeks ==>
               freqs[row, col] == CountOf(counts, DayAt(dstart, row, col))
    ensures GridSum(freqs, cols) == GridTotal(counts, dstart, cols)
  {
    if cols > 0 {
      GridSumIsGridTotal(freqs, counts, dstart, nWeeks, cols - 1);
      ColumnSumIsRangeTotal(freqs, counts, dstart, cols - 1, DAYS_PER_WEEK);
    }
  }

  lemma {:induction false} ColumnSumIsRangeTotal(freqs: array2<nat>, counts: map<int, nat>, dstart: int, col: nat, rows: nat)
    requires freqs.Length0 == DAYS_PER_WEEK && col < freqs.Length1 && rows <= DAYS_PER_WEEK
    requires forall row :: 0 <= row < DAYS_PER_WEEK ==>
               freqs[row, col] == CountOf(counts, DayAt(dstart, row, col))
    ensures ColumnSum(freqs, col, rows) == RangeTotal(counts, dstart + DAYS_PER_WEEK * col, rows)
  {
    if rows > 0 {
      ColumnSumIsRangeTotal(freqs, counts, dstart, col, rows - 1);
    }
  }
}
