/** One windowed, grouped aggregation of the ledger (`create_a_grouped_feature`). */
module Aggregation {
  import opened Outcomes
  import opened Dates
  import opened Sales
  import opened FeatureConfig
  import opened Frames

  /** `d < snap_date`, and `d >= snap_date - window months` when a window is given.
      A window of zero months is still applied (a non-empty dict is truthy). */
  predicate InWindow(d: Date, a: AggSpec)
    ensures InWindow(d, a) ==> Before(d, a.snapDate)
  {
    Before(d, a.snapDate) && (a.window.Some? ==> !Before(d, SubMonths(a.snapDate, a.window.value)))
  }

  /** The date filter as a row mask; it never keeps a row dated on or after the snapshot. */
  function WindowFilter(a: AggSpec): (keep: Row -> bool)
    ensures forall x :: keep(x) ==> Before(x.orderDate, a.snapDate)
  {
    (x: Row) => InWindow(x.orderDate, a)
  }

  /** The rows `a` aggregates over. */
  function Window(rows: seq<Row>, a: AggSpec): (r: seq<Row>)
    ensures forall x :: x in r <==> x in rows && InWindow(x.orderDate, a)
  {
    Where(rows, WindowFilter(a))
  }

  /** Adds one row to running per-key sums; a row with a missing key value is dropped. */
  function Credit(m: map<Key, int>, r: Row, cols: seq<string>, src: string): map<Key, int> {
    match KeyOf(r, cols)
    case None => m
    case Some(k) => m[k := (if k in m then m[k] else 0) + Quantity(r, src)]
  }

  /** `groupby(cols).agg(sum of src)`, accumulated row by row. */
  function Totals(rows: seq<Row>, cols: seq<string>, src: string): (m: map<Key, int>)
    ensures forall k :: k in m ==> |k| == |cols|
    decreases |rows|
  {
    if rows == [] then map[] else Credit(Totals(rows[1..], cols, src), rows[0], cols, src)
  }

  /** Some row of `rows` has key `k`. */
  ghost predicate HasKey(rows: seq<Row>, cols: seq<string>, k: Key) {
    exists x :: x in rows && KeyOf(x, cols) == Some(k)
  }

  /** The sum of `src` over the rows whose key is `k`. */
  function SumFor(rows: seq<Row>, cols: seq<string>, src: string, k: Key): int
    decreases |rows|
  {
    if rows == [] then 0
    else (if KeyOf(rows[0], cols) == Some(k) then Quantity(rows[0], src) else 0) + SumFor(rows[1..], cols, src, k)
  }

  lemma {:induction false} SumForAbsent(rows: seq<Row>, cols: seq<string>, src: string, k: Key)
    requires !HasKey(rows, cols, k)
    ensures SumFor(rows, cols, src, k) == 0
    decreases |rows|
  {
    if rows != [] {
      assert forall x :: x in rows[1..] ==> x in rows;
      SumForAbsent(rows[1..], cols, src, k);
    }
  }

  /** The grouped sums have exactly the keys present among the rows, each holding
      the sum of its own rows. */
  lemma {:induction false} TotalsAreGroupSums(rows: seq<Row>, cols: seq<string>, src: string)
    ensures forall k :: k in Totals(rows, cols, src) <==> HasKey(rows, cols, k)
    ensures forall k :: k in Totals(rows, cols, src) ==> Totals(rows, cols, src)[k] == SumFor(rows, cols, src, k)
    decreases |rows|
  {
    if rows != [] {
      var tail := rows[1..];
      TotalsAreGroupSums(tail, cols, src);
      assert rows == [rows[0]] + tail;
      assert forall x :: x in rows <==> x == rows[0] || x in tail;
      var m := Totals(tail, cols, src);
      match KeyOf(rows[0], cols)
      case None =>
      case Some(k0) =>
        if k0 !in m {
          SumForAbsent(tail, cols, src, k0);
        }
    }
  }

  /** The first of `cols` missing from `available`, if any. */
  function FirstMissing(cols: seq<string>, available: set<string>): (r: Option<string>)
    ensures r.None? <==> forall i :: 0 <= i < |cols| ==> cols[i] in available
    ensures r.Some? ==> r.value in cols && r.value !in available
  {
    if cols == [] then None
    else if cols[0] !in available then Some(cols[0])
    else FirstMissing(cols[1..], available)
  }

  /** `create_a_grouped_feature`: the window filter, then a grouped sum named `a.name`. */
  function GroupedFeature(l: Ledger, a: AggSpec, cols: seq<string>): (r: Result<Frame>)
    ensures r.Err? <==> |cols| == 0 || (exists i :: 0 <= i < |cols| && cols[i] !in l.attrCols) || a.sourceCol !in l.measureCols
    ensures |cols| == 0 ==> r == Err(NoGroupKeys)
    ensures r.Err? && |cols| > 0 ==>
      && r.error.MissingColumn?
      && ((r.error.column in cols && r.error.column !in l.attrCols) || (r.error.column == a.sourceCol && a.sourceCol !in l.measureCols))
    ensures r.Ok? ==> r.value.Valid() && r.value.index == cols && r.value.names == [a.name]
    ensures r.Ok? ==> r.value.labels == r.value.data[0].Keys
  {
    if |cols| == 0 then Err(NoGroupKeys)
    else match FirstMissing(cols, l.attrCols)
      case Some(c) => Err(MissingColumn(c))
      case None =>
        if a.sourceCol !in l.measureCols then Err(MissingColumn(a.sourceCol))
        else Ok(Series(cols, a.name, Totals(Window(l.rows, a), cols, a.sourceCol)))
  }

  /** The output labels are exactly the keys of rows inside the window (no zero
      filling), and each value is the sum of `sourceCol` over that key's rows in the window. */
  lemma GroupedFeatureMeaning(l: Ledger, a: AggSpec, cols: seq<string>)
    requires GroupedFeature(l, a, cols).Ok?
    ensures var f := GroupedFeature(l, a, cols).value;
      forall k :: k in f.labels <==> exists x :: x in l.rows && InWindow(x.orderDate, a) && KeyOf(x, cols) == Some(k)
    ensures var f := GroupedFeature(l, a, cols).value;
      forall k :: k in f.labels ==> k in f.data[0] && f.data[0][k] == Num(SumFor(Window(l.rows, a), cols, a.sourceCol, k))
  {
    TotalsAreGroupSums(Window(l.rows, a), cols, a.sourceCol);
  }

  /** Two ledgers with the same columns and the same rows inside the window aggregate alike. */
  lemma SameWindowSameFeature(l1: Ledger, l2: Ledger, a: AggSpec, cols: seq<string>)
    requires l1.attrCols == l2.attrCols && l1.measureCols == l2.measureCols
    requires Window(l1.rows, a) == Window(l2.rows, a)
    ensures GroupedFeature(l1, a, cols) == GroupedFeature(l2, a, cols)
  {
  }

  /** Rows outside the window never change the aggregate, wherever they sit in the ledger. */
  lemma OutsideWindowIgnored(l: Ledger, a: AggSpec, cols: seq<string>, pre: seq<Row>, x: seq<Row>, post: seq<Row>)
    requires forall r :: r in x ==> !InWindow(r.orderDate, a)
    ensures GroupedFeature(l.(rows := pre + x + post), a, cols) == GroupedFeature(l.(rows := pre + post), a, cols)
  {
    WindowSkips(a, pre, x, post);
    SameWindowSameFeature(l.(rows := pre + x + post), l.(rows := pre + post), a, cols);
  }

  /** Rows outside the window drop out of it, wherever they sit. */
  lemma WindowSkips(a: AggSpec, pre: seq<Row>, x: seq<Row>, post: seq<Row>)
    requires forall r :: r in x ==> !InWindow(r.orderDate, a)
    ensures Window(pre + x + post, a) == Window(pre + post, a)
  {
    var keep := WindowFilter(a);
    assert forall r :: r in x ==> !keep(r);
    WhereNone(x, keep);
    WhereAppend(pre + x, post, keep);
    WhereAppend(pre, x, keep);
    WhereAppend(pre, post, keep);
  }

  /** No look-ahead: rows dated on or after `snapDate` never change the aggregate. */
  lemma NoLookAhead(l: Ledger, a: AggSpec, cols: seq<string>, pre: seq<Row>, future: seq<Row>, post: seq<Row>)
    requires forall r :: r in future ==> !Before(r.orderDate, a.snapDate)
    ensures GroupedFeature(l.(rows := pre + future + post), a, cols) == GroupedFeature(l.(rows := pre + post), a, cols)
  {
    OutsideWindowIgnored(l, a, cols, pre, future, post);
  }

  /** Window bounds: `snapDate - w months` is inside (for w >= 1), `snapDate` is
      outside, and a zero-month window is empty. */
  lemma WindowBounds(a: AggSpec, w: nat)
    requires a.window == Some(w)
    ensures w >= 1 ==> InWindow(SubMonths(a.snapDate, w), a)
    ensures !InWindow(a.snapDate, a)
    ensures w == 0 ==> forall d :: !InWindow(d, a)
  {
    BeforeIsStrictTotalOrder(a.snapDate, a.snapDate, a.snapDate);
    if w >= 1 {
      ShiftMoves(a.snapDate, w);
      BeforeIsStrictTotalOrder(SubMonths(a.snapDate, w), a.snapDate, a.snapDate);
    } else {
      ShiftByZero(a.snapDate);
    }
  }

  /** Without a window, everything before `snapDate` is included. */
  lemma UnboundedWindow(a: AggSpec, d: Date)
    requires a.window.None?
    ensures InWindow(d, a) <==> Before(d, a.snapDate)
  {
  }

  /** The grouped sums of a ledger with one more row in front. */
  lemma TotalsCons(rows: seq<Row>, a: AggSpec, cols: seq<string>, r: Row)
    ensures Totals(Window([r] + rows, a), cols, a.sourceCol)
         == if InWindow(r.orderDate, a) then Credit(Totals(Window(rows, a), cols, a.sourceCol), r, cols, a.sourceCol)
            else Totals(Window(rows, a), cols, a.sourceCol)
  {
    var w := Window(rows, a);
    WindowCons(rows, a, r);
    if InWindow(r.orderDate, a) {
      assert ([r] + w)[0] == r && ([r] + w)[1..] == w;
    }
  }

  /** A row outside the window, or with a missing key value, changes nothing. */
  lemma RowOutsideIgnored(l: Ledger, a: AggSpec, cols: seq<string>, r: Row)
    requires !InWindow(r.orderDate, a) || KeyOf(r, cols).None?
    ensures GroupedFeature(l.(rows := [r] + l.rows), a, cols) == GroupedFeature(l, a, cols)
  {
    TotalsCons(l.rows, a, cols, r);
  }

  /** A row inside the window with a complete key adds its quantity to its key,
      creating the key if it is new, and leaves every other key as it was. */
  lemma RowInsideCounted(l: Ledger, a: AggSpec, cols: seq<string>, r: Row, k: Key, before: Frame, after: Frame)
    requires GroupedFeature(l, a, cols) == Ok(before)
    requires GroupedFeature(l.(rows := [r] + l.rows), a, cols) == Ok(after)
    requires InWindow(r.orderDate, a) && KeyOf(r, cols) == Some(k)
    ensures after.labels == before.labels + {k}
    ensures k in after.data[0]
    ensures after.data[0][k] == Num((if k in before.labels then before.data[0][k].n else 0) + Quantity(r, a.sourceCol))
    ensures forall k' :: k' in before.labels && k' != k ==> after.data[0][k'] == before.data[0][k']
  {
    var m1 := GroupedFeatureStep(l, a, cols, r, before, after);
    SeriesCredit(cols, a.name, m1, r, a.sourceCol, k, before, after);
  }

  /** Both aggregations are series: the second over the first's sums credited with `r`. */
  lemma GroupedFeatureStep(l: Ledger, a: AggSpec, cols: seq<string>, r: Row, before: Frame, after: Frame)
    returns (m1: map<Key, int>)
    requires GroupedFeature(l, a, cols) == Ok(before)
    requires GroupedFeature(l.(rows := [r] + l.rows), a, cols) == Ok(after)
    requires InWindow(r.orderDate, a)
    ensures m1 == Totals(Window(l.rows, a), cols, a.sourceCol)
    ensures forall k :: k in m1 ==> |k| == |cols|
    ensures before == Series(cols, a.name, m1)
    ensures after == Series(cols, a.name, Credit(m1, r, cols, a.sourceCol))
  {
    m1 := Totals(Window(l.rows, a), cols, a.sourceCol);
    TotalsCons(l.rows, a, cols, r);
    GroupedFeatureIsSeries(l, a, cols);
    GroupedFeatureIsSeries(l.(rows := [r] + l.rows), a, cols);
  }

  /** A successful aggregation is the series of grouped sums over the window. */
  lemma GroupedFeatureIsSeries(l: Ledger, a: AggSpec, cols: seq<string>)
    requires GroupedFeature(l, a, cols).Ok?
    ensures GroupedFeature(l, a, cols) == Ok(Series(cols, a.name, Totals(Window(l.rows, a), cols, a.sourceCol)))
  {
  }

  lemma SeriesCredit(cols: seq<string>, name: string, m: map<Key, int>, r: Row, src: string, k: Key, before: Frame, after: Frame)
    requires forall k' :: k' in m ==> |k'| == |cols|
    requires KeyOf(r, cols) == Some(k)
    requires before == Series(cols, name, m) && after == Series(cols, name, Credit(m, r, cols, src))
    ensures after.labels == before.labels + {k}
    ensures k in after.data[0]
    ensures after.data[0][k] == Num((if k in before.labels then before.data[0][k].n else 0) + Quantity(r, src))
    ensures forall k' :: k' in before.labels && k' != k ==> after.data[0][k'] == before.data[0][k']
  {
    assert Credit(m, r, cols, src) == m[k := (if k in m then m[k] else 0) + Quantity(r, src)];
  }


  /** The window of a ledger with one more row in front. */
  lemma WindowCons(rows: seq<Row>, a: AggSpec, r: Row)
    ensures Window([r] + rows, a) == if InWindow(r.orderDate, a) then [r] + Window(rows, a) else Window(rows, a)
  {
    assert ([r] + rows)[0] == r && ([r] + rows)[1..] == rows;
  }

  /** For a month-start cutoff `D`, the target aggregates exactly `[D, D + T months)`. */
  lemma TargetWindowIsForward(targetDuration: nat, cutoff: Date, groupColumn: seq<string>, d: Date)
    requires cutoff.day == 1
    ensures InWindow(d, TargetSpec(targetDuration, cutoff, groupColumn).groupedFeatures[0])
        <==> !Before(d, cutoff) && Before(d, AddMonths(cutoff, targetDuration))
  {
    ShiftBackUndoesShift(cutoff, targetDuration);
  }

  /** For a 31 January cutoff and a one-month target, the window starts before the
      cutoff: it reaches back to the last-of-February day number in January. */
  lemma TargetWindowReachesBackAtMonthEnd(cutoff: Date, groupColumn: seq<string>)
    requires cutoff.month == 1 && cutoff.day == 31
    ensures var early: Date := Ymd(cutoff.year, 1, DaysInMonth(cutoff.year, 2));
      Before(early, cutoff) && InWindow(early, TargetSpec(1, cutoff, groupColumn).groupedFeatures[0])
  {
    ShiftBackLosesMonthEnd(cutoff);
    MonthEndClamps(cutoff);
  }

  /** Base features cover `[D - 2 months, D)`: nothing on or after the cutoff. */
  lemma BaseWindowIsTrailing(cutoff: Date, groupColumn: seq<string>, d: Date)
    ensures InWindow(d, BaseSpec(cutoff, groupColumn).groupedFeatures[0])
        <==> !Before(d, SubMonths(cutoff, 2)) && Before(d, cutoff)
  {
  }

  /** Macro features cover `[D - 3 months, D)`: nothing on or after the cutoff. */
  lemma MacroWindowIsTrailing(cutoff: Date, groupColumn: seq<string>, d: Date)
    ensures InWindow(d, MacroSpec(cutoff, groupColumn).groupedFeatures[0])
        <==> !Before(d, SubMonths(cutoff, 3)) && Before(d, cutoff)
  {
  }
}
