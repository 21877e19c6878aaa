/** The sales ledger: one row per order item, the row filters the engine applies
    to it, and the grouping key of a row. */
module Sales {
  import opened Outcomes
  import opened Dates

  /** One ledger row. An attribute column whose value is missing (NaN) is absent
      from `attrs`; a quantity column whose value is missing is absent from `measures`. */
  datatype Row = Row(
    orderDate: Date,
    txType: string,            // "Trade", "Return", ...
    rejectionStatus: string,   // sales_order_item_rejection_status_code; "C" marks a cancellation
    attrs: map<string, string>,
    measures: map<string, int>)

  /** A ledger: its attribute and quantity column names, and its rows in order. */
  datatype Ledger = Ledger(attrCols: set<string>, measureCols: set<string>, rows: seq<Row>)

  /** The value a sum sees for `col` in `r`: a missing quantity is skipped, i.e. adds nothing. */
  function Quantity(r: Row, col: string): int {
    if col in r.measures then r.measures[col] else 0
  }

  /** The grouping key of `r` over `cols`, or None when any key value is missing. */
  function KeyOf(r: Row, cols: seq<string>): (k: Option<seq<string>>)
    ensures k.Some? <==> forall i :: 0 <= i < |cols| ==> cols[i] in r.attrs
    ensures k.Some? ==> |k.value| == |cols| && forall i :: 0 <= i < |cols| ==> k.value[i] == r.attrs[cols[i]]
  {
    if forall i :: 0 <= i < |cols| ==> cols[i] in r.attrs
    then Some(seq(|cols|, i requires 0 <= i < |cols| => r.attrs[cols[i]]))
    else None
  }

  /** The rows of `rows` that satisfy `keep`, in their original order (a boolean mask). */
  function Where(rows: seq<Row>, keep: Row -> bool): (r: seq<Row>)
    ensures |r| <= |rows|
    ensures forall x :: x in r <==> x in rows && keep(x)
    decreases |rows|
  {
    if rows == [] then []
    else if keep(rows[0]) then [rows[0]] + Where(rows[1..], keep)
    else Where(rows[1..], keep)
  }

  /** Filtering distributes over concatenation. */
  lemma {:induction false} WhereAppend(a: seq<Row>, b: seq<Row>, keep: Row -> bool)
    ensures Where(a + b, keep) == Where(a, keep) + Where(b, keep)
    decreases |a|
  {
    if a == [] {
      assert a + b == b;
    } else {
      assert (a + b)[1..] == a[1..] + b;
      WhereAppend(a[1..], b, keep);
    }
  }

  /** A filter that rejects every row yields nothing. */
  lemma {:induction false} WhereNone(rows: seq<Row>, keep: Row -> bool)
    requires forall x :: x in rows ==> !keep(x)
    ensures Where(rows, keep) == []
    decreases |rows|
  {
    if rows != [] {
      assert forall x :: x in rows[1..] ==> x in rows;
      WhereNone(rows[1..], keep);
    }
  }

  /** Filters that agree on every row of `rows` select the same rows. */
  lemma {:induction false} WhereAgree(rows: seq<Row>, p: Row -> bool, q: Row -> bool)
    requires forall x :: x in rows ==> p(x) == q(x)
    ensures Where(rows, p) == Where(rows, q)
    decreases |rows|
  {
    if rows != [] {
      assert forall x :: x in rows[1..] ==> x in rows;
      WhereAgree(rows[1..], p, q);
    }
  }

  /** Filtering twice keeps the rows that satisfy both filters. */
  lemma {:induction false} WhereWhere(rows: seq<Row>, p: Row -> bool, q: Row -> bool, both: Row -> bool)
    requires forall x :: both(x) == (p(x) && q(x))
    ensures Where(Where(rows, p), q) == Where(rows, both)
    decreases |rows|
  {
    if rows != [] {
      WhereWhere(rows[1..], p, q, both);
    }
  }

  /** The three transaction views of the ledger. */
  predicate IsReturn(r: Row) { r.txType == "Return" }
  predicate IsCancellation(r: Row) { r.rejectionStatus == "C" }
  predicate IsOrdinaryTrade(r: Row) { r.txType == "Trade" && r.rejectionStatus != "C" }

  /** `df[mask]`: the same columns, only the rows satisfying `keep`. */
  function View(l: Ledger, keep: Row -> bool): (v: Ledger)
    ensures v.attrCols == l.attrCols && v.measureCols == l.measureCols
    ensures forall x :: x in v.rows <==> x in l.rows && keep(x)
  {
    l.(rows := Where(l.rows, keep))
  }

  /** The ordinary-trade view shares no row with the return view or the cancellation view. */
  lemma TradeViewIsDisjoint(l: Ledger)
    ensures forall x :: x in View(l, IsOrdinaryTrade).rows ==> x !in View(l, IsReturn).rows
    ensures forall x :: x in View(l, IsOrdinaryTrade).rows ==> x !in View(l, IsCancellation).rows
  {
  }

  /** Rows with a missing value in any of `cols` dropped; the documented effect of
      the ledger clean-up applied before macro aggregation. */
  function DropMissingKeys(l: Ledger, cols: seq<string>): (r: Ledger)
    ensures r.attrCols == l.attrCols && r.measureCols == l.measureCols
    ensures forall x :: x in r.rows <==> x in l.rows && KeyOf(x, cols).Some?
  {
    View(l, HasCompleteKey(cols))
  }

  /** The row filter keeping rows with a value in every one of `cols`. */
  function HasCompleteKey(cols: seq<string>): (keep: Row -> bool)
    ensures forall x :: keep(x) <==> forall i :: 0 <= i < |cols| ==> cols[i] in x.attrs
  {
    (x: Row) => KeyOf(x, cols).Some?
  }
}
