/** The snapshot generators: base features, targets and macro features for one
    snapshot date (`generate_base_features`, `generate_targets`,
    `generate_macro_features`). */
module FeatureEngineering {
  import opened Outcomes
  import opened Dates
  import opened Sales
  import opened FeatureConfig
  import opened Frames
  import opened Aggregation
  import opened FeatureAssembly

  /** The settings the generators read from the global configuration. */
  datatype Config = Config(targetDuration: nat, finalGranularity: seq<string>, groupbyCols: map<string, seq<string>>)

  /** A feature-set builder: cutoff date and grouping columns to a feature set.
      The return and cancellation builders are supplied by the caller. */
  type SpecBuilder = (Date, seq<string>) -> FeatureSet

  const SnapDateColumn := "snap_date"
  const AttributesColumn := "attributes"
  const GroupbyNameColumn := "groupby_name"

  /** Python's `str` of a list of strings: `['a', 'b']`. */
  function ListRepr(cols: seq<string>): (s: string)
    ensures |s| >= 2 && s[0] == '[' && s[|s| - 1] == ']'
    ensures |cols| == 0 ==> s == "[]"
    ensures |cols| == 1 ==> s == "['" + cols[0] + "']"
  {
    "[" + QuotedItems(cols) + "]"
  }

  /** The text of a longer list: the first name quoted, then ", " and the text of
      the rest without its opening bracket. */
  lemma ListReprCons(cols: seq<string>)
    requires |cols| > 1
    ensures ListRepr(cols) == "['" + cols[0] + "', " + ListRepr(cols[1..])[1..]
  {
    var q := QuotedItems(cols[1..]);
    var h := "'" + cols[0] + "', ";
    assert QuotedItems(cols) == h + q;
    assert ListRepr(cols[1..])[1..] == q + "]";
    assert "['" + cols[0] + "', " == "[" + h;
    assert "[" + (h + q) + "]" == ("[" + h) + (q + "]");
  }

  /** The items of a list's text, each quoted, separated by ", ". */
  function QuotedItems(cols: seq<string>): string
    decreases |cols|
  {
    if |cols| == 0 then ""
    else if |cols| == 1 then "'" + cols[0] + "'"
    else "'" + cols[0] + "', " + QuotedItems(cols[1..])
  }

  /** No name contains a single quote. */
  ghost predicate Unquoted(cols: seq<string>) {
    forall i, j :: 0 <= i < |cols| && 0 <= j < |cols[i]| ==> cols[i][j] != '\''
  }

  /** For names without quotes the text of the key list determines the list, so
      the `attributes` stamp identifies the granularity's key columns. */
  lemma ListReprInjective(a: seq<string>, b: seq<string>)
    requires Unquoted(a) && Unquoted(b) && ListRepr(a) == ListRepr(b)
    ensures a == b
  {
    var sa, sb := QuotedItems(a), QuotedItems(b);
    assert sa == ListRepr(a)[1..|ListRepr(a)| - 1];
    assert sb == ListRepr(b)[1..|ListRepr(b)| - 1];
    QuotedItemsInjective(a, b);
  }

  /** A non-empty item text starts with the first name between quotes, followed by
      the end of the text or by ", " and the rest. */
  lemma QuotedItemsHead(a: seq<string>)
    requires Unquoted(a) && |a| > 0
    ensures var s, n := QuotedItems(a), |a[0]|;
      && |s| >= n + 2 && s[0] == '\'' && s[n + 1] == '\'' && s[1..n + 1] == a[0]
      && (forall j :: 1 <= j <= n ==> s[j] != '\'')
      && (|a| == 1 <==> |s| == n + 2)
      && (|a| > 1 ==> |s| > n + 4 && s[n + 4..] == QuotedItems(a[1..]))
  {
    var s, n := QuotedItems(a), |a[0]|;
    forall j | 1 <= j <= n
      ensures s[j] != '\''
    {
      assert s[j] == a[0][j - 1];
    }
    if |a| > 1 {
      var t := QuotedItems(a[1..]);
      assert s == "'" + a[0] + "', " + t;
      assert |t| > 0 by {
        UnquotedTail(a);
        QuotedItemsHead(a[1..]);
      }
      assert s[n + 4..] == t;
    }
  }

  /** Dropping the first name keeps the rest unquoted. */
  lemma UnquotedTail(a: seq<string>)
    requires Unquoted(a) && |a| > 0
    ensures Unquoted(a[1..])
  {
    forall i, j | 0 <= i < |a[1..]| && 0 <= j < |a[1..][i]|
      ensures a[1..][i][j] != '\''
    {
      assert a[1..][i] == a[i + 1];
    }
  }

  lemma {:induction false} QuotedItemsInjective(a: seq<string>, b: seq<string>)
    requires Unquoted(a) && Unquoted(b) && QuotedItems(a) == QuotedItems(b)
    ensures a == b
    decreases |a|
  {
    var s := QuotedItems(a);
    if |a| == 0 || |b| == 0 {
      if |a| > 0 { QuotedItemsHead(a); }
      if |b| > 0 { QuotedItemsHead(b); }
    } else {
      QuotedItemsHead(a);
      QuotedItemsHead(b);
      assert |a[0]| == |b[0]|;
      assert a[0] == b[0];
      if |a| > 1 && |b| > 1 {
        UnquotedTail(a);
        UnquotedTail(b);
        QuotedItemsInjective(a[1..], b[1..]);
        assert a == [a[0]] + a[1..] && b == [b[0]] + b[1..];
      }
    }
  }

  // ---------------------------------------------------------------- base features

  /** Base features as a value: returns, then cancellations, then ordinary trade are
      aggregated (the first failure is raised); the base table is left-joined with
      the cancellation table and then the return table, and stamped with the date. */
  function BaseFeaturesOf(conf: Config, l: Ledger, snap: Date, returnSpec: SpecBuilder, cancelSpec: SpecBuilder): (r: Result<Frame>)
    ensures var ret := ReturnTable(conf, l, snap, returnSpec);
      var can := CancelTable(conf, l, snap, cancelSpec);
      var base := BaseTable(conf, l, snap);
      && (r.Ok? <==> ret.Ok? && can.Ok? && base.Ok?)
      && (ret.Err? ==> r == Err(ret.error))
      && (ret.Ok? && can.Err? ==> r == Err(can.error))
      && (ret.Ok? && can.Ok? && base.Err? ==> r == Err(base.error))
    ensures r.Ok? ==> r.value.Valid() && r.value.index == conf.finalGranularity
  {
    var ret :- ReturnTable(conf, l, snap, returnSpec);
    var can :- CancelTable(conf, l, snap, cancelSpec);
    var base :- BaseTable(conf, l, snap);
    Ok(Joined(base, can, ret, snap))
  }

  /** The base table left-joined with the cancellation table, then with the return
      table, and stamped with the snapshot date. */
  function Joined(base: Frame, can: Frame, ret: Frame, snap: Date): (t: Frame)
    requires base.Valid() && can.Valid() && ret.Valid()
    ensures t.Valid() && t.index == base.index && t.labels == base.labels
  {
    WithColumn(LeftJoin(LeftJoin(base, can), ret), SnapDateColumn, When(snap))
  }

  /** The return features: the return builder's spec over the return view. */
  function ReturnTable(conf: Config, l: Ledger, snap: Date, returnSpec: SpecBuilder): (r: Result<Frame>)
    ensures r.Ok? ==> r.value.Valid() && r.value.index == returnSpec(snap, conf.finalGranularity).groupColumn
    ensures |returnSpec(snap, conf.finalGranularity).groupedFeatures| == 0 ==> r == Err(NothingToConcatenate)
  {
    FeatureColumns(View(l, IsReturn), returnSpec(snap, conf.finalGranularity))
  }

  /** The cancellation features: the cancellation builder's spec over cancelled lines. */
  function CancelTable(conf: Config, l: Ledger, snap: Date, cancelSpec: SpecBuilder): (r: Result<Frame>)
    ensures r.Ok? ==> r.value.Valid() && r.value.index == cancelSpec(snap, conf.finalGranularity).groupColumn
    ensures |cancelSpec(snap, conf.finalGranularity).groupedFeatures| == 0 ==> r == Err(NothingToConcatenate)
  {
    FeatureColumns(View(l, IsCancellation), cancelSpec(snap, conf.finalGranularity))
  }

  /** The base features proper: the base spec over ordinary trade. */
  function BaseTable(conf: Config, l: Ledger, snap: Date): (r: Result<Frame>)
    ensures r.Ok? ==> r.value.Valid() && r.value.index == conf.finalGranularity
  {
    FeatureColumns(View(l, IsOrdinaryTrade), BaseSpec(snap, conf.finalGranularity))
  }

  /** `generate_base_features`. */
  method GenerateBaseFeatures(conf: Config, l: Ledger, snap: Date, returnSpec: SpecBuilder, cancelSpec: SpecBuilder)
    returns (r: Result<Table>)
    ensures r.Ok? <==> BaseFeaturesOf(conf, l, snap, returnSpec, cancelSpec).Ok?
    ensures r.Err? ==> r.error == BaseFeaturesOf(conf, l, snap, returnSpec, cancelSpec).error
    ensures r.Ok? ==> fresh(r.value) && r.value.Valid() && r.value.Value() == BaseFeaturesOf(conf, l, snap, returnSpec, cancelSpec).value
  {
    var g := conf.finalGranularity;
    var ret := ReturnFeatureColumns(View(l, IsReturn), returnSpec(snap, g));
    if ret.Err? {
      return Err(ret.error);
    }
    var can := ReturnFeatureColumns(View(l, IsCancellation), cancelSpec(snap, g));
    if can.Err? {
      return Err(can.error);
    }
    var base := ReturnFeatureColumns(View(l, IsOrdinaryTrade), BaseSpec(snap, g));
    if base.Err? {
      return Err(base.error);
    }
    var t := new Table(LeftJoin(LeftJoin(base.value, can.value), ret.value));
    t.Assign(SnapDateColumn, When(snap));
    r := Ok(t);
  }

  // ---------------------------------------------------------------- targets

  /** Targets as a value: the target spec over ordinary trade, stamped with the date. */
  function TargetsOf(conf: Config, l: Ledger, snap: Date): (r: Result<Frame>)
    ensures r.Ok? ==> r.value.Valid() && r.value.index == conf.finalGranularity
  {
    var t :- FeatureColumns(View(l, IsOrdinaryTrade), TargetSpec(conf.targetDuration, snap, conf.finalGranularity));
    Ok(WithColumn(t, SnapDateColumn, When(snap)))
  }

  /** `generate_targets`. */
  method GenerateTargets(conf: Config, l: Ledger, snap: Date) returns (r: Result<Table>)
    ensures r.Ok? <==> TargetsOf(conf, l, snap).Ok?
    ensures r.Err? ==> r.error == TargetsOf(conf, l, snap).error
    ensures r.Ok? ==> fresh(r.value) && r.value.Valid() && r.value.Value() == TargetsOf(conf, l, snap).value
  {
    var cols := ReturnFeatureColumns(View(l, IsOrdinaryTrade), TargetSpec(conf.targetDuration, snap, conf.finalGranularity));
    if cols.Err? {
      return Err(cols.error);
    }
    var t := new Table(cols.value);
    t.Assign(SnapDateColumn, When(snap));
    r := Ok(t);
  }

  // ---------------------------------------------------------------- macro features

  /** Macro features as a value: an unknown granularity name fails first; rows with
      a missing key value are dropped; the macro spec is aggregated at that
      granularity; the key becomes the first columns, every later column is
      suffixed with "_" and the granularity name, and three annotation columns
      are stamped on. */
  function MacroFeaturesOf(conf: Config, l: Ledger, groupName: string, snap: Date): (r: Result<Frame>)
    ensures groupName !in conf.groupbyCols ==> r == Err(UnknownGranularity(groupName))
    ensures r.Ok? ==> r.value.Valid() && r.value.index == []
  {
    if groupName !in conf.groupbyCols then Err(UnknownGranularity(groupName))
    else
      var cols := conf.groupbyCols[groupName];
      var grouped :- FeatureColumns(DropMissingKeys(l, cols), MacroSpec(snap, cols));
      Ok(Annotated(grouped, groupName, snap))
  }

  /** The grouped macro table flattened: key columns first, every later column
      suffixed with "_" and the granularity name, then the snapshot date, the key
      column list and the granularity name stamped on. */
  function Annotated(grouped: Frame, groupName: string, snap: Date): (t: Frame)
    requires grouped.Valid() && |grouped.index| > 0
    ensures t.Valid() && t.index == [] && t.labels == grouped.labels
    ensures |t.names| >= |grouped.index| + |grouped.names|
  {
    WithColumn(WithColumn(WithColumn(Flattened(grouped, groupName), SnapDateColumn, When(snap)),
                          AttributesColumn, Text(ListRepr(grouped.index))),
               GroupbyNameColumn, Text(groupName))
  }

  /** The flattened macro table before the stamps. */
  function Flattened(grouped: Frame, groupName: string): (f: Frame)
    requires grouped.Valid() && |grouped.index| > 0
    ensures f.Valid() && f.index == [] && f.labels == grouped.labels
    ensures |f.names| == |grouped.index| + |grouped.names|
    ensures forall i, k :: 0 <= i < |grouped.index| && k in f.labels ==> k in f.data[i] && f.data[i][k] == Text(k[i])
  {
    var flat := ResetIndex(grouped);
    flat.(names := RenameAfter(flat.names, |grouped.index|, "_" + groupName))
  }

  /** `generate_macro_features`. */
  method GenerateMacroFeatures(conf: Config, l: Ledger, groupName: string, snap: Date) returns (r: Result<Table>)
    ensures r.Ok? <==> MacroFeaturesOf(conf, l, groupName, snap).Ok?
    ensures r.Err? ==> r.error == MacroFeaturesOf(conf, l, groupName, snap).error
    ensures r.Ok? ==> fresh(r.value) && r.value.Valid() && r.value.Value() == MacroFeaturesOf(conf, l, groupName, snap).value
  {
    if groupName !in conf.groupbyCols {
      return Err(UnknownGranularity(groupName));
    }
    var cols := conf.groupbyCols[groupName];
    var grouped := ReturnFeatureColumns(DropMissingKeys(l, cols), MacroSpec(snap, cols));
    if grouped.Err? {
      return Err(grouped.error);
    }
    var t := new Table(ResetIndex(grouped.value));
    var n := |cols|;
    t.SetColumns(RenameAfter(t.names, n, "_" + groupName));
    t.Assign(SnapDateColumn, When(snap));
    t.Assign(AttributesColumn, Text(ListRepr(cols)));
    t.Assign(GroupbyNameColumn, Text(groupName));
    r := Ok(t);
  }

  // ---------------------------------------------------------------- properties

  /** Rows outside every window of `fs` change nothing after any row filter. */
  lemma ViewIgnores(l: Ledger, keep: Row -> bool, fs: FeatureSet, pre: seq<Row>, x: seq<Row>, post: seq<Row>)
    requires forall a, r :: a in fs.groupedFeatures && r in x ==> !InWindow(r.orderDate, a)
    ensures FeatureColumns(View(l.(rows := pre + x + post), keep), fs) == FeatureColumns(View(l.(rows := pre + post), keep), fs)
  {
    WhereAppend(pre + x, post, keep);
    WhereAppend(pre, x, keep);
    WhereAppend(pre, post, keep);
    var v := View(l.(rows := pre + post), keep);
    assert View(l.(rows := pre + x + post), keep) == v.(rows := Where(pre, keep) + Where(x, keep) + Where(post, keep));
    assert v == v.(rows := Where(pre, keep) + Where(post, keep));
    IrrelevantRowsIgnored(v, fs, Where(pre, keep), Where(x, keep), Where(post, keep));
  }

  /** A row on or after `snap` lies outside any aggregation whose snapshot is not after `snap`. */
  lemma FutureOutsideWindow(d: Date, snap: Date, a: AggSpec)
    requires !Before(d, snap) && !Before(snap, a.snapDate)
    ensures !InWindow(d, a)
  {
    BeforeIsStrictTotalOrder(d, a.snapDate, snap);
  }

  /** No look-ahead in base features: rows dated on or after the snapshot date change
      nothing, provided the return and cancellation specs do not look past it either
      (the base spec never does). */
  lemma BaseFeaturesIgnoreFuture(conf: Config, l: Ledger, snap: Date, returnSpec: SpecBuilder, cancelSpec: SpecBuilder,
                                 pre: seq<Row>, future: seq<Row>, post: seq<Row>)
    requires forall a :: a in returnSpec(snap, conf.finalGranularity).groupedFeatures ==> !Before(snap, a.snapDate)
    requires forall a :: a in cancelSpec(snap, conf.finalGranularity).groupedFeatures ==> !Before(snap, a.snapDate)
    requires forall x :: x in future ==> !Before(x.orderDate, snap)
    ensures BaseFeaturesOf(conf, l.(rows := pre + future + post), snap, returnSpec, cancelSpec)
         == BaseFeaturesOf(conf, l.(rows := pre + post), snap, returnSpec, cancelSpec)
  {
    var g := conf.finalGranularity;
    forall a, x | a in returnSpec(snap, g).groupedFeatures && x in future
      ensures !InWindow(x.orderDate, a)
    {
      FutureOutsideWindow(x.orderDate, snap, a);
    }
    forall a, x | a in cancelSpec(snap, g).groupedFeatures && x in future
      ensures !InWindow(x.orderDate, a)
    {
      FutureOutsideWindow(x.orderDate, snap, a);
    }
    forall a, x | a in BaseSpec(snap, g).groupedFeatures && x in future
      ensures !InWindow(x.orderDate, a)
    {
      FutureOutsideWindow(x.orderDate, snap, a);
    }
    ViewIgnores(l, IsReturn, returnSpec(snap, g), pre, future, post);
    ViewIgnores(l, IsCancellation, cancelSpec(snap, g), pre, future, post);
    ViewIgnores(l, IsOrdinaryTrade, BaseSpec(snap, g), pre, future, post);
  }

  /** A successful run joins the three successful tables. */
  lemma BaseFeaturesUnfold(conf: Config, l: Ledger, snap: Date, returnSpec: SpecBuilder, cancelSpec: SpecBuilder)
    requires BaseFeaturesOf(conf, l, snap, returnSpec, cancelSpec).Ok?
    ensures BaseTable(conf, l, snap).Ok? && CancelTable(conf, l, snap, cancelSpec).Ok? && ReturnTable(conf, l, snap, returnSpec).Ok?
    ensures BaseFeaturesOf(conf, l, snap, returnSpec, cancelSpec).value
         == Joined(BaseTable(conf, l, snap).value, CancelTable(conf, l, snap, cancelSpec).value, ReturnTable(conf, l, snap, returnSpec).value, snap)
  {
  }

  /** The base table holds the single base aggregation. */
  lemma BaseTableShape(conf: Config, l: Ledger, snap: Date)
    requires BaseTable(conf, l, snap).Ok?
    ensures BaseTable(conf, l, snap) == GroupedFeature(View(l, IsOrdinaryTrade), BaseSpec(snap, conf.finalGranularity).groupedFeatures[0], conf.finalGranularity)
    ensures BaseTable(conf, l, snap).value.names == [BaseFeatureName]
  {
    SingleAggregation(View(l, IsOrdinaryTrade), BaseSpec(snap, conf.finalGranularity));
  }

  /** The joins keep exactly the base labels and the base feature in front, and
      the stamp holds the snapshot date on every row.  The first column is
      renamed at most twice, by a "_x" suffix per merge, so it survives the stamp
      unless one of those names is the stamp's. */
  lemma JoinedKeepsBase(base: Frame, can: Frame, ret: Frame, snap: Date)
    requires base.Valid() && can.Valid() && ret.Valid() && |base.names| > 0
    requires var b := base.names[0]; b != SnapDateColumn && b + "_x" != SnapDateColumn && b + "_x" + "_x" != SnapDateColumn
    ensures var t := Joined(base, can, ret, snap);
      && t.labels == base.labels
      && t.data[0] == base.data[0]
      && SnapDateColumn in t.names
      && forall j :: 0 <= j < |t.names| && t.names[j] == SnapDateColumn ==> t.data[j] == Constant(t.labels, When(snap))
  {
    var j1 := LeftJoin(base, can);
    var j := LeftJoin(j1, ret);
    var b := base.names[0];
    assert j1.names[0] == b || j1.names[0] == b + "_x";
    assert j.names[0] == j1.names[0] || j.names[0] == j1.names[0] + "_x";
  }

  /** Without overlapping names the columns are base, cancellation, return, stamp. */
  lemma JoinedColumnOrder(base: Frame, can: Frame, ret: Frame, snap: Date)
    requires base.Valid() && can.Valid() && ret.Valid()
    requires forall x :: x in can.names ==> x !in base.names
    requires forall x :: x in ret.names ==> x !in base.names + can.names
    requires SnapDateColumn !in base.names + can.names + ret.names
    ensures var t := Joined(base, can, ret, snap);
      && t.names == base.names + can.names + ret.names + [SnapDateColumn]
      && (forall i :: 0 <= i < |base.names| ==> t.data[i] == base.data[i])
      && (forall i :: 0 <= i < |can.names| ==> t.data[|base.names| + i] == Restrict(can.data[i], base.labels))
      && (forall i :: 0 <= i < |ret.names| ==> t.data[|base.names| + |can.names| + i] == Restrict(ret.data[i], base.labels))
      && t.data[|t.names| - 1] == Constant(base.labels, When(snap))
  {
    JoinedNames(base, can, ret, snap);
    LeftJoinTwiceNoClash(base, can, ret);
    JoinedData(base, can, ret, snap);
  }

  /** Without overlapping names the joined names are base, cancellation, return,
      then the stamp, which holds the snapshot date on every row. */
  lemma JoinedNames(base: Frame, can: Frame, ret: Frame, snap: Date)
    requires base.Valid() && can.Valid() && ret.Valid()
    requires forall x :: x in can.names ==> x !in base.names
    requires forall x :: x in ret.names ==> x !in base.names + can.names
    requires SnapDateColumn !in base.names + can.names + ret.names
    ensures Joined(base, can, ret, snap).names == base.names + can.names + ret.names + [SnapDateColumn]
    ensures Joined(base, can, ret, snap).data[|base.names| + |can.names| + |ret.names|] == Constant(base.labels, When(snap))
  {
    var j := LeftJoin(LeftJoin(base, can), ret);
    LeftJoinTwiceNoClash(base, can, ret);
    WithNewColumn(j, SnapDateColumn, When(snap));
  }

  /** Whatever the names, the joins keep the base columns and cut the cancellation
      and return columns down to the base entities; a stamp under a name the joins
      did not produce leaves all of them alone. */
  lemma JoinedData(base: Frame, can: Frame, ret: Frame, snap: Date)
    requires base.Valid() && can.Valid() && ret.Valid()
    requires SnapDateColumn !in LeftJoin(LeftJoin(base, can), ret).names
    ensures var t := Joined(base, can, ret, snap);
      && |t.names| == |base.names| + |can.names| + |ret.names| + 1
      && (forall i :: 0 <= i < |base.names| ==> t.data[i] == base.data[i])
      && (forall i :: 0 <= i < |can.names| ==> t.data[|base.names| + i] == Restrict(can.data[i], base.labels))
      && (forall i :: 0 <= i < |ret.names| ==> t.data[|base.names| + |can.names| + i] == Restrict(ret.data[i], base.labels))
  {
    var j := LeftJoin(LeftJoin(base, can), ret);
    LeftJoinTwiceData(base, can, ret);
    WithNewColumn(j, SnapDateColumn, When(snap));
    StampKeepsJoined(base, can, ret, j, Joined(base, can, ret, snap));
  }

  /** Columns kept from a joined table carry the join's data. */
  lemma StampKeepsJoined(base: Frame, can: Frame, ret: Frame, j: Frame, t: Frame)
    requires |base.data| == |base.names| && |can.data| == |can.names| && |ret.data| == |ret.names|
    requires |j.data| == |j.names| && |t.data| == |t.names|
    requires |j.names| == |base.names| + |can.names| + |ret.names| && |t.names| == |j.names| + 1
    requires forall i :: 0 <= i < |base.names| ==> j.data[i] == base.data[i]
    requires forall i :: 0 <= i < |can.names| ==> j.data[|base.names| + i] == Restrict(can.data[i], base.labels)
    requires forall i :: 0 <= i < |ret.names| ==> j.data[|base.names| + |can.names| + i] == Restrict(ret.data[i], base.labels)
    requires forall i :: 0 <= i < |j.names| ==> t.data[i] == j.data[i]
    ensures forall i :: 0 <= i < |base.names| ==> t.data[i] == base.data[i]
    ensures forall i :: 0 <= i < |can.names| ==> t.data[|base.names| + i] == Restrict(can.data[i], base.labels)
    ensures forall i :: 0 <= i < |ret.names| ==> t.data[|base.names| + |can.names| + i] == Restrict(ret.data[i], base.labels)
  {
    var nb, nc := |base.names|, |can.names|;
    forall i | 0 <= i < nc
      ensures t.data[nb + i] == Restrict(can.data[i], base.labels)
    {
      assert t.data[nb + i] == j.data[nb + i];
    }
    forall i | 0 <= i < |ret.names|
      ensures t.data[nb + nc + i] == Restrict(ret.data[i], base.labels)
    {
      assert t.data[nb + nc + i] == j.data[nb + nc + i];
    }
  }

  /** The left joins keep exactly the base entities: the labels are the base
      table's, its feature is the first column, and every row carries the
      snapshot date. */
  lemma BaseFeaturesKeepBaseEntities(conf: Config, l: Ledger, snap: Date, returnSpec: SpecBuilder, cancelSpec: SpecBuilder)
    requires BaseFeaturesOf(conf, l, snap, returnSpec, cancelSpec).Ok?
    ensures var t := BaseFeaturesOf(conf, l, snap, returnSpec, cancelSpec).value;
      var base := BaseTable(conf, l, snap).value;
      && t.labels == base.labels
      && base.names == [BaseFeatureName] && t.data[0] == base.data[0]
      && SnapDateColumn in t.names
      && forall j :: 0 <= j < |t.names| && t.names[j] == SnapDateColumn ==> t.data[j] == Constant(t.labels, When(snap))
  {
    BaseFeaturesUnfold(conf, l, snap, returnSpec, cancelSpec);
    BaseTableShape(conf, l, snap);
    assert |SnapDateColumn| < |BaseFeatureName|;
    JoinedKeepsBase(BaseTable(conf, l, snap).value, CancelTable(conf, l, snap, cancelSpec).value, ReturnTable(conf, l, snap, returnSpec).value, snap);
  }

  /** Column order base, then cancellation, then return, then the date stamp,
      when no two of them share a name; cancellation and return values survive
      only for base entities.  With `BaseFeaturesUnfold` and `BaseTableShape`
      this is the layout of the base features. */
  lemma JoinedAfterBase(base: Frame, can: Frame, ret: Frame, snap: Date)
    requires base.Valid() && can.Valid() && ret.Valid() && base.names == [BaseFeatureName]
    requires BaseFeatureName !in can.names + ret.names && SnapDateColumn !in can.names + ret.names
    requires forall x :: x in ret.names ==> x !in can.names
    ensures var t := Joined(base, can, ret, snap);
      && t.names == base.names + can.names + ret.names + [SnapDateColumn]
      && (forall i :: 0 <= i < |base.names| ==> t.data[i] == base.data[i])
      && (forall i :: 0 <= i < |can.names| ==> t.data[|base.names| + i] == Restrict(can.data[i], base.labels))
      && (forall i :: 0 <= i < |ret.names| ==> t.data[|base.names| + |can.names| + i] == Restrict(ret.data[i], base.labels))
      && t.data[|t.names| - 1] == Constant(base.labels, When(snap))
  {
    assert BaseFeatureName != SnapDateColumn;
    assert forall x :: x in can.names ==> x !in base.names;
    assert forall x :: x in ret.names ==> x !in base.names + can.names;
    assert SnapDateColumn !in base.names + can.names + ret.names;
    JoinedColumnOrder(base, can, ret, snap);
  }

  /** The base feature is the two-month trailing sum of ordinary trade: its entities
      are exactly the keys of trade lines dated in `[snap - 2 months, snap)`. */
  lemma BaseFeatureIsTrailingTradeSum(conf: Config, l: Ledger, snap: Date, returnSpec: SpecBuilder, cancelSpec: SpecBuilder)
    requires BaseFeaturesOf(conf, l, snap, returnSpec, cancelSpec).Ok?
    ensures var t := BaseFeaturesOf(conf, l, snap, returnSpec, cancelSpec).value;
      var g := conf.finalGranularity;
      var trade := View(l, IsOrdinaryTrade).rows;
      && (forall k :: k in t.labels <==>
            exists x :: x in trade && !Before(x.orderDate, SubMonths(snap, 2)) && Before(x.orderDate, snap) && KeyOf(x, g) == Some(k))
      && (forall k :: k in t.labels ==>
            k in t.data[0] && t.data[0][k] == Num(SumFor(Window(trade, BaseSpec(snap, g).groupedFeatures[0]), g, OrderItemQuantity, k)))
  {
    var g := conf.finalGranularity;
    var v := View(l, IsOrdinaryTrade);
    var spec := BaseSpec(snap, g);
    SingleAggregation(v, spec);
    GroupedFeatureMeaning(v, spec.groupedFeatures[0], g);
    BaseFeaturesKeepBaseEntities(conf, l, snap, returnSpec, cancelSpec);
    forall d: Date
      ensures InWindow(d, spec.groupedFeatures[0]) <==> !Before(d, SubMonths(snap, 2)) && Before(d, snap)
    {
      BaseWindowIsTrailing(snap, g, d);
    }
  }

  // ---------------------------------------------------------------- target properties

  /** The targets are the single target aggregation over ordinary trade, stamped. */
  lemma TargetsUnfold(conf: Config, l: Ledger, snap: Date)
    ensures var g := GroupedFeature(View(l, IsOrdinaryTrade), TargetSpec(conf.targetDuration, snap, conf.finalGranularity).groupedFeatures[0], conf.finalGranularity);
      && (TargetsOf(conf, l, snap).Ok? <==> g.Ok?)
      && TargetsOf(conf, l, snap) == (if g.Ok? then Ok(WithColumn(g.value, SnapDateColumn, When(snap))) else Err(g.error))
  {
    SingleAggregation(View(l, IsOrdinaryTrade), TargetSpec(conf.targetDuration, snap, conf.finalGranularity));
  }

  /** For a month-start snapshot the targets are the forward sums of sales over
      `[snap, snap + T months)`: an entity appears exactly when it traded in that
      horizon, its target is its sales sum there, and the date stamp follows. */
  lemma TargetsAreForwardTradeSums(conf: Config, l: Ledger, snap: Date)
    requires snap.day == 1
    requires TargetsOf(conf, l, snap).Ok?
    ensures var t := TargetsOf(conf, l, snap).value;
      var g := conf.finalGranularity;
      var trade := View(l, IsOrdinaryTrade).rows;
      && t.names == [TargetName, SnapDateColumn]
      && (forall k :: k in t.labels <==>
            exists x :: x in trade && !Before(x.orderDate, snap) && Before(x.orderDate, AddMonths(snap, conf.targetDuration)) && KeyOf(x, g) == Some(k))
      && (forall k :: k in t.labels ==>
            k in t.data[0] && t.data[0][k] == Num(SumFor(Window(trade, TargetSpec(conf.targetDuration, snap, g).groupedFeatures[0]), g, SalesQuantity, k)))
      && t.data[1] == Constant(t.labels, When(snap))
  {
    var g := conf.finalGranularity;
    var v := View(l, IsOrdinaryTrade);
    var a := TargetSpec(conf.targetDuration, snap, g).groupedFeatures[0];
    TargetsUnfold(conf, l, snap);
    GroupedFeatureMeaning(v, a, g);
    assert TargetName != SnapDateColumn;
    forall d: Date
      ensures InWindow(d, a) <==> !Before(d, snap) && Before(d, AddMonths(snap, conf.targetDuration))
    {
      TargetWindowIsForward(conf.targetDuration, snap, g, d);
    }
  }

  /** Targets ignore every line dated before a month-start snapshot or at or after
      the end of the horizon. */
  lemma TargetsIgnoreOutsideHorizon(conf: Config, l: Ledger, snap: Date, pre: seq<Row>, x: seq<Row>, post: seq<Row>)
    requires snap.day == 1
    requires forall r :: r in x ==> Before(r.orderDate, snap) || !Before(r.orderDate, AddMonths(snap, conf.targetDuration))
    ensures TargetsOf(conf, l.(rows := pre + x + post), snap) == TargetsOf(conf, l.(rows := pre + post), snap)
  {
    var spec := TargetSpec(conf.targetDuration, snap, conf.finalGranularity);
    forall a, r | a in spec.groupedFeatures && r in x
      ensures !InWindow(r.orderDate, a)
    {
      TargetWindowIsForward(conf.targetDuration, snap, conf.finalGranularity, r.orderDate);
    }
    ViewIgnores(l, IsOrdinaryTrade, spec, pre, x, post);
  }

  // ---------------------------------------------------------------- macro properties

  /** With a known granularity, the macro table is the single 3-month aggregation
      over the lines whose key is complete, annotated. */
  lemma MacroUnfold(conf: Config, l: Ledger, groupName: string, snap: Date)
    requires groupName in conf.groupbyCols
    ensures var cols := conf.groupbyCols[groupName];
      var g := GroupedFeature(DropMissingKeys(l, cols), MacroSpec(snap, cols).groupedFeatures[0], cols);
      && (MacroFeaturesOf(conf, l, groupName, snap).Ok? <==> g.Ok?)
      && (g.Ok? ==> |cols| > 0)
      && MacroFeaturesOf(conf, l, groupName, snap) == (if g.Ok? then Ok(Annotated(g.value, groupName, snap)) else Err(g.error))
  {
    var cols := conf.groupbyCols[groupName];
    SingleAggregation(DropMissingKeys(l, cols), MacroSpec(snap, cols));
  }

  /** The key columns of a flattened macro table keep their names and hold each
      entity's key values; the feature column gets the granularity suffix. */
  lemma FlattenedLayout(grouped: Frame, groupName: string, m: string)
    requires grouped.Valid() && |grouped.index| > 0 && grouped.names == [m]
    ensures var n := |grouped.index|;
      var renamed := Flattened(grouped, groupName);
      && renamed.names == grouped.index + [m + "_" + groupName]
      && renamed.data[n] == grouped.data[0]
  {
    var n := |grouped.index|;
    var flat := ResetIndex(grouped);
    assert flat.data[n] == flat.data[n..][0];
    var renamed := flat.(names := RenameAfter(flat.names, n, "_" + groupName));
    assert |renamed.names| == n + 1 && renamed.names[n] == m + "_" + groupName;
    assert forall j :: 0 <= j < n ==> renamed.names[j] == grouped.index[j];
  }

  /** Stamping three new columns appends them after the existing ones, which are
      left alone. */
  lemma StampsAppend(f: Frame, t: Frame, snap: Date, attrs: string, groupName: string)
    requires f.Valid()
    requires SnapDateColumn !in f.names && AttributesColumn !in f.names && GroupbyNameColumn !in f.names
    requires t == WithColumn(WithColumn(WithColumn(f, SnapDateColumn, When(snap)), AttributesColumn, Text(attrs)), GroupbyNameColumn, Text(groupName))
    ensures var n := |f.names|;
      && t.names == f.names + [SnapDateColumn, AttributesColumn, GroupbyNameColumn]
      && (forall j :: 0 <= j < n ==> t.data[j] == f.data[j])
      && t.data[n] == Constant(f.labels, When(snap))
      && t.data[n + 1] == Constant(f.labels, Text(attrs))
      && t.data[n + 2] == Constant(f.labels, Text(groupName))
  {
    var s1 := WithColumn(f, SnapDateColumn, When(snap));
    var s2 := WithColumn(s1, AttributesColumn, Text(attrs));
    var n := |f.names|;
    assert s1.names == f.names + [SnapDateColumn];
    assert s2.names == s1.names + [AttributesColumn];
    assert t.names == s2.names + [GroupbyNameColumn];
    assert t.names == f.names + [SnapDateColumn, AttributesColumn, GroupbyNameColumn];
    forall j | 0 <= j < n
      ensures t.data[j] == f.data[j]
    {
      assert t.names[j] == s2.names[j] == s1.names[j] == f.names[j];
    }
  }

  /** An annotated macro table is the flattened table with the three stamps,
      and when no stamp name is taken those are appended. */
  lemma AnnotatedStamps(grouped: Frame, groupName: string, snap: Date, m: string)
    requires grouped.Valid() && |grouped.index| > 0 && grouped.names == [m]
    requires SnapDateColumn !in grouped.index && AttributesColumn !in grouped.index && GroupbyNameColumn !in grouped.index
    requires m + "_" + groupName != SnapDateColumn && m + "_" + groupName != AttributesColumn && m + "_" + groupName != GroupbyNameColumn
    ensures var f := Flattened(grouped, groupName);
      var t := Annotated(grouped, groupName, snap);
      var n := |f.names|;
      && f.names == grouped.index + [m + "_" + groupName]
      && t.names == f.names + [SnapDateColumn, AttributesColumn, GroupbyNameColumn]
      && (forall j :: 0 <= j < n ==> t.data[j] == f.data[j])
      && t.data[n] == Constant(f.labels, When(snap))
      && t.data[n + 1] == Constant(f.labels, Text(ListRepr(grouped.index)))
      && t.data[n + 2] == Constant(f.labels, Text(groupName))
  {
    var renamed := Flattened(grouped, groupName);
    FlattenedLayout(grouped, groupName, m);
    StampsAppendTo(renamed, Annotated(grouped, groupName, snap), snap, ListRepr(grouped.index), groupName, grouped.index, m + "_" + groupName);
  }

  /** `StampsAppend` for a table whose columns are key columns followed by one feature,
      none of them a stamp name. A lemma of its own so that the proof of
      `AnnotatedStamps` does not have to rule out a stamp name among the columns
      of the flattened table itself. */
  lemma StampsAppendTo(f: Frame, t: Frame, snap: Date, attrs: string, groupName: string, keys: seq<string>, feature: string)
    requires f.Valid() && f.names == keys + [feature]
    requires SnapDateColumn !in keys && AttributesColumn !in keys && GroupbyNameColumn !in keys
    requires feature != SnapDateColumn && feature != AttributesColumn && feature != GroupbyNameColumn
    requires t == WithColumn(WithColumn(WithColumn(f, SnapDateColumn, When(snap)), AttributesColumn, Text(attrs)), GroupbyNameColumn, Text(groupName))
    ensures var n := |f.names|;
      && t.names == f.names + [SnapDateColumn, AttributesColumn, GroupbyNameColumn]
      && (forall j :: 0 <= j < n ==> t.data[j] == f.data[j])
      && t.data[n] == Constant(f.labels, When(snap))
      && t.data[n + 1] == Constant(f.labels, Text(attrs))
      && t.data[n + 2] == Constant(f.labels, Text(groupName))
  {
    StampsAppend(f, t, snap, attrs, groupName);
  }

  /** Layout of an annotated macro table: the key columns under their own names
      holding each entity's key values, the feature renamed with the granularity
      suffix, then the three stamps. */
  lemma AnnotatedLayout(grouped: Frame, groupName: string, snap: Date, m: string)
    requires grouped.Valid() && |grouped.index| > 0 && grouped.names == [m]
    requires SnapDateColumn !in grouped.index && AttributesColumn !in grouped.index && GroupbyNameColumn !in grouped.index
    requires m + "_" + groupName != SnapDateColumn && m + "_" + groupName != AttributesColumn && m + "_" + groupName != GroupbyNameColumn
    ensures var t := Annotated(grouped, groupName, snap);
      var n := |grouped.index|;
      && t.names == grouped.index + [m + "_" + groupName, SnapDateColumn, AttributesColumn, GroupbyNameColumn]
      && t.data[n] == grouped.data[0]
      && t.data[n + 1] == Constant(t.labels, When(snap))
      && t.data[n + 2] == Constant(t.labels, Text(ListRepr(grouped.index)))
      && t.data[n + 3] == Constant(t.labels, Text(groupName))
  {
    AnnotatedNames(grouped, groupName, snap, m);
    AnnotatedColumns(grouped, groupName, snap, m);
  }

  lemma AnnotatedNames(grouped: Frame, groupName: string, snap: Date, m: string)
    requires grouped.Valid() && |grouped.index| > 0 && grouped.names == [m]
    requires SnapDateColumn !in grouped.index && AttributesColumn !in grouped.index && GroupbyNameColumn !in grouped.index
    requires m + "_" + groupName != SnapDateColumn && m + "_" + groupName != AttributesColumn && m + "_" + groupName != GroupbyNameColumn
    ensures Annotated(grouped, groupName, snap).names == grouped.index + [m + "_" + groupName, SnapDateColumn, AttributesColumn, GroupbyNameColumn]
  {
    AnnotatedStamps(grouped, groupName, snap, m);
    AppendFour(grouped.index, m + "_" + groupName, SnapDateColumn, AttributesColumn, GroupbyNameColumn);
  }

  lemma AnnotatedColumns(grouped: Frame, groupName: string, snap: Date, m: string)
    requires grouped.Valid() && |grouped.index| > 0 && grouped.names == [m]
    requires SnapDateColumn !in grouped.index && AttributesColumn !in grouped.index && GroupbyNameColumn !in grouped.index
    requires m + "_" + groupName != SnapDateColumn && m + "_" + groupName != AttributesColumn && m + "_" + groupName != GroupbyNameColumn
    ensures var t := Annotated(grouped, groupName, snap);
      var n := |grouped.index|;
      && |t.names| == n + 4
      && t.data[n] == grouped.data[0]
      && t.data[n + 1] == Constant(t.labels, When(snap))
      && t.data[n + 2] == Constant(t.labels, Text(ListRepr(grouped.index)))
      && t.data[n + 3] == Constant(t.labels, Text(groupName))
  {
    var f := Flattened(grouped, groupName);
    var t := Annotated(grouped, groupName, snap);
    var n := |grouped.index|;
    AnnotatedStamps(grouped, groupName, snap, m);
    FlattenedLayout(grouped, groupName, m);
    assert |f.names| == n + 1 && f.labels == t.labels;
    assert t.data[n] == f.data[n];
  }

  /** The key columns of an annotated macro table hold each entity's key values. */
  lemma AnnotatedKeys(grouped: Frame, groupName: string, snap: Date, m: string)
    requires grouped.Valid() && |grouped.index| > 0 && grouped.names == [m]
    requires SnapDateColumn !in grouped.index && AttributesColumn !in grouped.index && GroupbyNameColumn !in grouped.index
    requires m + "_" + groupName != SnapDateColumn && m + "_" + groupName != AttributesColumn && m + "_" + groupName != GroupbyNameColumn
    ensures var t := Annotated(grouped, groupName, snap);
      forall i, k :: 0 <= i < |grouped.index| && k in t.labels ==> k in t.data[i] && t.data[i][k] == Text(k[i])
  {
    AnnotatedStamps(grouped, groupName, snap, m);
    var f := Flattened(grouped, groupName);
    var t := Annotated(grouped, groupName, snap);
    forall i, k | 0 <= i < |grouped.index| && k in t.labels
      ensures k in t.data[i] && t.data[i][k] == Text(k[i])
    {
      assert t.data[i] == f.data[i];
    }
  }

  /** Regrouping a column list. A lemma of its own so that the step is proved over
      plain sequences, away from the annotated table in `AnnotatedNames`. */
  lemma AppendFour(a: seq<string>, w: string, x: string, y: string, z: string)
    ensures (a + [w]) + [x, y, z] == a + [w, x, y, z]
  {
  }

  /** The macro feature of an entity is its 3-month trailing sum: entities are
      exactly the complete keys of lines dated in `[snap - 3 months, snap)`. */
  lemma MacroFeatureIsTrailingSum(conf: Config, l: Ledger, groupName: string, snap: Date)
    requires MacroFeaturesOf(conf, l, groupName, snap).Ok?
    ensures groupName in conf.groupbyCols
    ensures var t := MacroFeaturesOf(conf, l, groupName, snap).value;
      var cols := conf.groupbyCols[groupName];
      forall k :: k in t.labels <==>
        exists x :: x in l.rows && !Before(x.orderDate, SubMonths(snap, 3)) && Before(x.orderDate, snap) && KeyOf(x, cols) == Some(k)
  {
    var cols := conf.groupbyCols[groupName];
    MacroUnfold(conf, l, groupName, snap);
    MacroEntities(l, cols, snap);
  }

  /** The entities of the macro aggregation: complete keys of lines in the window. */
  lemma MacroEntities(l: Ledger, cols: seq<string>, snap: Date)
    requires GroupedFeature(DropMissingKeys(l, cols), MacroSpec(snap, cols).groupedFeatures[0], cols).Ok?
    ensures var g := GroupedFeature(DropMissingKeys(l, cols), MacroSpec(snap, cols).groupedFeatures[0], cols).value;
      forall k :: k in g.labels <==>
        exists x :: x in l.rows && !Before(x.orderDate, SubMonths(snap, 3)) && Before(x.orderDate, snap) && KeyOf(x, cols) == Some(k)
  {
    var v := DropMissingKeys(l, cols);
    var a := MacroSpec(snap, cols).groupedFeatures[0];
    GroupedFeatureMeaning(v, a, cols);
    forall d: Date
      ensures InWindow(d, a) <==> !Before(d, SubMonths(snap, 3)) && Before(d, snap)
    {
      MacroWindowIsTrailing(snap, cols, d);
    }
  }

  /** Layout of the macro features: the key columns holding each entity's key,
      the 3-month order-quantity sum renamed with the granularity suffix, then the
      snapshot date, the key column list and the granularity name. */
  lemma MacroLayout(conf: Config, l: Ledger, groupName: string, snap: Date)
    requires MacroFeaturesOf(conf, l, groupName, snap).Ok?
    requires var cols := conf.groupbyCols[groupName];
      SnapDateColumn !in cols && AttributesColumn !in cols && GroupbyNameColumn !in cols
    ensures var t := MacroFeaturesOf(conf, l, groupName, snap).value;
      var cols := conf.groupbyCols[groupName];
      var n := |cols|;
      && t.names == cols + [MacroFeatureName + "_" + groupName, SnapDateColumn, AttributesColumn, GroupbyNameColumn]
      && (forall i, k :: 0 <= i < n && k in t.labels ==> k in t.data[i] && t.data[i][k] == Text(k[i]))
      && (forall k :: k in t.labels ==>
            k in t.data[n] && t.data[n][k] == Num(SumFor(Window(DropMissingKeys(l, cols).rows, MacroSpec(snap, cols).groupedFeatures[0]), cols, OrderItemQuantity, k)))
      && t.data[n + 1] == Constant(t.labels, When(snap))
      && t.data[n + 2] == Constant(t.labels, Text(ListRepr(cols)))
      && t.data[n + 3] == Constant(t.labels, Text(groupName))
  {
    var cols := conf.groupbyCols[groupName];
    var v := DropMissingKeys(l, cols);
    var a := MacroSpec(snap, cols).groupedFeatures[0];
    MacroUnfold(conf, l, groupName, snap);
    GroupedFeatureMeaning(v, a, cols);
    assert |MacroFeatureName + "_" + groupName| > |GroupbyNameColumn| > |AttributesColumn| > |SnapDateColumn|;
    AnnotatedLayout(GroupedFeature(v, a, cols).value, groupName, snap, MacroFeatureName);
    AnnotatedKeys(GroupedFeature(v, a, cols).value, groupName, snap, MacroFeatureName);
  }

  /** Two different granularity names give two different suffixed names, even
      for the same aggregation name. */
  lemma SuffixesDiffer(m: string, g1: string, g2: string)
    requires g1 != g2
    ensures m + "_" + g1 != m + "_" + g2
  {
    var p := m + "_";
    assert (p + g1)[|p|..] == g1 && (p + g2)[|p|..] == g2;
  }

  /** The non-key names of two macro layouts at different granularities meet
      only in the three stamps. */
  lemma LayoutsIsolated(n1: seq<string>, n2: seq<string>, cols1: seq<string>, cols2: seq<string>, g1: string, g2: string)
    requires g1 != g2
    requires n1 == cols1 + [MacroFeatureName + "_" + g1, SnapDateColumn, AttributesColumn, GroupbyNameColumn]
    requires n2 == cols2 + [MacroFeatureName + "_" + g2, SnapDateColumn, AttributesColumn, GroupbyNameColumn]
    ensures n1[|cols1|] != n2[|cols2|]
    ensures forall i, j :: |cols1| <= i < |n1| && |cols2| <= j < |n2| && n1[i] == n2[j] ==>
      n1[i] == SnapDateColumn || n1[i] == AttributesColumn || n1[i] == GroupbyNameColumn
  {
    var f1, f2 := MacroFeatureName + "_" + g1, MacroFeatureName + "_" + g2;
    SuffixesDiffer(MacroFeatureName, g1, g2);
    assert |f1| > |GroupbyNameColumn| > |AttributesColumn| > |SnapDateColumn|;
    assert |f2| > |GroupbyNameColumn|;
    forall i, j | |cols1| <= i < |n1| && |cols2| <= j < |n2| && n1[i] == n2[j]
      ensures n1[i] == SnapDateColumn || n1[i] == AttributesColumn || n1[i] == GroupbyNameColumn
    {
      assert n1[i] == [f1, SnapDateColumn, AttributesColumn, GroupbyNameColumn][i - |cols1|];
      assert n2[j] == [f2, SnapDateColumn, AttributesColumn, GroupbyNameColumn][j - |cols2|];
    }
  }

  /** The column names of a macro table whose key columns bear no stamp name. */
  lemma MacroNames(conf: Config, l: Ledger, groupName: string, snap: Date)
    requires MacroFeaturesOf(conf, l, groupName, snap).Ok?
    requires var cols := conf.groupbyCols[groupName];
      SnapDateColumn !in cols && AttributesColumn !in cols && GroupbyNameColumn !in cols
    ensures MacroFeaturesOf(conf, l, groupName, snap).value.names
         == conf.groupbyCols[groupName] + [MacroFeatureName + "_" + groupName, SnapDateColumn, AttributesColumn, GroupbyNameColumn]
  {
    var cols := conf.groupbyCols[groupName];
    var v := DropMissingKeys(l, cols);
    var a := MacroSpec(snap, cols).groupedFeatures[0];
    MacroUnfold(conf, l, groupName, snap);
    GroupedFeatureMeaning(v, a, cols);
    assert |MacroFeatureName + "_" + groupName| > |GroupbyNameColumn| > |AttributesColumn| > |SnapDateColumn|;
    AnnotatedNames(GroupedFeature(v, a, cols).value, groupName, snap, MacroFeatureName);
  }

  /** Granularity isolation: the macro tables of two different granularities
      share no non-key column name except the three stamps, so their feature
      columns never collide. */
  lemma MacroGranularitiesIsolated(conf: Config, l: Ledger, g1: string, g2: string, snap: Date)
    requires g1 != g2
    requires MacroFeaturesOf(conf, l, g1, snap).Ok? && MacroFeaturesOf(conf, l, g2, snap).Ok?
    requires var cols := conf.groupbyCols[g1];
      SnapDateColumn !in cols && AttributesColumn !in cols && GroupbyNameColumn !in cols
    requires var cols := conf.groupbyCols[g2];
      SnapDateColumn !in cols && AttributesColumn !in cols && GroupbyNameColumn !in cols
    ensures var n1 := MacroFeaturesOf(conf, l, g1, snap).value.names;
      var n2 := MacroFeaturesOf(conf, l, g2, snap).value.names;
      var k1 := |conf.groupbyCols[g1]|;
      var k2 := |conf.groupbyCols[g2]|;
      && k1 < |n1| && k2 < |n2| && n1[k1] != n2[k2]
      && forall i, j :: k1 <= i < |n1| && k2 <= j < |n2| && n1[i] == n2[j] ==>
           n1[i] == SnapDateColumn || n1[i] == AttributesColumn || n1[i] == GroupbyNameColumn
  {
    MacroNames(conf, l, g1, snap);
    MacroNames(conf, l, g2, snap);
    LayoutsIsolated(MacroFeaturesOf(conf, l, g1, snap).value.names, MacroFeaturesOf(conf, l, g2, snap).value.names,
                    conf.groupbyCols[g1], conf.groupbyCols[g2], g1, g2);
  }

  /** No look-ahead in the macro features: lines dated on or after the snapshot
      change nothing. */
  lemma MacroFeaturesIgnoreFuture(conf: Config, l: Ledger, groupName: string, snap: Date,
                                  pre: seq<Row>, future: seq<Row>, post: seq<Row>)
    requires forall x :: x in future ==> !Before(x.orderDate, snap)
    ensures MacroFeaturesOf(conf, l.(rows := pre + future + post), groupName, snap) == MacroFeaturesOf(conf, l.(rows := pre + post), groupName, snap)
  {
    if groupName in conf.groupbyCols {
      var cols := conf.groupbyCols[groupName];
      var spec := MacroSpec(snap, cols);
      forall a, x | a in spec.groupedFeatures && x in future
        ensures !InWindow(x.orderDate, a)
      {
        FutureOutsideWindow(x.orderDate, snap, a);
      }
      ViewIgnores(l, HasCompleteKey(cols), spec, pre, future, post);
    }
  }
}
