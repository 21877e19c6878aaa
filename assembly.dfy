/** Feature-set assembly: derived columns on a copy of the ledger, then every
    named aggregation of a spec, side by side (`create_a_column`, `return_feature_columns`). */
module FeatureAssembly {
  import opened Outcomes
  import opened Dates
  import opened Sales
  import opened FeatureConfig
  import opened Frames
  import opened Aggregation

  /** `create_a_column`: the derived column's value on every row. */
  function ColumnValues(l: Ledger, def: ColumnDef): (col: seq<int>)
    ensures |col| == |l.rows|
    ensures forall i :: 0 <= i < |l.rows| ==> col[i] == def.func(l.rows[i])
  {
    seq(|l.rows|, i requires 0 <= i < |l.rows| => def.func(l.rows[i]))
  }

  /** One row with quantity column `name` set to `v`. */
  function SetMeasure(r: Row, name: string, v: int): (d: Row)
    ensures d.orderDate == r.orderDate && d.txType == r.txType && d.rejectionStatus == r.rejectionStatus
    ensures name in d.measures && d.measures[name] == v && name !in d.attrs
    ensures forall c :: c != name ==> (c in d.measures <==> c in r.measures) && (c in d.attrs <==> c in r.attrs)
    ensures forall c :: c != name && c in r.measures ==> d.measures[c] == r.measures[c]
    ensures forall c :: c != name && c in r.attrs ==> d.attrs[c] == r.attrs[c]
  {
    r.(attrs := r.attrs - {name}, measures := r.measures[name := v])
  }

  /** `df[name] = col`: the column is placed under `name` (replacing any column of
      that name); every other column of every row is untouched. */
  function WithMeasure(l: Ledger, name: string, col: seq<int>): (r: Ledger)
    requires |col| == |l.rows|
    ensures r.attrCols == l.attrCols - {name} && r.measureCols == l.measureCols + {name}
    ensures |r.rows| == |l.rows|
    ensures forall i :: 0 <= i < |l.rows| ==> r.rows[i] == SetMeasure(l.rows[i], name, col[i])
  {
    Ledger(l.attrCols - {name}, l.measureCols + {name},
           seq(|l.rows|, i requires 0 <= i < |l.rows| => SetMeasure(l.rows[i], name, col[i])))
  }

  function DefNames(defs: seq<ColumnDef>): set<string> {
    set i | 0 <= i < |defs| :: defs[i].name
  }

  /** Row `d` agrees with row `r` on everything but the columns in `names`: the
      date, type and status fields, and every other attribute and quantity. */
  ghost predicate KeepsOtherColumns(d: Row, r: Row, names: set<string>) {
    && d.orderDate == r.orderDate && d.txType == r.txType && d.rejectionStatus == r.rejectionStatus
    && (forall c :: c !in names ==> (c in d.measures <==> c in r.measures) && (c in d.attrs <==> c in r.attrs))
    && (forall c :: c !in names && c in r.measures ==> d.measures[c] == r.measures[c])
    && (forall c :: c !in names && c in r.attrs ==> d.attrs[c] == r.attrs[c])
  }

  /** The ledger after adding each derived column in turn; each sees the ones
      before it, and nothing but the derived columns changes. */
  function AddColumns(l: Ledger, defs: seq<ColumnDef>): (r: Ledger)
    ensures r.attrCols == l.attrCols - DefNames(defs) && r.measureCols == l.measureCols + DefNames(defs)
    ensures |r.rows| == |l.rows|
    ensures forall i :: 0 <= i < |l.rows| ==> r.rows[i].orderDate == l.rows[i].orderDate
    ensures forall i :: 0 <= i < |l.rows| ==> KeepsOtherColumns(r.rows[i], l.rows[i], DefNames(defs))
    decreases |defs|
  {
    if |defs| == 0 then l
    else
      var prior := AddColumns(l, defs[..|defs| - 1]);
      var def := defs[|defs| - 1];
      assert DefNames(defs) == DefNames(defs[..|defs| - 1]) + {def.name} by {
        assert forall i :: 0 <= i < |defs| - 1 ==> defs[..|defs| - 1][i] == defs[i];
      }
      var r := WithMeasure(prior, def.name, ColumnValues(prior, def));
      assert forall i :: 0 <= i < |l.rows| ==> KeepsOtherColumns(r.rows[i], l.rows[i], DefNames(defs)) by {
        forall i | 0 <= i < |l.rows|
          ensures KeepsOtherColumns(r.rows[i], l.rows[i], DefNames(defs))
        {
          assert r.rows[i] == SetMeasure(prior.rows[i], def.name, ColumnValues(prior, def)[i]);
          assert KeepsOtherColumns(prior.rows[i], l.rows[i], DefNames(defs[..|defs| - 1]));
        }
      }
      r
  }

  /** A definition that no later definition overrides. */
  ghost predicate LastDefinition(defs: seq<ColumnDef>, k: nat)
    requires k < |defs|
  {
    forall k' :: k < k' < |defs| ==> defs[k'].name != defs[k].name
  }

  /** Each derived column holds, on every row, its last definition's function
      applied to the row as the earlier definitions left it. */
  lemma {:induction false} AddColumnsValues(l: Ledger, defs: seq<ColumnDef>, i: nat, k: nat)
    requires i < |l.rows| && k < |defs| && LastDefinition(defs, k)
    ensures var d := AddColumns(l, defs).rows[i];
      && defs[k].name in d.measures && defs[k].name !in d.attrs
      && d.measures[defs[k].name] == defs[k].func(AddColumns(l, defs[..k]).rows[i])
    decreases |defs|
  {
    var init := defs[..|defs| - 1];
    var def := defs[|defs| - 1];
    var prior := AddColumns(l, init);
    assert AddColumns(l, defs) == WithMeasure(prior, def.name, ColumnValues(prior, def));
    if k == |defs| - 1 {
      assert defs[..k] == init;
    } else {
      assert init[k] == defs[k] && init[..k] == defs[..k];
      assert LastDefinition(init, k);
      AddColumnsValues(l, init, i, k);
    }
  }

  /** One derived column, added to two ledgers or to their concatenation. */
  lemma DeriveAppend(pab: Ledger, pa: Ledger, pb: Ledger, def: ColumnDef)
    requires pab.rows == pa.rows + pb.rows
    ensures WithMeasure(pab, def.name, ColumnValues(pab, def)).rows
         == WithMeasure(pa, def.name, ColumnValues(pa, def)).rows + WithMeasure(pb, def.name, ColumnValues(pb, def)).rows
  {
    var rab := WithMeasure(pab, def.name, ColumnValues(pab, def)).rows;
    var ra := WithMeasure(pa, def.name, ColumnValues(pa, def)).rows;
    var rb := WithMeasure(pb, def.name, ColumnValues(pb, def)).rows;
    forall i | 0 <= i < |rab|
      ensures rab[i] == (ra + rb)[i]
    {
      if i < |pa.rows| {
        assert pab.rows[i] == pa.rows[i];
      } else {
        assert pab.rows[i] == pb.rows[i - |pa.rows|];
      }
    }
  }

  /** Derived columns are computed row by row, so adding them commutes with
      concatenating ledgers. */
  lemma {:induction false} AddColumnsAppend(l: Ledger, a: seq<Row>, b: seq<Row>, defs: seq<ColumnDef>)
    ensures AddColumns(l.(rows := a + b), defs).rows
         == AddColumns(l.(rows := a), defs).rows + AddColumns(l.(rows := b), defs).rows
    decreases |defs|
  {
    if |defs| > 0 {
      var init := defs[..|defs| - 1];
      AddColumnsAppend(l, a, b, init);
      DeriveAppend(AddColumns(l.(rows := a + b), init), AddColumns(l.(rows := a), init),
                   AddColumns(l.(rows := b), init), defs[|defs| - 1]);
    }
  }

  /** Inserts or updates `name` in an insertion-ordered dictionary: an existing
      entry keeps its position and takes the new value. */
  function Upsert(entries: seq<(string, Frame)>, name: string, f: Frame): (r: seq<(string, Frame)>)
    ensures (name, f) in r
    ensures forall e :: e in r ==> e in entries || e == (name, f)
    decreases |entries|
  {
    if entries == [] then [(name, f)]
    else if entries[0].0 == name then [(name, f)] + entries[1..]
    else [entries[0]] + Upsert(entries[1..], name, f)
  }

  /** Each aggregation's name with its outcome, in list order. */
  function Evaluate(l: Ledger, aggs: seq<AggSpec>, cols: seq<string>): (rs: seq<(string, Result<Frame>)>)
    ensures |rs| == |aggs|
    ensures forall i :: 0 <= i < |aggs| ==> rs[i] == (aggs[i].name, GroupedFeature(l, aggs[i], cols))
  {
    seq(|aggs|, i requires 0 <= i < |aggs| => (aggs[i].name, GroupedFeature(l, aggs[i], cols)))
  }

  /** A dictionary comprehension over outcomes taken in order: the first failure
      is raised; otherwise each name is inserted or updated in turn. */
  function Build(rs: seq<(string, Result<Frame>)>): (r: Result<seq<(string, Frame)>>)
    ensures r.Err? <==> exists j :: 0 <= j < |rs| && rs[j].1.Err?
    ensures r.Ok? ==> forall e :: e in r.value ==> (e.0, Ok(e.1)) in rs
    ensures r.Ok? && |rs| > 0 ==> |r.value| > 0
    ensures forall j :: 0 <= j < |rs| && rs[j].1.Err? && (forall i :: 0 <= i < j ==> rs[i].1.Ok?) ==> r == Err(rs[j].1.error)
    decreases |rs|
  {
    if |rs| == 0 then Ok([])
    else
      var init := rs[..|rs| - 1];
      assert forall j :: 0 <= j < |init| ==> init[j] == rs[j];
      var prior :- Build(init);
      var f :- rs[|rs| - 1].1;
      assert rs[|rs| - 1] == (rs[|rs| - 1].0, Ok(f));
      Ok(Upsert(prior, rs[|rs| - 1].0, f))
  }

  /** Every aggregation of the list succeeds on `l`. */
  ghost predicate AllSucceed(l: Ledger, aggs: seq<AggSpec>, cols: seq<string>)
  {
    forall i :: 0 <= i < |aggs| ==> GroupedFeature(l, aggs[i], cols).Ok?
  }

  /** Aggregation `j` is the first of the list to fail on `l`. */
  ghost predicate FirstFailure(l: Ledger, aggs: seq<AggSpec>, cols: seq<string>, j: int)
  {
    && 0 <= j < |aggs|
    && GroupedFeature(l, aggs[j], cols).Err?
    && forall i :: 0 <= i < j ==> GroupedFeature(l, aggs[i], cols).Ok?
  }

  /** `{a.name: create_a_grouped_feature(...) for a in aggs}`. */
  function Collect(l: Ledger, aggs: seq<AggSpec>, cols: seq<string>): (r: Result<seq<(string, Frame)>>)
    ensures r.Ok? <==> AllSucceed(l, aggs, cols)
    ensures forall j :: FirstFailure(l, aggs, cols, j) ==> r == Err(GroupedFeature(l, aggs[j], cols).error)
    ensures r.Ok? ==> forall e :: e in r.value ==> e.1.Valid() && e.1.index == cols
    ensures r.Ok? && |aggs| > 0 ==> |r.value| > 0 && |cols| > 0
  {
    var r := Build(Evaluate(l, aggs, cols));
    assert r.Ok? && |aggs| > 0 ==> GroupedFeature(l, aggs[0], cols).Ok?;
    r
  }

  function Values(entries: seq<(string, Frame)>): (fs: seq<Frame>)
    ensures |fs| == |entries| && forall i :: 0 <= i < |entries| ==> fs[i] == entries[i].1
  {
    seq(|entries|, i requires 0 <= i < |entries| => entries[i].1)
  }

  /** The aggregations of a feature set over an already prepared ledger, side by side. */
  function Assemble(prepared: Ledger, fs: FeatureSet): (r: Result<Frame>)
    ensures r.Ok? <==> |fs.groupedFeatures| > 0 && AllSucceed(prepared, fs.groupedFeatures, fs.groupColumn)
    ensures forall j :: FirstFailure(prepared, fs.groupedFeatures, fs.groupColumn, j) ==>
      r == Err(GroupedFeature(prepared, fs.groupedFeatures[j], fs.groupColumn).error)
    ensures r.Ok? ==> r.value.Valid() && r.value.index == fs.groupColumn && |fs.groupColumn| > 0
    ensures |fs.groupedFeatures| == 0 ==> r == Err(NothingToConcatenate)
  {
    var entries :- Collect(prepared, fs.groupedFeatures, fs.groupColumn);
    assert forall i :: 0 <= i < |entries| ==> entries[i] in entries;
    Concat(Values(entries), fs.groupColumn)
  }

  /** `return_feature_columns` as a value: derived columns, every aggregation,
      and their concatenation along the key. */
  function FeatureColumns(l: Ledger, fs: FeatureSet): (r: Result<Frame>)
    ensures r.Ok? <==> |fs.groupedFeatures| > 0 && AllSucceed(AddColumns(l, fs.addColumns), fs.groupedFeatures, fs.groupColumn)
    ensures forall j :: FirstFailure(AddColumns(l, fs.addColumns), fs.groupedFeatures, fs.groupColumn, j) ==>
      r == Err(GroupedFeature(AddColumns(l, fs.addColumns), fs.groupedFeatures[j], fs.groupColumn).error)
    ensures r.Ok? ==> r.value.Valid() && r.value.index == fs.groupColumn && |fs.groupColumn| > 0
    ensures |fs.groupedFeatures| == 0 ==> r == Err(NothingToConcatenate)
  {
    Assemble(AddColumns(l, fs.addColumns), fs)
  }

  /** `return_feature_columns`: works on a copy of the caller's ledger, adds each
      derived column in place on the copy, then aggregates. */
  method ReturnFeatureColumns(l: Ledger, fs: FeatureSet) returns (r: Result<Frame>)
    ensures r == FeatureColumns(l, fs)
  {
    var copy := AddColumnsOnCopy(l, fs.addColumns);
    r := Assemble(copy, fs);
  }

  /** The loop of `return_feature_columns` that assigns each derived column in
      turn to the copy of the ledger. */
  method AddColumnsOnCopy(l: Ledger, defs: seq<ColumnDef>) returns (copy: Ledger)
    ensures copy == AddColumns(l, defs)
  {
    copy := l;
    var i := 0;
    while i < |defs|
      invariant 0 <= i <= |defs|
      invariant copy == AddColumns(l, defs[..i])
    {
      var def := defs[i];
      assert defs[..i + 1][..i] == defs[..i];
      var col := ColumnValues(copy, def);
      copy := WithMeasure(copy, def.name, col);
      i := i + 1;
    }
    assert defs[..i] == defs;
  }

  /** The names of a list of named entries (dictionary items or outcomes), in order. */
  function EntryNames<T>(entries: seq<(string, T)>): (names: seq<string>)
    ensures |names| == |entries| && forall i :: 0 <= i < |entries| ==> names[i] == entries[i].0
  {
    seq(|entries|, i requires 0 <= i < |entries| => entries[i].0)
  }

  /** The aggregation names of a feature set, in list order. */
  function AggNames(aggs: seq<AggSpec>): (names: seq<string>)
    ensures |names| == |aggs| && forall i :: 0 <= i < |aggs| ==> names[i] == aggs[i].name
  {
    seq(|aggs|, i requires 0 <= i < |aggs| => aggs[i].name)
  }

  /** The keys of a dictionary built by inserting `names` in order: each name once,
      at the position of its first insertion. */
  function Distinct(names: seq<string>): (d: seq<string>)
    ensures forall x :: x in d <==> x in names
    ensures forall i, j :: 0 <= i < j < |d| ==> d[i] != d[j]
    decreases |names|
  {
    if |names| == 0 then []
    else
      var d := Distinct(names[..|names| - 1]);
      var x := names[|names| - 1];
      assert forall y :: y in names <==> y in names[..|names| - 1] || y == x;
      if x in d then d else d + [x]
  }

  /** The position of the last occurrence of `name`, or -1 when there is none. */
  function LastIndexOf(names: seq<string>, name: string): (j: int)
    ensures -1 <= j < |names|
    ensures j == -1 <==> name !in names
    ensures j >= 0 ==> names[j] == name && forall k :: j < k < |names| ==> names[k] != name
    decreases |names|
  {
    if |names| == 0 then -1
    else if names[|names| - 1] == name then |names| - 1
    else
      assert names == names[..|names| - 1] + [names[|names| - 1]];
      LastIndexOf(names[..|names| - 1], name)
  }

  lemma {:induction false} UpsertNew(entries: seq<(string, Frame)>, name: string, f: Frame)
    requires name !in EntryNames(entries)
    ensures Upsert(entries, name, f) == entries + [(name, f)]
    decreases |entries|
  {
    if entries != [] {
      assert entries[0].0 == EntryNames(entries)[0];
      assert EntryNames(entries[1..]) == EntryNames(entries)[1..];
      UpsertNew(entries[1..], name, f);
      assert entries == [entries[0]] + entries[1..];
    }
  }

  lemma {:induction false} UpsertExisting(entries: seq<(string, Frame)>, name: string, f: Frame, p: nat)
    requires p < |entries| && entries[p].0 == name
    requires forall q :: 0 <= q < p ==> entries[q].0 != name
    ensures Upsert(entries, name, f) == entries[p := (name, f)]
    decreases |entries|
  {
    if p > 0 {
      var rest := entries[1..];
      assert forall q :: 0 <= q < p - 1 ==> rest[q] == entries[q + 1];
      UpsertExisting(rest, name, f, p - 1);
      assert entries[p := (name, f)] == [entries[0]] + rest[p - 1 := (name, f)];
    }
  }

  /** Every entry holds the outcome of the last evaluation that bears its name. */
  predicate LastWins(rs: seq<(string, Result<Frame>)>, e: seq<(string, Frame)>) {
    forall i :: 0 <= i < |e| ==>
      0 <= LastIndexOf(EntryNames(rs), e[i].0) && rs[LastIndexOf(EntryNames(rs), e[i].0)].1 == Ok(e[i].1)
  }

  lemma SnocNames(init: seq<(string, Result<Frame>)>, x: (string, Result<Frame>))
    ensures EntryNames(init + [x]) == EntryNames(init) + [x.0]
    ensures Distinct(EntryNames(init + [x]))
         == if x.0 in Distinct(EntryNames(init)) then Distinct(EntryNames(init)) else Distinct(EntryNames(init)) + [x.0]
  {
    var names := EntryNames(init + [x]);
    assert names == EntryNames(init) + [x.0];
    assert names[..|names| - 1] == EntryNames(init);
  }

  lemma SnocLastIndex(init: seq<(string, Result<Frame>)>, x: (string, Result<Frame>), n: string)
    ensures LastIndexOf(EntryNames(init + [x]), n) == if x.0 == n then |init| else LastIndexOf(EntryNames(init), n)
  {
    var names := EntryNames(init + [x]);
    assert names == EntryNames(init) + [x.0];
    assert names[..|names| - 1] == EntryNames(init);
  }

  /** The entry of a name other than the newest one still holds the last outcome
      of that name. */
  lemma OlderEntryLastWins(init: seq<(string, Result<Frame>)>, x: (string, Result<Frame>), n: string, v: Frame)
    requires x.0 != n
    requires 0 <= LastIndexOf(EntryNames(init), n) && init[LastIndexOf(EntryNames(init), n)].1 == Ok(v)
    ensures var rs := init + [x];
      0 <= LastIndexOf(EntryNames(rs), n) && rs[LastIndexOf(EntryNames(rs), n)].1 == Ok(v)
  {
    SnocLastIndex(init, x, n);
    var j := LastIndexOf(EntryNames(init), n);
    assert (init + [x])[j] == init[j];
  }

  /** The newest outcome is the last of its name. */
  lemma NewestEntryLastWins(init: seq<(string, Result<Frame>)>, name: string, f: Frame)
    ensures var rs := init + [(name, Ok(f))];
      0 <= LastIndexOf(EntryNames(rs), name) && rs[LastIndexOf(EntryNames(rs), name)].1 == Ok(f)
  {
    SnocLastIndex(init, (name, Ok(f)), name);
  }

  lemma UpsertNewNames(init: seq<(string, Result<Frame>)>, name: string, f: Frame, prior: seq<(string, Frame)>)
    requires EntryNames(prior) == Distinct(EntryNames(init))
    requires name !in EntryNames(prior)
    ensures EntryNames(Upsert(prior, name, f)) == Distinct(EntryNames(init + [(name, Ok(f))]))
  {
    var d := Distinct(EntryNames(init));
    SnocNames(init, (name, Ok(f)));
    assert Distinct(EntryNames(init + [(name, Ok(f))])) == d + [name];
    UpsertNew(prior, name, f);
    EntryNamesSnoc(prior, (name, f));
  }

  lemma EntryNamesSnoc(entries: seq<(string, Frame)>, x: (string, Frame))
    ensures EntryNames(entries + [x]) == EntryNames(entries) + [x.0]
  {
    var a := EntryNames(entries + [x]);
    var b := EntryNames(entries) + [x.0];
    assert |a| == |b|;
    forall i | 0 <= i < |a|
      ensures a[i] == b[i]
    {
      if i < |entries| {
        assert (entries + [x])[i] == entries[i];
      }
    }
  }

  lemma UpsertNewLastWins(init: seq<(string, Result<Frame>)>, name: string, f: Frame, prior: seq<(string, Frame)>)
    requires LastWins(init, prior)
    requires name !in EntryNames(prior)
    ensures LastWins(init + [(name, Ok(f))], Upsert(prior, name, f))
  {
    var rs := init + [(name, Ok(f))];
    UpsertNew(prior, name, f);
    var e := prior + [(name, f)];
    forall i | 0 <= i < |e|
      ensures 0 <= LastIndexOf(EntryNames(rs), e[i].0) && rs[LastIndexOf(EntryNames(rs), e[i].0)].1 == Ok(e[i].1)
    {
      if i < |prior| {
        assert e[i] == prior[i] && prior[i].0 == EntryNames(prior)[i];
        OlderEntryLastWins(init, (name, Ok(f)), prior[i].0, prior[i].1);
      } else {
        NewestEntryLastWins(init, name, f);
      }
    }
  }

  lemma UpsertExistingNames(init: seq<(string, Result<Frame>)>, name: string, f: Frame, prior: seq<(string, Frame)>, p: nat)
    requires EntryNames(prior) == Distinct(EntryNames(init))
    requires p < |prior| && prior[p].0 == name
    ensures EntryNames(Upsert(prior, name, f)) == Distinct(EntryNames(init + [(name, Ok(f))]))
  {
    var names := EntryNames(prior);
    SnocNames(init, (name, Ok(f)));
    assert names[p] == name;
    UpsertExisting(prior, name, f, p);
    assert EntryNames(prior[p := (name, f)]) == names;
  }

  lemma UpsertExistingLastWins(init: seq<(string, Result<Frame>)>, name: string, f: Frame, prior: seq<(string, Frame)>, p: nat)
    requires EntryNames(prior) == Distinct(EntryNames(init)) && LastWins(init, prior)
    requires p < |prior| && prior[p].0 == name
    ensures LastWins(init + [(name, Ok(f))], Upsert(prior, name, f))
  {
    var rs := init + [(name, Ok(f))];
    var names := EntryNames(prior);
    assert names[p] == name;
    UpsertExisting(prior, name, f, p);
    var e := prior[p := (name, f)];
    forall i | 0 <= i < |e|
      ensures 0 <= LastIndexOf(EntryNames(rs), e[i].0) && rs[LastIndexOf(EntryNames(rs), e[i].0)].1 == Ok(e[i].1)
    {
      if i != p {
        assert e[i] == prior[i] && prior[i].0 == names[i] != names[p];
        OlderEntryLastWins(init, (name, Ok(f)), prior[i].0, prior[i].1);
      } else {
        NewestEntryLastWins(init, name, f);
      }
    }
  }

  /** Building the dictionary one outcome at a time: a repeated name keeps its
      first position and ends up holding the last outcome of that name. */
  lemma {:induction false} BuildLastWins(rs: seq<(string, Result<Frame>)>)
    requires Build(rs).Ok?
    ensures EntryNames(Build(rs).value) == Distinct(EntryNames(rs))
    ensures LastWins(rs, Build(rs).value)
    decreases |rs|
  {
    if |rs| > 0 {
      var init := rs[..|rs| - 1];
      var name := rs[|rs| - 1].0;
      var f := rs[|rs| - 1].1.value;
      assert rs == init + [(name, Ok(f))];
      var prior := Build(init).value;
      assert Build(rs).value == Upsert(prior, name, f);
      BuildLastWins(init);
      if name !in EntryNames(prior) {
        UpsertNewNames(init, name, f, prior);
        UpsertNewLastWins(init, name, f, prior);
      } else {
        var p :| 0 <= p < |prior| && EntryNames(prior)[p] == name;
        UpsertExistingNames(init, name, f, prior, p);
        UpsertExistingLastWins(init, name, f, prior, p);
      }
    }
  }

  /** A one-column table on `index`, labelled by the labels its column holds. */
  predicate OneColumn(f: Frame, index: seq<string>) {
    f.Valid() && f.index == index && |f.names| == 1 && f.labels == f.data[0].Keys
  }

  /** Concatenating the dictionary's values: one column per distinct name, in order
      of first appearance, each the last outcome of that name. */
  lemma BuildValues(rs: seq<(string, Result<Frame>)>, index: seq<string>)
    requires Build(rs).Ok?
    requires forall j :: 0 <= j < |rs| && rs[j].1.Ok? ==> OneColumn(rs[j].1.value, index) && rs[j].1.value.names == [rs[j].0]
    ensures var e := Build(rs).value;
      forall i :: 0 <= i < |e| ==> OneColumn(e[i].1, index) && e[i].1.names == [e[i].0]
  {
    var e := Build(rs).value;
    forall i | 0 <= i < |e|
      ensures OneColumn(e[i].1, index) && e[i].1.names == [e[i].0]
    {
      assert e[i] in e;
      var j :| 0 <= j < |rs| && rs[j] == (e[i].0, Ok(e[i].1));
    }
  }

  lemma BuildLayout(rs: seq<(string, Result<Frame>)>, index: seq<string>)
    requires Build(rs).Ok? && |rs| > 0
    requires forall j :: 0 <= j < |rs| && rs[j].1.Ok? ==> OneColumn(rs[j].1.value, index) && rs[j].1.value.names == [rs[j].0]
    ensures SameIndex(Values(Build(rs).value), index)
    ensures var c := Concat(Values(Build(rs).value), index);
      && c.Ok? && c.value.names == Distinct(EntryNames(rs))
      && forall i :: 0 <= i < |c.value.names| ==>
           var j := LastIndexOf(EntryNames(rs), c.value.names[i]);
           0 <= j && rs[j].1 == Ok(ColumnAt(c.value, i))
  {
    var e := Build(rs).value;
    BuildValues(rs, index);
    ConcatLayout(e, index);
    BuildLastWins(rs);
  }

  /** Concatenating the values of a dictionary of one-column tables: its keys
      become the column names, and each column is that key's table. */
  lemma ConcatLayout(e: seq<(string, Frame)>, index: seq<string>)
    requires |e| > 0
    requires forall i :: 0 <= i < |e| ==> OneColumn(e[i].1, index) && e[i].1.names == [e[i].0]
    ensures SameIndex(Values(e), index)
    ensures var t := Concat(Values(e), index).value;
      t.names == EntryNames(e) && forall i :: 0 <= i < |e| ==> ColumnAt(t, i) == e[i].1
  {
    var frames := Values(e);
    assert SameIndex(frames, index);
    ConcatOfColumns(frames, index);
    var t := Concat(frames, index).value;
    forall i | 0 <= i < |e|
      ensures t.names[i] == e[i].0 && ColumnAt(t, i) == e[i].1
    {
      var f := e[i].1;
      assert frames[i] == f;
      assert f.data == [f.data[0]];
    }
  }

  /** The assembled table is the concatenation of the dictionary's values. */
  lemma AssembleUnfold(prepared: Ledger, fs: FeatureSet)
    requires Assemble(prepared, fs).Ok?
    ensures var rs := Evaluate(prepared, fs.groupedFeatures, fs.groupColumn);
      && Build(rs).Ok? && |rs| > 0 && SameIndex(Values(Build(rs).value), fs.groupColumn)
      && Assemble(prepared, fs) == Concat(Values(Build(rs).value), fs.groupColumn)
  {
    var rs := Evaluate(prepared, fs.groupedFeatures, fs.groupColumn);
    var e := Build(rs).value;
    assert forall i :: 0 <= i < |e| ==> e[i] in e;
  }

  lemma AssembleLayout(prepared: Ledger, fs: FeatureSet)
    requires Assemble(prepared, fs).Ok?
    ensures Assemble(prepared, fs).value.names == Distinct(AggNames(fs.groupedFeatures))
    ensures var t := Assemble(prepared, fs).value;
      forall i :: 0 <= i < |t.names| ==>
        var j := LastIndexOf(AggNames(fs.groupedFeatures), t.names[i]);
        0 <= j && GroupedFeature(prepared, fs.groupedFeatures[j], fs.groupColumn) == Ok(ColumnAt(t, i))
  {
    var rs := Evaluate(prepared, fs.groupedFeatures, fs.groupColumn);
    AssembleUnfold(prepared, fs);
    EvaluatedColumns(prepared, fs.groupedFeatures, fs.groupColumn);
    var t := Assemble(prepared, fs).value;
    ConcatOfBuild(rs, fs.groupColumn, t);
    EvaluatedLayout(prepared, fs, rs, t);
  }

  /** Reads the layout of a concatenation of evaluated aggregations back in terms
      of the aggregations themselves. */
  lemma EvaluatedLayout(prepared: Ledger, fs: FeatureSet, rs: seq<(string, Result<Frame>)>, t: Frame)
    requires rs == Evaluate(prepared, fs.groupedFeatures, fs.groupColumn) && t.Valid()
    requires t.names == Distinct(EntryNames(rs))
    requires forall i :: 0 <= i < |t.names| ==>
      var j := LastIndexOf(EntryNames(rs), t.names[i]);
      0 <= j && rs[j].1 == Ok(ColumnAt(t, i))
    ensures t.names == Distinct(AggNames(fs.groupedFeatures))
    ensures forall i :: 0 <= i < |t.names| ==>
      var j := LastIndexOf(AggNames(fs.groupedFeatures), t.names[i]);
      0 <= j && GroupedFeature(prepared, fs.groupedFeatures[j], fs.groupColumn) == Ok(ColumnAt(t, i))
  {
    assert EntryNames(rs) == AggNames(fs.groupedFeatures);
  }

  /** `BuildLayout` for a table known to be the concatenation of the built dictionary. */
  lemma ConcatOfBuild(rs: seq<(string, Result<Frame>)>, index: seq<string>, t: Frame)
    requires Build(rs).Ok? && |rs| > 0
    requires forall j :: 0 <= j < |rs| && rs[j].1.Ok? ==> OneColumn(rs[j].1.value, index) && rs[j].1.value.names == [rs[j].0]
    requires SameIndex(Values(Build(rs).value), index) && Concat(Values(Build(rs).value), index) == Ok(t)
    ensures t.names == Distinct(EntryNames(rs))
    ensures forall i :: 0 <= i < |t.names| ==>
      var j := LastIndexOf(EntryNames(rs), t.names[i]);
      0 <= j && rs[j].1 == Ok(ColumnAt(t, i))
  {
    BuildLayout(rs, index);
  }

  /** The assembled table has one column per distinct aggregation name, in order of
      first appearance, and each holds the last aggregation of that name (a later
      aggregation with a repeated name replaces the earlier one in place). */
  lemma FeatureColumnsLayout(l: Ledger, fs: FeatureSet)
    requires FeatureColumns(l, fs).Ok?
    ensures FeatureColumns(l, fs).value.names == Distinct(AggNames(fs.groupedFeatures))
    ensures var t := FeatureColumns(l, fs).value;
      forall i :: 0 <= i < |t.names| ==>
        var j := LastIndexOf(AggNames(fs.groupedFeatures), t.names[i]);
        0 <= j && GroupedFeature(AddColumns(l, fs.addColumns), fs.groupedFeatures[j], fs.groupColumn) == Ok(ColumnAt(t, i))
  {
    AssembleLayout(AddColumns(l, fs.addColumns), fs);
  }

  lemma EvaluatedColumns(l: Ledger, aggs: seq<AggSpec>, cols: seq<string>)
    ensures var rs := Evaluate(l, aggs, cols);
      forall j :: 0 <= j < |rs| && rs[j].1.Ok? ==> OneColumn(rs[j].1.value, cols) && rs[j].1.value.names == [rs[j].0]
  {
  }

  /** A feature set with no derived columns and one aggregation is that aggregation. */
  lemma SingleAggregation(l: Ledger, fs: FeatureSet)
    requires |fs.addColumns| == 0 && |fs.groupedFeatures| == 1
    ensures FeatureColumns(l, fs) == GroupedFeature(l, fs.groupedFeatures[0], fs.groupColumn)
  {
    assert fs.groupedFeatures[..0] == [];
    assert AddColumns(l, fs.addColumns) == l;
    var g := GroupedFeature(l, fs.groupedFeatures[0], fs.groupColumn);
    var rs := Evaluate(l, fs.groupedFeatures, fs.groupColumn);
    assert rs == [(fs.groupedFeatures[0].name, g)];
    assert rs[..0] == [];
    if g.Ok? {
      assert Collect(l, fs.groupedFeatures, fs.groupColumn) == Ok([(fs.groupedFeatures[0].name, g.value)]);
    } else {
      assert Collect(l, fs.groupedFeatures, fs.groupColumn) == Err(g.error);
    }
  }

  /** Aggregations that agree on two ledgers give the same dictionary. */
  lemma CollectAgrees(l1: Ledger, l2: Ledger, aggs: seq<AggSpec>, cols: seq<string>)
    requires forall i :: 0 <= i < |aggs| ==> GroupedFeature(l1, aggs[i], cols) == GroupedFeature(l2, aggs[i], cols)
    ensures Collect(l1, aggs, cols) == Collect(l2, aggs, cols)
  {
    assert Evaluate(l1, aggs, cols) == Evaluate(l2, aggs, cols);
  }

  /** Rows outside every aggregation's window never change the assembled features,
      wherever they sit in the ledger. */
  lemma IrrelevantRowsIgnored(l: Ledger, fs: FeatureSet, pre: seq<Row>, x: seq<Row>, post: seq<Row>)
    requires forall a, r :: a in fs.groupedFeatures && r in x ==> !InWindow(r.orderDate, a)
    ensures FeatureColumns(l.(rows := pre + x + post), fs) == FeatureColumns(l.(rows := pre + post), fs)
  {
    var defs := fs.addColumns;
    var cols := fs.groupColumn;
    var d1 := AddColumns(l.(rows := pre + x + post), defs);
    var d2 := AddColumns(l.(rows := pre + post), defs);
    var dPre := AddColumns(l.(rows := pre), defs).rows;
    var dX := AddColumns(l.(rows := x), defs).rows;
    var dPost := AddColumns(l.(rows := post), defs).rows;
    AddColumnsAppend(l, pre + x, post, defs);
    AddColumnsAppend(l, pre, x, defs);
    AddColumnsAppend(l, pre, post, defs);
    assert d1 == d2.(rows := dPre + dX + dPost);
    forall a, r | a in fs.groupedFeatures && r in dX
      ensures !InWindow(r.orderDate, a)
    {
      var i :| 0 <= i < |dX| && dX[i] == r;
      assert x[i] in x;
    }
    forall i | 0 <= i < |fs.groupedFeatures|
      ensures GroupedFeature(d1, fs.groupedFeatures[i], cols) == GroupedFeature(d2, fs.groupedFeatures[i], cols)
    {
      assert fs.groupedFeatures[i] in fs.groupedFeatures;
      OutsideWindowIgnored(d2, fs.groupedFeatures[i], cols, dPre, dX, dPost);
    }
    CollectAgrees(d1, d2, fs.groupedFeatures, cols);
  }
}
