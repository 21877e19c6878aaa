/** Result tables. `Frame` is a table as a value; `Table` is a table whose columns
    are assigned and renamed in place. */
module Frames {
  import opened Outcomes
  import opened Dates

  /** A row label: the values of the grouping columns, in key-column order. */
  type Key = seq<string>

  datatype Cell = Num(n: int) | When(date: Date) | Text(s: string)

  /** A table: the names of its index levels, its row labels, and its columns in
      order. A column maps each label it holds a value for to that value; a label
      it lacks is a missing value (NaN) there. */
  datatype Frame = Frame(index: seq<string>, labels: set<Key>, names: seq<string>, data: seq<map<Key, Cell>>) {
    predicate Valid() {
      && |names| == |data|
      && (forall j :: 0 <= j < |data| ==> data[j].Keys <= labels)
      && (|index| > 0 ==> forall k :: k in labels ==> |k| == |index|)
    }
  }

  /** A column holding `c` on every one of `labels`. */
  function Constant(labels: set<Key>, c: Cell): (m: map<Key, Cell>)
    ensures m.Keys == labels && forall k :: k in m ==> m[k] == c
  {
    map k | k in labels :: c
  }

  /** A one-column table indexed by `index`: the labels are exactly the keys of `values`. */
  function Series(index: seq<string>, name: string, values: map<Key, int>): (f: Frame)
    requires forall k :: k in values ==> |k| == |index|
    ensures f.Valid() && f.index == index && f.labels == values.Keys && f.names == [name]
    ensures f.data[0].Keys == f.labels
    ensures forall k :: k in values ==> k in f.data[0] && f.data[0][k] == Num(values[k])
  {
    Frame(index, values.Keys, [name], [map k | k in values :: Num(values[k])])
  }

  /** Column `i` of `t` on its own, labelled by the labels it holds values for. */
  function ColumnAt(t: Frame, i: nat): (f: Frame)
    requires t.Valid() && i < |t.names|
    ensures f.Valid() && f.index == t.index && f.names == [t.names[i]] && f.data == [t.data[i]]
    ensures f.labels == t.data[i].Keys && f.labels <= t.labels
  {
    Frame(t.index, t.data[i].Keys, [t.names[i]], [t.data[i]])
  }

  /** Two tables side by side, aligned on their labels (an outer join). */
  function Beside(l: Frame, r: Frame): (f: Frame)
    requires l.Valid() && r.Valid() && l.index == r.index
    ensures f.Valid() && f.index == l.index
    ensures f.labels == l.labels + r.labels
    ensures f.names == l.names + r.names && f.data == l.data + r.data
  {
    Frame(l.index, l.labels + r.labels, l.names + r.names, l.data + r.data)
  }

  predicate SameIndex(frames: seq<Frame>, index: seq<string>) {
    forall i :: 0 <= i < |frames| ==> frames[i].Valid() && frames[i].index == index
  }

  /** Every label of every frame. */
  function AllLabels(frames: seq<Frame>): set<Key>
    decreases |frames|
  {
    if |frames| == 0 then {} else AllLabels(frames[..|frames| - 1]) + frames[|frames| - 1].labels
  }

  /** The frames' column names, frame after frame. */
  function AllNames(frames: seq<Frame>): seq<string>
    decreases |frames|
  {
    if |frames| == 0 then [] else AllNames(frames[..|frames| - 1]) + frames[|frames| - 1].names
  }

  /** The frames' columns, frame after frame. */
  function AllData(frames: seq<Frame>): seq<map<Key, Cell>>
    decreases |frames|
  {
    if |frames| == 0 then [] else AllData(frames[..|frames| - 1]) + frames[|frames| - 1].data
  }

  /** `pd.concat(frames, axis=1)`: fails on an empty list; otherwise an outer
      join of all the frames on their labels, columns in list order. */
  function Concat(frames: seq<Frame>, index: seq<string>): (r: Result<Frame>)
    requires SameIndex(frames, index)
    ensures r.Err? <==> |frames| == 0
    ensures r.Err? ==> r.error == NothingToConcatenate
    ensures r.Ok? ==> r.value.Valid() && r.value.index == index
    ensures |frames| == 1 ==> r == Ok(frames[0])
    decreases |frames|
  {
    if |frames| == 0 then Err(NothingToConcatenate)
    else if |frames| == 1 then
      assert frames[..0] == [];
      Ok(frames[0])
    else
      var front := Concat(frames[..|frames| - 1], index);
      assert forall i :: 0 <= i < |frames| - 1 ==> frames[..|frames| - 1][i] == frames[i];
      Ok(Beside(front.value, frames[|frames| - 1]))
  }

  /** A concatenation holds every label of every frame, and the frames' columns
      frame after frame. */
  lemma {:induction false} ConcatParts(frames: seq<Frame>, index: seq<string>)
    requires SameIndex(frames, index) && |frames| > 0
    ensures var t := Concat(frames, index).value;
      t.labels == AllLabels(frames) && t.names == AllNames(frames) && t.data == AllData(frames)
    decreases |frames|
  {
    if |frames| == 1 {
      assert frames[..0] == [];
    } else {
      var init := frames[..|frames| - 1];
      assert forall i :: 0 <= i < |init| ==> init[i] == frames[i];
      ConcatParts(init, index);
    }
  }

  /** Concatenating one-column tables puts their columns side by side in list order. */
  lemma {:induction false} ConcatOfSeries(frames: seq<Frame>)
    requires forall i :: 0 <= i < |frames| ==> |frames[i].names| == 1 && |frames[i].data| == 1
    ensures |AllNames(frames)| == |frames| && |AllData(frames)| == |frames|
    ensures forall i :: 0 <= i < |frames| ==> AllNames(frames)[i] == frames[i].names[0] && AllData(frames)[i] == frames[i].data[0]
    decreases |frames|
  {
    if |frames| > 0 {
      var init := frames[..|frames| - 1];
      assert forall i :: 0 <= i < |init| ==> init[i] == frames[i];
      ConcatOfSeries(init);
    }
  }

  /** The columns of a concatenation of one-column tables, one per table. */
  lemma ConcatOfColumns(frames: seq<Frame>, index: seq<string>)
    requires SameIndex(frames, index) && |frames| > 0
    requires forall i :: 0 <= i < |frames| ==> |frames[i].names| == 1
    ensures var t := Concat(frames, index).value;
      && |t.names| == |frames|
      && forall i :: 0 <= i < |frames| ==> t.names[i] == frames[i].names[0] && t.data[i] == frames[i].data[0]
  {
    ConcatParts(frames, index);
    ConcatOfSeries(frames);
  }

  function Suffixed(names: seq<string>, clash: seq<string>, suffix: string): (r: seq<string>)
    ensures |r| == |names|
    ensures forall j :: 0 <= j < |names| && names[j] !in clash ==> r[j] == names[j]
    ensures forall j :: 0 <= j < |names| && names[j] in clash ==> r[j] == names[j] + suffix
  {
    seq(|names|, j requires 0 <= j < |names| => if names[j] in clash then names[j] + suffix else names[j])
  }

  function Restrict(m: map<Key, Cell>, keys: set<Key>): (r: map<Key, Cell>)
    ensures r.Keys == m.Keys * keys && forall k :: k in r ==> r[k] == m[k]
  {
    map k | k in m && k in keys :: m[k]
  }

  /** `l.merge(r, how="left", left_index=True, right_index=True)`: every label of
      `l` and no other, the columns of `l` then those of `r`, overlapping names
      suffixed "_x" and "_y". */
  function LeftJoin(l: Frame, r: Frame): (j: Frame)
    requires l.Valid() && r.Valid()
    ensures j.Valid() && j.index == l.index && j.labels == l.labels
    ensures |j.names| == |l.names| + |r.names|
    ensures forall i :: 0 <= i < |l.names| ==> j.data[i] == l.data[i]
    ensures forall i :: 0 <= i < |l.names| && l.names[i] !in r.names ==> j.names[i] == l.names[i]
    ensures forall i :: 0 <= i < |l.names| && l.names[i] in r.names ==> j.names[i] == l.names[i] + "_x"
    ensures forall i :: 0 <= i < |r.names| ==> j.data[|l.names| + i] == Restrict(r.data[i], l.labels)
    ensures forall i :: 0 <= i < |r.names| && r.names[i] !in l.names ==> j.names[|l.names| + i] == r.names[i]
    ensures forall i :: 0 <= i < |r.names| && r.names[i] in l.names ==> j.names[|l.names| + i] == r.names[i] + "_y"
  {
    Frame(l.index, l.labels,
          Suffixed(l.names, r.names, "_x") + Suffixed(r.names, l.names, "_y"),
          l.data + seq(|r.data|, i requires 0 <= i < |r.data| => Restrict(r.data[i], l.labels)))
  }

  /** Without overlapping names a left join keeps every name: the left columns,
      then the right columns cut down to the left labels. */
  lemma LeftJoinNoClash(l: Frame, r: Frame)
    requires l.Valid() && r.Valid()
    requires forall x :: x in r.names ==> x !in l.names
    ensures LeftJoin(l, r).names == l.names + r.names
  {
    SuffixedNoClash(l.names, r.names, "_x");
    SuffixedNoClash(r.names, l.names, "_y");
  }

  /** Names that meet no clash are left as they are. */
  lemma SuffixedNoClash(names: seq<string>, clash: seq<string>, suffix: string)
    requires forall x :: x in names ==> x !in clash
    ensures Suffixed(names, clash, suffix) == names
  {
    var s := Suffixed(names, clash, suffix);
    forall j | 0 <= j < |names|
      ensures s[j] == names[j]
    {
      assert names[j] in names;
    }
  }

  /** Two left joins without overlapping names keep every name, in order. */
  lemma LeftJoinTwiceNoClash(a: Frame, b: Frame, c: Frame)
    requires a.Valid() && b.Valid() && c.Valid()
    requires forall x :: x in b.names ==> x !in a.names
    requires forall x :: x in c.names ==> x !in a.names + b.names
    ensures LeftJoin(LeftJoin(a, b), c).names == a.names + b.names + c.names
  {
    var j1 := LeftJoin(a, b);
    LeftJoinNoClash(a, b);
    assert forall x :: x in c.names ==> x !in j1.names;
    LeftJoinNoClash(j1, c);
  }

  /** Two left joins: the first table's columns come first unchanged, then the
      joined-in columns, each cut down to the first table's labels. */
  lemma LeftJoinTwiceData(a: Frame, b: Frame, c: Frame)
    requires a.Valid() && b.Valid() && c.Valid()
    ensures var j := LeftJoin(LeftJoin(a, b), c);
      && |j.names| == |a.names| + |b.names| + |c.names|
      && (forall i :: 0 <= i < |a.names| ==> j.data[i] == a.data[i])
      && (forall i :: 0 <= i < |b.names| ==> j.data[|a.names| + i] == Restrict(b.data[i], a.labels))
      && (forall i :: 0 <= i < |c.names| ==> j.data[|a.names| + |b.names| + i] == Restrict(c.data[i], a.labels))
  {
    var j1 := LeftJoin(a, b);
    var j := LeftJoin(j1, c);
    assert |j1.names| == |a.names| + |b.names|;
    forall i | 0 <= i < |b.names|
      ensures j.data[|a.names| + i] == Restrict(b.data[i], a.labels)
    {
      assert j.data[|a.names| + i] == j1.data[|a.names| + i];
    }
    forall i | 0 <= i < |c.names|
      ensures j.data[|a.names| + |b.names| + i] == Restrict(c.data[i], a.labels)
    {
      assert j.data[|j1.names| + i] == Restrict(c.data[i], j1.labels);
    }
  }

  /** `f[name] = c` for a scalar `c`: every column called `name` is overwritten in
      place; a new name is appended as the last column. */
  function WithColumn(f: Frame, name: string, c: Cell): (r: Frame)
    requires f.Valid()
    ensures r.Valid() && r.index == f.index && r.labels == f.labels
    ensures name in r.names && |f.names| <= |r.names|
    ensures forall j :: 0 <= j < |r.names| && r.names[j] == name ==> r.data[j] == Constant(f.labels, c)
    ensures forall j :: 0 <= j < |f.names| && f.names[j] != name ==> r.names[j] == f.names[j] && r.data[j] == f.data[j]
    ensures name in f.names ==> r.names == f.names
    ensures name !in f.names ==> r.names == f.names + [name]
  {
    if name in f.names then
      f.(data := seq(|f.data|, j requires 0 <= j < |f.data| => if f.names[j] == name then Constant(f.labels, c) else f.data[j]))
    else
      f.(names := f.names + [name], data := f.data + [Constant(f.labels, c)])
  }

  /** Assigning a new name appends one constant column and leaves the others alone. */
  lemma WithNewColumn(f: Frame, name: string, c: Cell)
    requires f.Valid() && name !in f.names
    ensures var r := WithColumn(f, name, c);
      && r.names == f.names + [name]
      && (forall j :: 0 <= j < |f.names| ==> r.data[j] == f.data[j])
      && r.data[|f.names|] == Constant(f.labels, c)
  {
    var r := WithColumn(f, name, c);
    forall j | 0 <= j < |f.names|
      ensures r.data[j] == f.data[j]
    {
      assert f.names[j] in f.names;
    }
    assert r.names[|f.names|] == name;
  }

  /** `f.reset_index()`: the index levels become the first columns, each label
      contributing its key values. Rows keep their labels. */
  function ResetIndex(f: Frame): (r: Frame)
    requires f.Valid() && |f.index| > 0
    ensures r.Valid() && r.index == [] && r.labels == f.labels
    ensures r.names == f.index + f.names
    ensures r.data[|f.index|..] == f.data
    ensures forall i, k :: 0 <= i < |f.index| && k in f.labels ==> k in r.data[i] && r.data[i][k] == Text(k[i])
  {
    var keyCols := seq(|f.index|, i requires 0 <= i < |f.index| => map k | k in f.labels :: Text(k[i]));
    assert (keyCols + f.data)[|f.index|..] == f.data;
    Frame([], f.labels, f.index + f.names, keyCols + f.data)
  }

  /** `names[:n] + [c + suffix for c in names[n:]]`, with Python's clamped slicing. */
  function RenameAfter(names: seq<string>, n: nat, suffix: string): (r: seq<string>)
    ensures |r| == |names|
    ensures forall j :: 0 <= j < |names| && j < n ==> r[j] == names[j]
    ensures forall j :: n <= j < |names| ==> r[j] == names[j] + suffix
  {
    if n >= |names| then names
    else names[..n] + seq(|names| - n, j requires 0 <= j < |names| - n => names[n + j] + suffix)
  }

  /** A table whose columns are assigned and renamed in place. */
  class Table {
    var index: seq<string>
    var labels: set<Key>
    var names: seq<string>
    var data: seq<map<Key, Cell>>

    function Value(): Frame
      reads this
    {
      Frame(index, labels, names, data)
    }

    ghost predicate Valid()
      reads this
    {
      Value().Valid()
    }

    constructor (f: Frame)
      requires f.Valid()
      ensures Valid() && Value() == f
    {
      index, labels, names, data := f.index, f.labels, f.names, f.data;
    }

    /** `self[name] = c`. */
    method Assign(name: string, c: Cell)
      requires Valid()
      modifies this
      ensures Valid() && Value() == WithColumn(old(Value()), name, c)
    {
      var f := WithColumn(Value(), name, c);
      names, data := f.names, f.data;
    }

    /** `self.columns = newNames`. */
    method SetColumns(newNames: seq<string>)
      requires Valid() && |newNames| == |names|
      modifies this
      ensures Valid() && Value() == old(Value()).(names := newNames)
    {
      names := newNames;
    }
  }
}
