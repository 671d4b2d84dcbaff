/** Tables as the scripts see them: a header of column labels and rows of
    cells, with the handful of pandas operations the scripts apply. */
module Tables {
  import opened Wrappers

  /** One cell: a number, a piece of text, or pandas' missing value (NaN). */
  datatype Cell = Num(v: real) | Text(s: string) | Missing

  type Row = seq<Cell>

  datatype Table = Table(columns: seq<string>, rows: seq<Row>)

  /** Every row has one cell per column. */
  predicate Rectangular(t: Table)
  {
    forall i :: 0 <= i < |t.rows| ==> |t.rows[i]| == |t.columns|
  }

  /** No label occurs twice. */
  predicate Distinct(names: seq<string>)
  {
    forall j, k :: 0 <= j < k < |names| ==> names[j] != names[k]
  }

  /** The label occurs in two places, so pandas' `df[name]` is a frame, not a column. */
  predicate Repeated(names: seq<string>, name: string)
  {
    exists j, k :: 0 <= j < k < |names| && names[j] == name && names[k] == name
  }

  /** Position of the first column carrying the label. */
  function IndexOf(names: seq<string>, name: string): (r: Option<nat>)
    ensures r.None? <==> name !in names
    ensures r.Some? ==> r.value < |names| && names[r.value] == name
    ensures r.Some? ==> forall k :: 0 <= k < r.value ==> names[k] != name
  {
    if |names| == 0 then None
    else if names[0] == name then Some(0)
    else match IndexOf(names[1..], name)
      case None => None
      case Some(k) => Some(k + 1)
  }

  /** A position holding the label with no earlier one holding it is the label's index. */
  lemma IndexOfAt(names: seq<string>, name: string, j: nat)
    requires j < |names| && names[j] == name
    requires forall k :: 0 <= k < j ==> names[k] != name
    ensures IndexOf(names, name) == Some(j)
  {
  }

  /** A label appended to a header without it is found at the end. */
  lemma IndexOfAppended(names: seq<string>, name: string)
    requires name !in names
    ensures IndexOf(names + [name], name) == Some(|names|)
  {
    IndexOfAt(names + [name], name, |names|);
  }

  /** A label held at one position and not repeated has that position as its index. */
  lemma IndexOfUnique(names: seq<string>, name: string, c: nat)
    requires c < |names| && names[c] == name && !Repeated(names, name)
    ensures IndexOf(names, name) == Some(c)
  {
  }

  /** Appending a different label does not change whether a label is repeated. */
  lemma RepeatedAppend(names: seq<string>, added: string, name: string)
    requires added != name
    ensures Repeated(names + [added], name) <==> Repeated(names, name)
  {
    var r := names + [added];
    if Repeated(r, name) {
      var j, k :| 0 <= j < k < |r| && r[j] == name && r[k] == name;
      assert k < |names| && names[j] == name && names[k] == name;
    }
    if Repeated(names, name) {
      var j, k :| 0 <= j < k < |names| && names[j] == name && names[k] == name;
      assert r[j] == name && r[k] == name;
    }
  }

  /** Assigning a column, whether it overwrites or appends, does not change
      whether any label is repeated. */
  lemma WithColumnRepeated(t: Table, name: string, values: seq<Cell>, other: string)
    requires Rectangular(t) && |values| == |t.rows|
    ensures Repeated(WithColumn(t, name, values).columns, other) <==> Repeated(t.columns, other)
  {
    if name !in t.columns {
      if other != name {
        RepeatedAppend(t.columns, name, other);
      }
    }
  }

  /** After the first occurrence there is another one exactly when the label is repeated. */
  lemma RepeatedAfterFirst(names: seq<string>, name: string, j: nat)
    requires IndexOf(names, name) == Some(j)
    ensures Repeated(names, name) <==> name in names[j + 1..]
  {
    if Repeated(names, name) {
      var a, b :| 0 <= a < b < |names| && names[a] == name && names[b] == name;
      assert j <= a;
      assert names[j + 1..][b - j - 1] == name;
    }
    if name in names[j + 1..] {
      var b :| 0 <= b < |names[j + 1..]| && names[j + 1..][b] == name;
      assert names[j + 1 + b] == name;
    }
  }

  /** The cells of column j, top to bottom (`df[c]`). */
  function Column(t: Table, j: nat): (c: seq<Cell>)
    requires Rectangular(t) && j < |t.columns|
    ensures |c| == |t.rows| && forall i :: 0 <= i < |t.rows| ==> c[i] == t.rows[i][j]
  {
    seq(|t.rows|, i requires 0 <= i < |t.rows| => t.rows[i][j])
  }

  /** `t[name][i]`: the cell of row i under the first column carrying the label. */
  function CellAt(t: Table, i: nat, name: string): Cell
    requires Rectangular(t) && i < |t.rows| && name in t.columns
  {
    t.rows[i][IndexOf(t.columns, name).value]
  }

  /** Positions of the labels, or the KeyError pandas raises for the first
      one that is absent. */
  function Lookup(columns: seq<string>, names: seq<string>): (r: Result<seq<nat>>)
    ensures r.Ok? <==> forall k :: 0 <= k < |names| ==> names[k] in columns
    ensures r.Ok? ==> |r.value| == |names|
    ensures r.Ok? ==> forall k :: 0 <= k < |names| ==> Some(r.value[k]) == IndexOf(columns, names[k])
    ensures r.Err? ==> r.error.KeyError? && r.error.column in names && r.error.column !in columns
  {
    if names == [] then Ok([])
    else match IndexOf(columns, names[0])
      case None => Err(KeyError(names[0]))
      case Some(j) =>
        match Lookup(columns, names[1..])
        case Err(e) => Err(e)
        case Ok(js) =>
          assert forall k :: 1 <= k < |names| ==> names[k] == names[1..][k - 1];
          Ok([j] + js)
  }

  predicate InRow(idx: seq<nat>, width: nat)
  {
    forall k :: 0 <= k < |idx| ==> idx[k] < width
  }

  /** The cells of one row at the given positions, in that order. */
  function PickRow(row: Row, idx: seq<nat>): (r: Row)
    requires InRow(idx, |row|)
    ensures |r| == |idx| && forall k :: 0 <= k < |idx| ==> r[k] == row[idx[k]]
  {
    seq(|idx|, k requires 0 <= k < |idx| => row[idx[k]])
  }

  predicate AllWide(rows: seq<Row>, width: nat)
  {
    forall i :: 0 <= i < |rows| ==> |rows[i]| == width
  }

  /** Every row cut down to the given positions, rows kept in order. */
  function ProjectRows(rows: seq<Row>, idx: seq<nat>, width: nat): (r: seq<Row>)
    requires AllWide(rows, width) && InRow(idx, width)
    ensures |r| == |rows| && forall i :: 0 <= i < |rows| ==> r[i] == PickRow(rows[i], idx)
  {
    seq(|rows|, i requires 0 <= i < |rows| => PickRow(rows[i], idx))
  }

  /** `df[[names...]]`: the named columns in the given order, or a KeyError. */
  function Project(t: Table, names: seq<string>): (r: Result<Table>)
    requires Rectangular(t)
    ensures r.Ok? <==> forall k :: 0 <= k < |names| ==> names[k] in t.columns
    ensures r.Err? ==> r.error.KeyError? && r.error.column in names && r.error.column !in t.columns
    ensures r.Ok? ==> Rectangular(r.value) && r.value.columns == names && |r.value.rows| == |t.rows|
    ensures r.Ok? ==> forall i, k :: 0 <= i < |t.rows| && 0 <= k < |names| ==>
                        r.value.rows[i][k] == t.rows[i][IndexOf(t.columns, names[k]).value]
  {
    match Lookup(t.columns, names)
    case Err(e) => Err(e)
    case Ok(idx) => Ok(Table(names, ProjectRows(t.rows, idx, |t.columns|)))
  }

  /** `df[name] = values`: overwrite the column carrying the label, or add it at the end. */
  function WithColumn(t: Table, name: string, values: seq<Cell>): (r: Table)
    requires Rectangular(t) && |values| == |t.rows|
    ensures Rectangular(r) && |r.rows| == |t.rows| && name in r.columns
    ensures r.columns == if name in t.columns then t.columns else t.columns + [name]
    ensures forall i :: 0 <= i < |t.rows| ==> r.rows[i][IndexOf(r.columns, name).value] == values[i]
    ensures forall i, j :: 0 <= i < |t.rows| && 0 <= j < |t.columns| && j != IndexOf(r.columns, name).value ==>
              r.rows[i][j] == t.rows[i][j]
  {
    match IndexOf(t.columns, name)
    case Some(j) =>
      Table(t.columns, seq(|t.rows|, i requires 0 <= i < |t.rows| => t.rows[i][j := values[i]]))
    case None =>
      var r := Table(t.columns + [name], seq(|t.rows|, i requires 0 <= i < |t.rows| => t.rows[i] + [values[i]]));
      assert IndexOf(r.columns, name) == Some(|t.columns|) by {
        assert r.columns[|t.columns|] == name;
      }
      r
  }

  /** Assigning one column leaves every other label where it was, with its cells. */
  lemma WithColumnOther(t: Table, name: string, values: seq<Cell>, other: string)
    requires Rectangular(t) && |values| == |t.rows| && other != name
    ensures var r := WithColumn(t, name, values);
      && (other in r.columns <==> other in t.columns)
      && (other in t.columns ==> IndexOf(r.columns, other) == IndexOf(t.columns, other))
      && (other in t.columns ==> forall i :: 0 <= i < |t.rows| ==>
            r.rows[i][IndexOf(t.columns, other).value] == t.rows[i][IndexOf(t.columns, other).value])
  {
    var r := WithColumn(t, name, values);
    if other in t.columns {
      var j := IndexOf(t.columns, other).value;
      IndexOfAt(r.columns, other, j);
    }
  }

  /** `rename(columns={from: to})`: every label equal to `from` becomes `to`. */
  function Renamed(names: seq<string>, from: string, to: string): (r: seq<string>)
    ensures |r| == |names|
    ensures forall k :: 0 <= k < |names| && names[k] != from ==> r[k] == names[k]
    ensures forall k :: 0 <= k < |names| && names[k] == from ==> r[k] == to
  {
    seq(|names|, k requires 0 <= k < |names| => if names[k] == from then to else names[k])
  }

  /** `fillna(0)` on one cell: a missing value becomes 0, anything else stays. */
  function FillCell(c: Cell): (r: Cell)
    ensures !r.Missing?
    ensures c.Missing? ==> r == Num(0.0)
    ensures !c.Missing? ==> r == c
  {
    if c.Missing? then Num(0.0) else c
  }

  /** `fillna(0)` on a whole table. */
  function FillNa(t: Table): (r: Table)
    requires Rectangular(t)
    ensures Rectangular(r) && r.columns == t.columns && |r.rows| == |t.rows|
    ensures forall i, j :: 0 <= i < |t.rows| && 0 <= j < |t.columns| ==> r.rows[i][j] == FillCell(t.rows[i][j])
  {
    Table(t.columns, seq(|t.rows|, i requires 0 <= i < |t.rows| =>
      seq(|t.rows[i]|, j requires 0 <= j < |t.rows[i]| => FillCell(t.rows[i][j]))))
  }

  /** A pandas DataFrame that a script changes in place. */
  class Frame {
    var columns: seq<string>
    var rows: seq<Row>

    function View(): Table
      reads this
    {
      Table(columns, rows)
    }

    predicate Valid()
      reads this
    {
      Rectangular(View())
    }

    constructor (t: Table)
      requires Rectangular(t)
      ensures Valid() && View() == t
    {
      columns := t.columns;
      rows := t.rows;
    }

    /** `df.columns = names`. */
    method SetColumns(names: seq<string>)
      requires Valid() && |names| == |columns|
      modifies this
      ensures Valid() && View() == Table(names, old(rows))
    {
      columns := names;
    }

    /** `df[name] = values`. */
    method Assign(name: string, values: seq<Cell>)
      requires Valid() && |values| == |rows|
      modifies this
      ensures Valid() && View() == WithColumn(old(View()), name, values)
      ensures columns == if name in old(columns) then old(columns) else old(columns) + [name]
    {
      var t := WithColumn(View(), name, values);
      columns, rows := t.columns, t.rows;
    }
  }
}
