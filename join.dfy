/** `pd.merge(left, right, on=key, how='left')` with a two-column right-hand
    table of keys and values, followed by `fillna(0)`. */
module Join {
  import opened Wrappers
  import opened Tables

  /** The values of the right-hand rows whose key is `key`, in right-hand order. */
  function Matches(right: seq<Row>, key: Cell): (r: seq<Cell>)
    requires AllWide(right, 2)
    ensures |r| <= |right|
    ensures r == [] <==> forall q :: 0 <= q < |right| ==> right[q][0] != key
    ensures forall m :: 0 <= m < |r| ==> exists q :: 0 <= q < |right| && right[q] == [key, r[m]]
    ensures forall q :: 0 <= q < |right| && right[q][0] == key ==> right[q][1] in r
  {
    if right == [] then []
    else
      var rest := Matches(right[1..], key);
      assert forall q :: 1 <= q < |right| ==> right[q] == right[1..][q - 1];
      assert right[0] == [right[0][0], right[0][1]];
      if right[0][0] == key then [right[0][1]] + rest else rest
  }

  /** The matches of two blocks of right-hand rows are those of the first
      block followed by those of the second: every matching row contributes
      its value once, in right-hand order. */
  lemma {:induction false} MatchesConcat(a: seq<Row>, b: seq<Row>, key: Cell)
    requires AllWide(a, 2) && AllWide(b, 2)
    ensures AllWide(a + b, 2)
    ensures Matches(a + b, key) == Matches(a, key) + Matches(b, key)
  {
    AllWideConcat(a, b, 2);
    if a == [] {
      assert a + b == b;
    } else {
      var ab := a + b;
      assert ab[0] == a[0] && ab[1..] == a[1..] + b;
      AllWideConcat(a[1..], b, 2);
      MatchesConcat(a[1..], b, key);
      var first: seq<Cell> := if a[0][0] == key then [a[0][1]] else [];
      assert Matches(ab, key) == first + Matches(a[1..] + b, key);
      assert Matches(a, key) == first + Matches(a[1..], key);
    }
  }

  /** One right-hand row matches with its value exactly when it has the key. */
  lemma MatchesOne(row: Row, key: Cell)
    requires |row| == 2
    ensures Matches([row], key) == if row[0] == key then [row[1]] else []
  {
    assert [row][1..] == [];
  }

  /** No key occurs in two right-hand rows. */
  predicate UniqueKeys(right: seq<Row>)
    requires AllWide(right, 2)
  {
    forall a, b :: 0 <= a < b < |right| ==> right[a][0] != right[b][0]
  }

  /** With unique keys a key matches at most one value: the one in its row. */
  lemma {:induction false} MatchesUnique(right: seq<Row>, key: Cell, q: nat)
    requires AllWide(right, 2) && UniqueKeys(right)
    requires q < |right| && right[q][0] == key
    ensures Matches(right, key) == [right[q][1]]
  {
    var rest := right[1..];
    assert forall p :: 1 <= p < |right| ==> right[p] == rest[p - 1];
    if q == 0 {
      assert forall p :: 0 <= p < |rest| ==> rest[p][0] != key;
      assert Matches(rest, key) == [];
    } else {
      MatchesUnique(rest, key, q - 1);
    }
  }

  /** The output rows for one left-hand row: one per match, or one with NaN
      in the value column when nothing matches. */
  function JoinRow(row: Row, ms: seq<Cell>): (r: seq<Row>)
    ensures |r| == if ms == [] then 1 else |ms|
    ensures ms == [] ==> r == [row + [Missing]]
    ensures forall q :: 0 <= q < |ms| ==> r[q] == row + [ms[q]]
  {
    if ms == [] then [row + [Missing]]
    else seq(|ms|, q requires 0 <= q < |ms| => row + [ms[q]])
  }

  /** The rows of the left merge, left-hand rows kept in their order. */
  function LeftJoinRows(left: seq<Row>, k: nat, width: nat, right: seq<Row>): (r: seq<Row>)
    requires AllWide(left, width) && k < width && AllWide(right, 2)
    ensures |r| >= |left|
    ensures AllWide(r, width + 1)
  {
    if left == [] then []
    else JoinRow(left[0], Matches(right, left[0][k])) + LeftJoinRows(left[1..], k, width, right)
  }

  /** The value cell of an output row with key `key`: NaN when no right-hand
      row has the key, otherwise the value of some right-hand row with it. */
  predicate JoinedCell(right: seq<Row>, key: Cell, v: Cell)
    requires AllWide(right, 2)
  {
    || (v == Missing && forall q :: 0 <= q < |right| ==> right[q][0] != key)
    || exists q :: 0 <= q < |right| && right[q] == [key, v]
  }

  /** An output row is a left-hand row followed by a cell joined to its key. */
  predicate JoinedRow(left: seq<Row>, k: nat, width: nat, right: seq<Row>, o: Row)
    requires k < width && AllWide(right, 2)
  {
    |o| == width + 1 && o[..width] in left && JoinedCell(right, o[k], o[width])
  }

  /** Whatever the keys, every output row of the merge is some left-hand row
      followed by NaN (no right-hand row has its key) or by the value of a
      right-hand row with its key. */
  lemma {:induction false} LeftJoinSound(left: seq<Row>, k: nat, width: nat, right: seq<Row>)
    requires AllWide(left, width) && k < width && AllWide(right, 2)
    ensures forall o :: 0 <= o < |LeftJoinRows(left, k, width, right)| ==>
              JoinedRow(left, k, width, right, LeftJoinRows(left, k, width, right)[o])
  {
    if left != [] {
      var r := LeftJoinRows(left, k, width, right);
      var head := JoinRow(left[0], Matches(right, left[0][k]));
      var rest := LeftJoinRows(left[1..], k, width, right);
      assert r == head + rest;
      LeftJoinSound(left[1..], k, width, right);
      forall o | 0 <= o < |r|
        ensures JoinedRow(left, k, width, right, r[o])
      {
        if o < |head| {
          assert r[o] == head[o];
          JoinRowJoined(left[0], k, width, right, o);
        } else {
          var p := o - |head|;
          assert r[o] == rest[p];
          assert JoinedRow(left[1..], k, width, right, rest[p]);
          JoinedRowTail(left, k, width, right, rest[p]);
        }
      }
    }
  }

  /** Each row for one left-hand row is that row and a cell joined to its key. */
  lemma JoinRowJoined(row: Row, k: nat, width: nat, right: seq<Row>, o: nat)
    requires |row| == width && k < width && AllWide(right, 2)
    requires o < |JoinRow(row, Matches(right, row[k]))|
    ensures var x := JoinRow(row, Matches(right, row[k]))[o];
      |x| == width + 1 && x[..width] == row && x[k] == row[k] && JoinedCell(right, row[k], x[width])
  {
    var ms := Matches(right, row[k]);
    var x := JoinRow(row, ms)[o];
    if ms == [] {
      assert x == row + [Missing];
    } else {
      assert x == row + [ms[o]];
    }
  }

  lemma JoinedRowTail(left: seq<Row>, k: nat, width: nat, right: seq<Row>, x: Row)
    requires left != [] && k < width && AllWide(right, 2) && JoinedRow(left[1..], k, width, right, x)
    ensures JoinedRow(left, k, width, right, x)
  {
    assert left == [left[0]] + left[1..];
  }

  /** The value joined to a key: the matching value, or NaN for no match. */
  function MatchedValue(right: seq<Row>, key: Cell): (c: Cell)
    requires AllWide(right, 2) && UniqueKeys(right)
    ensures (forall q :: 0 <= q < |right| ==> right[q][0] != key) ==> c == Missing
    ensures forall q :: 0 <= q < |right| && right[q][0] == key ==> c == right[q][1]
  {
    var ms := Matches(right, key);
    forall q | 0 <= q < |right| && right[q][0] == key
      ensures ms == [right[q][1]]
    {
      MatchesUnique(right, key, q);
    }
    if ms == [] then Missing else ms[0]
  }

  /** With unique right-hand keys the merge has exactly one row per left-hand
      row, in the same order: the left row followed by its matched value. */
  lemma {:induction false} LeftJoinUnique(left: seq<Row>, k: nat, width: nat, right: seq<Row>)
    requires AllWide(left, width) && k < width && AllWide(right, 2) && UniqueKeys(right)
    ensures var r := LeftJoinRows(left, k, width, right);
      && |r| == |left|
      && forall i :: 0 <= i < |left| ==> r[i] == left[i] + [MatchedValue(right, left[i][k])]
  {
    if left != [] {
      LeftJoinUnique(left[1..], k, width, right);
      var rest := LeftJoinRows(left[1..], k, width, right);
      JoinRowUnique(left[0], left[0][k], right);
      var r := LeftJoinRows(left, k, width, right);
      assert r == [left[0] + [MatchedValue(right, left[0][k])]] + rest;
      forall i | 0 <= i < |left|
        ensures r[i] == left[i] + [MatchedValue(right, left[i][k])]
      {
        if i > 0 {
          assert r[i] == rest[i - 1] && left[i] == left[1..][i - 1];
        }
      }
    }
  }

  /** With unique right-hand keys one left-hand row gives exactly one output row. */
  lemma JoinRowUnique(row: Row, key: Cell, right: seq<Row>)
    requires AllWide(right, 2) && UniqueKeys(right)
    ensures JoinRow(row, Matches(right, key)) == [row + [MatchedValue(right, key)]]
  {
    var ms := Matches(right, key);
    if ms != [] {
      var q :| 0 <= q < |right| && right[q] == [key, ms[0]];
      MatchesUnique(right, key, q);
    }
  }

  /** Whatever the keys, the merge lays out the left-hand rows in order: the
      rows for a prefix come first, those for the rest after them. */
  lemma {:induction false} LeftJoinInOrder(a: seq<Row>, b: seq<Row>, k: nat, width: nat, right: seq<Row>)
    requires AllWide(a, width) && AllWide(b, width) && k < width && AllWide(right, 2)
    ensures AllWide(a + b, width)
    ensures LeftJoinRows(a + b, k, width, right) == LeftJoinRows(a, k, width, right) + LeftJoinRows(b, k, width, right)
  {
    AllWideConcat(a, b, width);
    if a == [] {
      assert a + b == b;
    } else {
      var ab := a + b;
      assert ab[0] == a[0] && ab[1..] == a[1..] + b;
      AllWideConcat(a[1..], b, width);
      LeftJoinInOrder(a[1..], b, k, width, right);
      var head := JoinRow(a[0], Matches(right, a[0][k]));
      var ra, rb := LeftJoinRows(a[1..], k, width, right), LeftJoinRows(b, k, width, right);
      calc {
        LeftJoinRows(ab, k, width, right);
        head + LeftJoinRows(a[1..] + b, k, width, right);
        head + (ra + rb);
        { assert head + (ra + rb) == (head + ra) + rb; }
        (head + ra) + rb;
      }
    }
  }

  lemma AllWideConcat(a: seq<Row>, b: seq<Row>, width: nat)
    requires AllWide(a, width) && AllWide(b, width)
    ensures AllWide(a + b, width)
  {
    forall i | 0 <= i < |a + b|
      ensures |(a + b)[i]| == width
    {
      if i >= |a| { assert (a + b)[i] == b[i - |a|]; }
    }
  }

  /** Whatever the keys, every left-hand row survives: some output row starts
      with it. */
  lemma {:induction false} LeftJoinKeepsRows(left: seq<Row>, k: nat, width: nat, right: seq<Row>, i: nat)
    requires AllWide(left, width) && k < width && AllWide(right, 2) && i < |left|
    ensures exists o :: 0 <= o < |LeftJoinRows(left, k, width, right)| && LeftJoinRows(left, k, width, right)[o][..width] == left[i]
  {
    var r := LeftJoinRows(left, k, width, right);
    var first := JoinRow(left[0], Matches(right, left[0][k]));
    assert first[0][..width] == left[0];
    if i == 0 {
      assert r[0] == first[0];
    } else {
      LeftJoinKeepsRows(left[1..], k, width, right, i - 1);
      var rest := LeftJoinRows(left[1..], k, width, right);
      var o :| 0 <= o < |rest| && rest[o][..width] == left[1..][i - 1];
      assert r[|first| + o] == rest[o];
    }
  }

  /** Whatever the keys, after `fillna(0)` every merged row whose key no
      right-hand row has carries 0 in the value column. */
  lemma JoinFilledUnmatched(left: Table, on: string, right: Table, o: nat)
    requires Rectangular(left) && Rectangular(right) && |right.columns| == 2 && right.columns[0] == on
    requires on in left.columns && o < |MergeLeft(left, on, right).value.rows|
    requires var key := MergeLeft(left, on, right).value.rows[o][IndexOf(left.columns, on).value];
      forall q :: 0 <= q < |right.rows| ==> right.rows[q][0] != key
    ensures FillNa(MergeLeft(left, on, right).value).rows[o][|left.columns|] == Num(0.0)
  {
    var k := IndexOf(left.columns, on).value;
    var m := MergeLeft(left, on, right).value;
    assert m.rows == LeftJoinRows(left.rows, k, |left.columns|, right.rows);
    assert JoinedRow(left.rows, k, |left.columns|, right.rows, m.rows[o]) by {
      LeftJoinSound(left.rows, k, |left.columns|, right.rows);
    }
    assert m.rows[o][|left.columns|] == Missing;
  }

  /** `pd.merge(left, right, on=on, how='left')` for a right-hand table of
      two columns, the key `on` and one value column. */
  function MergeLeft(left: Table, on: string, right: Table): (r: Result<Table>)
    requires Rectangular(left) && Rectangular(right) && |right.columns| == 2 && right.columns[0] == on
    ensures r.Err? <==> on !in left.columns
    ensures r.Err? ==> r.error == KeyError(on)
    ensures r.Ok? ==> Rectangular(r.value) && r.value.columns == left.columns + [right.columns[1]]
    ensures r.Ok? ==> |r.value.rows| >= |left.rows|
  {
    match IndexOf(left.columns, on)
    case None => Err(KeyError(on))
    case Some(k) => Ok(Table(left.columns + [right.columns[1]], LeftJoinRows(left.rows, k, |left.columns|, right.rows)))
  }

  /** After `fillna(0)`, a left-hand row without a match gets a value of 0
      and a matched row gets its value, NaN again becoming 0. */
  lemma JoinFilled(left: Table, on: string, right: Table, i: nat)
    requires Rectangular(left) && Rectangular(right) && |right.columns| == 2 && right.columns[0] == on
    requires UniqueKeys(right.rows) && on in left.columns && i < |left.rows|
    ensures var j := IndexOf(left.columns, on).value;
      var filled := FillNa(MergeLeft(left, on, right).value);
      && |filled.rows| == |left.rows|
      && filled.rows[i][|left.columns|] == FillCell(MatchedValue(right.rows, left.rows[i][j]))
      && ((forall q :: 0 <= q < |right.rows| ==> right.rows[q][0] != left.rows[i][j]) ==>
            filled.rows[i][|left.columns|] == Num(0.0))
  {
    LeftJoinUnique(left.rows, IndexOf(left.columns, on).value, |left.columns|, right.rows);
  }
}
