/** `sort_values(col, ascending=False)` and `head(n)`. */
module Ordering {
  import opened Wrappers
  import opened Tables

  /** Every row has a number at position k. */
  predicate KeyedBy(rows: seq<Row>, k: nat)
  {
    forall i :: 0 <= i < |rows| ==> k < |rows[i]| && rows[i][k].Num?
  }

  /** The numbers at position k never increase from one row to a later one. */
  predicate Descending(rows: seq<Row>, k: nat)
  {
    KeyedBy(rows, k) && forall i, j :: 0 <= i < j < |rows| ==> rows[i][k].v >= rows[j][k].v
  }

  /** Number of leading rows whose key is larger than x's. */
  function InsertPos(x: Row, s: seq<Row>, k: nat): (p: nat)
    requires k < |x| && x[k].Num? && KeyedBy(s, k)
    ensures p <= |s|
    ensures forall i :: 0 <= i < p ==> s[i][k].v > x[k].v
    ensures p < |s| ==> x[k].v >= s[p][k].v
  {
    if s == [] || x[k].v >= s[0][k].v then 0 else 1 + InsertPos(x, s[1..], k)
  }

  /** Puts x in front of the first row whose key is not larger. */
  function Insert(x: Row, s: seq<Row>, k: nat): (r: seq<Row>)
    requires k < |x| && x[k].Num? && KeyedBy(s, k)
    ensures |r| == |s| + 1 && KeyedBy(r, k)
  {
    var p := InsertPos(x, s, k);
    var r := s[..p] + [x] + s[p..];
    forall i | 0 <= i < |r|
      ensures k < |r[i]| && r[i][k].Num?
    {
      InsertedAt(s, p, x, i);
    }
    r
  }

  /** Inserting into a descending order keeps it descending. */
  lemma InsertDescending(x: Row, s: seq<Row>, k: nat)
    requires k < |x| && x[k].Num? && Descending(s, k)
    ensures Descending(Insert(x, s, k), k)
  {
    InsertedDescending(x, s, k, InsertPos(x, s, k));
  }

  /** Inserting adds x and nothing else. */
  lemma InsertPermutes(x: Row, s: seq<Row>, k: nat)
    requires k < |x| && x[k].Num? && KeyedBy(s, k)
    ensures multiset(Insert(x, s, k)) == multiset(s) + multiset{x}
  {
    InsertedMultiset(x, s, InsertPos(x, s, k));
  }

  /** x put between the rows with a larger key and the rest keeps the order. */
  lemma InsertedDescending(x: Row, s: seq<Row>, k: nat, p: nat)
    requires k < |x| && x[k].Num? && Descending(s, k) && p <= |s|
    requires forall i :: 0 <= i < p ==> s[i][k].v > x[k].v
    requires p < |s| ==> x[k].v >= s[p][k].v
    ensures Descending(s[..p] + [x] + s[p..], k)
  {
    var r := s[..p] + [x] + s[p..];
    forall i | 0 <= i < |r|
      ensures r[i] == if i < p then s[i] else if i == p then x else s[i - 1]
    {
      InsertedAt(s, p, x, i);
    }
  }

  lemma InsertedMultiset<T>(x: T, s: seq<T>, p: nat)
    requires p <= |s|
    ensures multiset(s[..p] + [x] + s[p..]) == multiset(s) + multiset{x}
  {
    assert s == s[..p] + s[p..];
  }

  /** Insertion sort, highest key first. pandas' default sort is not stable,
      so only the order of keys and the permutation are promised, by
      SortIsDescending and SortPermutes. */
  function SortDescending(rows: seq<Row>, k: nat): (r: seq<Row>)
    requires KeyedBy(rows, k)
    ensures |r| == |rows| && KeyedBy(r, k)
  {
    if rows == [] then []
    else Insert(rows[0], SortDescending(rows[1..], k), k)
  }

  /** The sorted rows never increase in key. */
  lemma {:induction false} SortIsDescending(rows: seq<Row>, k: nat)
    requires KeyedBy(rows, k)
    ensures Descending(SortDescending(rows, k), k)
  {
    if rows != [] {
      SortIsDescending(rows[1..], k);
      InsertDescending(rows[0], SortDescending(rows[1..], k), k);
    }
  }

  /** The sorted rows are the input rows, each as often as in the input. */
  lemma {:induction false} SortPermutes(rows: seq<Row>, k: nat)
    requires KeyedBy(rows, k)
    ensures multiset(SortDescending(rows, k)) == multiset(rows)
  {
    if rows != [] {
      var rest := SortDescending(rows[1..], k);
      SortPermutes(rows[1..], k);
      InsertPermutes(rows[0], rest, k);
      calc {
        multiset(SortDescending(rows, k));
        multiset(Insert(rows[0], rest, k));
        multiset(rest) + multiset{rows[0]};
        multiset(rows[1..]) + multiset{rows[0]};
        { assert rows == [rows[0]] + rows[1..]; }
        multiset(rows);
      }
    }
  }

  /** Sorting keeps every row whole. */
  lemma {:induction false} SortKeepsWidth(rows: seq<Row>, k: nat, width: nat)
    requires KeyedBy(rows, k) && AllWide(rows, width)
    ensures AllWide(SortDescending(rows, k), width)
  {
    if rows != [] {
      SortKeepsWidth(rows[1..], k, width);
      var rest := SortDescending(rows[1..], k);
      var p := InsertPos(rows[0], rest, k);
      assert Insert(rows[0], rest, k) == rest[..p] + [rows[0]] + rest[p..];
    }
  }

  /** Cutting rows down to some columns, keeping the key, commutes with inserting. */
  lemma {:induction false} InsertPosProject(x: Row, s: seq<Row>, k: nat, idx: seq<nat>, width: nat, kk: nat)
    requires |x| == width && AllWide(s, width) && InRow(idx, width)
    requires kk < |idx| && idx[kk] == k
    requires k < |x| && x[k].Num? && KeyedBy(s, k)
    ensures KeyedBy(ProjectRows(s, idx, width), kk)
    ensures InsertPos(PickRow(x, idx), ProjectRows(s, idx, width), kk) == InsertPos(x, s, k)
  {
    if s != [] && x[k].v < s[0][k].v {
      InsertPosProject(x, s[1..], k, idx, width, kk);
      assert ProjectRows(s[1..], idx, width) == ProjectRows(s, idx, width)[1..];
    }
  }

  lemma InsertProject(x: Row, s: seq<Row>, k: nat, idx: seq<nat>, width: nat, kk: nat)
    requires |x| == width && AllWide(s, width) && InRow(idx, width)
    requires kk < |idx| && idx[kk] == k
    requires k < |x| && x[k].Num? && KeyedBy(s, k)
    ensures KeyedBy(ProjectRows(s, idx, width), kk)
    ensures AllWide(Insert(x, s, k), width)
    ensures ProjectRows(Insert(x, s, k), idx, width) == Insert(PickRow(x, idx), ProjectRows(s, idx, width), kk)
  {
    var ps := ProjectRows(s, idx, width);
    InsertPosProject(x, s, k, idx, width, kk);
    var p := InsertPos(x, s, k);
    assert Insert(x, s, k) == s[..p] + [x] + s[p..];
    assert Insert(PickRow(x, idx), ps, kk) == ps[..p] + [PickRow(x, idx)] + ps[p..];
    ProjectInserted(s, p, x, idx, width);
  }

  /** Selecting columns commutes with putting a row at position p. */
  lemma ProjectInserted(s: seq<Row>, p: nat, x: Row, idx: seq<nat>, width: nat)
    requires p <= |s| && |x| == width && AllWide(s, width) && InRow(idx, width)
    ensures AllWide(s[..p] + [x] + s[p..], width)
    ensures ProjectRows(s[..p] + [x] + s[p..], idx, width) ==
              ProjectRows(s, idx, width)[..p] + [PickRow(x, idx)] + ProjectRows(s, idx, width)[p..]
  {
    var r := s[..p] + [x] + s[p..];
    forall i | 0 <= i < |r|
      ensures |r[i]| == width
    {
      InsertedAt(s, p, x, i);
    }
    var ps := ProjectRows(s, idx, width);
    var pr := ProjectRows(r, idx, width);
    var expected := ps[..p] + [PickRow(x, idx)] + ps[p..];
    forall i | 0 <= i < |pr|
      ensures pr[i] == expected[i]
    {
      InsertedAt(s, p, x, i);
      InsertedAt(ps, p, PickRow(x, idx), i);
    }
  }

  /** Where each element of a sequence ends up once x is put at position p. */
  lemma InsertedAt<T>(s: seq<T>, p: nat, x: T, i: nat)
    requires p <= |s| && i <= |s|
    ensures (s[..p] + [x] + s[p..])[i] == if i < p then s[i] else if i == p then x else s[i - 1]
  {
  }

  /** Sorting and then selecting columns gives the same rows, in the same
      order, as selecting first and sorting on the kept key. */
  lemma {:induction false} SortProject(rows: seq<Row>, k: nat, idx: seq<nat>, width: nat, kk: nat)
    requires AllWide(rows, width) && InRow(idx, width) && KeyedBy(rows, k)
    requires kk < |idx| && idx[kk] == k
    ensures KeyedBy(ProjectRows(rows, idx, width), kk)
    ensures AllWide(SortDescending(rows, k), width)
    ensures ProjectRows(SortDescending(rows, k), idx, width) == SortDescending(ProjectRows(rows, idx, width), kk)
  {
    SortKeepsWidth(rows, k, width);
    var prows := ProjectRows(rows, idx, width);
    assert forall i :: 0 <= i < |prows| ==> prows[i][kk] == rows[i][k];
    if rows != [] {
      var rest := SortDescending(rows[1..], k);
      SortProject(rows[1..], k, idx, width, kk);
      assert ProjectRows(rows[1..], idx, width) == prows[1..];
      SortKeepsWidth(rows[1..], k, width);
      InsertProject(rows[0], rest, k, idx, width, kk);
      calc {
        ProjectRows(SortDescending(rows, k), idx, width);
        ProjectRows(Insert(rows[0], rest, k), idx, width);
        Insert(PickRow(rows[0], idx), ProjectRows(rest, idx, width), kk);
        Insert(prows[0], SortDescending(prows[1..], kk), kk);
        SortDescending(prows, kk);
      }
    }
  }

  /** `head(n)`: the first n rows, or all of them when there are fewer. */
  function Head(rows: seq<Row>, n: nat): (r: seq<Row>)
    ensures |r| == if |rows| < n then |rows| else n
    ensures r == rows[..|r|]
  {
    if |rows| < n then rows else rows[..n]
  }

  /** Taking the first rows and selecting columns can be done in either order. */
  lemma HeadProject(rows: seq<Row>, idx: seq<nat>, width: nat, n: nat)
    requires AllWide(rows, width) && InRow(idx, width)
    ensures AllWide(Head(rows, n), width)
    ensures ProjectRows(Head(rows, n), idx, width) == Head(ProjectRows(rows, idx, width), n)
  {
  }

  /** Taking the first n rows of a descending order keeps the best n: no
      row left out has a larger key than a row kept, and kept and left-out
      rows together are the whole table. */
  lemma HeadOfDescending(rows: seq<Row>, k: nat, n: nat)
    requires Descending(rows, k)
    ensures var top := Head(rows, n);
      && Descending(top, k)
      && (forall i, j :: 0 <= i < |top| && |top| <= j < |rows| ==> top[i][k].v >= rows[j][k].v)
      && multiset(top) + multiset(rows[|top|..]) == multiset(rows)
  {
    var top := Head(rows, n);
    assert rows == top + rows[|top|..];
  }

  /** `sort_values(..., ascending=False).head(n)`: min(n, |rows|) rows, highest
      key first, none of the rows left out with a larger key than a row kept. */
  lemma TopOfSorted(rows: seq<Row>, k: nat, n: nat)
    requires KeyedBy(rows, k)
    ensures var sorted := SortDescending(rows, k);
      var top := Head(sorted, n);
      && |top| == (if |rows| < n then |rows| else n)
      && Descending(top, k)
      && (forall i, j :: 0 <= i < |top| && |top| <= j < |rows| ==> top[i][k].v >= sorted[j][k].v)
      && multiset(top) + multiset(sorted[|top|..]) == multiset(rows)
  {
    var sorted := SortDescending(rows, k);
    SortIsDescending(rows, k);
    SortPermutes(rows, k);
    HeadOfDescending(sorted, k, n);
  }

  /** `t.sort_values(name, ascending=False)`: KeyError when the column is absent. */
  function SortByColumn(t: Table, name: string): (r: Result<Table>)
    requires Rectangular(t)
    requires name in t.columns ==> KeyedBy(t.rows, IndexOf(t.columns, name).value)
    ensures r.Err? <==> name !in t.columns
    ensures r.Err? ==> r.error == KeyError(name)
    ensures r.Ok? ==> Rectangular(r.value) && r.value.columns == t.columns
    ensures r.Ok? ==> multiset(r.value.rows) == multiset(t.rows) && |r.value.rows| == |t.rows|
    ensures r.Ok? ==> Descending(r.value.rows, IndexOf(t.columns, name).value)
  {
    match IndexOf(t.columns, name)
    case None => Err(KeyError(name))
    case Some(k) =>
      SortKeepsWidth(t.rows, k, |t.columns|);
      SortIsDescending(t.rows, k);
      SortPermutes(t.rows, k);
      Ok(Table(t.columns, SortDescending(t.rows, k)))
  }
}
