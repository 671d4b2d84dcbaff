/** The second script: long- and short-term shares of the foreigners in each
    district, the ten districts with the highest foreigner ratio, and the
    counts table of all districts. */
module ExtraForeignerAnalysis {
  import opened Wrappers
  import opened Tables
  import opened Normalize
  import opened Ordering
  import opened Ratios

  const LONG_PCT: string := "long_pct"
  const SHORT_PCT: string := "short_pct"

  /** The columns of both output tables, in order. */
  const COUNTS_COLUMNS: seq<string> := [DISTRICT, LONG, SHORT, TOTAL, POPULATION, RATIO, LONG_PCT, SHORT_PCT]

  /** How many districts the top table keeps. */
  const TOP_N: nat := 10

  datatype ExtraOutput = ExtraOutput(top10: Table, counts: Table)

  /** The input labels among the output columns are not the share labels. */
  lemma LabelsApart()
    ensures |COUNTS_COLUMNS| == 8
    ensures COUNTS_COLUMNS[0] == DISTRICT && COUNTS_COLUMNS[1] == LONG && COUNTS_COLUMNS[2] == SHORT
    ensures COUNTS_COLUMNS[3] == TOTAL && COUNTS_COLUMNS[4] == POPULATION && COUNTS_COLUMNS[5] == RATIO
    ensures COUNTS_COLUMNS[6] == LONG_PCT && COUNTS_COLUMNS[7] == SHORT_PCT
    ensures forall k :: 0 <= k < 6 ==> COUNTS_COLUMNS[k] != LONG_PCT && COUNTS_COLUMNS[k] != SHORT_PCT
  {
    var c := COUNTS_COLUMNS;
    assert LONG_PCT[0] == 'l' && SHORT_PCT[0] == 's';
    assert c[0][0] == '자' && c[1][0] == '장' && c[2][0] == '단' && c[3][0] == '전' && c[4][0] == '지' && c[5][0] == '외';
  }

  /** Lines 27-29: `long_pct` and `short_pct`, each the count over the total
      with 0 for a total of 0; the lookups raise KeyError in the order the
      script makes them. */
  function WithShares(n: Table): (r: Result<Table>)
    requires Rectangular(n)
    ensures LONG !in n.columns ==> r == Err(KeyError(LONG))
    ensures LONG in n.columns && TOTAL !in n.columns ==> r == Err(KeyError(TOTAL))
    ensures LONG in n.columns && TOTAL in n.columns && SHORT !in n.columns ==> r.Err? && r.error in {TypeError, KeyError(SHORT)}
    ensures r.Err? ==> r.error.KeyError? || r.error == TypeError
    ensures r.Ok? ==> LONG in n.columns && SHORT in n.columns && TOTAL in n.columns
    ensures r.Ok? ==> Rectangular(r.value) && |r.value.rows| == |n.rows|
    ensures r.Ok? ==> LONG_PCT in r.value.columns && SHORT_PCT in r.value.columns
  {
    match RatioOf(n, LONG, TOTAL, 1.0)
    case Err(e) => Err(e)
    case Ok(long) =>
      var t := WithColumn(n, LONG_PCT, long);
      WithColumnOther(n, LONG_PCT, long, SHORT);
      WithColumnOther(n, LONG_PCT, long, TOTAL);
      match RatioOf(t, SHORT, TOTAL, 1.0)
      case Err(e) => Err(e)
      case Ok(short) =>
        WithColumnOther(t, SHORT_PCT, short, LONG_PCT);
        Ok(WithColumn(t, SHORT_PCT, short))
  }

  /** Every label other than the two share labels keeps its position and
      its cells when the shares are added. */
  lemma SharesKeepOthers(n: Table, other: string)
    requires Rectangular(n) && WithShares(n).Ok? && other != LONG_PCT && other != SHORT_PCT
    ensures var w := WithShares(n).value;
      && (other in w.columns <==> other in n.columns)
      && (other in n.columns ==> IndexOf(w.columns, other) == IndexOf(n.columns, other))
      && (other in n.columns ==> forall i :: 0 <= i < |n.rows| ==>
            w.rows[i][IndexOf(n.columns, other).value] == n.rows[i][IndexOf(n.columns, other).value])
  {
    var long := RatioOf(n, LONG, TOTAL, 1.0).value;
    var t := WithColumn(n, LONG_PCT, long);
    WithColumnOther(n, LONG_PCT, long, SHORT);
    WithColumnOther(n, LONG_PCT, long, TOTAL);
    var short := RatioOf(t, SHORT, TOTAL, 1.0).value;
    WithColumnOther(n, LONG_PCT, long, other);
    WithColumnOther(t, SHORT_PCT, short, other);
  }

  /** Adding the shares does not make any label repeated, nor stop one from
      being repeated, the share labels included. */
  lemma SharesRepeated(n: Table, other: string)
    requires Rectangular(n) && WithShares(n).Ok?
    ensures Repeated(WithShares(n).value.columns, other) <==> Repeated(n.columns, other)
  {
    var long := RatioOf(n, LONG, TOTAL, 1.0).value;
    var t := WithColumn(n, LONG_PCT, long);
    var short := RatioOf(t, SHORT, TOTAL, 1.0).value;
    assert WithShares(n).value == WithColumn(t, SHORT_PCT, short);
    WithColumnRepeated(n, LONG_PCT, long, other);
    WithColumnRepeated(t, SHORT_PCT, short, other);
  }

  /** Row i of the shares: each share cell is the ratio of that row's count
      to its total. */
  lemma SharesRow(n: Table, i: nat)
    requires Rectangular(n) && WithShares(n).Ok? && i < |n.rows|
    ensures var w := WithShares(n).value;
      var a, b, c := IndexOf(n.columns, LONG).value, IndexOf(n.columns, SHORT).value, IndexOf(n.columns, TOTAL).value;
      && Ok(w.rows[i][IndexOf(w.columns, LONG_PCT).value]) == RatioCell(n.rows[i][a], n.rows[i][c], 1.0)
      && Ok(w.rows[i][IndexOf(w.columns, SHORT_PCT).value]) == RatioCell(n.rows[i][b], n.rows[i][c], 1.0)
  {
    var long := RatioOf(n, LONG, TOTAL, 1.0).value;
    var t := WithColumn(n, LONG_PCT, long);
    WithColumnOther(n, LONG_PCT, long, SHORT);
    WithColumnOther(n, LONG_PCT, long, TOTAL);
    var short := RatioOf(t, SHORT, TOTAL, 1.0).value;
    WithColumnOther(t, SHORT_PCT, short, LONG_PCT);
  }

  /** The ratio column, where present, holds a number in every row once the
      shares are added, because it is one of the coerced columns. */
  lemma SharesKeyed(recalc: Table, parse: string -> Option<real>)
    requires Rectangular(recalc) && WithShares(Normalized(recalc, NUMERIC_COLUMNS, parse)).Ok?
    ensures var w := WithShares(Normalized(recalc, NUMERIC_COLUMNS, parse)).value;
      RATIO in w.columns ==> KeyedBy(w.rows, IndexOf(w.columns, RATIO).value)
  {
    var n := Normalized(recalc, NUMERIC_COLUMNS, parse);
    var w := WithShares(n).value;
    LabelsApart();
    SharesKeepOthers(n, RATIO);
    if RATIO in w.columns {
      var j := IndexOf(n.columns, RATIO).value;
      NumericLabels();
      forall i | 0 <= i < |w.rows|
        ensures j < |w.rows[i]| && w.rows[i][j].Num?
      {
        NormalizedCells(recalc, NUMERIC_COLUMNS, parse, i, j);
      }
    }
  }

  /** The rows of a table cut down to the first n. */
  function HeadTable(t: Table, n: nat): (r: Table)
    requires Rectangular(t)
    ensures Rectangular(r) && r.columns == t.columns && r.rows == Head(t.rows, n)
  {
    Table(t.columns, Head(t.rows, n))
  }

  /** Lines 50-56 on the table with the shares: sort by the ratio, keep the
      first ten, and select the output columns of those and of all rows. */
  function Selected(w: Table): (r: Result<ExtraOutput>)
    requires Rectangular(w) && (RATIO in w.columns ==> KeyedBy(w.rows, IndexOf(w.columns, RATIO).value))
    ensures r.Ok? <==> forall k :: 0 <= k < |COUNTS_COLUMNS| ==> COUNTS_COLUMNS[k] in w.columns
    ensures r.Ok? ==> r.value.top10.columns == COUNTS_COLUMNS && r.value.counts.columns == COUNTS_COLUMNS
    ensures r.Ok? ==> Rectangular(r.value.top10) && Rectangular(r.value.counts)
  {
    match SortByColumn(w, RATIO)
    case Err(e) =>
      LabelsApart();
      Err(e)
    case Ok(sorted) =>
      match Project(HeadTable(sorted, TOP_N), COUNTS_COLUMNS)
      case Err(e) => Err(e)
      case Ok(top10) => Ok(ExtraOutput(top10, Project(w, COUNTS_COLUMNS).value))
  }

  /** The top table is the first ten rows of the counts table sorted by
      the ratio, highest first, which is what sorting first and selecting
      the columns afterwards gives. */
  lemma SelectedTop(w: Table, o: ExtraOutput)
    requires Rectangular(w) && (RATIO in w.columns ==> KeyedBy(w.rows, IndexOf(w.columns, RATIO).value))
    requires Selected(w) == Ok(o)
    ensures && |o.counts.rows| == |w.rows|
      && KeyedBy(o.counts.rows, 5)
      && o.top10.rows == Head(SortDescending(o.counts.rows, 5), TOP_N)
  {
    LabelsApart();
    var k := IndexOf(w.columns, RATIO).value;
    var sorted := SortByColumn(w, RATIO).value;
    assert sorted == Table(w.columns, SortDescending(w.rows, k));
    var idx := Lookup(w.columns, COUNTS_COLUMNS).value;
    var width := |w.columns|;
    assert o.counts.rows == ProjectRows(w.rows, idx, width);
    assert InRow(idx, width);
    assert idx[5] == k;
    SortProject(w.rows, k, idx, width, 5);
    HeadProject(SortDescending(w.rows, k), idx, width, TOP_N);
    assert o.top10.rows == ProjectRows(Head(SortDescending(w.rows, k), TOP_N), idx, width);
  }

  /** The counts table is the output columns of the table with the shares. */
  lemma SelectedCounts(w: Table, o: ExtraOutput)
    requires Rectangular(w) && (RATIO in w.columns ==> KeyedBy(w.rows, IndexOf(w.columns, RATIO).value))
    requires Selected(w) == Ok(o)
    ensures Project(w, COUNTS_COLUMNS) == Ok(o.counts)
  {
    LabelsApart();
  }

  /** The best-ten facts on the selection: size, order, and that no row
      left out beats a row kept. */
  lemma SelectedBest(w: Table, o: ExtraOutput)
    requires Rectangular(w) && (RATIO in w.columns ==> KeyedBy(w.rows, IndexOf(w.columns, RATIO).value))
    requires Selected(w) == Ok(o)
    ensures && |o.counts.rows| == |w.rows|
      && |o.top10.rows| == (if |w.rows| < TOP_N then |w.rows| else TOP_N)
      && KeyedBy(o.counts.rows, 5)
      && o.top10.rows == Head(SortDescending(o.counts.rows, 5), TOP_N)
      && Descending(o.top10.rows, 5)
      && (forall i, j :: 0 <= i < |o.top10.rows| && |o.top10.rows| <= j < |o.counts.rows| ==>
            o.top10.rows[i][5].v >= SortDescending(o.counts.rows, 5)[j][5].v)
      && multiset(o.top10.rows) + multiset(SortDescending(o.counts.rows, 5)[|o.top10.rows|..]) == multiset(o.counts.rows)
  {
    SelectedTop(w, o);
    TopOfSorted(o.counts.rows, 5, TOP_N);
  }

  /** A share label names several columns, so `df['long_pct']` or
      `df['short_pct']` is a frame, which has no `tolist` (lines 33-34). */
  predicate SharesRepeatedIn(names: seq<string>)
  {
    Repeated(names, LONG_PCT) || Repeated(names, SHORT_PCT)
  }

  /** Lines 19-56 less plotting and files: load and normalise, add the
      shares, read the district column (line 32: a KeyError when it is
      absent, an AttributeError when the label names several columns),
      fail the same way when a share label names several columns (lines
      33-34), and sort, cut and select. */
  function Extra(recalc: Table, parse: string -> Option<real>): (r: Result<ExtraOutput>)
    requires Rectangular(recalc)
    ensures CoercionFails(TrimAll(recalc.columns), NUMERIC_COLUMNS) ==> r == Err(TypeError)
    ensures WithShares(Normalized(recalc, NUMERIC_COLUMNS, parse)).Ok? && !CoercionFails(TrimAll(recalc.columns), NUMERIC_COLUMNS) ==>
              (DISTRICT !in TrimAll(recalc.columns) ==> r == Err(KeyError(DISTRICT)))
              && (Repeated(TrimAll(recalc.columns), DISTRICT) ==> r == Err(AttributeError))
              && (DISTRICT in TrimAll(recalc.columns) && SharesRepeatedIn(TrimAll(recalc.columns)) ==> r == Err(AttributeError))
    ensures r.Ok? ==> r.value.top10.columns == COUNTS_COLUMNS && r.value.counts.columns == COUNTS_COLUMNS
    ensures r.Ok? ==> Rectangular(r.value.top10) && Rectangular(r.value.counts)
  {
    if CoercionFails(TrimAll(recalc.columns), NUMERIC_COLUMNS) then Err(TypeError)
    else
      var n := Normalized(recalc, NUMERIC_COLUMNS, parse);
      match WithShares(n)
      case Err(e) => Err(e)
      case Ok(w) =>
        LabelsApart();
        SharesKeepOthers(n, DISTRICT);
        SharesRepeated(n, DISTRICT);
        SharesRepeated(n, LONG_PCT);
        SharesRepeated(n, SHORT_PCT);
        if DISTRICT !in w.columns then Err(KeyError(DISTRICT))
        else if Repeated(w.columns, DISTRICT) || SharesRepeatedIn(w.columns) then Err(AttributeError)
        else
          SharesKeyed(recalc, parse);
          Selected(w)
  }

  /** A successful run went through every step: no coercion failure, the
      shares, the district column, and the selection. */
  lemma ExtraSteps(recalc: Table, parse: string -> Option<real>)
    requires Rectangular(recalc) && Extra(recalc, parse).Ok?
    ensures !CoercionFails(TrimAll(recalc.columns), NUMERIC_COLUMNS)
    ensures var n := Normalized(recalc, NUMERIC_COLUMNS, parse);
      && WithShares(n).Ok? && DISTRICT in WithShares(n).value.columns
      && !Repeated(WithShares(n).value.columns, DISTRICT) && !Repeated(n.columns, DISTRICT)
      && !SharesRepeatedIn(WithShares(n).value.columns) && !SharesRepeatedIn(n.columns)
      && (RATIO in WithShares(n).value.columns ==>
            KeyedBy(WithShares(n).value.rows, IndexOf(WithShares(n).value.columns, RATIO).value))
      && Extra(recalc, parse) == Selected(WithShares(n).value)
  {
    LabelsApart();
    SharesKeyed(recalc, parse);
    var n := Normalized(recalc, NUMERIC_COLUMNS, parse);
    SharesRepeated(n, DISTRICT);
    SharesRepeated(n, LONG_PCT);
    SharesRepeated(n, SHORT_PCT);
  }

  /** A successful run's outputs are the selection from the table with the
      shares, which keeps the input's rows; ExtraSteps cut down to that. */
  lemma ExtraSelects(recalc: Table, parse: string -> Option<real>, o: ExtraOutput)
    requires Rectangular(recalc) && Extra(recalc, parse) == Ok(o)
    ensures var n := Normalized(recalc, NUMERIC_COLUMNS, parse);
      && WithShares(n).Ok? && |WithShares(n).value.rows| == |recalc.rows|
      && (RATIO in WithShares(n).value.columns ==>
            KeyedBy(WithShares(n).value.rows, IndexOf(WithShares(n).value.columns, RATIO).value))
      && Selected(WithShares(n).value) == Ok(o)
  {
    ExtraSteps(recalc, parse);
  }

  /** The top table has min(10, n) rows and is the first of the counts rows
      sorted by the ratio, highest first: it is in that order, no row left
      out has a higher ratio than a row kept, and kept and left-out rows
      together are all the rows. */
  lemma TopTen(recalc: Table, parse: string -> Option<real>, o: ExtraOutput)
    requires Rectangular(recalc) && Extra(recalc, parse) == Ok(o)
    ensures && |o.counts.rows| == |recalc.rows|
      && |o.top10.rows| == (if |recalc.rows| < TOP_N then |recalc.rows| else TOP_N)
      && KeyedBy(o.counts.rows, 5)
      && o.top10.rows == Head(SortDescending(o.counts.rows, 5), TOP_N)
      && Descending(o.top10.rows, 5)
      && (forall i, j :: 0 <= i < |o.top10.rows| && |o.top10.rows| <= j < |o.counts.rows| ==>
            o.top10.rows[i][5].v >= SortDescending(o.counts.rows, 5)[j][5].v)
      && multiset(o.top10.rows) + multiset(SortDescending(o.counts.rows, 5)[|o.top10.rows|..]) == multiset(o.counts.rows)
  {
    ExtraSelects(recalc, parse, o);
    var w := WithShares(Normalized(recalc, NUMERIC_COLUMNS, parse)).value;
    SelectedBest(w, o);
  }

  /** The counts table keeps every input row, in input order: its first six
      cells are the row's normalised district, counts and ratio. */
  lemma CountsInOrder(recalc: Table, parse: string -> Option<real>, o: ExtraOutput)
    requires Rectangular(recalc) && Extra(recalc, parse) == Ok(o)
    ensures var n := Normalized(recalc, NUMERIC_COLUMNS, parse);
      && |o.counts.rows| == |recalc.rows|
      && (forall k :: 0 <= k < 6 ==> COUNTS_COLUMNS[k] in n.columns)
      && forall i, k :: 0 <= i < |recalc.rows| && 0 <= k < 6 ==>
           o.counts.rows[i][k] == n.rows[i][IndexOf(n.columns, COUNTS_COLUMNS[k]).value]
  {
    ExtraSteps(recalc, parse);
    var n := Normalized(recalc, NUMERIC_COLUMNS, parse);
    var w := WithShares(n).value;
    SelectedCounts(w, o);
    CountsFromInput(n, w, o.counts);
  }

  /** The first six output columns of the table with the shares are input
      columns, cell for cell. */
  lemma CountsFromInput(n: Table, w: Table, counts: Table)
    requires Rectangular(n) && WithShares(n) == Ok(w) && Project(w, COUNTS_COLUMNS) == Ok(counts)
    ensures |counts.rows| == |n.rows|
    ensures forall k :: 0 <= k < 6 ==> COUNTS_COLUMNS[k] in n.columns
    ensures forall i, k :: 0 <= i < |n.rows| && 0 <= k < 6 ==>
              counts.rows[i][k] == n.rows[i][IndexOf(n.columns, COUNTS_COLUMNS[k]).value]
  {
    forall k | 0 <= k < 6
      ensures COUNTS_COLUMNS[k] in n.columns
    {
      CountsLabel(n, w, k);
    }
    forall i, k | 0 <= i < |n.rows| && 0 <= k < 6
      ensures counts.rows[i][k] == n.rows[i][IndexOf(n.columns, COUNTS_COLUMNS[k]).value]
    {
      CountsCell(n, w, counts, i, k);
    }
  }

  lemma CountsLabel(n: Table, w: Table, k: nat)
    requires Rectangular(n) && WithShares(n) == Ok(w) && k < 6
    requires forall m :: 0 <= m < |COUNTS_COLUMNS| ==> COUNTS_COLUMNS[m] in w.columns
    ensures COUNTS_COLUMNS[k] in n.columns
  {
    LabelsApart();
    SharesKeepOthers(n, COUNTS_COLUMNS[k]);
  }

  /** One cell of the counts table under an input label. */
  lemma CountsCell(n: Table, w: Table, counts: Table, i: nat, k: nat)
    requires Rectangular(n) && WithShares(n) == Ok(w) && Project(w, COUNTS_COLUMNS) == Ok(counts)
    requires i < |n.rows| && k < 6
    ensures COUNTS_COLUMNS[k] in n.columns
    ensures counts.rows[i][k] == n.rows[i][IndexOf(n.columns, COUNTS_COLUMNS[k]).value]
  {
    LabelsApart();
    var name := COUNTS_COLUMNS[k];
    SharesKeepOthers(n, name);
    KeptCell(n, w, name, i);
  }

  /** The counts the shares are made from are coerced, so after loading they
      are numbers in every row. */
  lemma CountsAreNumbers(recalc: Table, parse: string -> Option<real>, i: nat)
    requires Rectangular(recalc) && i < |recalc.rows|
    ensures var n := Normalized(recalc, NUMERIC_COLUMNS, parse);
      forall name :: name in [LONG, SHORT, TOTAL] && name in n.columns ==> n.rows[i][IndexOf(n.columns, name).value].Num?
  {
    var n := Normalized(recalc, NUMERIC_COLUMNS, parse);
    NumericLabels();
    forall name | name in [LONG, SHORT, TOTAL] && name in n.columns
      ensures n.rows[i][IndexOf(n.columns, name).value].Num?
    {
      NormalizedCells(recalc, NUMERIC_COLUMNS, parse, i, IndexOf(n.columns, name).value);
    }
  }

  /** A ratio with unit 1 of two numbers is their quotient, 0 for a zero total. */
  lemma UnitRatio(n: Cell, d: Cell)
    requires n.Num? && d.Num?
    ensures RatioCell(n, d, 1.0) == Ok(Num(SafeDiv(n.v, d.v)))
  {
    assert d.v / 1.0 == d.v;
  }

  /** One cell of a count column, SharesKeepOthers at row i. */
  lemma KeptCell(n: Table, w: Table, other: string, i: nat)
    requires Rectangular(n) && WithShares(n) == Ok(w) && other != LONG_PCT && other != SHORT_PCT
    requires other in n.columns && i < |n.rows|
    ensures IndexOf(w.columns, other) == IndexOf(n.columns, other)
    ensures w.rows[i][IndexOf(n.columns, other).value] == n.rows[i][IndexOf(n.columns, other).value]
  {
    SharesKeepOthers(n, other);
  }

  /** Row i of the shares at the share labels, SharesRow on named tables. */
  lemma SharesCells(n: Table, w: Table, i: nat)
    requires Rectangular(n) && WithShares(n) == Ok(w) && i < |n.rows|
    ensures LONG in n.columns && SHORT in n.columns && TOTAL in n.columns
    ensures var a, b, c := IndexOf(n.columns, LONG).value, IndexOf(n.columns, SHORT).value, IndexOf(n.columns, TOTAL).value;
      && Ok(w.rows[i][IndexOf(w.columns, LONG_PCT).value]) == RatioCell(n.rows[i][a], n.rows[i][c], 1.0)
      && Ok(w.rows[i][IndexOf(w.columns, SHORT_PCT).value]) == RatioCell(n.rows[i][b], n.rows[i][c], 1.0)
  {
    SharesRow(n, i);
  }

  /** Row i of the table with the shares, read through its own labels: the
      counts are numbers when they were before, and each share cell is the
      unit ratio of its count to the total. */
  lemma SharesAtRow(n: Table, w: Table, i: nat)
    requires Rectangular(n) && WithShares(n) == Ok(w) && i < |n.rows|
    requires CellAt(n, i, LONG).Num? && CellAt(n, i, SHORT).Num? && CellAt(n, i, TOTAL).Num?
    ensures Rectangular(w) && i < |w.rows|
    ensures LONG in w.columns && SHORT in w.columns && TOTAL in w.columns
    ensures LONG_PCT in w.columns && SHORT_PCT in w.columns
    ensures CellAt(w, i, LONG).Num? && CellAt(w, i, SHORT).Num? && CellAt(w, i, TOTAL).Num?
    ensures Ok(CellAt(w, i, LONG_PCT)) == RatioCell(CellAt(w, i, LONG), CellAt(w, i, TOTAL), 1.0)
    ensures Ok(CellAt(w, i, SHORT_PCT)) == RatioCell(CellAt(w, i, SHORT), CellAt(w, i, TOTAL), 1.0)
  {
    LabelsApart();
    SharesCells(n, w, i);
    KeptCell(n, w, LONG, i);
    KeptCell(n, w, SHORT, i);
    KeptCell(n, w, TOTAL, i);
  }

  /** Row i of the selection from the shares table: the share cells are the
      quotients of the count cells, given counts that are numbers. */
  lemma SelectedSharesRow(w: Table, counts: Table, i: nat)
    requires Rectangular(w) && Project(w, COUNTS_COLUMNS) == Ok(counts) && i < |w.rows|
    requires LONG in w.columns && SHORT in w.columns && TOTAL in w.columns && LONG_PCT in w.columns && SHORT_PCT in w.columns
    requires CellAt(w, i, LONG).Num? && CellAt(w, i, SHORT).Num? && CellAt(w, i, TOTAL).Num?
    requires Ok(CellAt(w, i, LONG_PCT)) == RatioCell(CellAt(w, i, LONG), CellAt(w, i, TOTAL), 1.0)
    requires Ok(CellAt(w, i, SHORT_PCT)) == RatioCell(CellAt(w, i, SHORT), CellAt(w, i, TOTAL), 1.0)
    ensures i < |counts.rows|
    ensures var c := counts.rows[i];
      && c[1].Num? && c[2].Num? && c[3].Num?
      && c[6] == Num(SafeDiv(c[1].v, c[3].v))
      && c[7] == Num(SafeDiv(c[2].v, c[3].v))
  {
    LabelsApart();
    ShareQuotients(counts.rows[i], CellAt(w, i, LONG), CellAt(w, i, SHORT), CellAt(w, i, TOTAL));
  }

  /** A counts row whose share cells are the unit ratios of its count cells
      holds the plain quotients. */
  lemma ShareQuotients(c: Row, long: Cell, short: Cell, total: Cell)
    requires |c| == 8 && long.Num? && short.Num? && total.Num?
    requires c[1] == long && c[2] == short && c[3] == total
    requires Ok(c[6]) == RatioCell(long, total, 1.0) && Ok(c[7]) == RatioCell(short, total, 1.0)
    ensures c[6] == Num(SafeDiv(c[1].v, c[3].v)) && c[7] == Num(SafeDiv(c[2].v, c[3].v))
  {
    UnitRatio(long, total);
    UnitRatio(short, total);
  }

  /** In every row of the counts table the long-term share is the long-term
      count over the total and the short-term share the short-term count over
      the total, each 0 when the total is 0. */
  lemma CountsShares(recalc: Table, parse: string -> Option<real>, o: ExtraOutput, i: nat)
    requires Rectangular(recalc) && Extra(recalc, parse) == Ok(o) && i < |recalc.rows|
    ensures i < |o.counts.rows|
    ensures var c := o.counts.rows[i];
      && c[1].Num? && c[2].Num? && c[3].Num?
      && c[6] == Num(SafeDiv(c[1].v, c[3].v))
      && c[7] == Num(SafeDiv(c[2].v, c[3].v))
  {
    ExtraSteps(recalc, parse);
    var n := Normalized(recalc, NUMERIC_COLUMNS, parse);
    CountsAreNumbers(recalc, parse, i);
    assert LONG in [LONG, SHORT, TOTAL] && SHORT in [LONG, SHORT, TOTAL] && TOTAL in [LONG, SHORT, TOTAL];
    var w := WithShares(n).value;
    SelectedCounts(w, o);
    SharesAtRow(n, w, i);
    SelectedSharesRow(w, o.counts, i);
  }

  /** The share rules for one row of numbers. */
  lemma ShareRulesRow(c: Row)
    requires |c| == 8 && c[1].Num? && c[2].Num? && c[3].Num?
    requires c[6] == Num(SafeDiv(c[1].v, c[3].v)) && c[7] == Num(SafeDiv(c[2].v, c[3].v))
    ensures c[3].v == 0.0 ==> c[6].v == 0.0 && c[7].v == 0.0
    ensures c[3].v == c[1].v + c[2].v && c[3].v != 0.0 ==> c[6].v + c[7].v == 1.0
    ensures 0.0 <= c[1].v <= c[3].v ==> 0.0 <= c[6].v <= 1.0
    ensures 0.0 <= c[2].v <= c[3].v ==> 0.0 <= c[7].v <= 1.0
  {
    if c[3].v == c[1].v + c[2].v && c[3].v != 0.0 {
      SharesSumToOne(c[1].v, c[2].v, c[3].v);
    }
    if 0.0 <= c[1].v <= c[3].v {
      ShareInUnitInterval(c[1].v, c[3].v);
    }
    if 0.0 <= c[2].v <= c[3].v {
      ShareInUnitInterval(c[2].v, c[3].v);
    }
  }

  /** What the stacked chart relies on, row by row: a zero total gives two
      zero shares; a total made of the two counts gives shares adding up to
      1; counts within the total give shares between 0 and 1. */
  lemma ShareRules(recalc: Table, parse: string -> Option<real>, o: ExtraOutput, i: nat)
    requires Rectangular(recalc) && Extra(recalc, parse) == Ok(o) && i < |recalc.rows|
    ensures i < |o.counts.rows| && |o.counts.rows[i]| == 8
    ensures var c := o.counts.rows[i];
      && c[1].Num? && c[2].Num? && c[3].Num? && c[6].Num? && c[7].Num?
      && (c[3].v == 0.0 ==> c[6].v == 0.0 && c[7].v == 0.0)
      && (c[3].v == c[1].v + c[2].v && c[3].v != 0.0 ==> c[6].v + c[7].v == 1.0)
      && (0.0 <= c[1].v <= c[3].v ==> 0.0 <= c[6].v <= 1.0)
      && (0.0 <= c[2].v <= c[3].v ==> 0.0 <= c[7].v <= 1.0)
  {
    CountsShares(recalc, parse, o, i);
    ShareRulesRow(o.counts.rows[i]);
  }

  /** The shares cannot fail once the three counts are present and hold
      numbers. */
  lemma WithSharesOk(n: Table)
    requires Rectangular(n) && LONG in n.columns && SHORT in n.columns && TOTAL in n.columns
    requires forall name, i :: name in [LONG, SHORT, TOTAL] && 0 <= i < |n.rows| ==> n.rows[i][IndexOf(n.columns, name).value].Num?
    ensures WithShares(n).Ok?
  {
    assert LONG in [LONG, SHORT, TOTAL] && SHORT in [LONG, SHORT, TOTAL] && TOTAL in [LONG, SHORT, TOTAL];
    var long := RatioOf(n, LONG, TOTAL, 1.0);
    assert long.Ok?;
    var t := WithColumn(n, LONG_PCT, long.value);
    WithColumnOther(n, LONG_PCT, long.value, SHORT);
    WithColumnOther(n, LONG_PCT, long.value, TOTAL);
    assert RatioOf(t, SHORT, TOTAL, 1.0).Ok?;
  }

  /** With every output column but the shares present, the selection succeeds. */
  lemma SelectedOk(n: Table)
    requires Rectangular(n) && WithShares(n).Ok?
    requires forall k :: 0 <= k < 6 ==> COUNTS_COLUMNS[k] in n.columns
    ensures var w := WithShares(n).value;
      (RATIO in w.columns ==> KeyedBy(w.rows, IndexOf(w.columns, RATIO).value)) ==> Selected(w).Ok?
    ensures DISTRICT in WithShares(n).value.columns
  {
    var w := WithShares(n).value;
    LabelsApart();
    forall k | 0 <= k < |COUNTS_COLUMNS|
      ensures COUNTS_COLUMNS[k] in w.columns
    {
      if k < 6 {
        SharesKeepOthers(n, COUNTS_COLUMNS[k]);
      }
    }
  }

  /** With no repeated configured label, no repeated district or share label
      and every input column of the outputs present, the second script runs to
      the end. */
  lemma ExtraSucceedsWhen(recalc: Table, parse: string -> Option<real>)
    requires Rectangular(recalc) && !CoercionFails(TrimAll(recalc.columns), NUMERIC_COLUMNS)
    requires !Repeated(TrimAll(recalc.columns), DISTRICT) && !SharesRepeatedIn(TrimAll(recalc.columns))
    requires forall k :: 0 <= k < 6 ==> COUNTS_COLUMNS[k] in TrimAll(recalc.columns)
    ensures Extra(recalc, parse).Ok?
  {
    var n := Normalized(recalc, NUMERIC_COLUMNS, parse);
    LabelsApart();
    forall i | 0 <= i < |n.rows| {
      CountsAreNumbers(recalc, parse, i);
    }
    WithSharesOk(n);
    SelectedOk(n);
    SharesKeyed(recalc, parse);
    SharesRepeated(n, DISTRICT);
    SharesRepeated(n, LONG_PCT);
    SharesRepeated(n, SHORT_PCT);
  }

  /** The second script runs to the end exactly when neither a configured
      label nor the district label nor a share label is repeated after
      stripping and the
      district, the three counts, the population and the ratio are all among
      the stripped labels. */
  lemma ExtraSucceeds(recalc: Table, parse: string -> Option<real>)
    requires Rectangular(recalc)
    ensures Extra(recalc, parse).Ok? <==>
              && !CoercionFails(TrimAll(recalc.columns), NUMERIC_COLUMNS)
              && !Repeated(TrimAll(recalc.columns), DISTRICT)
              && !SharesRepeatedIn(TrimAll(recalc.columns))
              && forall k :: 0 <= k < 6 ==> COUNTS_COLUMNS[k] in TrimAll(recalc.columns)
  {
    if Extra(recalc, parse).Ok? {
      ExtraSteps(recalc, parse);
      CountsInOrder(recalc, parse, Extra(recalc, parse).value);
    } else if && !CoercionFails(TrimAll(recalc.columns), NUMERIC_COLUMNS)
              && !Repeated(TrimAll(recalc.columns), DISTRICT)
              && !SharesRepeatedIn(TrimAll(recalc.columns))
    {
      if forall k :: 0 <= k < 6 ==> COUNTS_COLUMNS[k] in TrimAll(recalc.columns) {
        ExtraSucceedsWhen(recalc, parse);
      }
    }
  }

  /** Lines 27-29 on the frame: `df['long_pct'] = ...`, then `df['short_pct'] = ...`. */
  method AddShares(df: Frame) returns (failure: Option<Error>)
    requires df.Valid()
    modifies df
    ensures df.Valid()
    ensures failure.Some? <==> WithShares(old(df.View())).Err?
    ensures failure.Some? ==> WithShares(old(df.View())) == Err(failure.value)
    ensures failure.None? ==> df.View() == WithShares(old(df.View())).value
  {
    ghost var n := df.View();
    var long := RatioOf(df.View(), LONG, TOTAL, 1.0);
    if long.Err? {
      return Some(long.error);
    }
    df.Assign(LONG_PCT, long.value);
    var short := RatioOf(df.View(), SHORT, TOTAL, 1.0);
    if short.Err? {
      return Some(short.error);
    }
    df.Assign(SHORT_PCT, short.value);
    failure := None;
  }

  /** Lines 16-56 on a frame changed in place: a missing input raises
      FileNotFoundError, otherwise the outputs as specified. */
  method RunExtra(recalc: Option<Table>, parse: string -> Option<real>) returns (r: Result<ExtraOutput>)
    requires recalc.Some? ==> Rectangular(recalc.value)
    ensures recalc.None? ==> r == Err(FileNotFound)
    ensures recalc.Some? ==> r == Extra(recalc.value, parse)
  {
    if recalc.None? {
      return Err(FileNotFound);
    }
    var df := new Frame(recalc.value);
    var ok := NormalizeFrame(df, NUMERIC_COLUMNS, parse);
    if !ok {
      return Err(TypeError);
    }
    var failure := AddShares(df);
    if failure.Some? {
      return Err(failure.value);
    }
    if DISTRICT !in df.columns {
      return Err(KeyError(DISTRICT));
    }
    if Repeated(df.columns, DISTRICT) || SharesRepeatedIn(df.columns) {
      return Err(AttributeError);
    }
    SharesKeyed(recalc.value, parse);
    r := Selected(df.View());
  }
}
