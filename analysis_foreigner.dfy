/** The first script: the summary of foreigners per district, sorted by
    foreigner ratio, and, when fire data is at hand, the summary joined to
    the fire counts with a fire rate per 10,000 residents. */
module AnalysisForeigner {
  import opened Wrappers
  import opened Text
  import opened Tables
  import opened Normalize
  import opened Ordering
  import opened Resolver
  import opened Join
  import opened Ratios

  /** The columns of the summary, in order. */
  const SUMMARY_COLUMNS: seq<string> := [DISTRICT, LONG, SHORT, TOTAL, POPULATION, RATIO]
  const FIRE_RATE: string := "화재율_per10k"

  /** Where the fire branch ended: no fire file, no usable count column, or
      the merged table. */
  datatype FireOutcome = NoFireData | NoCountColumn | Merged(table: Table)

  datatype Output = Output(summary: Table, fire: FireOutcome)

  lemma SummaryIndexes()
    ensures |SUMMARY_COLUMNS| == 6 && SUMMARY_COLUMNS[0] == DISTRICT_KEY && SUMMARY_COLUMNS[5] == RATIO
    ensures IndexOf(SUMMARY_COLUMNS, RATIO) == Some(5)
    ensures IndexOf(SUMMARY_COLUMNS, DISTRICT_KEY) == Some(0)
  {
    var s := SUMMARY_COLUMNS;
    assert s[0][0] == '자' && s[1][0] == '장' && s[2][0] == '단' && s[3][0] == '전' && s[4][0] == '지' && s[5][0] == '외';
    IndexOfAt(s, RATIO, 5);
  }

  /** The ratio column of the selected summary holds a number in every row,
      because it is one of the coerced columns. */
  lemma SummaryKeyed(recalc: Table, parse: string -> Option<real>)
    requires Rectangular(recalc)
    requires Project(Normalized(recalc, NUMERIC_COLUMNS, parse), SUMMARY_COLUMNS).Ok?
    ensures var p := Project(Normalized(recalc, NUMERIC_COLUMNS, parse), SUMMARY_COLUMNS).value;
      IndexOf(p.columns, RATIO) == Some(5) && KeyedBy(p.rows, 5)
  {
    var n := Normalized(recalc, NUMERIC_COLUMNS, parse);
    var p := Project(n, SUMMARY_COLUMNS).value;
    SummaryIndexes();
    NumericLabels();
    var j := IndexOf(n.columns, RATIO).value;
    forall i | 0 <= i < |p.rows|
      ensures 5 < |p.rows[i]| && p.rows[i][5].Num?
    {
      NormalizedCells(recalc, NUMERIC_COLUMNS, parse, i, j);
    }
  }

  /** Lines 43-53: strip and coerce, select the summary columns, sort by the
      ratio, highest first. */
  function SummaryOf(recalc: Table, parse: string -> Option<real>): (r: Result<Table>)
    requires Rectangular(recalc)
    ensures r.Err? <==> CoercionFails(TrimAll(recalc.columns), NUMERIC_COLUMNS)
                        || exists k :: 0 <= k < |SUMMARY_COLUMNS| && SUMMARY_COLUMNS[k] !in TrimAll(recalc.columns)
    ensures r.Err? && CoercionFails(TrimAll(recalc.columns), NUMERIC_COLUMNS) ==> r.error == TypeError
    ensures r.Err? && !CoercionFails(TrimAll(recalc.columns), NUMERIC_COLUMNS) ==>
              r.error.KeyError? && r.error.column in SUMMARY_COLUMNS && r.error.column !in TrimAll(recalc.columns)
    ensures r.Ok? ==> Rectangular(r.value) && r.value.columns == SUMMARY_COLUMNS
    ensures r.Ok? ==> Descending(r.value.rows, 5) && |r.value.rows| == |recalc.rows|
    ensures r.Ok? ==> multiset(r.value.rows) ==
              multiset(Project(Normalized(recalc, NUMERIC_COLUMNS, parse), SUMMARY_COLUMNS).value.rows)
  {
    if CoercionFails(TrimAll(recalc.columns), NUMERIC_COLUMNS) then Err(TypeError)
    else
      var n := Normalized(recalc, NUMERIC_COLUMNS, parse);
      match Project(n, SUMMARY_COLUMNS)
      case Err(e) => Err(e)
      case Ok(p) =>
        SummaryKeyed(recalc, parse);
        SortByColumn(p, RATIO)
  }

  /** Lines 38-53 on a frame changed in place: a missing input file raises
      FileNotFoundError, otherwise the summary as specified. */
  method LoadSummary(recalc: Option<Table>, parse: string -> Option<real>) returns (r: Result<Table>)
    requires recalc.Some? ==> Rectangular(recalc.value)
    ensures recalc.None? ==> r == Err(FileNotFound)
    ensures recalc.Some? ==> r == SummaryOf(recalc.value, parse)
  {
    if recalc.None? {
      return Err(FileNotFound);
    }
    var df := new Frame(recalc.value);
    var ok := NormalizeFrame(df, NUMERIC_COLUMNS, parse);
    if !ok {
      return Err(TypeError);
    }
    var selected := Project(df.View(), SUMMARY_COLUMNS);
    if selected.Err? {
      return Err(selected.error);
    }
    SummaryKeyed(recalc.value, parse);
    r := SortByColumn(selected.value, RATIO);
  }

  /** `astype(str)` on one cell; how a number is written is left to `render`. */
  function AsTextCell(c: Cell, render: real -> string): (r: Cell)
    ensures r.Text?
    ensures c.Text? ==> r == c
    ensures c.Missing? ==> r == Text("nan")
    ensures c.Num? ==> r == Text(render(c.v))
  {
    match c
    case Text(_) => c
    case Missing => Text("nan")
    case Num(v) => Text(render(v))
  }

  function AsText(cells: seq<Cell>, render: real -> string): (r: seq<Cell>)
    ensures |r| == |cells| && forall i :: 0 <= i < |cells| ==> r[i] == AsTextCell(cells[i], render)
  {
    seq(|cells|, i requires 0 <= i < |cells| => AsTextCell(cells[i], render))
  }

  /** The fire header after the count column is renamed (line 84) and the
      district key is resolved (lines 86-91). */
  function FireHeader(names: seq<string>, fireCol: string): (r: seq<string>)
    ensures |r| == |names|
    ensures forall c :: 0 <= c < |names| && names[c] == fireCol ==> r[c] == FIRE_COUNT
  {
    var renamed := Renamed(names, fireCol, FIRE_COUNT);
    assert forall c :: 0 <= c < |names| && names[c] == fireCol ==> DistrictKeyed(renamed)[c] == FIRE_COUNT by {
      forall c | 0 <= c < |names| && names[c] == fireCol
        ensures DistrictKeyed(renamed)[c] == FIRE_COUNT
      {
        DistrictKeyKeepsFireCount(renamed, c);
      }
    }
    DistrictKeyed(renamed)
  }

  /** Lines 84-93 up to the merge: the two-column table of district keys,
      as text, and fire counts. KeyError when no district key was found;
      ValueError when the key or the count label names several columns,
      which the merge or the rate assignment refuses. */
  function FireKeys(fire: Table, fireCol: string, render: real -> string): (r: Result<Table>)
    requires Rectangular(fire) && fireCol in fire.columns
    ensures r.Err? <==> DISTRICT_KEY !in FireHeader(fire.columns, fireCol)
                        || Repeated(FireHeader(fire.columns, fireCol), DISTRICT_KEY)
                        || Repeated(FireHeader(fire.columns, fireCol), FIRE_COUNT)
    ensures DISTRICT_KEY !in FireHeader(fire.columns, fireCol) ==> r == Err(KeyError(DISTRICT_KEY))
    ensures r.Err? && DISTRICT_KEY in FireHeader(fire.columns, fireCol) ==> r.error == ValueError
    ensures r.Ok? ==> Rectangular(r.value) && r.value.columns == [DISTRICT_KEY, FIRE_COUNT]
    ensures r.Ok? ==> |r.value.rows| == |fire.rows|
    ensures r.Ok? ==> forall i :: 0 <= i < |fire.rows| ==> r.value.rows[i][0].Text?
  {
    var names := FireHeader(fire.columns, fireCol);
    if DISTRICT_KEY !in names then Err(KeyError(DISTRICT_KEY))
    else if Repeated(names, DISTRICT_KEY) || Repeated(names, FIRE_COUNT) then Err(ValueError)
    else
      var renamed := Table(names, fire.rows);
      var d := IndexOf(names, DISTRICT_KEY).value;
      var keyed := WithColumn(renamed, DISTRICT_KEY, AsText(Column(renamed, d), render));
      assert FIRE_COUNT in names by {
        var c := IndexOf(fire.columns, fireCol).value;
        assert names[c] == FIRE_COUNT;
      }
      Project(keyed, [DISTRICT_KEY, FIRE_COUNT])
  }

  /** Each row of the fire keys is the row's district cell as text followed
      by its cell in the resolved count column. */
  lemma FireKeysRows(fire: Table, fireCol: string, render: real -> string)
    requires Rectangular(fire) && fireCol in fire.columns && FireKeys(fire, fireCol, render).Ok?
    ensures DISTRICT_KEY in FireHeader(fire.columns, fireCol)
    ensures forall i :: 0 <= i < |fire.rows| ==>
              FireKeys(fire, fireCol, render).value.rows[i] ==
                [AsTextCell(fire.rows[i][IndexOf(FireHeader(fire.columns, fireCol), DISTRICT_KEY).value], render),
                 fire.rows[i][IndexOf(fire.columns, fireCol).value]]
  {
    var names := FireHeader(fire.columns, fireCol);
    var c := IndexOf(fire.columns, fireCol).value;
    var d := IndexOf(names, DISTRICT_KEY).value;
    IndexOfUnique(names, FIRE_COUNT, c);
    var renamed := Table(names, fire.rows);
    var keyed := WithColumn(renamed, DISTRICT_KEY, AsText(Column(renamed, d), render));
    assert keyed.columns == names;
    var r := FireKeys(fire, fireCol, render).value;
    assert r == Project(keyed, [DISTRICT_KEY, FIRE_COUNT]).value;
    forall i | 0 <= i < |fire.rows|
      ensures r.rows[i] == [AsTextCell(fire.rows[i][d], render), fire.rows[i][c]]
    {
      assert r.rows[i][0] == keyed.rows[i][d];
      assert r.rows[i][1] == keyed.rows[i][c];
    }
  }

  /** Renaming a label to the district key only touches a label that carries
      the district mark, which the count label does not. */
  lemma DistrictKeyKeepsFireCount(names: seq<string>, c: nat)
    requires c < |names| && names[c] == FIRE_COUNT
    ensures DistrictKeyed(names)[c] == FIRE_COUNT
  {
    if DISTRICT_KEY !in names {
      var f := FirstMarked(names);
      if f.Some? {
        assert names[f.value] != FIRE_COUNT by {
          assert !Contains(FIRE_COUNT, DISTRICT_MARK) by {
            ContainsChar(FIRE_COUNT, '구');
            assert forall i :: 0 <= i < |FIRE_COUNT| ==> FIRE_COUNT[i] != '구';
          }
        }
        assert DistrictKeyed(names)[c] == FIRE_COUNT;
      }
    }
  }

  /** The columns of the merged table, before the rate is added. */
  const MERGED_COLUMNS: seq<string> := SUMMARY_COLUMNS + [FIRE_COUNT]

  lemma MergedIndexes()
    ensures |MERGED_COLUMNS| == 7
    ensures IndexOf(MERGED_COLUMNS, FIRE_COUNT) == Some(6)
    ensures IndexOf(MERGED_COLUMNS, POPULATION) == Some(4)
    ensures FIRE_RATE !in MERGED_COLUMNS
    ensures IndexOf(MERGED_COLUMNS + [FIRE_RATE], FIRE_RATE) == Some(7)
  {
    var f := MERGED_COLUMNS;
    assert f[0][0] == '자' && f[1][0] == '장' && f[2][0] == '단' && f[3][0] == '전' && f[4][0] == '지' && f[5][0] == '외';
    IndexOfAt(f, FIRE_COUNT, 6);
    IndexOfAt(f, POPULATION, 4);
    RateLabelFresh();
  }

  /** The rate label is a new column of the merged table. */
  lemma RateLabelFresh()
    ensures FIRE_RATE !in MERGED_COLUMNS
    ensures IndexOf(MERGED_COLUMNS + [FIRE_RATE], FIRE_RATE) == Some(7)
  {
    var f := MERGED_COLUMNS;
    assert f[0][0] == '자' && f[1][0] == '장' && f[2][0] == '단' && f[3][0] == '전' && f[4][0] == '지' && f[5][0] == '외';
    assert f[6][0] == '화' && f[6][2] == '건' && FIRE_RATE[0] == '화' && FIRE_RATE[2] == '율';
    assert f[0] != FIRE_RATE && f[1] != FIRE_RATE && f[2] != FIRE_RATE && f[3] != FIRE_RATE;
    assert f[4] != FIRE_RATE && f[5] != FIRE_RATE && f[6] != FIRE_RATE;
    IndexOfAppended(f, FIRE_RATE);
  }

  /** The shape of the merged table after `fillna(0)`: the summary columns
      and the fire count, with no NaN left. */
  predicate FilledShape(m: Table)
  {
    && Rectangular(m) && m.columns == MERGED_COLUMNS
    && forall i, j :: 0 <= i < |m.rows| && 0 <= j < |m.columns| ==> !m.rows[i][j].Missing?
  }

  /** Line 93: `pd.merge(summary, keys, on='자치구', how='left').fillna(0)`. */
  function FilledMerge(summary: Table, keys: Table): (m: Table)
    requires Rectangular(summary) && summary.columns == SUMMARY_COLUMNS
    requires Rectangular(keys) && keys.columns == [DISTRICT_KEY, FIRE_COUNT]
    ensures FilledShape(m) && |m.rows| >= |summary.rows|
  {
    assert DISTRICT_KEY in summary.columns by { SummaryIndexes(); }
    var joined := MergeLeft(summary, DISTRICT_KEY, keys);
    FillNa(joined.value)
  }

  /** Lines 95-96: the fire count per 10,000 residents as a new column,
      0 for a district without residents; TypeError when a count or a
      population is text. */
  function WithRate(merged: Table): (r: Result<Table>)
    requires Rectangular(merged) && merged.columns == MERGED_COLUMNS
    ensures r.Ok? ==> Rectangular(r.value) && r.value.columns == MERGED_COLUMNS + [FIRE_RATE]
    ensures r.Ok? ==> |r.value.rows| == |merged.rows|
    ensures r.Err? ==> r.error == TypeError
  {
    MergedIndexes();
    match RatioOf(merged, FIRE_COUNT, POPULATION, PER_RESIDENTS)
    case Err(e) => Err(e)
    case Ok(rate) => Ok(WithColumn(merged, FIRE_RATE, rate))
  }

  /** Lines 93-96: merge the summary with the fire keys on the district,
      fill NaN with 0, and add the fire rate. */
  function FireJoin(summary: Table, keys: Table): (r: Result<Table>)
    requires Rectangular(summary) && summary.columns == SUMMARY_COLUMNS
    requires Rectangular(keys) && keys.columns == [DISTRICT_KEY, FIRE_COUNT]
    ensures r.Ok? ==> Rectangular(r.value) && r.value.columns == MERGED_COLUMNS + [FIRE_RATE]
    ensures r.Ok? ==> |r.value.rows| >= |summary.rows|
    ensures r.Err? ==> r.error == TypeError
  {
    WithRate(FilledMerge(summary, keys))
  }

  /** A rate cell of the filled merge, where no NaN is left: 0 without
      residents, whatever the count holds, and otherwise the count is a
      number and the cell is its FireRate. */
  lemma RateCell(n: Cell, d: Cell)
    requires !n.Missing? && !d.Missing? && RatioCell(n, d, PER_RESIDENTS).Ok?
    ensures d.Num?
    ensures d.v == 0.0 ==> RatioCell(n, d, PER_RESIDENTS).value == Num(0.0)
    ensures d.v != 0.0 ==> n.Num? && RatioCell(n, d, PER_RESIDENTS).value == Num(FireRate(n.v, d.v))
  {
  }

  /** The rate assignment fails, with TypeError, exactly when some population
      is text, or some fire count is text in a district with residents. */
  lemma WithRateFails(merged: Table)
    requires Rectangular(merged) && merged.columns == MERGED_COLUMNS
    ensures WithRate(merged).Err? <==>
              exists i :: 0 <= i < |merged.rows| && TextBlocks(merged.rows[i][6], merged.rows[i][4])
  {
    MergedIndexes();
    var rate := RatioOf(merged, FIRE_COUNT, POPULATION, PER_RESIDENTS);
    assert WithRate(merged).Err? <==> rate.Err?;
  }

  /** One row of the rate assignment on lines 95-96. */
  lemma RateRow(merged: Table, rate: seq<Cell>, i: nat)
    requires Rectangular(merged) && merged.columns == MERGED_COLUMNS && i < |merged.rows|
    requires !merged.rows[i][6].Missing? && !merged.rows[i][4].Missing?
    requires RatioOf(merged, FIRE_COUNT, POPULATION, PER_RESIDENTS) == Ok(rate)
    ensures merged.rows[i][4].Num?
    ensures merged.rows[i][4].v == 0.0 ==> WithColumn(merged, FIRE_RATE, rate).rows[i] == merged.rows[i] + [Num(0.0)]
    ensures merged.rows[i][4].v != 0.0 ==>
              (&& merged.rows[i][6].Num?
               && WithColumn(merged, FIRE_RATE, rate).rows[i] ==
                    merged.rows[i] + [Num(FireRate(merged.rows[i][6].v, merged.rows[i][4].v))])
  {
    MergedIndexes();
    var n, d := merged.rows[i][6], merged.rows[i][4];
    assert Ok(rate[i]) == RatioCell(n, d, PER_RESIDENTS);
    RateCell(n, d);
  }

  /** On a table without NaN every row of the result is the merged row
      followed by its rate: 0 for a district without residents (even when the
      fire count is text there), otherwise the fire count, a number, per
      10,000 residents. */
  lemma WithRateRows(merged: Table, m: Table)
    requires FilledShape(merged) && WithRate(merged) == Ok(m)
    ensures |m.rows| == |merged.rows|
    ensures forall i :: 0 <= i < |merged.rows| ==>
        && merged.rows[i][4].Num?
        && (merged.rows[i][4].v == 0.0 ==> m.rows[i] == merged.rows[i] + [Num(0.0)])
        && (merged.rows[i][4].v != 0.0 ==>
              (merged.rows[i][6].Num? && m.rows[i] == merged.rows[i] + [Num(FireRate(merged.rows[i][6].v, merged.rows[i][4].v))]))
  {
    var rate := RatioOf(merged, FIRE_COUNT, POPULATION, PER_RESIDENTS).value;
    assert m == WithColumn(merged, FIRE_RATE, rate);
    forall i | 0 <= i < |merged.rows|
      ensures merged.rows[i][4].Num?
      ensures merged.rows[i][4].v == 0.0 ==> m.rows[i] == merged.rows[i] + [Num(0.0)]
      ensures merged.rows[i][4].v != 0.0 ==>
                (merged.rows[i][6].Num? && m.rows[i] == merged.rows[i] + [Num(FireRate(merged.rows[i][6].v, merged.rows[i][4].v))])
    {
      RateRow(merged, rate, i);
    }
  }

  /** With unique district keys in the fire table the merge keeps one row
      per summary row, in order: the summary cells (NaN filled with 0) and
      the district's fire count, 0 when the district has no fire row. */
  lemma FilledMergeRows(summary: Table, keys: Table, i: nat)
    requires Rectangular(summary) && summary.columns == SUMMARY_COLUMNS
    requires Rectangular(keys) && keys.columns == [DISTRICT_KEY, FIRE_COUNT] && UniqueKeys(keys.rows)
    requires i < |summary.rows|
    ensures var m := FilledMerge(summary, keys);
      && |m.rows| == |summary.rows|
      && (forall j :: 0 <= j < 6 ==> m.rows[i][j] == FillCell(summary.rows[i][j]))
      && m.rows[i][6] == FillCell(MatchedValue(keys.rows, summary.rows[i][0]))
      && ((forall q :: 0 <= q < |keys.rows| ==> keys.rows[q][0] != summary.rows[i][0]) ==> m.rows[i][6] == Num(0.0))
  {
    assert IndexOf(summary.columns, DISTRICT_KEY) == Some(0) by { SummaryIndexes(); }
    LeftJoinUnique(summary.rows, 0, |summary.columns|, keys.rows);
  }

  /** Whatever the fire table, with text district keys (as line 92 makes
      them), every merged row whose district no fire row has gets a fire
      count of 0 and so a fire rate of 0. */
  lemma UnmatchedDistrict(summary: Table, keys: Table, m: Table, o: nat)
    requires Rectangular(summary) && summary.columns == SUMMARY_COLUMNS
    requires Rectangular(keys) && keys.columns == [DISTRICT_KEY, FIRE_COUNT]
    requires forall q :: 0 <= q < |keys.rows| ==> keys.rows[q][0].Text?
    requires FireJoin(summary, keys) == Ok(m) && o < |m.rows|
    requires forall q :: 0 <= q < |keys.rows| ==> keys.rows[q][0] != m.rows[o][0]
    ensures |m.rows[o]| == 8 && m.rows[o][6] == Num(0.0) && m.rows[o][7] == Num(0.0)
  {
    UnmatchedRow(summary, keys, FilledMerge(summary, keys), m, o);
  }

  /** UnmatchedDistrict with the filled merge named. */
  lemma UnmatchedRow(summary: Table, keys: Table, merged: Table, m: Table, o: nat)
    requires Rectangular(summary) && summary.columns == SUMMARY_COLUMNS
    requires Rectangular(keys) && keys.columns == [DISTRICT_KEY, FIRE_COUNT]
    requires forall q :: 0 <= q < |keys.rows| ==> keys.rows[q][0].Text?
    requires merged == FilledMerge(summary, keys) && WithRate(merged) == Ok(m) && o < |m.rows|
    requires forall q :: 0 <= q < |keys.rows| ==> keys.rows[q][0] != m.rows[o][0]
    ensures |m.rows[o]| == 8 && m.rows[o][6] == Num(0.0) && m.rows[o][7] == Num(0.0)
  {
    WithRateRows(merged, m);
    assert m.rows[o][0] == merged.rows[o][0];
    FilledUnmatched(summary, keys, o);
    ZeroCountRate(merged, m, o);
  }

  /** A filled merged row whose district key no (text) fire key equals has
      a fire count of 0. */
  lemma FilledUnmatched(summary: Table, keys: Table, o: nat)
    requires Rectangular(summary) && summary.columns == SUMMARY_COLUMNS
    requires Rectangular(keys) && keys.columns == [DISTRICT_KEY, FIRE_COUNT]
    requires forall q :: 0 <= q < |keys.rows| ==> keys.rows[q][0].Text?
    requires o < |FilledMerge(summary, keys).rows|
    requires forall q :: 0 <= q < |keys.rows| ==> keys.rows[q][0] != FilledMerge(summary, keys).rows[o][0]
    ensures FilledMerge(summary, keys).rows[o][6] == Num(0.0)
  {
    assert IndexOf(summary.columns, DISTRICT_KEY) == Some(0) by { SummaryIndexes(); }
    var raw := MergeLeft(summary, DISTRICT_KEY, keys).value;
    var f := FilledMerge(summary, keys);
    assert f == FillNa(raw);
    assert f.rows[o][0] == FillCell(raw.rows[o][0]);
    assert forall q :: 0 <= q < |keys.rows| ==> keys.rows[q][0] != raw.rows[o][0];
    JoinFilledUnmatched(summary, DISTRICT_KEY, keys, o);
  }

  /** A merged row with a fire count of 0 gets a rate of 0. */
  lemma ZeroCountRate(merged: Table, m: Table, i: nat)
    requires FilledShape(merged) && WithRate(merged) == Ok(m)
    requires i < |merged.rows| && merged.rows[i][6] == Num(0.0)
    ensures i < |m.rows| && |m.rows[i]| == 8
    ensures m.rows[i][6] == Num(0.0) && m.rows[i][7] == Num(0.0)
  {
    WithRateRows(merged, m);
    var pop := merged.rows[i][4].v;
    assert FireRate(0.0, pop) == 0.0 by {
      if pop != 0.0 {
        FireRateClosedForm(0.0, pop);
      }
    }
  }

  /** Lines 70-96: skip without fire data or without a count column;
      otherwise rename, key by district as text, merge, fill and rate.
      `keyRepeated` says that the district label names several columns of
      the loaded table: the summary then keeps them all, and the merge on
      line 93 refuses a key that is not unique with ValueError. */
  function FireBranch(summary: Table, keyRepeated: bool, fire: Option<Table>, render: real -> string): (r: Result<FireOutcome>)
    requires Rectangular(summary) && summary.columns == SUMMARY_COLUMNS
    requires fire.Some? ==> Rectangular(fire.value)
    ensures fire.None? ==> r == Ok(NoFireData)
    ensures keyRepeated ==> !(r.Ok? && r.value.Merged?)
    ensures (keyRepeated && fire.Some? && FireColumn(fire.value).Some?
             && FireKeys(fire.value, FireColumn(fire.value).value, render).Ok?) ==> r == Err(ValueError)
    ensures r.Err? ==> r.error == KeyError(DISTRICT_KEY) || r.error == ValueError || r.error == TypeError
    ensures r.Ok? && r.value.Merged? ==> Rectangular(r.value.table) && fire.Some?
  {
    match fire
    case None => Ok(NoFireData)
    case Some(f) =>
      match FireColumn(f)
      case None => Ok(NoCountColumn)
      case Some(c) =>
        FireColumnUnresolved(f);
        match FireKeys(f, c, render)
        case Err(e) => Err(e)
        case Ok(keys) =>
          if keyRepeated then Err(ValueError)
          else match FireJoin(summary, keys)
          case Err(e) => Err(e)
          case Ok(m) => Ok(Merged(m))
  }

  /** The fire branch is skipped exactly when there is no fire file or no
      column qualifies as the count; a merged table has the summary's columns
      and the count and the rate, and at least the summary's rows. */
  lemma FireBranchOutcome(summary: Table, keyRepeated: bool, fire: Option<Table>, render: real -> string)
    requires Rectangular(summary) && summary.columns == SUMMARY_COLUMNS
    requires fire.Some? ==> Rectangular(fire.value)
    ensures FireBranch(summary, keyRepeated, fire, render) == Ok(NoFireData) <==> fire.None?
    ensures FireBranch(summary, keyRepeated, fire, render) == Ok(NoCountColumn) <==>
              fire.Some? && forall m :: 0 <= m < |fire.value.columns| ==>
                !HasFireKeyword(fire.value.columns[m]) && !LooksNumeric(Column(fire.value, m))
    ensures var r := FireBranch(summary, keyRepeated, fire, render);
      r.Ok? && r.value.Merged? ==>
        && r.value.table.columns == SUMMARY_COLUMNS + [FIRE_COUNT, FIRE_RATE]
        && |r.value.table.rows| >= |summary.rows|
  {
    if fire.Some? {
      FireColumnUnresolved(fire.value);
    }
    assert MERGED_COLUMNS + [FIRE_RATE] == SUMMARY_COLUMNS + [FIRE_COUNT, FIRE_RATE];
  }

  /** Lines 70-96 on frames changed in place, as the script runs them. */
  method FireAnalysis(summary: Table, keyRepeated: bool, fire: Option<Table>, render: real -> string)
    returns (r: Result<FireOutcome>)
    requires Rectangular(summary) && summary.columns == SUMMARY_COLUMNS
    requires fire.Some? ==> Rectangular(fire.value)
    ensures r == FireBranch(summary, keyRepeated, fire, render)
  {
    if fire.None? {
      return Ok(NoFireData);
    }
    var f := fire.value;
    var fireCol := ResolveFireColumn(f);
    if fireCol.None? {
      return Ok(NoCountColumn);
    }
    FireColumnUnresolved(f);
    var fireDf := new Frame(f);
    fireDf.SetColumns(Renamed(fireDf.columns, fireCol.value, FIRE_COUNT));
    var names := ResolveDistrictKey(fireDf.columns);
    fireDf.SetColumns(names);
    if DISTRICT_KEY !in fireDf.columns {
      return Err(KeyError(DISTRICT_KEY));
    }
    // A repeated key is refused by the merge, a repeated count label by the
    // rate assignment.
    if Repeated(fireDf.columns, DISTRICT_KEY) || Repeated(fireDf.columns, FIRE_COUNT) {
      return Err(ValueError);
    }
    var d := IndexOf(fireDf.columns, DISTRICT_KEY).value;
    fireDf.Assign(DISTRICT_KEY, AsText(Column(fireDf.View(), d), render));
    var keys := FireKeys(f, fireCol.value, render);
    assert keys == Project(fireDf.View(), [DISTRICT_KEY, FIRE_COUNT]);
    if keyRepeated {
      return Err(ValueError);
    }
    var merged := new Frame(FilledMerge(summary, keys.value));
    MergedIndexes();
    var rate := RatioOf(merged.View(), FIRE_COUNT, POPULATION, PER_RESIDENTS);
    if rate.Err? {
      return Err(rate.error);
    }
    merged.Assign(FIRE_RATE, rate.value);
    r := Ok(Merged(merged.View()));
  }

  /** The whole script, less plotting, files and the correlation. */
  function Analysis(recalc: Option<Table>, fire: Option<Table>, parse: string -> Option<real>,
                    render: real -> string): (r: Result<Output>)
    requires recalc.Some? ==> Rectangular(recalc.value)
    requires fire.Some? ==> Rectangular(fire.value)
    ensures recalc.None? ==> r == Err(FileNotFound)
    ensures recalc.Some? && SummaryOf(recalc.value, parse).Err? ==> r == Err(SummaryOf(recalc.value, parse).error)
    ensures r.Ok? ==> recalc.Some? && Ok(r.value.summary) == SummaryOf(recalc.value, parse)
    ensures r.Ok? ==> r.value.summary.columns == SUMMARY_COLUMNS && Descending(r.value.summary.rows, 5)
    ensures r.Ok? ==> Ok(r.value.fire) == FireBranch(r.value.summary, Repeated(TrimAll(recalc.value.columns), DISTRICT), fire, render)
    ensures r.Ok? && Repeated(TrimAll(recalc.value.columns), DISTRICT) ==> !r.value.fire.Merged?
  {
    match recalc
    case None => Err(FileNotFound)
    case Some(t) =>
      match SummaryOf(t, parse)
      case Err(e) => Err(e)
      case Ok(summary) =>
        match FireBranch(summary, Repeated(TrimAll(t.columns), DISTRICT), fire, render)
        case Err(e) => Err(e)
        case Ok(outcome) => Ok(Output(summary, outcome))
  }

  /** The script in order: the summary first, then the fire branch. */
  method RunAnalysis(recalc: Option<Table>, fire: Option<Table>, parse: string -> Option<real>,
                     render: real -> string) returns (r: Result<Output>)
    requires recalc.Some? ==> Rectangular(recalc.value)
    requires fire.Some? ==> Rectangular(fire.value)
    ensures r == Analysis(recalc, fire, parse, render)
    ensures recalc.None? ==> r == Err(FileNotFound)
    ensures r.Ok? ==> r.value.summary.columns == SUMMARY_COLUMNS && Descending(r.value.summary.rows, 5)
  {
    var summary := LoadSummary(recalc, parse);
    if summary.Err? {
      return Err(summary.error);
    }
    var outcome := FireAnalysis(summary.value, Repeated(TrimAll(recalc.value.columns), DISTRICT), fire, render);
    if outcome.Err? {
      return Err(outcome.error);
    }
    r := Ok(Output(summary.value, outcome.value));
  }
}
