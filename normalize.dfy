/** Loading step shared by both scripts: column labels are stripped, and the
    configured count columns are coerced to numbers with 0 for anything
    that does not parse. */
module Normalize {
  import opened Wrappers
  import opened Text
  import opened Tables

  /** Labels of the recalculated-foreigners table. */
  const DISTRICT: string := "자치구"
  const LONG: string := "장기외국인수"
  const SHORT: string := "단기외국인수"
  const TOTAL: string := "전체외국인수"
  const POPULATION: string := "지역인구"
  const RATIO: string := "외국인비율(%)"

  /** The count columns both scripts coerce, in the order they are visited. */
  const NUMERIC_COLUMNS: seq<string> := [LONG, SHORT, TOTAL, POPULATION, RATIO]

  lemma NumericLabels()
    ensures |NUMERIC_COLUMNS| == 5
    ensures NUMERIC_COLUMNS[0] == LONG && NUMERIC_COLUMNS[1] == SHORT && NUMERIC_COLUMNS[2] == TOTAL
    ensures NUMERIC_COLUMNS[3] == POPULATION && NUMERIC_COLUMNS[4] == RATIO
    ensures RATIO in NUMERIC_COLUMNS
  {
  }

  /** `pd.to_numeric(x, errors='coerce').fillna(0)` on one cell. What counts as
      a number in text is left to `parse`; a failed parse is a missing value,
      which the fill turns into 0. */
  function Coerce(c: Cell, parse: string -> Option<real>): (r: Cell)
    ensures r.Num?
    ensures c.Num? ==> r == c
    ensures c.Missing? ==> r == Num(0.0)
    ensures c.Text? && parse(c.s).None? ==> r == Num(0.0)
    ensures c.Text? && parse(c.s).Some? ==> r == Num(parse(c.s).value)
  {
    match c
    case Num(_) => c
    case Missing => Num(0.0)
    case Text(s) =>
      match parse(s)
      case Some(v) => Num(v)
      case None => Num(0.0)
  }

  function CoerceColumn(cells: seq<Cell>, parse: string -> Option<real>): (r: seq<Cell>)
    ensures |r| == |cells| && forall i :: 0 <= i < |cells| ==> r[i] == Coerce(cells[i], parse)
  {
    seq(|cells|, i requires 0 <= i < |cells| => Coerce(cells[i], parse))
  }

  /** `df.columns.str.strip()`. */
  function TrimAll(names: seq<string>): (r: seq<string>)
    ensures |r| == |names| && forall k :: 0 <= k < |names| ==> r[k] == Strip(names[k])
  {
    seq(|names|, k requires 0 <= k < |names| => Strip(names[k]))
  }

  /** r is s with whitespace removed at the two ends and nowhere else. */
  ghost predicate TrimmedFrom(s: string, r: string)
  {
    Trimmed(r) && exists i :: PaddedAt(s, r, i)
  }

  /** Trimming keeps the number and the order of the columns, and changes
      each label only by whitespace at its two ends. */
  lemma TrimAllOnlyEdges(names: seq<string>)
    ensures |TrimAll(names)| == |names|
    ensures forall k :: 0 <= k < |names| ==> TrimmedFrom(names[k], TrimAll(names)[k])
  {
    forall k | 0 <= k < |names|
      ensures TrimmedFrom(names[k], TrimAll(names)[k])
    {
      assert TrimAll(names)[k] == Strip(names[k]);
      StripIsInfix(names[k]);
    }
  }

  /** Trimming labels that are already trimmed changes nothing, so loading
      twice is loading once. */
  lemma TrimAllIdempotent(names: seq<string>)
    ensures TrimAll(TrimAll(names)) == TrimAll(names)
  {
    forall k | 0 <= k < |names|
      ensures TrimAll(TrimAll(names))[k] == TrimAll(names)[k]
    {
      StripIdempotent(names[k]);
    }
  }

  /** Some configured label names two columns once trimmed: `df[c]` is then a
      frame, and `pd.to_numeric` raises TypeError on it. */
  predicate CoercionFails(names: seq<string>, numeric: seq<string>)
  {
    exists k :: 0 <= k < |numeric| && Repeated(names, numeric[k])
  }

  /** The table the loading step produces when it does not raise. */
  function Normalized(t: Table, numeric: seq<string>, parse: string -> Option<real>): (r: Table)
    requires Rectangular(t)
    ensures Rectangular(r) && r.columns == TrimAll(t.columns) && |r.rows| == |t.rows|
  {
    var names := TrimAll(t.columns);
    Table(names, seq(|t.rows|, i requires 0 <= i < |t.rows| =>
      seq(|names|, j requires 0 <= j < |names| =>
        if names[j] in numeric then Coerce(t.rows[i][j], parse) else t.rows[i][j])))
  }

  /** After loading, every configured column that is present holds a number
      in every row; numbers are kept, a missing or unparsable cell becomes
      exactly 0, and columns that are not configured are untouched. */
  lemma NormalizedCells(t: Table, numeric: seq<string>, parse: string -> Option<real>, i: nat, j: nat)
    requires Rectangular(t) && i < |t.rows| && j < |t.columns|
    ensures var r := Normalized(t, numeric, parse);
      && (r.columns[j] in numeric ==> r.rows[i][j].Num?)
      && (r.columns[j] in numeric && t.rows[i][j].Num? ==> r.rows[i][j] == t.rows[i][j])
      && (r.columns[j] in numeric && t.rows[i][j].Missing? ==> r.rows[i][j] == Num(0.0))
      && (r.columns[j] in numeric && t.rows[i][j].Text? && parse(t.rows[i][j].s).None? ==> r.rows[i][j] == Num(0.0))
      && (r.columns[j] !in numeric ==> r.rows[i][j] == t.rows[i][j])
  {
  }

  lemma FailsAt(names: seq<string>, numeric: seq<string>, k: nat)
    requires k < |numeric| && Repeated(names, numeric[k])
    ensures CoercionFails(names, numeric)
  {
  }

  lemma NeverFails(names: seq<string>, numeric: seq<string>)
    requires forall m :: 0 <= m < |numeric| ==> !Repeated(names, numeric[m])
    ensures !CoercionFails(names, numeric)
  {
  }

  /** The frame `cur` holds t's rows under `names`, with exactly the columns
      whose label is in `done` coerced. */
  ghost predicate CoercedSoFar(cur: Table, t: Table, names: seq<string>, done: seq<string>, parse: string -> Option<real>)
  {
    && Rectangular(t) && Rectangular(cur) && cur.columns == names && |names| == |t.columns| && |cur.rows| == |t.rows|
    && forall i, j :: 0 <= i < |t.rows| && 0 <= j < |names| ==>
         cur.rows[i][j] == if names[j] in done then Coerce(t.rows[i][j], parse) else t.rows[i][j]
  }

  /** `after` is `before` with every column labelled c coerced. */
  ghost predicate CoercedLabel(before: Table, after: Table, c: string, parse: string -> Option<real>)
  {
    && Rectangular(before) && Rectangular(after)
    && after.columns == before.columns && |after.rows| == |before.rows|
    && forall i, j :: 0 <= i < |before.rows| && 0 <= j < |before.columns| ==>
         after.rows[i][j] == if before.columns[j] == c then Coerce(before.rows[i][j], parse) else before.rows[i][j]
  }

  /** Coercing the columns labelled c extends the coerced part by c. */
  lemma CoerceStep(cur: Table, next: Table, t: Table, names: seq<string>, done: seq<string>, c: string,
                   parse: string -> Option<real>)
    requires CoercedSoFar(cur, t, names, done, parse)
    requires CoercedLabel(cur, next, c, parse)
    ensures CoercedSoFar(next, t, names, done + [c], parse)
  {
    forall i, m | 0 <= i < |t.rows| && 0 <= m < |names|
      ensures next.rows[i][m] == if names[m] in done + [c] then Coerce(t.rows[i][m], parse) else t.rows[i][m]
    {
      assert names[m] in done + [c] <==> names[m] in done || names[m] == c;
    }
  }

  /** One turn of the loop: the k-th label is not repeated and its columns
      are coerced, so the first k + 1 labels are done and none of them fails. */
  lemma CoercedNext(cur: Table, next: Table, t: Table, names: seq<string>, numeric: seq<string>, k: nat,
                    parse: string -> Option<real>)
    requires k < |numeric| && !CoercionFails(names, numeric[..k]) && !Repeated(names, numeric[k])
    requires CoercedSoFar(cur, t, names, numeric[..k], parse)
    requires CoercedLabel(cur, next, numeric[k], parse)
    ensures !CoercionFails(names, numeric[..k + 1])
    ensures CoercedSoFar(next, t, names, numeric[..k + 1], parse)
  {
    assert numeric[..k + 1] == numeric[..k] + [numeric[k]];
    CoerceStep(cur, next, t, names, numeric[..k], numeric[k], parse);
    var done := numeric[..k + 1];
    forall m | 0 <= m < |done|
      ensures !Repeated(names, done[m])
    {
      if m < k {
        assert done[m] == numeric[..k][m];
      }
    }
    NeverFails(names, done);
  }

  lemma CoercedAll(cur: Table, t: Table, numeric: seq<string>, parse: string -> Option<real>)
    requires CoercedSoFar(cur, t, TrimAll(t.columns), numeric, parse)
    ensures cur == Normalized(t, numeric, parse)
  {
    var r := Normalized(t, numeric, parse);
    assert |cur.rows| == |r.rows|;
    forall i | 0 <= i < |r.rows|
      ensures cur.rows[i] == r.rows[i]
    {
    }
  }

  /** The body of the loop for one configured label c: when c is present,
      `df[c] = pd.to_numeric(df[c], errors='coerce').fillna(0)`; this raises
      TypeError when c labels more than one column. */
  method CoerceLabelInPlace(df: Frame, c: string, parse: string -> Option<real>) returns (ok: bool)
    requires df.Valid()
    modifies df
    ensures df.Valid()
    ensures ok <==> !Repeated(old(df.columns), c)
    ensures ok ==> CoercedLabel(old(df.View()), df.View(), c, parse)
  {
    var found := IndexOf(df.columns, c);
    if found.None? {
      return true;
    }
    var j := found.value;
    RepeatedAfterFirst(df.columns, c, j);
    if c in df.columns[j + 1..] {
      return false;
    }
    assert forall m :: 0 <= m < |df.columns| && m != j ==> df.columns[m] != c by {
      forall m | 0 <= m < |df.columns| && m != j ensures df.columns[m] != c {
        if m > j { assert df.columns[m] == df.columns[j + 1..][m - j - 1]; }
      }
    }
    var coerced := CoerceColumn(Column(df.View(), j), parse);
    df.Assign(c, coerced);
    ok := true;
  }

  /** Lines 43-49 of one script and 21-24 of the other: strip the labels in
      place, then coerce each configured column that is present. */
  method NormalizeFrame(df: Frame, numeric: seq<string>, parse: string -> Option<real>) returns (ok: bool)
    requires df.Valid()
    modifies df
    ensures df.Valid()
    ensures ok <==> !CoercionFails(TrimAll(old(df.columns)), numeric)
    ensures ok ==> df.View() == Normalized(old(df.View()), numeric, parse)
  {
    ghost var t := df.View();
    var names := TrimAll(df.columns);
    df.SetColumns(names);
    assert CoercedSoFar(df.View(), t, names, numeric[..0], parse);
    for k := 0 to |numeric|
      invariant df.Valid() && df.columns == names
      invariant !CoercionFails(names, numeric[..k])
      invariant CoercedSoFar(df.View(), t, names, numeric[..k], parse)
    {
      ghost var before := df.View();
      ok := CoerceLabelInPlace(df, numeric[k], parse);
      if !ok {
        FailsAt(names, numeric, k);
        return;
      }
      CoercedNext(before, df.View(), t, names, numeric, k, parse);
    }
    assert numeric[..|numeric|] == numeric;
    CoercedAll(df.View(), t, numeric, parse);
    ok := true;
  }
}
