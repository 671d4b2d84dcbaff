/** The derived ratios and their zero-denominator rule: a ratio whose
    denominator is 0 is exactly 0 (pandas: the denominator is replaced by NaN,
    the quotient is NaN, and `fillna(0)` makes it 0). */
module Ratios {
  import opened Wrappers
  import opened Tables

  /** n / d, or 0 when d is 0. */
  function SafeDiv(n: real, d: real): (r: real)
    ensures d == 0.0 ==> r == 0.0
    ensures d != 0.0 ==> r * d == n
  {
    if d == 0.0 then 0.0 else n / d
  }

  /** Residents per unit of the fire rate. */
  const PER_RESIDENTS: real := 10000.0

  /** `fire / (pop / 10000)`: fires per 10,000 residents, 0 for no residents. */
  function FireRate(fire: real, pop: real): (r: real)
    ensures pop == 0.0 ==> r == 0.0
    ensures pop != 0.0 ==> r * pop == fire * PER_RESIDENTS
  {
    SafeDiv(fire, pop / PER_RESIDENTS)
  }

  /** The rate is fire * 10000 / pop whenever there are residents. */
  lemma FireRateClosedForm(fire: real, pop: real)
    requires pop != 0.0
    ensures FireRate(fire, pop) == fire * PER_RESIDENTS / pop
  {
    var r := FireRate(fire, pop);
    assert r * pop == fire * PER_RESIDENTS;
  }

  /** Non-negative counts give a non-negative rate. */
  lemma FireRateNonNegative(fire: real, pop: real)
    requires fire >= 0.0 && pop >= 0.0
    ensures FireRate(fire, pop) >= 0.0
  {
    if pop != 0.0 {
      FireRateClosedForm(fire, pop);
      assert fire * PER_RESIDENTS >= 0.0;
    }
  }

  /** With a total that is the sum of the two parts, the long-term and the
      short-term shares add up to 1, as the stacked chart's axis says. */
  lemma SharesSumToOne(long: real, short: real, total: real)
    requires total == long + short && total != 0.0
    ensures SafeDiv(long, total) + SafeDiv(short, total) == 1.0
  {
    var a, b := SafeDiv(long, total), SafeDiv(short, total);
    assert (a + b) * total == long + short;
  }

  /** A share of a total that contains it lies between 0 and 1. */
  lemma ShareInUnitInterval(part: real, total: real)
    requires 0.0 <= part <= total
    ensures 0.0 <= SafeDiv(part, total) <= 1.0
  {
    if total != 0.0 {
      var r := SafeDiv(part, total);
      assert r * total == part;
    }
  }

  /** One cell of `n / (d.replace({0: nan}) / unit)` followed by `fillna(0)`.
      A zero denominator has become NaN. When the division raises on an
      object column, pandas retries it on the rows where neither side is NaN,
      so a row with NaN on either side gives NaN, and so 0, whatever the other
      side holds. Any other row with text on either side raises TypeError. */
  function RatioCell(n: Cell, d: Cell, unit: real): (r: Result<Cell>)
    requires unit != 0.0
    ensures r.Err? <==> (n.Text? || d.Text?) && !n.Missing? && !d.Missing? && d != Num(0.0)
    ensures r.Err? ==> r.error == TypeError
    ensures r.Ok? && (n.Missing? || d.Missing?) ==> r.value == Num(0.0)
    ensures r.Ok? && d == Num(0.0) ==> r.value == Num(0.0)
    ensures r.Ok? && n.Num? && d.Num? ==> r.value == Num(SafeDiv(n.v, d.v / unit))
  {
    if n.Missing? || d.Missing? || d == Num(0.0) then Ok(Num(0.0))
    else if n.Text? || d.Text? then Err(TypeError)
    else Ok(Num(SafeDiv(n.v, d.v / unit)))
  }

  /** The ratio column, row by row, or the TypeError of the first row that raises. */
  function RatioColumn(ns: seq<Cell>, ds: seq<Cell>, unit: real): (r: Result<seq<Cell>>)
    requires |ns| == |ds| && unit != 0.0
    ensures r.Ok? <==> forall i :: 0 <= i < |ns| ==> RatioCell(ns[i], ds[i], unit).Ok?
    ensures r.Err? ==> r.error == TypeError
    ensures r.Ok? ==> |r.value| == |ns| && forall i :: 0 <= i < |ns| ==> Ok(r.value[i]) == RatioCell(ns[i], ds[i], unit)
  {
    if ns == [] then Ok([])
    else match RatioCell(ns[0], ds[0], unit)
      case Err(e) => Err(e)
      case Ok(c) =>
        match RatioColumn(ns[1..], ds[1..], unit)
        case Err(e) => Err(e)
        case Ok(cs) =>
          assert forall i :: 1 <= i < |ns| ==> ns[i] == ns[1..][i - 1] && ds[i] == ds[1..][i - 1];
          Ok([c] + cs)
  }

  /** The pair of cells for which the ratio raises: text on either side,
      with no NaN on either side and a denominator that is not 0. */
  predicate TextBlocks(n: Cell, d: Cell)
  {
    (n.Text? || d.Text?) && !n.Missing? && !d.Missing? && d != Num(0.0)
  }

  /** `t[numer] / (t[denom].replace({0: nan}) / unit)` with the NaN filled by 0:
      a KeyError for an absent column (the numerator is looked up first). */
  function RatioOf(t: Table, numer: string, denom: string, unit: real): (r: Result<seq<Cell>>)
    requires Rectangular(t) && unit != 0.0
    ensures numer !in t.columns ==> r == Err(KeyError(numer))
    ensures numer in t.columns && denom !in t.columns ==> r == Err(KeyError(denom))
    ensures r.Ok? ==> numer in t.columns && denom in t.columns && |r.value| == |t.rows|
    ensures numer in t.columns && denom in t.columns ==>
              (r.Err? <==> exists i :: 0 <= i < |t.rows| && TextBlocks(t.rows[i][IndexOf(t.columns, numer).value],
                                                                      t.rows[i][IndexOf(t.columns, denom).value]))
    ensures r.Err? ==> r.error.KeyError? || r.error == TypeError
    ensures r.Ok? ==> forall i :: 0 <= i < |t.rows| ==>
              Ok(r.value[i]) == RatioCell(t.rows[i][IndexOf(t.columns, numer).value],
                                          t.rows[i][IndexOf(t.columns, denom).value], unit)
  {
    match IndexOf(t.columns, numer)
    case None => Err(KeyError(numer))
    case Some(a) =>
      match IndexOf(t.columns, denom)
      case None => Err(KeyError(denom))
      case Some(b) =>
        var r := RatioColumn(Column(t, a), Column(t, b), unit);
        assert r.Err? ==> exists i :: 0 <= i < |t.rows| && TextBlocks(t.rows[i][a], t.rows[i][b]) by {
          if r.Err? {
            var i :| 0 <= i < |t.rows| && !RatioCell(Column(t, a)[i], Column(t, b)[i], unit).Ok?;
          }
        }
        r
  }
}
