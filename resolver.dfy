/** Finding the fire-count column and the district-key column of a fire
    table whose header is not fixed. */
module Resolver {
  import opened Wrappers
  import opened Text
  import opened Tables

  /** Label fragments that mark a fire-count column, in the order they are tried. */
  const FIRE_KEYWORDS: seq<string> := ["건수", "화재", "count", "합계"]
  /** The canonical district-key label. */
  const DISTRICT_KEY: string := "자치구"
  /** The fragment that marks some other district-name label. */
  const DISTRICT_MARK: string := "구"
  /** The label the resolved count column is renamed to. */
  const FIRE_COUNT: string := "화재건수"

  /** `any(k in c for k in ['건수','화재','count','합계'])`. */
  predicate HasFireKeyword(name: string)
  {
    ContainsAny(name, FIRE_KEYWORDS)
  }

  /** `fire_df[c].dtype in [int, float] or fire_df[c].astype(str).str.isnumeric().all()`:
      a column without text (numbers and NaN), or one whose cells are all
      strings of digits. */
  predicate LooksNumeric(cells: seq<Cell>)
    ensures (forall i :: 0 <= i < |cells| ==> cells[i].Num?) ==> LooksNumeric(cells)
    ensures (exists i, j :: 0 <= i < |cells| && 0 <= j < |cells| && cells[i].Text? && !cells[j].Text?) ==>
              !LooksNumeric(cells)
  {
    || (forall i :: 0 <= i < |cells| ==> !cells[i].Text?)
    || (forall i :: 0 <= i < |cells| ==> cells[i].Text? && IsDigits(cells[i].s))
  }

  /** Column j is the first at or after `from` that looks numeric. */
  predicate FirstNumericFrom(t: Table, from: nat, j: int)
    requires Rectangular(t)
  {
    from <= j < |t.columns| && LooksNumeric(Column(t, j))
    && forall m :: from <= m < j ==> !LooksNumeric(Column(t, m))
  }

  /** `[c for c in fire_df.columns if <looks numeric>]`, from position `from` on. */
  function CandidatesFrom(t: Table, from: nat): (r: seq<string>)
    requires Rectangular(t)
    ensures from <= |t.columns| ==> |r| <= |t.columns| - from
    ensures from >= |t.columns| ==> r == []
    decreases |t.columns| - from
  {
    if from >= |t.columns| then []
    else
      var rest := CandidatesFrom(t, from + 1);
      if LooksNumeric(Column(t, from)) then [t.columns[from]] + rest else rest
  }

  /** Some column at or after `from` carries the label and looks numeric. */
  predicate NumericLabelFrom(t: Table, from: nat, name: string)
    requires Rectangular(t)
  {
    exists j :: from <= j < |t.columns| && t.columns[j] == name && LooksNumeric(Column(t, j))
  }

  /** Every candidate labels a numeric-looking column at or after `from`. */
  lemma {:induction false} CandidatesSound(t: Table, from: nat)
    requires Rectangular(t)
    ensures forall q :: 0 <= q < |CandidatesFrom(t, from)| ==> NumericLabelFrom(t, from, CandidatesFrom(t, from)[q])
    decreases |t.columns| - from
  {
    if from < |t.columns| {
      CandidatesSound(t, from + 1);
      var r := CandidatesFrom(t, from);
      var rest := CandidatesFrom(t, from + 1);
      forall q | 0 <= q < |r|
        ensures NumericLabelFrom(t, from, r[q])
      {
        if LooksNumeric(Column(t, from)) && q == 0 {
          assert t.columns[from] == r[q];
        } else {
          var p := if LooksNumeric(Column(t, from)) then q - 1 else q;
          assert 0 <= p < |rest| && r[q] == rest[p];
          assert NumericLabelFrom(t, from + 1, rest[p]);
          var j :| from + 1 <= j < |t.columns| && t.columns[j] == rest[p] && LooksNumeric(Column(t, j));
        }
      }
    }
  }

  /** There are no candidates exactly when no column from `from` on looks numeric. */
  lemma {:induction false} CandidatesNone(t: Table, from: nat)
    requires Rectangular(t)
    ensures CandidatesFrom(t, from) == [] <==> forall m :: from <= m < |t.columns| ==> !LooksNumeric(Column(t, m))
    decreases |t.columns| - from
  {
    if from < |t.columns| {
      CandidatesNone(t, from + 1);
    }
  }

  /** The first candidate is the first numeric-looking column from `from` on. */
  lemma {:induction false} CandidatesFirst(t: Table, from: nat)
    requires Rectangular(t)
    ensures var r := CandidatesFrom(t, from);
      r != [] ==> exists j :: FirstNumericFrom(t, from, j) && r[0] == t.columns[j]
    decreases |t.columns| - from
  {
    if from < |t.columns| {
      CandidatesFirst(t, from + 1);
      var rest := CandidatesFrom(t, from + 1);
      if LooksNumeric(Column(t, from)) {
        assert FirstNumericFrom(t, from, from);
      } else if rest != [] {
        var j :| FirstNumericFrom(t, from + 1, j) && rest[0] == t.columns[j];
        assert FirstNumericFrom(t, from, j);
      }
    }
  }

  /** The numeric-looking columns, in table order (line 73). */
  function NumericCandidates(t: Table): (r: seq<string>)
    requires Rectangular(t)
    ensures |r| <= |t.columns|
    ensures forall q :: 0 <= q < |r| ==> NumericLabelFrom(t, 0, r[q])
    ensures r == [] <==> forall m :: 0 <= m < |t.columns| ==> !LooksNumeric(Column(t, m))
    ensures r != [] ==> exists j :: FirstNumericFrom(t, 0, j) && r[0] == t.columns[j]
  {
    CandidatesSound(t, 0);
    CandidatesNone(t, 0);
    CandidatesFirst(t, 0);
    CandidatesFrom(t, 0)
  }

  /** Position of the first label containing one of the keys. */
  function FirstKeywordColumn(names: seq<string>, keys: seq<string>): (r: Option<nat>)
    ensures r.Some? ==> r.value < |names| && ContainsAny(names[r.value], keys)
    ensures r.Some? ==> forall m :: 0 <= m < r.value ==> !ContainsAny(names[m], keys)
    ensures r.None? <==> forall m :: 0 <= m < |names| ==> !ContainsAny(names[m], keys)
  {
    if names == [] then None
    else if ContainsAny(names[0], keys) then Some(0)
    else match FirstKeywordColumn(names[1..], keys)
      case None =>
        assert forall m :: 1 <= m < |names| ==> names[m] == names[1..][m - 1];
        None
      case Some(j) => Some(j + 1)
  }

  /** The fire-count column the script settles on (lines 73-81): the first
      label with a keyword, else the first numeric-looking column, else none. */
  function FireColumn(t: Table): (r: Option<string>)
    requires Rectangular(t)
    ensures r.Some? ==> r.value in t.columns
    ensures (exists j :: 0 <= j < |t.columns| && HasFireKeyword(t.columns[j])) ==> r.Some? && HasFireKeyword(r.value)
  {
    match FirstKeywordColumn(t.columns, FIRE_KEYWORDS)
    case Some(j) => Some(t.columns[j])
    case None =>
      var candidates := NumericCandidates(t);
      if candidates == [] then None else Some(candidates[0])
  }

  /** Lines 73-81: the candidates list, then the loop that stops at the first
      keyword match, then the fallback to the first candidate. */
  method ResolveFireColumn(t: Table) returns (fireCol: Option<string>)
    requires Rectangular(t)
    ensures fireCol == FireColumn(t)
  {
    var candidates := NumericCandidates(t);
    fireCol := None;
    for j := 0 to |t.columns|
      invariant fireCol.None?
      invariant forall m :: 0 <= m < j ==> !HasFireKeyword(t.columns[m])
    {
      if ContainsAny(t.columns[j], FIRE_KEYWORDS) {
        FireColumnFirstWins(t, j);
        fireCol := Some(t.columns[j]);
        break;
      }
    }
    if fireCol.None? {
      NoKeywordColumn(t);
      if |candidates| > 0 {
        fireCol := Some(candidates[0]);
      }
    }
  }

  lemma NoKeywordColumn(t: Table)
    requires Rectangular(t) && forall m :: 0 <= m < |t.columns| ==> !HasFireKeyword(t.columns[m])
    ensures FireColumn(t) == if NumericCandidates(t) == [] then None else Some(NumericCandidates(t)[0])
  {
  }

  /** Tie-break: of several labels with a keyword, the one first in table
      order wins, whatever keywords the later ones carry. */
  lemma FireColumnFirstWins(t: Table, j: nat)
    requires Rectangular(t) && j < |t.columns| && HasFireKeyword(t.columns[j])
    requires forall m :: 0 <= m < j ==> !HasFireKeyword(t.columns[m])
    ensures FireColumn(t) == Some(t.columns[j])
  {
    var r := FirstKeywordColumn(t.columns, FIRE_KEYWORDS);
    assert r.Some?;
    assert r.value == j;
  }

  /** With no keyword anywhere the first numeric-looking column is taken;
      with none of those either the column is unresolved. */
  lemma FireColumnFallback(t: Table)
    requires Rectangular(t)
    requires forall m :: 0 <= m < |t.columns| ==> !HasFireKeyword(t.columns[m])
    ensures (forall m :: 0 <= m < |t.columns| ==> !LooksNumeric(Column(t, m))) ==> FireColumn(t) == None
    ensures forall j :: FirstNumericFrom(t, 0, j) ==> FireColumn(t) == Some(t.columns[j])
  {
    CandidatesNone(t, 0);
    CandidatesFirst(t, 0);
    forall j | FirstNumericFrom(t, 0, j)
      ensures FireColumn(t) == Some(t.columns[j])
    {
      var c := NumericCandidates(t);
      var f :| FirstNumericFrom(t, 0, f) && c[0] == t.columns[f];
    }
  }

  /** The column is unresolved exactly when no label has a keyword and no
      column looks numeric; a resolved column is one of the table's. */
  lemma FireColumnUnresolved(t: Table)
    requires Rectangular(t)
    ensures FireColumn(t).None? <==>
              (forall m :: 0 <= m < |t.columns| ==> !HasFireKeyword(t.columns[m]) && !LooksNumeric(Column(t, m)))
    ensures FireColumn(t).Some? ==> FireColumn(t).value in t.columns
  {
    CandidatesNone(t, 0);
    CandidatesFirst(t, 0);
    if FireColumn(t).Some? && FirstKeywordColumn(t.columns, FIRE_KEYWORDS).None? {
      var c := NumericCandidates(t);
      var f :| FirstNumericFrom(t, 0, f) && c[0] == t.columns[f];
    }
  }

  /** The header after lines 86-91: kept when it has the canonical district
      label, else the first label containing the district mark is renamed to it. */
  function DistrictKeyed(names: seq<string>): (r: seq<string>)
    ensures |r| == |names|
    ensures DISTRICT_KEY in r <==>
              DISTRICT_KEY in names || exists m :: 0 <= m < |names| && Contains(names[m], DISTRICT_MARK)
  {
    if DISTRICT_KEY in names then names
    else
      var firstMarked := FirstMarked(names);
      if firstMarked.None? then names else Renamed(names, names[firstMarked.value], DISTRICT_KEY)
  }

  /** Position of the first label containing the district mark. */
  function FirstMarked(names: seq<string>): (r: Option<nat>)
    ensures r.Some? ==> r.value < |names| && Contains(names[r.value], DISTRICT_MARK)
    ensures r.Some? ==> forall m :: 0 <= m < r.value ==> !Contains(names[m], DISTRICT_MARK)
    ensures r.None? <==> forall m :: 0 <= m < |names| ==> !Contains(names[m], DISTRICT_MARK)
  {
    if names == [] then None
    else if Contains(names[0], DISTRICT_MARK) then Some(0)
    else match FirstMarked(names[1..])
      case None =>
        assert forall m :: 1 <= m < |names| ==> names[m] == names[1..][m - 1];
        None
      case Some(j) => Some(j + 1)
  }

  /** Lines 86-91: unless the canonical label is present, rename the first
      label containing the district mark and stop. */
  method ResolveDistrictKey(names: seq<string>) returns (r: seq<string>)
    ensures r == DistrictKeyed(names)
  {
    r := names;
    if DISTRICT_KEY !in names {
      for j := 0 to |names|
        invariant r == names
        invariant forall m :: 0 <= m < j ==> !Contains(names[m], DISTRICT_MARK)
      {
        if Contains(names[j], DISTRICT_MARK) {
          r := Renamed(names, names[j], DISTRICT_KEY);
          break;
        }
      }
    }
  }

  /** An existing canonical label leaves the header unchanged. */
  lemma DistrictKeyKept(names: seq<string>)
    requires DISTRICT_KEY in names
    ensures DistrictKeyed(names) == names
  {
  }

  /** Otherwise the first marked label becomes the canonical one, with
      every column carrying that same label, and all other labels are
      unchanged; with distinct labels only that one position changes. */
  lemma DistrictKeyRenamesFirst(names: seq<string>, j: nat)
    requires DISTRICT_KEY !in names
    requires j < |names| && Contains(names[j], DISTRICT_MARK)
    requires forall m :: 0 <= m < j ==> !Contains(names[m], DISTRICT_MARK)
    ensures |DistrictKeyed(names)| == |names| && DistrictKeyed(names)[j] == DISTRICT_KEY
    ensures forall m :: 0 <= m < |names| ==>
              DistrictKeyed(names)[m] == if names[m] == names[j] then DISTRICT_KEY else names[m]
    ensures Distinct(names) ==> forall m :: 0 <= m < |names| && m != j ==> DistrictKeyed(names)[m] == names[m]
  {
    var f := FirstMarked(names);
    assert f == Some(j);
  }

  /** With neither the canonical label nor a marked one the header stays as
      it is and has no district key, so the key lookup on line 92 raises. */
  lemma DistrictKeyMissing(names: seq<string>)
    requires DISTRICT_KEY !in names
    requires forall m :: 0 <= m < |names| ==> !Contains(names[m], DISTRICT_MARK)
    ensures DistrictKeyed(names) == names && DISTRICT_KEY !in DistrictKeyed(names)
  {
  }
}
