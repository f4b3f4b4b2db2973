/**
 * The consolidated summary (app.py:58-87): one row per year found in the
 * selected sheets, ascending; one column per item name found in them, in
 * first-seen order; each cell the sum of the selected sheets' values for that
 * year and item, an absent row or cell adding zero; all-zero columns dropped.
 */
module Summary {
  import opened Seqs
  import opened Tables

  /** Column names never consolidated (app.py:63). */
  const SummaryMeta: seq<Name> := [YearField, AgeField, PolicyField]

  /**
   * The consolidated table, stored by column: `columns[j][k]` is the total
   * of `items[j]` in year `years[k]`. `yearShown` tells whether the year
   * column itself survives the all-zero drop of app.py:87.
   */
  datatype Summary = Summary(years: seq<int>, yearShown: bool, items: seq<Name>, columns: seq<seq<int>>)

  /** The selected sheets, each once, in the order they were selected (app.py:58). */
  function SelectSheets(sheets: map<Name, Table>, selected: seq<Name>): (r: seq<Table>)
    requires forall p :: p in selected ==> p in sheets
    ensures forall p :: p in selected ==> sheets[p] in r
    ensures forall t :: t in r ==> exists p :: p in selected && sheets[p] == t
  {
    var ps := FirstSeen(selected, []);
    var r := seq(|ps|, k requires 0 <= k < |ps| => sheets[ps[k]]);
    assert forall k :: 0 <= k < |ps| ==> r[k] == sheets[ps[k]] && r[k] in r;
    r
  }

  /**
   * The restriction of app.py:58 holds one sheet per distinct selected name,
   * in the order in which the names were first selected.
   */
  lemma SelectSheetsSpec(sheets: map<Name, Table>, selected: seq<Name>)
    requires forall p :: p in selected ==> p in sheets
    ensures NoDup(FirstSeen(selected, []))
    ensures forall p :: p in FirstSeen(selected, []) <==> p in selected
    ensures |SelectSheets(sheets, selected)| == |FirstSeen(selected, [])|
    ensures forall k :: 0 <= k < |FirstSeen(selected, [])| ==>
              SelectSheets(sheets, selected)[k] == sheets[FirstSeen(selected, [])[k]]
    ensures forall i, j :: 0 <= i < j < |FirstSeen(selected, [])| ==>
              FirstIndex(selected, FirstSeen(selected, [])[i]) < FirstIndex(selected, FirstSeen(selected, [])[j])
  {
    FirstSeenOrder(selected, []);
  }

  /** All column names of the sheets, sheet after sheet. */
  function ColumnsOf(ts: seq<Table>): seq<Name> {
    if ts == [] then [] else ColumnsOf(ts[..|ts| - 1]) + ts[|ts| - 1].columns
  }

  /** The item names of the consolidated table, before the zero drop (app.py:60-64). */
  function UniqueItems(ts: seq<Table>): seq<Name> {
    FirstSeen(ColumnsOf(ts), SummaryMeta)
  }

  function RowYears(rows: seq<Row>): set<int> {
    set r | r in rows :: r.year
  }

  /** Every year that occurs in some sheet (app.py:67). */
  function YearsOf(ts: seq<Table>): set<int> {
    if ts == [] then {} else YearsOf(ts[..|ts| - 1]) + RowYears(ts[|ts| - 1].rows)
  }

  /** The sheet's value of `item` in year `y`: 0 when no row has that year or the cell is empty. */
  function YearValue(rows: seq<Row>, y: int, item: Name): int {
    if rows == [] then 0
    else if rows[0].year == y then Lookup(rows[0].values, item)
    else YearValue(rows[1..], y, item)
  }

  /** What one sheet adds to the cell (y, item); nothing when it lacks the column (app.py:78). */
  function Contribution(t: Table, y: int, item: Name): int {
    if item in t.columns then YearValue(t.rows, y, item) else 0
  }

  /** The consolidated cell: the sheets' contributions summed (app.py:76-81). */
  function Cell(ts: seq<Table>, y: int, item: Name): int {
    if ts == [] then 0 else Cell(ts[..|ts| - 1], y, item) + Contribution(ts[|ts| - 1], y, item)
  }

  /** Some cell of the column is not zero. */
  predicate HasNonZero(col: seq<int>) {
    exists k :: 0 <= k < |col| && col[k] != 0
  }

  /** The column of `item` is zero in every year row. */
  ghost predicate ZeroColumn(ts: seq<Table>, item: Name) {
    forall y :: y in YearsOf(ts) ==> Cell(ts, y, item) == 0
  }

  /** The items whose column is not all zero, in their order (app.py:87). */
  ghost function NonZeroItems(ts: seq<Table>, items: seq<Name>): (r: seq<Name>)
    ensures forall i :: i in r <==> i in items && !ZeroColumn(ts, i)
    ensures Subseq(r, items)
  {
    if items == [] then []
    else if !ZeroColumn(ts, items[0]) then [items[0]] + NonZeroItems(ts, items[1..])
    else NonZeroItems(ts, items[1..])
  }

  /** `columns[j]` holds the cells of `items[j]`, one per year of `years`. */
  ghost predicate Tabulates(ts: seq<Table>, items: seq<Name>, columns: seq<seq<int>>, years: seq<int>) {
    && |columns| == |items|
    && (forall j :: 0 <= j < |items| ==> |columns[j]| == |years|)
    && (forall j, k :: 0 <= j < |items| && 0 <= k < |years| ==> columns[j][k] == Cell(ts, years[k], items[j]))
  }

  lemma TabulatesSnoc(ts: seq<Table>, items: seq<Name>, columns: seq<seq<int>>, years: seq<int>, item: Name, col: seq<int>)
    requires Tabulates(ts, items, columns, years)
    requires |col| == |years| && forall k :: 0 <= k < |years| ==> col[k] == Cell(ts, years[k], item)
    ensures Tabulates(ts, items + [item], columns + [col], years)
  {
  }

  /** What the consolidated table of the sheets `ts` is. */
  ghost predicate IsSummary(s: Summary, ts: seq<Table>) {
    && StrictlyAscending(s.years)
    && (forall y :: y in s.years <==> y in YearsOf(ts))
    && s.items == NonZeroItems(ts, UniqueItems(ts))
    && Tabulates(ts, s.items, s.columns, s.years)
    && s.yearShown == HasNonZero(s.years)
  }

  lemma ColumnsOfStep(ts: seq<Table>, p: nat)
    requires p < |ts|
    ensures ColumnsOf(ts[..p + 1]) == ColumnsOf(ts[..p]) + ts[p].columns
  {
    assert ts[..p + 1][..p] == ts[..p];
  }

  lemma YearsOfStep(ts: seq<Table>, p: nat)
    requires p < |ts|
    ensures YearsOf(ts[..p + 1]) == YearsOf(ts[..p]) + RowYears(ts[p].rows)
  {
    assert ts[..p + 1][..p] == ts[..p];
  }

  lemma CellStep(ts: seq<Table>, p: nat, y: int, item: Name)
    requires p < |ts|
    ensures Cell(ts[..p + 1], y, item) == Cell(ts[..p], y, item) + Contribution(ts[p], y, item)
  {
    assert ts[..p + 1][..p] == ts[..p];
  }

  /** The year union sorted ascending (app.py:68): insertion of each distinct year at its place. */
  method SortYears(u: seq<int>) returns (s: seq<int>)
    requires NoDup(u)
    ensures StrictlyAscending(s)
    ensures forall y :: y in s <==> y in u
  {
    s := [];
    for i := 0 to |u|
      invariant StrictlyAscending(s)
      invariant forall y :: y in s <==> y in u[..i]
    {
      var y := u[i];
      assert y !in u[..i];
      var k := 0;
      while k < |s| && s[k] < y
        invariant 0 <= k <= |s|
        invariant forall m :: 0 <= m < k ==> s[m] < y
      {
        k := k + 1;
      }
      assert forall m :: k <= m < |s| ==> y < s[m] by {
        forall m | k <= m < |s| ensures y < s[m] {
          assert s[m] in u[..i];
          assert s[k] >= y && s[k] != y && s[k] <= s[m];
        }
      }
      s := s[..k] + [y] + s[k..];
      assert u[..i + 1] == u[..i] + [y];
    }
    assert u[..|u|] == u;
  }

  lemma ScanStep(scanned: seq<Name>, cols: seq<Name>, q: nat)
    requires q < |cols|
    ensures FirstSeen(scanned + cols[..q + 1], SummaryMeta)
         == if cols[q] !in FirstSeen(scanned + cols[..q], SummaryMeta) && cols[q] !in SummaryMeta
            then FirstSeen(scanned + cols[..q], SummaryMeta) + [cols[q]]
            else FirstSeen(scanned + cols[..q], SummaryMeta)
  {
    assert scanned + cols[..q + 1] == (scanned + cols[..q]) + [cols[q]];
    FirstSeenSnoc(scanned + cols[..q], cols[q], SummaryMeta);
  }

  /** The inner `unique_items` loop over one sheet's columns (app.py:62-64). */
  method AddNewColumns(items: seq<Name>, ghost scanned: seq<Name>, cols: seq<Name>) returns (r: seq<Name>)
    requires items == FirstSeen(scanned, SummaryMeta)
    ensures r == FirstSeen(scanned + cols, SummaryMeta)
  {
    r := items;
    assert scanned + cols[..0] == scanned;
    for q := 0 to |cols|
      invariant r == FirstSeen(scanned + cols[..q], SummaryMeta)
    {
      var c := cols[q];
      ScanStep(scanned, cols, q);
      if c !in r && c !in SummaryMeta {
        r := r + [c];
      }
    }
    assert cols[..|cols|] == cols;
  }

  /** The `unique_items` loop (app.py:60-64). */
  method CollectItems(ts: seq<Table>) returns (items: seq<Name>)
    ensures items == UniqueItems(ts)
  {
    items := [];
    for p := 0 to |ts|
      invariant items == FirstSeen(ColumnsOf(ts[..p]), SummaryMeta)
    {
      items := AddNewColumns(items, ColumnsOf(ts[..p]), ts[p].columns);
      ColumnsOfStep(ts, p);
    }
    assert ts[..|ts|] == ts;
  }

  /** The distinct years of the sheets, in first-seen order (the `unique()` of app.py:67). */
  method CollectYears(ts: seq<Table>) returns (seen: seq<int>)
    ensures NoDup(seen)
    ensures forall y :: y in seen <==> y in YearsOf(ts)
  {
    seen := [];
    for p := 0 to |ts|
      invariant NoDup(seen)
      invariant forall y :: y in seen <==> y in YearsOf(ts[..p])
    {
      var rows := ts[p].rows;
      for q := 0 to |rows|
        invariant NoDup(seen)
        invariant forall y :: y in seen <==> y in YearsOf(ts[..p]) || y in RowYears(rows[..q])
      {
        assert rows[..q + 1] == rows[..q] + [rows[q]];
        if rows[q].year !in seen {
          seen := seen + [rows[q].year];
        }
      }
      YearsOfStep(ts, p);
      assert rows[..|rows|] == rows;
    }
    assert ts[..|ts|] == ts;
  }

  /** Adds every sheet's values of `item` to a zero column (app.py:77-81). */
  method SumColumn(ts: seq<Table>, item: Name, years: seq<int>, zeros: seq<int>) returns (col: seq<int>)
    requires |zeros| == |years| && forall k :: 0 <= k < |zeros| ==> zeros[k] == 0
    ensures |col| == |years|
    ensures forall k :: 0 <= k < |years| ==> col[k] == Cell(ts, years[k], item)
  {
    col := zeros;
    for p := 0 to |ts|
      invariant |col| == |years|
      invariant forall k :: 0 <= k < |years| ==> col[k] == Cell(ts[..p], years[k], item)
    {
      if item in ts[p].columns {
        for k := 0 to |years|
          invariant |col| == |years|
          invariant forall k' :: 0 <= k' < k ==> col[k'] == Cell(ts[..p + 1], years[k'], item)
          invariant forall k' :: k <= k' < |years| ==> col[k'] == Cell(ts[..p], years[k'], item)
        {
          CellStep(ts, p, years[k], item);
          col := col[k := col[k] + YearValue(ts[p].rows, years[k], item)];
        }
      } else {
        forall k | 0 <= k < |years| ensures col[k] == Cell(ts[..p + 1], years[k], item) {
          CellStep(ts, p, years[k], item);
        }
      }
    }
    assert ts[..|ts|] == ts;
  }

  /** Zero-fills one column per item, then accumulates each (app.py:72-81). */
  method SumColumns(ts: seq<Table>, items: seq<Name>, years: seq<int>) returns (columns: seq<seq<int>>)
    ensures Tabulates(ts, items, columns, years)
  {
    var zeros := seq(|years|, _ => 0);
    columns := [];
    for j := 0 to |items|
      invariant |columns| == j
      invariant forall j' :: 0 <= j' < j ==> columns[j'] == zeros
    {
      columns := columns + [zeros];
    }
    for j := 0 to |items|
      invariant |columns| == |items|
      invariant forall j' :: 0 <= j' < |items| ==> |columns[j']| == |years|
      invariant forall j', k :: 0 <= j' < j && 0 <= k < |years| ==> columns[j'][k] == Cell(ts, years[k], items[j'])
      invariant forall j' :: j <= j' < |items| ==> columns[j'] == zeros
    {
      var col := SumColumn(ts, items[j], years, columns[j]);
      columns := columns[j := col];
    }
  }

  /** A computed column has a non-zero cell exactly when its item is not zero in every year. */
  lemma ZeroColumnTest(ts: seq<Table>, item: Name, years: seq<int>, col: seq<int>)
    requires forall y :: y in years <==> y in YearsOf(ts)
    requires |col| == |years|
    requires forall k :: 0 <= k < |years| ==> col[k] == Cell(ts, years[k], item)
    ensures HasNonZero(col) <==> !ZeroColumn(ts, item)
  {
    if HasNonZero(col) {
      var k :| 0 <= k < |col| && col[k] != 0;
      assert years[k] in years;
    }
    if !ZeroColumn(ts, item) {
      var y :| y in YearsOf(ts) && Cell(ts, y, item) != 0;
      var k :| 0 <= k < |years| && years[k] == y;
      assert col[k] != 0;
    }
  }

  /** Drops every item column that is zero in all rows (app.py:87). */
  method DropZeroColumns(ts: seq<Table>, items: seq<Name>, years: seq<int>, columns: seq<seq<int>>)
    returns (kept: seq<Name>, keptColumns: seq<seq<int>>)
    requires forall y :: y in years <==> y in YearsOf(ts)
    requires Tabulates(ts, items, columns, years)
    ensures kept == NonZeroItems(ts, items)
    ensures Tabulates(ts, kept, keptColumns, years)
  {
    kept := [];
    keptColumns := [];
    for j := 0 to |items|
      invariant kept == NonZeroItems(ts, items[..j])
      invariant Tabulates(ts, kept, keptColumns, years)
    {
      NonZeroItemsSnoc(ts, items[..j], items[j]);
      assert items[..j + 1] == items[..j] + [items[j]];
      var nonZero := HasNonZero(columns[j]);
      ZeroColumnTest(ts, items[j], years, columns[j]);
      if nonZero {
        TabulatesSnoc(ts, kept, keptColumns, years, items[j], columns[j]);
        kept := kept + [items[j]];
        keptColumns := keptColumns + [columns[j]];
      }
    }
    assert items[..|items|] == items;
  }

  /**
   * Builds the consolidated table of the selected sheets. Selecting no
   * policy fails, as concatenating no year column does at app.py:67.
   */
  method BuildSummary(sheets: map<Name, Table>, selected: seq<Name>) returns (r: Result<Summary, Failure>)
    requires forall p :: p in selected ==> p in sheets
    requires forall p :: p in selected ==> UniqueYears(sheets[p].rows)
    ensures selected == [] ==> r == Err(NoPolicies)
    ensures selected != [] ==> r.Ok? && IsSummary(r.value, SelectSheets(sheets, selected))
  {
    if selected == [] {
      return Err(NoPolicies);
    }
    var ts := SelectSheets(sheets, selected);
    var items := CollectItems(ts);
    var seen := CollectYears(ts);
    var years := SortYears(seen);
    var columns := SumColumns(ts, items, years);
    var kept, keptColumns := DropZeroColumns(ts, items, years, columns);
    return Ok(Summary(years, HasNonZero(years), kept, keptColumns));
  }

  lemma {:induction false} NonZeroItemsSnoc(ts: seq<Table>, items: seq<Name>, i: Name)
    ensures NonZeroItems(ts, items + [i])
         == NonZeroItems(ts, items) + (if !ZeroColumn(ts, i) then [i] else [])
  {
    if items == [] {
      assert [i][1..] == [];
    } else {
      assert (items + [i])[0] == items[0] && (items + [i])[1..] == items[1..] + [i];
      NonZeroItemsSnoc(ts, items[1..], i);
    }
  }

  lemma {:induction false} ColumnsOfMembers(ts: seq<Table>, c: Name)
    ensures c in ColumnsOf(ts) <==> exists p :: 0 <= p < |ts| && c in ts[p].columns
  {
    if ts != [] {
      var n := |ts| - 1;
      var init := ts[..n];
      ColumnsOfMembers(init, c);
      assert ColumnsOf(ts) == ColumnsOf(init) + ts[n].columns;
      assert forall p :: 0 <= p < n ==> init[p] == ts[p];
    }
  }

  /**
   * The consolidated item names: each non-metadata column of a selected
   * sheet exactly once, in the order of first appearance when the sheets are
   * read in selection order and each sheet's columns left to right.
   */
  lemma UniqueItemsSpec(ts: seq<Table>)
    ensures NoDup(UniqueItems(ts))
    ensures forall i :: i in UniqueItems(ts) <==> i !in SummaryMeta && exists p :: 0 <= p < |ts| && i in ts[p].columns
    ensures forall a, b :: 0 <= a < b < |UniqueItems(ts)| ==>
              FirstIndex(ColumnsOf(ts), UniqueItems(ts)[a]) < FirstIndex(ColumnsOf(ts), UniqueItems(ts)[b])
  {
    forall i ensures i in UniqueItems(ts) <==> i !in SummaryMeta && exists p :: 0 <= p < |ts| && i in ts[p].columns {
      ColumnsOfMembers(ts, i);
    }
    FirstSeenOrder(ColumnsOf(ts), SummaryMeta);
  }

  lemma {:induction false} YearsOfMembers(ts: seq<Table>, y: int)
    ensures y in YearsOf(ts) <==> exists p, k :: 0 <= p < |ts| && 0 <= k < |ts[p].rows| && ts[p].rows[k].year == y
  {
    if ts != [] {
      var n := |ts| - 1;
      YearsOfMembers(ts[..n], y);
      if y in YearsOf(ts[..n]) {
        var p, k :| 0 <= p < n && 0 <= k < |ts[..n][p].rows| && ts[..n][p].rows[k].year == y;
        assert ts[p] == ts[..n][p];
      }
      if y in RowYears(ts[n].rows) {
        var r :| r in ts[n].rows && r.year == y;
        var k :| 0 <= k < |ts[n].rows| && ts[n].rows[k] == r;
        assert ts[n].rows[k].year == y;
      }
      if exists p, k :: 0 <= p < |ts| && 0 <= k < |ts[p].rows| && ts[p].rows[k].year == y {
        var p, k :| 0 <= p < |ts| && 0 <= k < |ts[p].rows| && ts[p].rows[k].year == y;
        if p < n {
          assert ts[..n][p] == ts[p];
        } else {
          assert ts[n].rows[k] in ts[n].rows;
        }
      }
    }
  }

  /**
   * The year column lists every year of every selected sheet exactly once,
   * ascending, and invents none: there are as many rows as distinct years.
   */
  lemma SummaryYears(s: Summary, ts: seq<Table>)
    requires IsSummary(s, ts)
    ensures forall y :: y in s.years <==> exists p, k :: 0 <= p < |ts| && 0 <= k < |ts[p].rows| && ts[p].rows[k].year == y
    ensures forall a, b :: 0 <= a < b < |s.years| ==> s.years[a] < s.years[b]
    ensures |s.years| == |YearsOf(ts)|
  {
    forall y ensures y in s.years <==> exists p, k :: 0 <= p < |ts| && 0 <= k < |ts[p].rows| && ts[p].rows[k].year == y {
      YearsOfMembers(ts, y);
    }
    assert NoDup(s.years);
    NoDupCard(s.years);
    assert (set y | y in s.years) == YearsOf(ts);
  }

  /** Cells add up over any split of the selected sheets (app.py:80). */
  lemma {:induction false} CellAppend(a: seq<Table>, b: seq<Table>, y: int, item: Name)
    ensures Cell(a + b, y, item) == Cell(a, y, item) + Cell(b, y, item)
    decreases |b|
  {
    if b == [] {
      assert a + b == a;
    } else {
      var n := |b| - 1;
      assert (a + b)[..|a + b| - 1] == a + b[..n];
      assert (a + b)[|a + b| - 1] == b[n];
      CellAppend(a, b[..n], y, item);
    }
  }

  lemma {:induction false} YearValueOfRow(rows: seq<Row>, k: nat, item: Name)
    requires UniqueYears(rows) && k < |rows|
    ensures YearValue(rows, rows[k].year, item) == Lookup(rows[k].values, item)
  {
    if k > 0 {
      assert rows[0].year != rows[k].year;
      assert UniqueYears(rows[1..]) by {
        forall i, j | 0 <= i < j < |rows[1..]| ensures rows[1..][i].year != rows[1..][j].year {
          assert rows[1..][i] == rows[i + 1] && rows[1..][j] == rows[j + 1];
        }
      }
      YearValueOfRow(rows[1..], k - 1, item);
    }
  }

  lemma {:induction false} YearValueAbsent(rows: seq<Row>, y: int, item: Name)
    requires y !in RowYears(rows)
    ensures YearValue(rows, y, item) == 0
  {
    if rows != [] {
      assert rows[0] in rows;
      assert RowYears(rows[1..]) <= RowYears(rows);
      YearValueAbsent(rows[1..], y, item);
    }
  }

  /**
   * What one sheet adds to the cell (y, item): its value in its row for y,
   * an empty cell counting 0; nothing when the sheet has no row for y or no
   * such column (the left merge and fillna(0) of app.py:79-80).
   */
  lemma ContributionSpec(t: Table, y: int, item: Name)
    requires UniqueYears(t.rows)
    ensures item !in t.columns ==> Contribution(t, y, item) == 0
    ensures y !in RowYears(t.rows) ==> Contribution(t, y, item) == 0
    ensures forall k :: 0 <= k < |t.rows| && t.rows[k].year == y && item in t.columns ==>
              Contribution(t, y, item) == Lookup(t.rows[k].values, item)
  {
    if y !in RowYears(t.rows) {
      YearValueAbsent(t.rows, y, item);
    }
    forall k | 0 <= k < |t.rows| && t.rows[k].year == y && item in t.columns
      ensures Contribution(t, y, item) == Lookup(t.rows[k].values, item)
    {
      YearValueOfRow(t.rows, k, item);
    }
  }

  /**
   * On a well-formed sheet the missing-column case of app.py:78 changes
   * nothing: the sheet adds exactly its row's value, an empty cell as 0,
   * which is also what the chart's group-by sum reads from that row.
   */
  lemma ContributionWellFormed(t: Table, y: int, item: Name)
    requires UniqueYears(t.rows) && WellFormed(t)
    ensures forall k :: 0 <= k < |t.rows| && t.rows[k].year == y ==>
              Contribution(t, y, item) == Lookup(t.rows[k].values, item)
  {
    ContributionSpec(t, y, item);
    forall k | 0 <= k < |t.rows| && t.rows[k].year == y && item !in t.columns
      ensures Lookup(t.rows[k].values, item) == 0
    {
      assert t.rows[k] in t.rows;
    }
  }

  /**
   * Zero suppression, both ways: every kept item column has a non-zero cell,
   * and every consolidated item that was dropped is zero in every year row.
   * The kept items keep their first-seen order.
   */
  lemma SummaryZeroSuppression(s: Summary, ts: seq<Table>)
    requires IsSummary(s, ts)
    ensures forall j :: 0 <= j < |s.items| ==> HasNonZero(s.columns[j])
    ensures forall i :: i in UniqueItems(ts) && i !in s.items ==> forall k :: 0 <= k < |s.years| ==> Cell(ts, s.years[k], i) == 0
    ensures Subseq(s.items, UniqueItems(ts))
  {
    forall j | 0 <= j < |s.items| ensures HasNonZero(s.columns[j]) {
      KeptColumnNonZero(s, ts, j);
    }
    forall i, k | i in UniqueItems(ts) && i !in s.items && 0 <= k < |s.years|
      ensures Cell(ts, s.years[k], i) == 0
    {
      assert s.years[k] in s.years;
    }
  }

  lemma KeptColumnNonZero(s: Summary, ts: seq<Table>, j: nat)
    requires IsSummary(s, ts) && j < |s.items|
    ensures HasNonZero(s.columns[j])
  {
    assert s.items[j] in s.items;
    assert !ZeroColumn(ts, s.items[j]);
    var y :| y in YearsOf(ts) && Cell(ts, y, s.items[j]) != 0;
    assert y in s.years;
    var k :| 0 <= k < |s.years| && s.years[k] == y;
    assert s.columns[j][k] != 0;
  }

  /** With no year in any selected sheet, nothing is left, not even the year column. */
  lemma SummaryNoRows(s: Summary, ts: seq<Table>)
    requires IsSummary(s, ts)
    requires YearsOf(ts) == {}
    ensures s.years == [] && s.items == [] && s.columns == [] && !s.yearShown
  {
    SummaryYears(s, ts);
    NonZeroItemsAllZero(ts, UniqueItems(ts));
  }

  lemma {:induction false} NonZeroItemsAllZero(ts: seq<Table>, items: seq<Name>)
    requires YearsOf(ts) == {}
    ensures NonZeroItems(ts, items) == []
  {
    if items != [] {
      assert ZeroColumn(ts, items[0]);
      NonZeroItemsAllZero(ts, items[1..]);
    }
  }

  /** The specification fixes the table: building it twice gives the same value. */
  lemma SummaryUnique(s1: Summary, s2: Summary, ts: seq<Table>)
    requires IsSummary(s1, ts) && IsSummary(s2, ts)
    ensures s1 == s2
  {
    AscendingUnique(s1.years, s2.years);
    assert |s1.columns| == |s2.columns|;
    forall j | 0 <= j < |s1.columns| ensures s1.columns[j] == s2.columns[j] {
      assert |s1.columns[j]| == |s2.columns[j]|;
      forall k | 0 <= k < |s1.years| ensures s1.columns[j][k] == s2.columns[j][k] {
        assert s1.columns[j][k] == Cell(ts, s1.years[k], s1.items[j]);
        assert s2.columns[j][k] == Cell(ts, s2.years[k], s2.items[j]);
      }
    }
  }
}
