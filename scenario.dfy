/**
 * A two-policy, two-year, two-item workbook worked through both outputs.
 * Policy A: 2024 {Premium 100, CashValue 0}, 2025 {Premium 100, CashValue 50};
 * policy B: 2025 {Premium 200}.
 */
module Scenario {
  import opened Seqs
  import opened Tables
  import Chart
  import Summary

  const PolicyA: Table := Table([YearField, AgeField, "Premium", "CashValue"],
                                [Row(2024, map["Premium" := 100, "CashValue" := 0]),
                                 Row(2025, map["Premium" := 100, "CashValue" := 50])])
  const PolicyB: Table := Table([YearField, AgeField, "Premium"], [Row(2025, map["Premium" := 200])])
  const Sheets: map<Name, Table> := map["A" := PolicyA, "B" := PolicyB]

  const RowA2024: LongRow := LongRow(2024, "A", PolicyA.rows[0].values)
  const RowA2025: LongRow := LongRow(2025, "A", PolicyA.rows[1].values)
  const RowB2025: LongRow := LongRow(2025, "B", PolicyB.rows[0].values)

  lemma ExampleLongRows()
    ensures Combine(["A", "B"], Sheets).rows == [RowA2024, RowA2025, RowB2025]
  {
    assert Sheets["A"] == PolicyA && Sheets["B"] == PolicyB;
    assert ["A", "B"][1..] == ["B"] && ["B"][1..] == [];
    assert Tag("A", PolicyA.rows) == [RowA2024, RowA2025];
    assert LongRows(["B"], Sheets) == [RowB2025];
  }

  lemma ExampleTotals(rows: seq<LongRow>)
    requires rows == [RowA2024, RowA2025, RowB2025]
    ensures Chart.PolicyTotal(rows, "A", "Premium") == 200
    ensures Chart.PolicyTotal(rows, "B", "Premium") == 200
  {
    assert "A" != "B";
    assert Lookup(RowA2024.values, "Premium") == 100 && Lookup(RowA2025.values, "Premium") == 100;
    assert Lookup(RowB2025.values, "Premium") == 200;
    var tail := [RowB2025];
    assert tail[1..] == [];
    assert Chart.PolicyTotal(tail, "A", "Premium") == 0 && Chart.PolicyTotal(tail, "B", "Premium") == 200;
    var mid := [RowA2025, RowB2025];
    assert mid[1..] == tail;
    assert Chart.PolicyTotal(mid, "A", "Premium") == 100 && Chart.PolicyTotal(mid, "B", "Premium") == 200;
    assert rows[1..] == mid;
  }

  lemma ExampleSelect(rows: seq<LongRow>)
    requires rows == [RowA2024, RowA2025, RowB2025]
    ensures Chart.SelectRows(rows, 2024, 2025, ["A", "B"]) == rows
  {
    var ps := ["A", "B"];
    var tail := [RowB2025];
    var mid := [RowA2025, RowB2025];
    assert tail[1..] == [] && mid[1..] == tail && rows[1..] == mid;
    assert Chart.SelectRows(tail, 2024, 2025, ps) == tail;
    assert Chart.SelectRows(mid, 2024, 2025, ps) == [RowA2025] + tail == mid;
    assert Chart.SelectRows(rows, 2024, 2025, ps) == [RowA2024] + mid == rows;
  }

  lemma ExampleKeep(rows: seq<LongRow>)
    requires rows == [RowA2024, RowA2025, RowB2025]
    ensures Chart.KeepContributing(rows, rows, "Premium") == rows
  {
    ExampleTotals(rows);
    var tail := [RowB2025];
    var mid := [RowA2025, RowB2025];
    assert tail[1..] == [] && mid[1..] == tail && rows[1..] == mid;
    assert Chart.KeepContributing(tail, rows, "Premium") == tail;
    assert Chart.KeepContributing(mid, rows, "Premium") == [RowA2025] + tail == mid;
    assert Chart.KeepContributing(rows, rows, "Premium") == [RowA2024] + mid == rows;
  }

  /** Premium is offered: policy A defines it. */
  lemma ExamplePremiumOffered()
    ensures "Premium" in ItemCandidates(Combine(["A", "B"], Sheets).columns)
  {
    CombinedCandidates(["A", "B"], Sheets, "Premium");
    assert "A" in ["A", "B"] && "Premium" in Sheets["A"].columns;
  }

  lemma ChartOfExampleRows(t: LongTable)
    requires t.rows == [RowA2024, RowA2025, RowB2025]
    requires "Premium" in ItemCandidates(t.columns)
    ensures Chart.ChartRows(t, 2024, 2025, ["A", "B"], "Premium") == Ok(t.rows)
  {
    ExampleSelect(t.rows);
    ExampleKeep(t.rows);
  }

  /** Charting Premium over 2024-2025 for both policies keeps all three rows; B has no 2024 row. */
  lemma ChartExample()
    ensures Chart.ChartRows(Combine(["A", "B"], Sheets), 2024, 2025, ["A", "B"], "Premium")
         == Ok([RowA2024, RowA2025, RowB2025])
  {
    ExamplePremiumOffered();
    ExampleLongRows();
    ChartOfExampleRows(Combine(["A", "B"], Sheets));
  }

  lemma ExampleYears()
    ensures Summary.YearsOf([PolicyA, PolicyB]) == {2024, 2025}
  {
    var ts := [PolicyA, PolicyB];
    assert ts[..1] == [PolicyA] && [PolicyA][..0] == [];
    assert Summary.RowYears(PolicyA.rows) == {2024, 2025};
    assert Summary.RowYears(PolicyB.rows) == {2025};
    assert Summary.YearsOf([PolicyA]) == {2024, 2025};
  }

  lemma ExampleItems()
    ensures Summary.UniqueItems([PolicyA, PolicyB]) == ["Premium", "CashValue"]
  {
    var ts := [PolicyA, PolicyB];
    assert ts[..1] == [PolicyA] && [PolicyA][..0] == [];
    var cols := Summary.ColumnsOf(ts);
    assert Summary.ColumnsOf([PolicyA]) == PolicyA.columns;
    assert cols == Summary.ColumnsOf(ts[..1]) + PolicyB.columns;
    assert cols == PolicyA.columns + PolicyB.columns;
    ExampleFirstSeen(cols);
  }

  lemma ExampleFirstSeen(cols: seq<Name>)
    requires cols == [YearField, AgeField, "Premium", "CashValue", YearField, AgeField, "Premium"]
    ensures FirstSeen(cols, Summary.SummaryMeta) == ["Premium", "CashValue"]
  {
    assert YearField in Summary.SummaryMeta && AgeField in Summary.SummaryMeta;
    assert "Premium" !in Summary.SummaryMeta && "CashValue" !in Summary.SummaryMeta && "Premium" != "CashValue";
    Scan(YearField, AgeField, "Premium", "CashValue", Summary.SummaryMeta);
  }

  /** The scan of the example's columns, with the names abstracted away. */
  lemma Scan<T(!new)>(y: T, a: T, p: T, c: T, meta: seq<T>)
    requires y in meta && a in meta && p !in meta && c !in meta && p != c
    ensures FirstSeen([y, a, p, c, y, a, p], meta) == [p, c]
  {
    var first := [y, a, p, c];
    ScanFirst(y, a, p, c, meta);
    ScanKnown(first, y, meta);
    ScanKnown(first + [y], a, meta);
    ScanKnown(first + [y] + [a], p, meta);
    assert first + [y] + [a] + [p] == [y, a, p, c, y, a, p];
  }

  lemma ScanFirst<T(!new)>(y: T, a: T, p: T, c: T, meta: seq<T>)
    requires y in meta && a in meta && p !in meta && c !in meta && p != c
    ensures FirstSeen([y, a, p, c], meta) == [p, c]
  {
    FirstSeenSnoc([], y, meta);
    assert [] + [y] == [y];
    ScanKnown([y], a, meta);
    assert [y] + [a] == [y, a];
    FirstSeenSnoc([y, a], p, meta);
    assert [y, a] + [p] == [y, a, p];
    FirstSeenSnoc([y, a, p], c, meta);
    assert [y, a, p] + [c] == [y, a, p, c];
  }

  /** Scanning a skipped or already collected name changes nothing. */
  lemma ScanKnown<T(!new)>(s: seq<T>, x: T, meta: seq<T>)
    requires x in meta || x in FirstSeen(s, meta)
    ensures FirstSeen(s + [x], meta) == FirstSeen(s, meta)
  {
    FirstSeenSnoc(s, x, meta);
  }

  lemma ExampleCells()
    ensures Summary.Cell([PolicyA, PolicyB], 2024, "Premium") == 100
    ensures Summary.Cell([PolicyA, PolicyB], 2025, "Premium") == 300
    ensures Summary.Cell([PolicyA, PolicyB], 2024, "CashValue") == 0
    ensures Summary.Cell([PolicyA, PolicyB], 2025, "CashValue") == 50
  {
    var ts := [PolicyA, PolicyB];
    assert ts[..1] == [PolicyA] && [PolicyA][..0] == [];
    assert PolicyA.rows[1..] == [PolicyA.rows[1]] && PolicyB.rows[1..] == [];
    assert "Premium" in PolicyA.columns && "CashValue" in PolicyA.columns;
    assert "Premium" in PolicyB.columns && "CashValue" !in PolicyB.columns;
    assert Summary.YearValue(PolicyA.rows, 2024, "Premium") == 100;
    assert Summary.YearValue(PolicyA.rows, 2025, "Premium") == 100;
    assert Summary.YearValue(PolicyA.rows, 2024, "CashValue") == 0;
    assert Summary.YearValue(PolicyA.rows, 2025, "CashValue") == 50;
    assert Summary.YearValue(PolicyB.rows, 2024, "Premium") == 0;
    assert Summary.YearValue(PolicyB.rows, 2025, "Premium") == 200;
    forall y, i ensures Summary.Cell(ts, y, i) == Summary.Contribution(PolicyA, y, i) + Summary.Contribution(PolicyB, y, i) {
      assert Summary.Cell(ts[..1], y, i) == Summary.Contribution(PolicyA, y, i);
    }
  }

  /**
   * The consolidated table: Premium 100 and 300, CashValue 0 and 50. CashValue
   * is kept because its 2025 cell is not zero.
   */
  lemma SummaryExample()
    ensures Summary.IsSummary(Summary.Summary([2024, 2025], true, ["Premium", "CashValue"], [[100, 300], [0, 50]]),
                              [PolicyA, PolicyB])
  {
    ExampleYears();
    ExampleItems();
    ExampleKept();
    ExampleTabulates();
    assert Summary.HasNonZero([2024, 2025]) by {
      assert [2024, 2025][0] != 0;
    }
  }

  /** Neither item is zero in every year, so both are kept. */
  lemma ExampleKept()
    ensures Summary.NonZeroItems([PolicyA, PolicyB], ["Premium", "CashValue"]) == ["Premium", "CashValue"]
  {
    var ts := [PolicyA, PolicyB];
    ExampleYears();
    ExampleCells();
    assert !Summary.ZeroColumn(ts, "Premium") by {
      assert 2024 in Summary.YearsOf(ts);
    }
    assert !Summary.ZeroColumn(ts, "CashValue") by {
      assert 2025 in Summary.YearsOf(ts);
    }
    var u := ["Premium", "CashValue"];
    assert u[1..] == ["CashValue"] && u[1..][1..] == [];
  }

  lemma ExampleTabulates()
    ensures Summary.Tabulates([PolicyA, PolicyB], ["Premium", "CashValue"], [[100, 300], [0, 50]], [2024, 2025])
  {
    ExampleCells();
  }

  /**
   * A policy whose in-window values cancel out (+100, then -100) is dropped
   * from the chart, like one whose values are all zero: app.py:44-46 tests
   * the group total, not the single values.
   */
  lemma ChartCancelExample(t: LongTable)
    requires t == LongTable(["Premium"], [LongRow(2024, "C", map["Premium" := 100]), LongRow(2025, "C", map["Premium" := -100])])
    ensures Chart.ChartRows(t, 2024, 2025, ["C"], "Premium") == Ok([])
  {
    assert "Premium" in ItemCandidates(t.columns) by {
      assert "Premium" !in Excluded;
    }
    var tail := t.rows[1..];
    assert tail[1..] == [];
    assert Chart.SelectRows(t.rows, 2024, 2025, ["C"]) == t.rows;
    assert Chart.PolicyTotal(tail, "C", "Premium") == -100;
    assert Chart.PolicyTotal(t.rows, "C", "Premium") == 0;
  }
}
