/**
 * Data model of the insurance workbook: one table per policy sheet, rows
 * indexed by calendar year, each row holding integer line-item values.
 * A value that is absent from a row's map stands for an empty spreadsheet
 * cell (NaN) and is read as 0.
 */
module Tables {
  import opened Seqs

  type Name = string

  /** One row of a policy sheet: its calendar year and its item values. */
  datatype Row = Row(year: int, values: map<Name, int>)

  /** A policy sheet after the loader has kept its relevant columns. */
  datatype Table = Table(columns: seq<Name>, rows: seq<Row>)

  /** A row of the combined long table: a sheet row tagged with its policy. */
  datatype LongRow = LongRow(year: int, policy: Name, values: map<Name, int>)

  datatype LongTable = LongTable(columns: seq<Name>, rows: seq<LongRow>)

  datatype Result<T, E> = Ok(value: T) | Err(error: E)

  datatype Failure =
    | UnknownItem   // the chosen item is not one of the offered candidates
    | NoPolicies    // the consolidated summary was asked for no policy at all

  /** The sheets' raw calendar-year column. */
  const YearField: Name := "西元年"
  /** The sheets' age column. */
  const AgeField: Name := "年齡"
  /** The column that tags a row with its policy (sheet) name. */
  const PolicyField: Name := "Policy"
  /** The copy of the calendar year added to the long table. */
  const YearColumn: Name := "Year"

  /** Columns never offered as a chart item (app.py:24). */
  const Excluded: seq<Name> := [YearColumn, PolicyField, AgeField, YearField]

  /** Missing values count as zero. */
  function Lookup(values: map<Name, int>, item: Name): int {
    if item in values then values[item] else 0
  }

  /** No two rows of a sheet share a year. */
  predicate UniqueYears(rows: seq<Row>) {
    forall i, j :: 0 <= i < j < |rows| ==> rows[i].year != rows[j].year
  }

  /** The chart's item choices: the columns that are not metadata, in order (app.py:38). */
  function ItemCandidates(columns: seq<Name>): (r: seq<Name>)
    ensures forall c :: c in r <==> c in columns && c !in Excluded
    ensures Subseq(r, columns)
  {
    if columns == [] then []
    else if columns[0] in Excluded then ItemCandidates(columns[1..])
    else [columns[0]] + ItemCandidates(columns[1..])
  }

  /**
   * A sheet as the loader produces it: every value of a row sits in one of
   * the sheet's columns (a data frame has no cell outside its columns).
   */
  predicate WellFormed(t: Table) {
    forall r, c :: r in t.rows && c in r.values ==> c in t.columns
  }

  /** `x` is a row of `t` (same year, same values), tagged with some policy. */
  predicate RowOf(x: LongRow, t: Table) {
    exists k :: 0 <= k < |t.rows| && t.rows[k].year == x.year && t.rows[k].values == x.values
  }

  /** The rows of one sheet tagged with the sheet's name. */
  function Tag(p: Name, rows: seq<Row>): (r: seq<LongRow>)
    ensures |r| == |rows|
    ensures forall k :: 0 <= k < |rows| ==> r[k] == LongRow(rows[k].year, p, rows[k].values)
  {
    if rows == [] then []
    else [LongRow(rows[0].year, p, rows[0].values)] + Tag(p, rows[1..])
  }

  /** The rows of all sheets, sheet after sheet, each tagged with its sheet. */
  function LongRows(names: seq<Name>, sheets: map<Name, Table>): (r: seq<LongRow>)
    requires forall n :: n in names ==> n in sheets
    ensures forall x :: x in r <==> x.policy in names && RowOf(x, sheets[x.policy])
  {
    if names == [] then []
    else
      var head := Tag(names[0], sheets[names[0]].rows);
      var rest := LongRows(names[1..], sheets);
      TagMembers(names[0], sheets[names[0]]);
      assert forall q: Name :: q in names <==> q == names[0] || q in names[1..];
      head + rest
  }

  lemma TagMembers(p: Name, t: Table)
    ensures forall x :: x in Tag(p, t.rows) <==> x.policy == p && RowOf(x, t)
  {
    var r := Tag(p, t.rows);
    forall x: LongRow | x.policy == p && RowOf(x, t) ensures x in r {
      var k :| 0 <= k < |t.rows| && t.rows[k].year == x.year && t.rows[k].values == x.values;
      assert r[k] == x;
    }
    forall x | x in r ensures x.policy == p && RowOf(x, t) {
      var k :| 0 <= k < |r| && r[k] == x;
      assert t.rows[k].year == x.year && t.rows[k].values == x.values;
    }
  }

  /** Each sheet's columns followed by the policy tag column, sheet after sheet. */
  function TaggedColumns(names: seq<Name>, sheets: map<Name, Table>): seq<Name>
    requires forall n :: n in names ==> n in sheets
  {
    if names == [] then []
    else sheets[names[0]].columns + [PolicyField] + TaggedColumns(names[1..], sheets)
  }

  /**
   * The combined long table (app.py:16-21): every sheet's rows tagged with
   * the sheet name, with the union of the tagged sheets' columns plus the
   * copied year column, each column once.
   */
  function Combine(names: seq<Name>, sheets: map<Name, Table>): (r: LongTable)
    requires forall n :: n in names ==> n in sheets
    ensures NoDup(r.columns)
    ensures forall c :: c in r.columns
              <==> c == YearColumn || (names != [] && c == PolicyField) || exists n :: n in names && c in sheets[n].columns
    ensures forall x :: x in r.rows <==> x.policy in names && RowOf(x, sheets[x.policy])
  {
    TaggedColumnsMembersAll(names, sheets);
    LongTable(FirstSeen(TaggedColumns(names, sheets) + [YearColumn], []), LongRows(names, sheets))
  }

  /** The rows of `rows` that belong to policy `p`, in order. */
  function OfPolicy(rows: seq<LongRow>, p: Name): seq<LongRow> {
    if rows == [] then []
    else (if rows[0].policy == p then [rows[0]] else []) + OfPolicy(rows[1..], p)
  }

  lemma {:induction false} OfPolicyAppend(a: seq<LongRow>, b: seq<LongRow>, p: Name)
    ensures OfPolicy(a + b, p) == OfPolicy(a, p) + OfPolicy(b, p)
  {
    if a == [] {
      assert a + b == b;
    } else {
      assert (a + b)[0] == a[0] && (a + b)[1..] == a[1..] + b;
      OfPolicyAppend(a[1..], b, p);
    }
  }

  lemma {:induction false} OfPolicyTag(q: Name, rows: seq<Row>, p: Name)
    ensures OfPolicy(Tag(q, rows), p) == if p == q then Tag(q, rows) else []
  {
    if rows != [] {
      OfPolicyTag(q, rows[1..], p);
    }
  }

  /**
   * In the long table, the rows of a sheet are exactly that sheet's rows, in
   * their order, tagged with its name, year and values unchanged.
   */
  lemma {:induction false} LongRowsOfPolicy(names: seq<Name>, sheets: map<Name, Table>, p: Name)
    requires forall n :: n in names ==> n in sheets
    requires NoDup(names)
    ensures OfPolicy(LongRows(names, sheets), p) == if p in names then Tag(p, sheets[p].rows) else []
  {
    if names != [] {
      var rest := names[1..];
      assert NoDup(rest) by {
        forall i, j | 0 <= i < j < |rest| ensures rest[i] != rest[j] {
          assert rest[i] == names[i + 1] && rest[j] == names[j + 1];
        }
      }
      assert names[0] !in rest by {
        forall k | 0 <= k < |rest| ensures rest[k] != names[0] {
          assert rest[k] == names[k + 1];
        }
      }
      assert names == [names[0]] + rest;
      OfPolicyAppend(Tag(names[0], sheets[names[0]].rows), LongRows(rest, sheets), p);
      OfPolicyTag(names[0], sheets[names[0]].rows, p);
      LongRowsOfPolicy(rest, sheets, p);
    }
  }

  lemma {:induction false} TaggedColumnsMembers(names: seq<Name>, sheets: map<Name, Table>, c: Name)
    requires forall n :: n in names ==> n in sheets
    ensures c in TaggedColumns(names, sheets)
        <==> (names != [] && c == PolicyField) || exists n :: n in names && c in sheets[n].columns
  {
    if names != [] {
      TaggedColumnsMembers(names[1..], sheets, c);
      if c in sheets[names[0]].columns {
        assert names[0] in names;
      }
      if exists n :: n in names[1..] && c in sheets[n].columns {
        var n :| n in names[1..] && c in sheets[n].columns;
        assert n in names;
      }
      if exists n :: n in names && c in sheets[n].columns {
        var n :| n in names && c in sheets[n].columns;
        assert n == names[0] || n in names[1..];
      }
    }
  }

  lemma TaggedColumnsMembersAll(names: seq<Name>, sheets: map<Name, Table>)
    requires forall n :: n in names ==> n in sheets
    ensures forall c :: c in TaggedColumns(names, sheets)
              <==> (names != [] && c == PolicyField) || exists n :: n in names && c in sheets[n].columns
  {
    forall c ensures c in TaggedColumns(names, sheets)
                 <==> (names != [] && c == PolicyField) || exists n :: n in names && c in sheets[n].columns {
      TaggedColumnsMembers(names, sheets, c);
    }
  }

  /**
   * The chart offers exactly the non-metadata columns that some sheet
   * defines (app.py:19-24, app.py:38).
   */
  lemma CombinedCandidates(names: seq<Name>, sheets: map<Name, Table>, item: Name)
    requires forall n :: n in names ==> n in sheets
    ensures item in ItemCandidates(Combine(names, sheets).columns)
        <==> item !in Excluded && exists n :: n in names && item in sheets[n].columns
  {
    TaggedColumnsMembers(names, sheets, item);
  }
}
