/**
 * The chart data filter (app.py:41-46): the long-table rows inside the year
 * window whose policy is selected, minus every row of a policy whose total of
 * the chosen item over those rows is exactly zero.
 */
module Chart {
  import opened Seqs
  import opened Tables

  /** The row mask of app.py:41: year inside [lo, hi] and policy selected. */
  predicate InSelection(r: LongRow, lo: int, hi: int, policies: seq<Name>) {
    lo <= r.year <= hi && r.policy in policies
  }

  /** The rows that pass the mask, in their order. */
  function SelectRows(rows: seq<LongRow>, lo: int, hi: int, policies: seq<Name>): (r: seq<LongRow>)
    ensures forall x :: x in r <==> x in rows && InSelection(x, lo, hi, policies)
    ensures r == [] <==> forall x :: x in rows ==> !InSelection(x, lo, hi, policies)
    ensures Subseq(r, rows)
  {
    if rows == [] then []
    else if InSelection(rows[0], lo, hi, policies) then [rows[0]] + SelectRows(rows[1..], lo, hi, policies)
    else SelectRows(rows[1..], lo, hi, policies)
  }

  /** The group-by sum of app.py:44 for one policy; an empty cell adds nothing. */
  function PolicyTotal(rows: seq<LongRow>, p: Name, item: Name): (r: int)
    ensures (forall x :: x in rows ==> x.policy != p) ==> r == 0
  {
    if rows == [] then 0
    else (if rows[0].policy == p then Lookup(rows[0].values, item) else 0) + PolicyTotal(rows[1..], p, item)
  }

  /**
   * The rows of `rows` whose policy has a non-zero total in `base`
   * (app.py:45-46, where `base` is the masked table itself).
   */
  function KeepContributing(rows: seq<LongRow>, base: seq<LongRow>, item: Name): (r: seq<LongRow>)
    ensures forall x :: x in r <==> x in rows && PolicyTotal(base, x.policy, item) != 0
    ensures Subseq(r, rows)
  {
    if rows == [] then []
    else if PolicyTotal(base, rows[0].policy, item) != 0 then [rows[0]] + KeepContributing(rows[1..], base, item)
    else KeepContributing(rows[1..], base, item)
  }

  /**
   * The rows handed to the chart. An item outside the offered candidates is
   * refused; an empty selection is not an error.
   */
  function ChartRows(t: LongTable, lo: int, hi: int, policies: seq<Name>, item: Name): (r: Result<seq<LongRow>, Failure>)
    ensures r.Err? <==> item !in t.columns || item in Excluded
    ensures r.Err? ==> r.error == UnknownItem
  {
    if item !in ItemCandidates(t.columns) then Err(UnknownItem)
    else
      var masked := SelectRows(t.rows, lo, hi, policies);
      Ok(KeepContributing(masked, masked, item))
  }

  /** The mask keeps every occurrence of a qualifying row, however often it repeats. */
  lemma {:induction false} SelectRowsCount(rows: seq<LongRow>, lo: int, hi: int, policies: seq<Name>, x: LongRow)
    ensures multiset(SelectRows(rows, lo, hi, policies))[x] == if InSelection(x, lo, hi, policies) then multiset(rows)[x] else 0
  {
    if rows != [] {
      SelectRowsCount(rows[1..], lo, hi, policies, x);
      assert rows == [rows[0]] + rows[1..];
      assert multiset(rows) == multiset([rows[0]]) + multiset(rows[1..]);
    }
  }

  /** The zero drop keeps every occurrence of a row of a contributing policy. */
  lemma {:induction false} KeepContributingCount(rows: seq<LongRow>, base: seq<LongRow>, item: Name, x: LongRow)
    ensures multiset(KeepContributing(rows, base, item))[x] == if PolicyTotal(base, x.policy, item) != 0 then multiset(rows)[x] else 0
  {
    if rows != [] {
      KeepContributingCount(rows[1..], base, item, x);
      assert rows == [rows[0]] + rows[1..];
      assert multiset(rows) == multiset([rows[0]]) + multiset(rows[1..]);
    }
  }

  /** Only the rows of `p` enter its group: the group-by of app.py:44. */
  lemma {:induction false} PolicyTotalOfPolicy(rows: seq<LongRow>, p: Name, item: Name)
    ensures PolicyTotal(rows, p, item) == PolicyTotal(OfPolicy(rows, p), p, item)
  {
    if rows != [] {
      PolicyTotalOfPolicy(rows[1..], p, item);
      PolicyTotalAppend(if rows[0].policy == p then [rows[0]] else [], OfPolicy(rows[1..], p), p, item);
    }
  }

  /** Group totals add up over any split of the rows. */
  lemma {:induction false} PolicyTotalAppend(a: seq<LongRow>, b: seq<LongRow>, p: Name, item: Name)
    ensures PolicyTotal(a + b, p, item) == PolicyTotal(a, p, item) + PolicyTotal(b, p, item)
  {
    if a == [] {
      assert a + b == b;
    } else {
      assert (a + b)[0] == a[0] && (a + b)[1..] == a[1..] + b;
      PolicyTotalAppend(a[1..], b, p, item);
    }
  }

  /** Reference total: the item summed over the rows of `p` that lie in [lo, hi]. */
  function RangeTotal(rows: seq<LongRow>, p: Name, lo: int, hi: int, item: Name): int {
    if rows == [] then 0
    else (if rows[0].policy == p && lo <= rows[0].year <= hi then Lookup(rows[0].values, item) else 0)
         + RangeTotal(rows[1..], p, lo, hi, item)
  }

  /** The group-by total over the masked rows is the reference total, for selected policies. */
  lemma {:induction false} MaskedTotal(rows: seq<LongRow>, lo: int, hi: int, policies: seq<Name>, p: Name, item: Name)
    ensures PolicyTotal(SelectRows(rows, lo, hi, policies), p, item)
         == if p in policies then RangeTotal(rows, p, lo, hi, item) else 0
  {
    if rows != [] {
      MaskedTotal(rows[1..], lo, hi, policies, p, item);
      if InSelection(rows[0], lo, hi, policies) {
        assert ([rows[0]] + SelectRows(rows[1..], lo, hi, policies))[1..] == SelectRows(rows[1..], lo, hi, policies);
      }
    }
  }

  /** A policy's rows survive as a block, all or none, according to its total. */
  lemma {:induction false} KeepContributingOfPolicy(rows: seq<LongRow>, base: seq<LongRow>, item: Name, p: Name)
    ensures OfPolicy(KeepContributing(rows, base, item), p)
         == if PolicyTotal(base, p, item) != 0 then OfPolicy(rows, p) else []
  {
    if rows != [] {
      KeepContributingOfPolicy(rows[1..], base, item, p);
      if PolicyTotal(base, rows[0].policy, item) != 0 {
        assert ([rows[0]] + KeepContributing(rows[1..], base, item))[1..] == KeepContributing(rows[1..], base, item);
      }
    }
  }

  /** Every chart row is a long-table row inside the selection, and the rows keep their order. */
  lemma ChartRowsSelected(t: LongTable, lo: int, hi: int, policies: seq<Name>, item: Name)
    requires ChartRows(t, lo, hi, policies, item).Ok?
    ensures forall x :: x in ChartRows(t, lo, hi, policies, item).value ==> x in t.rows && InSelection(x, lo, hi, policies)
    ensures Subseq(ChartRows(t, lo, hi, policies, item).value, t.rows)
  {
    var masked := SelectRows(t.rows, lo, hi, policies);
    SubseqTrans(KeepContributing(masked, masked, item), masked, t.rows);
  }

  /**
   * Zero suppression, both ways: a policy is charted with all of its rows in
   * the selection when its in-range total of the item is non-zero, and is
   * absent otherwise.
   */
  lemma ChartZeroSuppression(t: LongTable, lo: int, hi: int, policies: seq<Name>, item: Name, p: Name)
    requires ChartRows(t, lo, hi, policies, item).Ok?
    ensures OfPolicy(ChartRows(t, lo, hi, policies, item).value, p)
         == if p in policies && RangeTotal(t.rows, p, lo, hi, item) != 0
            then OfPolicy(SelectRows(t.rows, lo, hi, policies), p)
            else []
  {
    var masked := SelectRows(t.rows, lo, hi, policies);
    KeepContributingOfPolicy(masked, masked, item, p);
    MaskedTotal(t.rows, lo, hi, policies, p, item);
    if p !in policies {
      assert OfPolicy(masked, p) == [] by {
        OfPolicyNone(masked, p);
      }
    }
  }

  /**
   * The chart holds every occurrence of an in-window row of a selected
   * policy whose in-window total is non-zero, and no other row.
   */
  lemma ChartRowsCount(t: LongTable, lo: int, hi: int, policies: seq<Name>, item: Name, x: LongRow)
    requires ChartRows(t, lo, hi, policies, item).Ok?
    ensures multiset(ChartRows(t, lo, hi, policies, item).value)[x]
         == if InSelection(x, lo, hi, policies) && RangeTotal(t.rows, x.policy, lo, hi, item) != 0
            then multiset(t.rows)[x] else 0
  {
    var masked := SelectRows(t.rows, lo, hi, policies);
    KeepContributingCount(masked, masked, item, x);
    SelectRowsCount(t.rows, lo, hi, policies, x);
    MaskedTotal(t.rows, lo, hi, policies, x.policy, item);
  }

  lemma {:induction false} OfPolicyNone(rows: seq<LongRow>, p: Name)
    requires forall x :: x in rows ==> x.policy != p
    ensures OfPolicy(rows, p) == []
  {
    if rows != [] {
      assert rows[0] in rows;
      OfPolicyNone(rows[1..], p);
    }
  }

  /** No charted row belongs to a policy whose in-range total of the item is zero. */
  lemma ChartRowsContribute(t: LongTable, lo: int, hi: int, policies: seq<Name>, item: Name)
    requires ChartRows(t, lo, hi, policies, item).Ok?
    ensures forall x :: x in ChartRows(t, lo, hi, policies, item).value ==> RangeTotal(t.rows, x.policy, lo, hi, item) != 0
  {
    var masked := SelectRows(t.rows, lo, hi, policies);
    forall x | x in ChartRows(t, lo, hi, policies, item).value
      ensures RangeTotal(t.rows, x.policy, lo, hi, item) != 0
    {
      MaskedTotal(t.rows, lo, hi, policies, x.policy, item);
    }
  }

  /**
   * With a valid item, no selected policy, an empty year window, or a window
   * that no row of a selected policy falls into gives an empty chart, not an error.
   */
  lemma ChartEmpty(t: LongTable, lo: int, hi: int, policies: seq<Name>, item: Name)
    requires item in t.columns && item !in Excluded
    requires policies == [] || hi < lo || forall x :: x in t.rows ==> !InSelection(x, lo, hi, policies)
    ensures ChartRows(t, lo, hi, policies, item) == Ok([])
  {
  }
}
