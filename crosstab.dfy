/** The cross-tabulator: `pd.crosstab(df['CLASSIFICATION'], df['AGE_BAND'],
    normalize='index') * 100`, the table behind each dashboard's heatmap. */
module CrossTab {
  import opened Wrappers
  import opened Records
  import opened Ordering
  import opened Filtering
  import opened Stats

  /** One table row: a classification and its 20 cells, one per age band in bin order. */
  datatype CrossRow = CrossRow(classification: int, cells: seq<real>)

  predicate IntLess(a: int, b: int) {
    a < b
  }

  lemma IntLessIsStrictTotalOrder()
    ensures IsStrictTotalOrder(IntLess)
  {
  }

  /** Rows of classification `k` in age band `b`. */
  function CellCount(rows: seq<Record>, k: int, b: nat): (n: nat)
    ensures n <= |rows|
  {
    if rows == [] then 0
    else (if rows[0].classification == k && AgeBand(rows[0].age) == Some(b) then 1 else 0)
         + CellCount(rows[1..], k, b)
  }

  /** Rows of classification `k` that have an age band; a NaN band is not counted. */
  function RowTotal(rows: seq<Record>, k: int): (n: nat)
    ensures n <= |rows|
  {
    if rows == [] then 0
    else (if rows[0].classification == k && AgeBand(rows[0].age).Some? then 1 else 0)
         + RowTotal(rows[1..], k)
  }

  /** Rows of classification `k` whose band is below `n`. */
  function CountBelow(rows: seq<Record>, k: int, n: nat): nat
  {
    if rows == [] then 0
    else (if rows[0].classification == k && AgeBand(rows[0].age).Some? && AgeBand(rows[0].age).value < n then 1 else 0)
         + CountBelow(rows[1..], k, n)
  }

  /** The counts of bands 0 .. n-1 added up. */
  function CountSum(rows: seq<Record>, k: int, n: nat): nat
  {
    if n == 0 then 0 else CountSum(rows, k, n - 1) + CellCount(rows, k, n - 1)
  }

  /** The classification of every row that has an age band, in order. */
  function BandedClasses(rows: seq<Record>): seq<int>
  {
    if rows == [] then []
    else (if AgeBand(rows[0].age).Some? then [rows[0].classification] else []) + BandedClasses(rows[1..])
  }

  lemma {:induction false} BandedClassesCounted(rows: seq<Record>, k: int)
    ensures k in BandedClasses(rows) <==> RowTotal(rows, k) > 0
  {
    if rows != [] {
      BandedClassesCounted(rows[1..], k);
    }
  }

  /** The row index of the table: the distinct classifications with a banded row, ascending. */
  function RowClasses(rows: seq<Record>): (ks: seq<int>)
    ensures StrictlySorted(ks, IntLess)
    ensures forall k :: k in ks <==> RowTotal(rows, k) > 0
  {
    IntLessIsStrictTotalOrder();
    SortedUniqueCorrect(BandedClasses(rows), IntLess);
    forall k ensures k in BandedClasses(rows) <==> RowTotal(rows, k) > 0 {
      BandedClassesCounted(rows, k);
    }
    SortedUnique(BandedClasses(rows), IntLess)
  }

  /** The first `n` cells of row `k`: each band's count divided by the row's total, times 100. */
  function RowCells(rows: seq<Record>, k: int, n: nat): (cells: seq<real>)
    requires RowTotal(rows, k) > 0
    ensures |cells| == n
  {
    if n == 0 then []
    else RowCells(rows, k, n - 1) + [CellCount(rows, k, n - 1) as real / RowTotal(rows, k) as real * 100.0]
  }

  function TableRows(rows: seq<Record>, ks: seq<int>): (t: seq<CrossRow>)
    requires forall k :: k in ks ==> RowTotal(rows, k) > 0
    ensures |t| == |ks|
    ensures forall row :: row in t ==> |row.cells| == BandCount
  {
    if ks == [] then []
    else [CrossRow(ks[0], RowCells(rows, ks[0], BandCount))] + TableRows(rows, ks[1..])
  }

  /** The normalised cross-tabulation of classification against age band. */
  function CrossTabulate(rows: seq<Record>): (t: seq<CrossRow>)
    ensures forall row :: row in t ==> |row.cells| == BandCount
  {
    TableRows(rows, RowClasses(rows))
  }

  function SumReals(s: seq<real>): real
  {
    if s == [] then 0.0 else SumReals(s[..|s| - 1]) + s[|s| - 1]
  }

  lemma {:induction false} CellCountBounded(rows: seq<Record>, k: int, b: nat)
    ensures CellCount(rows, k, b) <= RowTotal(rows, k)
  {
    if rows != [] {
      CellCountBounded(rows[1..], k, b);
    }
  }

  lemma {:induction false} CountBelowStep(rows: seq<Record>, k: int, n: nat)
    ensures CountBelow(rows, k, n + 1) == CountBelow(rows, k, n) + CellCount(rows, k, n)
  {
    if rows != [] {
      CountBelowStep(rows[1..], k, n);
    }
  }

  lemma {:induction false} CountBelowAll(rows: seq<Record>, k: int)
    ensures CountBelow(rows, k, BandCount) == RowTotal(rows, k)
  {
    if rows != [] {
      CountBelowAll(rows[1..], k);
    }
  }

  /** Every banded row of classification `k` is in exactly one band, so the band
      counts of a row add up to the row's total. */
  lemma {:induction false} BandCountsAddUp(rows: seq<Record>, k: int, n: nat)
    ensures CountSum(rows, k, n) == CountBelow(rows, k, n)
  {
    if n == 0 {
      ZeroBelow(rows, k);
    } else {
      BandCountsAddUp(rows, k, n - 1);
      CountBelowStep(rows, k, n - 1);
    }
  }

  lemma {:induction false} ZeroBelow(rows: seq<Record>, k: int)
    ensures CountBelow(rows, k, 0) == 0
  {
    if rows != [] {
      ZeroBelow(rows[1..], k);
    }
  }

  lemma ScaledSum(a: real, c: real, t: real)
    requires t > 0.0
    ensures a / t * 100.0 + c / t * 100.0 == (a + c) / t * 100.0
  {
  }

  lemma {:induction false} RowCellsSum(rows: seq<Record>, k: int, n: nat)
    requires RowTotal(rows, k) > 0
    ensures SumReals(RowCells(rows, k, n)) == CountSum(rows, k, n) as real / RowTotal(rows, k) as real * 100.0
  {
    if n > 0 {
      RowCellsSum(rows, k, n - 1);
      var cells := RowCells(rows, k, n);
      assert cells[..n - 1] == RowCells(rows, k, n - 1);
      ScaledSum(CountSum(rows, k, n - 1) as real, CellCount(rows, k, n - 1) as real, RowTotal(rows, k) as real);
    }
  }

  lemma {:induction false} RowCellsAt(rows: seq<Record>, k: int, n: nat, b: nat)
    requires RowTotal(rows, k) > 0 && b < n
    ensures RowCells(rows, k, n)[b] == CellCount(rows, k, b) as real / RowTotal(rows, k) as real * 100.0
  {
    if b < n - 1 {
      RowCellsAt(rows, k, n - 1, b);
    }
  }

  lemma {:induction false} TableRowsAt(rows: seq<Record>, ks: seq<int>, i: nat)
    requires forall k :: k in ks ==> RowTotal(rows, k) > 0
    requires i < |ks|
    ensures TableRows(rows, ks)[i] == CrossRow(ks[i], RowCells(rows, ks[i], BandCount))
  {
    if i > 0 {
      TableRowsAt(rows, ks[1..], i - 1);
    }
  }

  /** The table has one row per classification that occurs with an age band, in
      ascending order, and nothing else. */
  lemma CrossTabRows(rows: seq<Record>)
    ensures var t := CrossTabulate(rows);
            && (forall i, j :: 0 <= i < j < |t| ==> t[i].classification < t[j].classification)
            && (forall k :: (exists row :: row in t && row.classification == k) <==> RowTotal(rows, k) > 0)
  {
    var ks := RowClasses(rows);
    var t := CrossTabulate(rows);
    forall i | 0 <= i < |t| ensures t[i].classification == ks[i] {
      TableRowsAt(rows, ks, i);
    }
    forall k | RowTotal(rows, k) > 0 ensures exists row :: row in t && row.classification == k {
      var i :| 0 <= i < |ks| && ks[i] == k;
      assert t[i] in t;
    }
  }

  /** Cell `b` of a row is the share, in percent, of that classification's banded
      rows that fall in band `b`. */
  lemma CrossTabCells(rows: seq<Record>, row: CrossRow, b: nat)
    requires row in CrossTabulate(rows) && b < BandCount
    ensures RowTotal(rows, row.classification) > 0
    ensures row.cells[b] == CellCount(rows, row.classification, b) as real
                            / RowTotal(rows, row.classification) as real * 100.0
  {
    var ks := RowClasses(rows);
    var t := CrossTabulate(rows);
    var i :| 0 <= i < |t| && t[i] == row;
    TableRowsAt(rows, ks, i);
    var k := ks[i];
    assert row.classification == k && row.cells == RowCells(rows, k, BandCount);
    RowCellsAt(rows, k, BandCount, b);
  }

  /** Every row of the table lies in [0, 100] cell by cell and sums to 100. */
  lemma CrossTabRowsNormalised(rows: seq<Record>)
    ensures forall row :: row in CrossTabulate(rows) ==>
              && RowTotal(rows, row.classification) >= 1
              && (forall b :: 0 <= b < |row.cells| ==> 0.0 <= row.cells[b] <= 100.0)
              && SumReals(row.cells) == 100.0
  {
    var ks := RowClasses(rows);
    var t := CrossTabulate(rows);
    forall row | row in t
      ensures RowTotal(rows, row.classification) >= 1
      ensures forall b :: 0 <= b < |row.cells| ==> 0.0 <= row.cells[b] <= 100.0
      ensures SumReals(row.cells) == 100.0
    {
      var i :| 0 <= i < |t| && t[i] == row;
      TableRowsAt(rows, ks, i);
      var k := ks[i];
      forall b | 0 <= b < |row.cells| ensures 0.0 <= row.cells[b] <= 100.0 {
        RowCellsAt(rows, k, BandCount, b);
        CellCountBounded(rows, k, b);
        ShareBounds(CellCount(rows, k, b), RowTotal(rows, k));
      }
      RowCellsSum(rows, k, BandCount);
      BandCountsAddUp(rows, k, BandCount);
      CountBelowAll(rows, k);
      ShareBounds(RowTotal(rows, k), RowTotal(rows, k));
    }
  }

  /** When every row is in band `b`, each classification's rows are all in cell `b`. */
  lemma {:induction false} SingleBandCounts(rows: seq<Record>, b: nat, k: int, b': nat)
    requires b < BandCount
    requires forall r :: r in rows ==> BandLabel(r.age) == Some(Label(b))
    ensures CellCount(rows, k, b) == RowTotal(rows, k)
    ensures b' != b ==> CellCount(rows, k, b') == 0
  {
    if rows != [] {
      assert rows[0] in rows;
      LabelInjective(AgeBand(rows[0].age).value, b);
      SingleBandCounts(rows[1..], b, k, b');
    }
  }

  /** With the age-band filter of the two-filter dashboard on band `b`, every row of
      the table has 100 in column `b` and 0 in every other column. */
  lemma BandFilterConcentrates(data: seq<Record>, classification: Option<int>, b: nat)
    requires b < BandCount
    ensures forall row :: row in CrossTabulate(SentinelFilter(data, classification, Some(Label(b)))) ==>
              && row.cells[b] == 100.0
              && forall b' :: 0 <= b' < BandCount && b' != b ==> row.cells[b'] == 0.0
  {
    var rows := SentinelFilter(data, classification, Some(Label(b)));
    assert forall r :: r in rows ==> BandLabel(r.age) == Some(Label(b)) by {
      SentinelFilterCorrect(data, classification, Some(Label(b)));
    }
    var ks := RowClasses(rows);
    var t := CrossTabulate(rows);
    forall row | row in t
      ensures row.cells[b] == 100.0
      ensures forall b' :: 0 <= b' < BandCount && b' != b ==> row.cells[b'] == 0.0
    {
      var i :| 0 <= i < |t| && t[i] == row;
      TableRowsAt(rows, ks, i);
      var k := ks[i];
      SingleBandCounts(rows, b, k, b);
      RowCellsAt(rows, k, BandCount, b);
      ShareBounds(RowTotal(rows, k), RowTotal(rows, k));
      forall b' | 0 <= b' < BandCount && b' != b ensures row.cells[b'] == 0.0 {
        SingleBandCounts(rows, b, k, b');
        RowCellsAt(rows, k, BandCount, b');
        ShareBounds(0, RowTotal(rows, k));
      }
    }
  }
}
