/** The statistics summariser: the counts and percentage of `create_stats_box`. */
module Stats {
  import opened Records
  import opened Filtering

  datatype Summary = Summary(total: nat, ones: nat, percent: real)

  /** `total_count = len(df)`, `ones_count = len(df[df['CLASSIFICATION'] == 1])` and
      `ones_count / total_count * 100 if total_count > 0 else 0`. */
  function Summarize(rows: seq<Record>): (s: Summary)
    ensures s.total == |rows| && s.ones == ClassCount(rows, 1) && s.ones <= s.total
    ensures 0.0 <= s.percent <= 100.0
    ensures s.total == 0 ==> s.percent == 0.0
    ensures s.total > 0 ==> s.percent * (s.total as real) == (s.ones as real) * 100.0
  {
    var total := |rows|;
    var ones := |Where(rows, [ClassIs(1)])|;
    WhereClassCount(rows, 1);
    if total > 0 then
      ShareBounds(ones, total);
      Summary(total, ones, ones as real / total as real * 100.0)
    else
      Summary(total, ones, 0.0)
  }

  /** The number of rows of classification `k`, counted one row at a time. */
  function ClassCount(rows: seq<Record>, k: int): (n: nat)
    ensures n <= |rows|
  {
    if rows == [] then 0 else (if rows[0].classification == k then 1 else 0) + ClassCount(rows[1..], k)
  }

  /** The mask `df['CLASSIFICATION'] == k` keeps as many rows as have classification `k`. */
  lemma {:induction false} WhereClassCount(rows: seq<Record>, k: int)
    ensures |Where(rows, [ClassIs(k)])| == ClassCount(rows, k)
  {
    if rows != [] {
      WhereClassCount(rows[1..], k);
      assert AllHold([ClassIs(k)], rows[0]) <==> rows[0].classification == k by {
        assert [ClassIs(k)][0] == ClassIs(k);
      }
    }
  }

  /** The percentage is 100 exactly when there are rows and all are class 1, and 0
      exactly when no row is class 1. */
  lemma PercentExtremes(rows: seq<Record>)
    ensures Summarize(rows).percent == 100.0 <==> rows != [] && forall r :: r in rows ==> r.classification == 1
    ensures Summarize(rows).percent == 0.0 <==> forall r :: r in rows ==> r.classification != 1
  {
    var s := Summarize(rows);
    OnesCountExtremes(rows);
    if s.total > 0 {
      ShareBounds(s.ones, s.total);
    }
  }

  lemma OnesCountExtremes(rows: seq<Record>)
    ensures |Where(rows, [ClassIs(1)])| == |rows| <==> forall r :: r in rows ==> r.classification == 1
    ensures Where(rows, [ClassIs(1)]) == [] <==> forall r :: r in rows ==> r.classification != 1
  {
    var cs := [ClassIs(1)];
    WhereKeepsAll(rows, cs);
    WhereMembership(rows, cs);
    forall r ensures AllHold(cs, r) <==> r.classification == 1 {
      assert cs[0] == ClassIs(1);
    }
    if Where(rows, cs) != [] {
      assert Where(rows, cs)[0] in Where(rows, cs);
    }
  }

  /** A part of a positive whole, as a percentage: within [0, 100], 100 exactly for
      the whole and 0 exactly for nothing. */
  lemma ShareBounds(part: nat, whole: nat)
    requires 0 < whole && part <= whole
    ensures 0.0 <= part as real / whole as real * 100.0 <= 100.0
    ensures part as real / whole as real * 100.0 == 100.0 <==> part == whole
    ensures part as real / whole as real * 100.0 == 0.0 <==> part == 0
  {
    var q := part as real / whole as real;
    assert q * (whole as real) == part as real;
    assert q <= 1.0;
    if q * 100.0 == 100.0 {
      assert q == 1.0;
    }
  }
}
