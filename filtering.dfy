/** The filter evaluator: `get_filtered_data` of the two three-filter dashboards
    (where the string 'All' means "no constraint") and the filtering part of
    `create_heatmap` in the two-filter dashboard (where `None` means it). */
module Filtering {
  import opened Wrappers
  import opened Text
  import opened Records

  /** One exact-match comparison `df[column] == value`. */
  datatype Constraint =
    | ClassIs(classification: int)
    | BandIs(bandLabel: string)
    | CountyIs(name: string)
    | StateIs(code: string)

  /** The comparison is true for the row; a NaN band or county compares unequal to everything. */
  predicate Holds(c: Constraint, r: Record) {
    match c
    case ClassIs(k) => r.classification == k
    case BandIs(l) => BandLabel(r.age) == Some(l)
    case CountyIs(n) => r.county == Some(n)
    case StateIs(st) => r.state == st
  }

  predicate AllHold(cs: seq<Constraint>, r: Record) {
    forall i :: 0 <= i < |cs| ==> Holds(cs[i], r)
  }

  /** The rows satisfying every constraint of `cs`, in their original order.
      A boolean mask `df[df[col] == v]` is `Where(df, [c])`. */
  function Where(rows: seq<Record>, cs: seq<Constraint>): (w: seq<Record>)
    ensures |w| <= |rows|
  {
    if rows == [] then []
    else (if AllHold(cs, rows[0]) then [rows[0]] else []) + Where(rows[1..], cs)
  }

  /** `a` is `b` with some elements removed and the rest kept in order. */
  ghost predicate IsSubsequence<T>(a: seq<T>, b: seq<T>)
    decreases |b|
  {
    || a == []
    || (b != [] && ((a[0] == b[0] && IsSubsequence(a[1..], b[1..])) || IsSubsequence(a, b[1..])))
  }

  lemma {:induction false} WhereIsSubsequence(rows: seq<Record>, cs: seq<Constraint>)
    ensures IsSubsequence(Where(rows, cs), rows)
  {
    if rows != [] {
      WhereIsSubsequence(rows[1..], cs);
      var rest := Where(rows[1..], cs);
      if AllHold(cs, rows[0]) {
        assert Where(rows, cs) == [rows[0]] + rest;
        assert ([rows[0]] + rest)[1..] == rest;
      } else {
        assert Where(rows, cs) == rest;
      }
    }
  }

  /** A row is kept exactly when it is in the input and satisfies every constraint. */
  lemma {:induction false} WhereMembership(rows: seq<Record>, cs: seq<Constraint>)
    ensures forall x :: x in Where(rows, cs) <==> x in rows && AllHold(cs, x)
  {
    if rows != [] {
      WhereMembership(rows[1..], cs);
      assert rows == [rows[0]] + rows[1..];
    }
  }

  /** A mask keeps every copy of a row that passes and no copy of one that fails. */
  lemma {:induction false} WhereMultiset(rows: seq<Record>, cs: seq<Constraint>, x: Record)
    ensures multiset(Where(rows, cs))[x] == if AllHold(cs, x) then multiset(rows)[x] else 0
  {
    if rows != [] {
      WhereMultiset(rows[1..], cs, x);
      assert rows == [rows[0]] + rows[1..];
    }
  }

  /** Every row is kept exactly when the result is as long as the input. */
  lemma {:induction false} WhereKeepsAll(rows: seq<Record>, cs: seq<Constraint>)
    ensures |Where(rows, cs)| == |rows| <==> forall x :: x in rows ==> AllHold(cs, x)
  {
    if rows != [] {
      WhereKeepsAll(rows[1..], cs);
      assert rows == [rows[0]] + rows[1..];
    }
  }

  /** Masking twice is masking once by both sets of constraints. */
  lemma {:induction false} WhereTwice(rows: seq<Record>, cs: seq<Constraint>, ds: seq<Constraint>)
    ensures Where(Where(rows, cs), ds) == Where(rows, cs + ds)
  {
    if rows != [] {
      WhereTwice(rows[1..], cs, ds);
      var x := rows[0];
      AllHoldConcat(cs, ds, x);
      var w := Where(rows[1..], cs);
      if AllHold(cs, x) {
        assert Where(rows, cs) == [x] + w;
        assert ([x] + w)[0] == x && ([x] + w)[1..] == w;
      } else {
        assert Where(rows, cs) == w;
      }
    }
  }

  lemma AllHoldConcat(cs: seq<Constraint>, ds: seq<Constraint>, x: Record)
    ensures AllHold(cs + ds, x) <==> AllHold(cs, x) && AllHold(ds, x)
  {
    if AllHold(cs + ds, x) {
      forall i | 0 <= i < |cs| ensures Holds(cs[i], x) {
        assert (cs + ds)[i] == cs[i];
      }
      forall i | 0 <= i < |ds| ensures Holds(ds[i], x) {
        assert (cs + ds)[|cs| + i] == ds[i];
      }
    }
  }

  /** Only which constraints are active matters, not their order or repetition. */
  lemma {:induction false} WhereSameConstraints(rows: seq<Record>, cs: seq<Constraint>, ds: seq<Constraint>)
    requires forall c :: c in cs <==> c in ds
    ensures Where(rows, cs) == Where(rows, ds)
  {
    if rows != [] {
      WhereSameConstraints(rows[1..], cs, ds);
      var x := rows[0];
      if AllHold(cs, x) {
        forall i | 0 <= i < |ds| ensures Holds(ds[i], x) {
          assert ds[i] in ds;
          var j :| 0 <= j < |cs| && cs[j] == ds[i];
        }
      }
      if AllHold(ds, x) {
        forall i | 0 <= i < |cs| ensures Holds(cs[i], x) {
          assert cs[i] in cs;
          var j :| 0 <= j < |ds| && ds[j] == cs[i];
        }
      }
    }
  }

  /** The masks applied one after the other, as the chain of `if` statements does. */
  function InTurn(rows: seq<Record>, cs: seq<Constraint>): seq<Record>
    decreases |cs|
  {
    if cs == [] then rows else InTurn(Where(rows, [cs[0]]), cs[1..])
  }

  lemma {:induction false} InTurnIsWhere(rows: seq<Record>, cs: seq<Constraint>)
    ensures InTurn(rows, cs) == Where(rows, cs)
    decreases |cs|
  {
    if cs == [] {
      WhereNone(rows);
    } else {
      InTurnIsWhere(Where(rows, [cs[0]]), cs[1..]);
      WhereTwice(rows, [cs[0]], cs[1..]);
      assert [cs[0]] + cs[1..] == cs;
    }
  }

  lemma {:induction false} WhereNone(rows: seq<Record>)
    ensures Where(rows, []) == rows
  {
    if rows != [] {
      WhereNone(rows[1..]);
    }
  }

  /** Applying the masks in any order gives the same rows. */
  lemma InTurnOrderIrrelevant(rows: seq<Record>, cs: seq<Constraint>, ds: seq<Constraint>)
    requires forall c :: c in cs <==> c in ds
    ensures InTurn(rows, cs) == InTurn(rows, ds)
  {
    InTurnIsWhere(rows, cs);
    InTurnIsWhere(rows, ds);
    WhereSameConstraints(rows, cs, ds);
  }

  /** The selector value that means "no constraint" in the three-filter dashboards. */
  const All: string := "All"

  /** `int(selected_classification)` raised `ValueError`. */
  datatype FilterError = NotAnInteger(value: string)

  /** The constraints a selection activates: those whose value is not 'All'. */
  function ActiveConstraints(classification: string, ageBand: string, county: string): (r: Result<seq<Constraint>, FilterError>)
  {
    if classification != All && ParseInt(classification).None? then Err(NotAnInteger(classification))
    else Ok((if classification == All then [] else [ClassIs(ParseInt(classification).value)])
            + (if ageBand == All then [] else [BandIs(ageBand)])
            + (if county == All then [] else [CountyIs(county)]))
  }

  /** `get_filtered_data(data, classification, age_band, county)`. */
  function GetFilteredData(data: seq<Record>, classification: string, ageBand: string, county: string)
    : (r: Result<seq<Record>, FilterError>)
    ensures r.Err? <==> classification != All && !IsIntegerLiteral(classification)
    ensures r.Ok? ==> |r.value| <= |data|
  {
    if classification != All && ParseInt(classification).None? then Err(NotAnInteger(classification))
    else
      var byClass := if classification == All then data else Where(data, [ClassIs(ParseInt(classification).value)]);
      var byBand := if ageBand == All then byClass else Where(byClass, [BandIs(ageBand)]);
      Ok(if county == All then byBand else Where(byBand, [CountyIs(county)]))
  }

  /** The filter fails exactly for a classification that is neither 'All' nor an integer, and
      otherwise keeps the rows meeting every active constraint, in order. */
  lemma FilterIsWhere(data: seq<Record>, classification: string, ageBand: string, county: string)
    ensures GetFilteredData(data, classification, ageBand, county).Err?
            <==> classification != All && !IsIntegerLiteral(classification)
    ensures ActiveConstraints(classification, ageBand, county).Ok? ==>
              GetFilteredData(data, classification, ageBand, county)
              == Ok(Where(data, ActiveConstraints(classification, ageBand, county).value))
  {
    var a := ActiveConstraints(classification, ageBand, county);
    if a.Ok? {
      var cs := a.value;
      var c1 := if classification == All then [] else [ClassIs(ParseInt(classification).value)];
      var c2 := if ageBand == All then [] else [BandIs(ageBand)];
      var c3 := if county == All then [] else [CountyIs(county)];
      var byClass := Where(data, c1);
      WhereNone(data);
      var byBand := Where(byClass, c2);
      WhereNone(byClass);
      WhereTwice(data, c1, c2);
      WhereNone(byBand);
      WhereTwice(data, c1 + c2, c3);
    }
  }

  /** The filtered rows are an order-preserving subsequence of the data. */
  lemma FilteredIsSubsequence(data: seq<Record>, classification: string, ageBand: string, county: string)
    requires GetFilteredData(data, classification, ageBand, county).Ok?
    ensures IsSubsequence(GetFilteredData(data, classification, ageBand, county).value, data)
  {
    FilterIsWhere(data, classification, ageBand, county);
    WhereIsSubsequence(data, ActiveConstraints(classification, ageBand, county).value);
  }

  /** A row is in the filtered set exactly when it is in the data and meets every
      constraint whose value is not 'All'. */
  lemma FilteredRowsMatch(data: seq<Record>, classification: string, ageBand: string, county: string)
    requires GetFilteredData(data, classification, ageBand, county).Ok?
    ensures forall x :: x in GetFilteredData(data, classification, ageBand, county).value <==>
              && x in data
              && (classification != All ==> x.classification == ParseInt(classification).value)
              && (ageBand != All ==> BandLabel(x.age) == Some(ageBand))
              && (county != All ==> x.county == Some(county))
  {
    FilterIsWhere(data, classification, ageBand, county);
    var cs := ActiveConstraints(classification, ageBand, county).value;
    WhereMembership(data, cs);
    forall x ensures AllHold(cs, x) <==>
              && (classification != All ==> x.classification == ParseInt(classification).value)
              && (ageBand != All ==> BandLabel(x.age) == Some(ageBand))
              && (county != All ==> x.county == Some(county))
    {
      var n1 := if classification == All then 0 else 1;
      var n2 := n1 + if ageBand == All then 0 else 1;
      if classification != All { assert cs[0] == ClassIs(ParseInt(classification).value); }
      if ageBand != All { assert cs[n1] == BandIs(ageBand); }
      if county != All { assert cs[n2] == CountyIs(county); }
    }
  }

  /** With every selector on 'All' the data passes through unchanged. */
  lemma AllSelectsEverything(data: seq<Record>)
    ensures GetFilteredData(data, All, All, All) == Ok(data)
  {
  }

  /** The three masks commute: the source's order (classification, band, county)
      gives the same rows as any other order. */
  lemma FilterOrderIrrelevant(data: seq<Record>, classification: int, ageBand: string, county: string)
    ensures InTurn(data, [ClassIs(classification), BandIs(ageBand), CountyIs(county)])
         == InTurn(data, [CountyIs(county), ClassIs(classification), BandIs(ageBand)])
         == InTurn(data, [BandIs(ageBand), CountyIs(county), ClassIs(classification)])
         == InTurn(data, [ClassIs(classification), CountyIs(county), BandIs(ageBand)])
         == InTurn(data, [BandIs(ageBand), ClassIs(classification), CountyIs(county)])
         == InTurn(data, [CountyIs(county), BandIs(ageBand), ClassIs(classification)])
  {
    var a, b, c := ClassIs(classification), BandIs(ageBand), CountyIs(county);
    InTurnOrderIrrelevant(data, [a, b, c], [c, a, b]);
    InTurnOrderIrrelevant(data, [a, b, c], [b, c, a]);
    InTurnOrderIrrelevant(data, [a, b, c], [a, c, b]);
    InTurnOrderIrrelevant(data, [a, b, c], [b, a, c]);
    InTurnOrderIrrelevant(data, [a, b, c], [c, b, a]);
  }

  /** `create_heatmap(data, selected_classification, selected_age_band)` of the
      two-filter dashboard: `None` leaves a column unconstrained. */
  function SentinelFilter(data: seq<Record>, classification: Option<int>, ageBand: Option<string>): (w: seq<Record>)
    ensures |w| <= |data|
    ensures classification.None? && ageBand.None? ==> w == data
  {
    var byClass := if classification.None? then data else Where(data, [ClassIs(classification.value)]);
    if ageBand.None? then byClass else Where(byClass, [BandIs(ageBand.value)])
  }

  /** `update_dashboard` of the two-filter dashboard: 'All' becomes `None`, any other
      classification goes through `int(...)`, any other band passes unchanged. */
  function ToSentinels(classification: string, ageBand: string): (r: Result<(Option<int>, Option<string>), FilterError>)
    ensures r.Err? <==> classification != All && !IsIntegerLiteral(classification)
    ensures r.Ok? ==> (r.value.0.None? <==> classification == All)
    ensures r.Ok? && classification != All ==> ParseInt(classification) == r.value.0
    ensures r.Ok? ==> r.value.1 == if ageBand == All then None else Some(ageBand)
  {
    var selectedAge := if ageBand == All then None else Some(ageBand);
    if classification == All then Ok((None, selectedAge))
    else match ParseInt(classification)
         case Some(k) => Ok((Some(k), selectedAge))
         case None => Err(NotAnInteger(classification))
  }

  /** The `None`-sentinel filter reached through `update_dashboard` keeps the same rows
      as the 'All' filter with no county constraint, and fails on the same inputs. */
  lemma SentinelFilterAgrees(data: seq<Record>, classification: string, ageBand: string)
    ensures ToSentinels(classification, ageBand).Err? <==> GetFilteredData(data, classification, ageBand, All).Err?
    ensures ToSentinels(classification, ageBand).Ok? ==>
              var sel := ToSentinels(classification, ageBand).value;
              GetFilteredData(data, classification, ageBand, All) == Ok(SentinelFilter(data, sel.0, sel.1))
  {
    FilterIsWhere(data, classification, ageBand, All);
  }

  /** With both selections `None` the data is unchanged; otherwise the result is an
      order-preserving subsequence whose rows are exactly those matching each
      non-`None` selection. */
  lemma SentinelFilterCorrect(data: seq<Record>, classification: Option<int>, ageBand: Option<string>)
    ensures classification.None? && ageBand.None? ==> SentinelFilter(data, classification, ageBand) == data
    ensures IsSubsequence(SentinelFilter(data, classification, ageBand), data)
    ensures forall x :: x in SentinelFilter(data, classification, ageBand) <==>
              && x in data
              && (classification.Some? ==> x.classification == classification.value)
              && (ageBand.Some? ==> BandLabel(x.age) == ageBand)
  {
    var cs := SentinelConstraints(classification, ageBand);
    SentinelFilterIsWhere(data, classification, ageBand);
    WhereIsSubsequence(data, cs);
    WhereMembership(data, cs);
    WhereNone(data);
    forall x ensures AllHold(cs, x) <==>
              (classification.Some? ==> x.classification == classification.value)
              && (ageBand.Some? ==> BandLabel(x.age) == ageBand)
    {
      if classification.Some? { assert cs[0] == ClassIs(classification.value); }
      if ageBand.Some? { assert cs[|cs| - 1] == BandIs(ageBand.value); }
    }
  }

  function SentinelConstraints(classification: Option<int>, ageBand: Option<string>): seq<Constraint>
  {
    (if classification.None? then [] else [ClassIs(classification.value)])
    + (if ageBand.None? then [] else [BandIs(ageBand.value)])
  }

  lemma SentinelFilterIsWhere(data: seq<Record>, classification: Option<int>, ageBand: Option<string>)
    ensures SentinelFilter(data, classification, ageBand) == Where(data, SentinelConstraints(classification, ageBand))
  {
    var c1 := if classification.None? then [] else [ClassIs(classification.value)];
    var c2 := if ageBand.None? then [] else [BandIs(ageBand.value)];
    WhereNone(data);
    WhereNone(Where(data, c1));
    WhereTwice(data, c1, c2);
  }
}
