/** The county aggregator of `create_va_heatmap` / `create_va_map`: Virginia rows
    are counted per (COUNTY_CODE, COUNTY) group, the class-1 and total counts are
    outer-joined and zero-filled, a percentage is derived, and the result is
    left-joined onto the Virginia county boundaries by GEOID. */
module Counties {
  import opened Wrappers
  import opened Text
  import opened Records
  import opened Ordering
  import opened Filtering
  import opened Stats

  /** A group key of `groupby(['COUNTY_CODE', 'COUNTY'])`. */
  type Key = (string, string)

  /** Keys are compared column by column, as strings. */
  predicate KeyLess(a: Key, b: Key) {
    LexLess(a.0, b.0) || (a.0 == b.0 && LexLess(a.1, b.1))
  }

  lemma KeyLessIsStrictTotalOrder()
    ensures IsStrictTotalOrder(KeyLess)
  {
    forall a: Key ensures !KeyLess(a, a) {
      LexLessIrreflexive(a.0);
      LexLessIrreflexive(a.1);
    }
    forall a: Key, b: Key, c: Key | KeyLess(a, b) && KeyLess(b, c) ensures KeyLess(a, c) {
      if LexLess(a.0, b.0) && LexLess(b.0, c.0) {
        LexLessTransitive(a.0, b.0, c.0);
      } else if a.0 == b.0 && b.0 == c.0 {
        LexLessTransitive(a.1, b.1, c.1);
      }
    }
    forall a: Key, b: Key | a != b ensures KeyLess(a, b) || KeyLess(b, a) {
      if a.0 != b.0 {
        LexLessTotal(a.0, b.0);
      } else {
        LexLessTotal(a.1, b.1);
      }
    }
  }

  /** The group key of a row; `groupby` drops a row whose code or name is NaN. */
  function KeyOf(r: Record): Option<Key> {
    if r.countyCode.Some? && r.county.Some? then Some((r.countyCode.value, r.county.value)) else None
  }

  /** Rows in group `k`. */
  function KeyCount(rows: seq<Record>, k: Key): (n: nat)
    ensures n <= |rows|
  {
    if rows == [] then 0 else (if KeyOf(rows[0]) == Some(k) then 1 else 0) + KeyCount(rows[1..], k)
  }

  /** Rows that belong to some group. */
  function KeyedCount(rows: seq<Record>): (n: nat)
    ensures n <= |rows|
  {
    if rows == [] then 0 else (if KeyOf(rows[0]).Some? then 1 else 0) + KeyedCount(rows[1..])
  }

  /** The key of every row that has one, in order. */
  function Keys(rows: seq<Record>): seq<Key>
  {
    if rows == [] then []
    else (if KeyOf(rows[0]).Some? then [KeyOf(rows[0]).value] else []) + Keys(rows[1..])
  }

  lemma {:induction false} KeysCounted(rows: seq<Record>, k: Key)
    ensures k in Keys(rows) <==> KeyCount(rows, k) > 0
  {
    if rows != [] {
      KeysCounted(rows[1..], k);
    }
  }

  lemma {:induction false} KeyedRowWitness(rows: seq<Record>, k: Key)
    requires KeyCount(rows, k) > 0
    ensures exists r :: r in rows && KeyOf(r) == Some(k)
  {
    if KeyOf(rows[0]) != Some(k) {
      KeyedRowWitness(rows[1..], k);
      var r :| r in rows[1..] && KeyOf(r) == Some(k);
      assert r in rows;
    }
  }

  /** A row of `groupby(...).size().reset_index(name=...)`. */
  datatype Group = Group(key: Key, size: nat)

  function Sizes(rows: seq<Record>, ks: seq<Key>): (g: seq<Group>)
    ensures |g| == |ks|
  {
    if ks == [] then [] else [Group(ks[0], KeyCount(rows, ks[0]))] + Sizes(rows, ks[1..])
  }

  /** `groupby(['COUNTY_CODE', 'COUNTY']).size()`: keys ascending and distinct, a group
      exactly for each key that occurs, and its size the number of rows with that key. */
  function GroupSizes(rows: seq<Record>): (g: seq<Group>)
    ensures StrictlySorted(GroupKeys(g), KeyLess)
    ensures forall k :: k in GroupKeys(g) <==> KeyCount(rows, k) > 0
    ensures forall k :: Lookup(g, k) == if KeyCount(rows, k) > 0 then Some(KeyCount(rows, k)) else None
  {
    var ks := SortedUnique(Keys(rows), KeyLess);
    KeyLessIsStrictTotalOrder();
    SortedUniqueCorrect(Keys(rows), KeyLess);
    SizesCorrect(rows, ks, ("", ""));
    assert forall k :: && (k in GroupKeys(Sizes(rows, ks)) <==> KeyCount(rows, k) > 0)
                       && Lookup(Sizes(rows, ks), k) == if KeyCount(rows, k) > 0 then Some(KeyCount(rows, k)) else None
    by {
      forall k
        ensures k in GroupKeys(Sizes(rows, ks)) <==> KeyCount(rows, k) > 0
        ensures Lookup(Sizes(rows, ks), k) == if KeyCount(rows, k) > 0 then Some(KeyCount(rows, k)) else None
      {
        SizesCorrect(rows, ks, k);
        KeysCounted(rows, k);
      }
    }
    Sizes(rows, ks)
  }

  function GroupKeys(groups: seq<Group>): (ks: seq<Key>)
    ensures |ks| == |groups|
  {
    if groups == [] then [] else [groups[0].key] + GroupKeys(groups[1..])
  }

  /** The size recorded for key `k`, or NaN (`None`) when no group has that key. */
  function Lookup(groups: seq<Group>, k: Key): Option<nat>
  {
    if groups == [] then None
    else if groups[0].key == k then Some(groups[0].size)
    else Lookup(groups[1..], k)
  }

  lemma {:induction false} SizesCorrect(rows: seq<Record>, ks: seq<Key>, k: Key)
    ensures GroupKeys(Sizes(rows, ks)) == ks
    ensures Lookup(Sizes(rows, ks), k) == if k in ks then Some(KeyCount(rows, k)) else None
  {
    if ks != [] {
      SizesCorrect(rows, ks[1..], k);
    }
  }

  /** Rows of group `k` that are class 1 are among the rows of group `k`. */
  lemma {:induction false} OnesWithinGroup(rows: seq<Record>, k: Key)
    ensures KeyCount(Where(rows, [ClassIs(1)]), k) <= KeyCount(rows, k)
  {
    if rows != [] {
      OnesWithinGroup(rows[1..], k);
      var rest := Where(rows[1..], [ClassIs(1)]);
      if AllHold([ClassIs(1)], rows[0]) {
        assert Where(rows, [ClassIs(1)]) == [rows[0]] + rest;
        assert ([rows[0]] + rest)[1..] == rest;
      } else {
        assert Where(rows, [ClassIs(1)]) == rest;
      }
    }
  }

  /** A row of the merged count table `county_counts`. */
  datatype CountyCount = CountyCount(code: string, county: string, classOne: nat, total: nat, percent: real)

  function OnesByCounty(va: seq<Record>): seq<Group> {
    GroupSizes(Where(va, [ClassIs(1)]))
  }

  function TotalsByCounty(va: seq<Record>): seq<Group> {
    GroupSizes(va)
  }

  /** The key column of `pd.merge(..., how='outer')`: the union of both key sets, sorted. */
  function OuterKeys(va: seq<Record>): seq<Key> {
    SortedUnique(GroupKeys(OnesByCounty(va)) + GroupKeys(TotalsByCounty(va)), KeyLess)
  }

  /** The outer join has a key exactly for each group of Virginia rows, and every such
      key has a positive total, so the percentage never divides by zero. */
  lemma OuterKeysAreGroups(va: seq<Record>)
    ensures StrictlySorted(OuterKeys(va), KeyLess)
    ensures forall k :: k in OuterKeys(va) <==> KeyCount(va, k) > 0
    ensures forall k :: k in OuterKeys(va) ==> Lookup(TotalsByCounty(va), k) == Some(KeyCount(va, k))
  {
    var ones := Where(va, [ClassIs(1)]);
    KeyLessIsStrictTotalOrder();
    SortedUniqueCorrect(GroupKeys(OnesByCounty(va)) + GroupKeys(TotalsByCounty(va)), KeyLess);
    forall k ensures k in GroupKeys(OnesByCounty(va)) ==> KeyCount(va, k) > 0 {
      OnesWithinGroup(va, k);
    }
  }

  /** One merged row per key: `fillna(0)` for a missing class-1 count, then
      `CLASS_1_COUNT / TOTAL_COUNT * 100`. */
  function JoinCounts(keys: seq<Key>, ones: seq<Group>, totals: seq<Group>): (t: seq<CountyCount>)
    requires forall k :: k in keys ==> Lookup(totals, k).GetOr(0) > 0
    ensures |t| == |keys|
  {
    if keys == [] then []
    else
      var k := keys[0];
      var classOne := Lookup(ones, k).GetOr(0);
      var total := Lookup(totals, k).GetOr(0);
      [CountyCount(k.0, k.1, classOne, total, classOne as real / total as real * 100.0)]
      + JoinCounts(keys[1..], ones, totals)
  }

  /** `county_counts` of the Virginia rows `va`: one row per outer-merge key, in key
      order, each carrying the size of its group, which is at least 1. */
  function CountyCounts(va: seq<Record>): (t: seq<CountyCount>)
    ensures |t| == |OuterKeys(va)|
    ensures forall i :: 0 <= i < |t| ==>
              && (t[i].code, t[i].county) == OuterKeys(va)[i]
              && t[i].total == KeyCount(va, OuterKeys(va)[i]) >= 1
  {
    var keys := OuterKeys(va);
    OuterKeysAreGroups(va);
    var t := JoinCounts(keys, OnesByCounty(va), TotalsByCounty(va));
    assert forall i :: 0 <= i < |t| ==>
              && (t[i].code, t[i].county) == keys[i]
              && t[i].total == KeyCount(va, keys[i]) >= 1
    by {
      forall i | 0 <= i < |t|
        ensures (t[i].code, t[i].county) == keys[i] && t[i].total == KeyCount(va, keys[i]) >= 1
      {
        JoinCountsAt(keys, OnesByCounty(va), TotalsByCounty(va), i);
        assert keys[i] in keys;
      }
    }
    t
  }

  lemma {:induction false} JoinCountsAt(keys: seq<Key>, ones: seq<Group>, totals: seq<Group>, i: nat)
    requires forall k :: k in keys ==> Lookup(totals, k).GetOr(0) > 0
    requires i < |keys|
    ensures var e := JoinCounts(keys, ones, totals)[i];
            && (e.code, e.county) == keys[i]
            && e.classOne == Lookup(ones, keys[i]).GetOr(0)
            && e.total == Lookup(totals, keys[i]).GetOr(0)
            && e.percent == e.classOne as real / e.total as real * 100.0
  {
    if i > 0 {
      JoinCountsAt(keys[1..], ones, totals, i - 1);
    }
  }

  /** Each merged row counts the rows of its group: TOTAL_COUNT is at least 1, the
      class-1 count is at most the total, and the percentage lies in [0, 100]. */
  lemma CountyCountsBounded(va: seq<Record>, i: nat)
    requires i < |CountyCounts(va)|
    ensures var e := CountyCounts(va)[i];
            && e.total == KeyCount(va, (e.code, e.county)) >= 1
            && e.classOne == KeyCount(Where(va, [ClassIs(1)]), (e.code, e.county)) <= e.total
            && 0.0 <= e.percent <= 100.0
            && (e.percent == 0.0 <==> e.classOne == 0)
            && (e.percent == 100.0 <==> e.classOne == e.total)
  {
    var keys := OuterKeys(va);
    OuterKeysAreGroups(va);
    JoinCountsAt(keys, OnesByCounty(va), TotalsByCounty(va), i);
    var k := keys[i];
    OnesWithinGroup(va, k);
    var e := CountyCounts(va)[i];
    ShareBounds(e.classOne, e.total);
  }

  /** The merged table has one row per group of Virginia rows, in ascending key order. */
  lemma CountyCountsKeys(va: seq<Record>)
    ensures var t := CountyCounts(va);
            && (forall i, j :: 0 <= i < j < |t| ==> KeyLess((t[i].code, t[i].county), (t[j].code, t[j].county)))
            && (forall k :: KeyCount(va, k) > 0 <==> exists e :: e in t && (e.code, e.county) == k)
  {
    var keys := OuterKeys(va);
    var t := CountyCounts(va);
    OuterKeysAreGroups(va);
    forall i | 0 <= i < |t| ensures (t[i].code, t[i].county) == keys[i] {
      JoinCountsAt(keys, OnesByCounty(va), TotalsByCounty(va), i);
    }
    forall k | KeyCount(va, k) > 0 ensures exists e :: e in t && (e.code, e.county) == k {
      var i :| 0 <= i < |keys| && keys[i] == k;
      assert t[i] in t;
    }
  }

  function SumTotals(t: seq<CountyCount>): nat {
    if t == [] then 0 else t[0].total + SumTotals(t[1..])
  }

  /** The group sizes of the keys in `ks`, added up. */
  function SumKeyCounts(rows: seq<Record>, ks: seq<Key>): nat {
    if ks == [] then 0 else KeyCount(rows, ks[0]) + SumKeyCounts(rows, ks[1..])
  }

  /** How often `k` occurs in `ks`. */
  function Occurrences(ks: seq<Key>, k: Key): nat {
    if ks == [] then 0 else (if ks[0] == k then 1 else 0) + Occurrences(ks[1..], k)
  }

  lemma {:induction false} SumKeyCountsStep(r: Record, rows: seq<Record>, ks: seq<Key>)
    ensures SumKeyCounts([r] + rows, ks)
            == SumKeyCounts(rows, ks) + (if KeyOf(r).Some? then Occurrences(ks, KeyOf(r).value) else 0)
  {
    if ks != [] {
      SumKeyCountsStep(r, rows, ks[1..]);
      assert ([r] + rows)[1..] == rows;
    }
  }

  lemma {:induction false} OccursOnce(ks: seq<Key>, k: Key)
    requires forall i, j :: 0 <= i < |ks| && 0 <= j < |ks| && i != j ==> ks[i] != ks[j]
    ensures Occurrences(ks, k) == if k in ks then 1 else 0
  {
    if ks != [] {
      OccursOnce(ks[1..], k);
      if ks[0] == k {
        assert forall j :: 0 <= j < |ks[1..]| ==> ks[1..][j] == ks[j + 1] != ks[0];
      }
    }
  }

  /** Summing the sizes of a duplicate-free list of keys that covers every keyed row
      counts each keyed row once. */
  lemma {:induction false} SumOverAllKeys(rows: seq<Record>, ks: seq<Key>)
    requires forall i, j :: 0 <= i < |ks| && 0 <= j < |ks| && i != j ==> ks[i] != ks[j]
    requires forall r :: r in rows && KeyOf(r).Some? ==> KeyOf(r).value in ks
    ensures SumKeyCounts(rows, ks) == KeyedCount(rows)
  {
    if rows == [] {
      SumOfNothing(ks);
    } else {
      var r := rows[0];
      assert rows == [r] + rows[1..];
      SumOverAllKeys(rows[1..], ks);
      SumKeyCountsStep(r, rows[1..], ks);
      if KeyOf(r).Some? {
        OccursOnce(ks, KeyOf(r).value);
      }
    }
  }

  lemma {:induction false} SumOfNothing(ks: seq<Key>)
    ensures SumKeyCounts([], ks) == 0
  {
    if ks != [] {
      SumOfNothing(ks[1..]);
    }
  }

  lemma {:induction false} JoinTotalsSum(keys: seq<Key>, ones: seq<Group>, va: seq<Record>)
    requires forall k :: k in keys ==> Lookup(TotalsByCounty(va), k) == Some(KeyCount(va, k))
    requires forall k :: k in keys ==> KeyCount(va, k) > 0
    ensures SumTotals(JoinCounts(keys, ones, TotalsByCounty(va))) == SumKeyCounts(va, keys)
  {
    if keys != [] {
      JoinTotalsSum(keys[1..], ones, va);
    }
  }

  /** The TOTAL_COUNT column adds up to the number of Virginia rows whose county code
      and county name are both present. */
  lemma TotalsAddUp(va: seq<Record>)
    ensures SumTotals(CountyCounts(va)) == KeyedCount(va)
  {
    var keys := OuterKeys(va);
    OuterKeysAreGroups(va);
    KeyLessIsStrictTotalOrder();
    StrictlySortedDistinct(keys, KeyLess);
    JoinTotalsSum(keys, OnesByCounty(va), va);
    forall r | r in va && KeyOf(r).Some? ensures KeyOf(r).value in keys {
      KeyCountPositive(va, r);
    }
    SumOverAllKeys(va, keys);
  }

  lemma {:induction false} KeyCountPositive(rows: seq<Record>, r: Record)
    requires r in rows && KeyOf(r).Some?
    ensures KeyCount(rows, KeyOf(r).value) > 0
  {
    if rows[0] != r {
      KeyCountPositive(rows[1..], r);
    }
  }

  /** `df[df['STATE'] == 'VA']`. */
  function VaRows(rows: seq<Record>): seq<Record> {
    Where(rows, [StateIs("VA")])
  }

  /** Only Virginia rows are counted: group `k` of the Virginia rows holds exactly the
      rows of the input with state 'VA' and key `k`. */
  lemma {:induction false} OnlyVirginiaCounted(rows: seq<Record>, k: Key)
    ensures KeyCount(VaRows(rows), k) == VaKeyCount(rows, k)
  {
    if rows != [] {
      OnlyVirginiaCounted(rows[1..], k);
      var rest := Where(rows[1..], [StateIs("VA")]);
      assert AllHold([StateIs("VA")], rows[0]) <==> rows[0].state == "VA" by {
        assert [StateIs("VA")][0] == StateIs("VA");
      }
      if AllHold([StateIs("VA")], rows[0]) {
        assert VaRows(rows) == [rows[0]] + rest;
        assert ([rows[0]] + rest)[1..] == rest;
      } else {
        assert VaRows(rows) == rest;
      }
    }
  }

  /** Rows with state 'VA' and key `k`, counted directly on the input. */
  function VaKeyCount(rows: seq<Record>, k: Key): nat {
    if rows == [] then 0
    else (if rows[0].state == "VA" && KeyOf(rows[0]) == Some(k) then 1 else 0) + VaKeyCount(rows[1..], k)
  }

  /** A county polygon of the boundary file; its geometry is not modelled. */
  datatype Feature = Feature(stateFp: string, geoid: string)

  /** Virginia's state FIPS code. */
  const VirginiaFips: string := "51"

  /** `va_counties[va_counties['STATEFP'] == '51']`. */
  function VaFeatures(features: seq<Feature>): (fs: seq<Feature>)
    ensures forall f :: f in fs <==> f in features && f.stateFp == VirginiaFips
  {
    if features == [] then []
    else (if features[0].stateFp == VirginiaFips then [features[0]] else []) + VaFeatures(features[1..])
  }

  /** A row of the merged map table: the county polygon, and the COUNTY name and the
      counts of the matched group, or NaN names and zero-filled counts. */
  datatype MapRow = MapRow(feature: Feature, county: Option<string>, classOne: nat, total: nat, percent: real)

  /** The merged rows whose COUNTY_CODE equals `geoid`, exactly as strings. */
  function CodeMatches(t: seq<CountyCount>, geoid: string): (m: seq<CountyCount>)
    ensures forall e :: e in m <==> e in t && e.code == geoid
    ensures |m| <= |t|
  {
    if t == [] then []
    else (if t[0].code == geoid then [t[0]] else []) + CodeMatches(t[1..], geoid)
  }

  function Attach(f: Feature, m: seq<CountyCount>): (rs: seq<MapRow>)
    ensures |rs| == |m|
  {
    if m == [] then []
    else [MapRow(f, Some(m[0].county), m[0].classOne, m[0].total, m[0].percent)] + Attach(f, m[1..])
  }

  /** The rows the left merge produces for one polygon: one per matching group, or a
      single zero-filled row when nothing matches (`fillna(0)`). */
  function FeatureRows(f: Feature, t: seq<CountyCount>): (rs: seq<MapRow>)
    ensures |rs| >= 1
  {
    var m := CodeMatches(t, f.geoid);
    if m == [] then [MapRow(f, None, 0, 0, 0.0)] else Attach(f, m)
  }

  /** `va_counties.merge(county_counts, left_on='GEOID', right_on='COUNTY_CODE', how='left')`. */
  function LeftJoin(fs: seq<Feature>, t: seq<CountyCount>): (rs: seq<MapRow>)
    ensures |rs| >= |fs|
  {
    if fs == [] then [] else FeatureRows(fs[0], t) + LeftJoin(fs[1..], t)
  }

  /** The table behind the county map, from the filtered rows and the boundary file:
      every polygon with STATEFP '51' appears, and only those. A group whose code
      matches no such GEOID is dropped. */
  function VaMap(rows: seq<Record>, features: seq<Feature>): (m: seq<MapRow>)
    ensures forall f :: f in features && f.stateFp == VirginiaFips ==> exists row :: row in m && row.feature == f
    ensures forall row :: row in m ==> row.feature in features && row.feature.stateFp == VirginiaFips
  {
    var fs := VaFeatures(features);
    var m := LeftJoin(fs, CountyCounts(VaRows(rows)));
    LeftJoinFeatures(fs, CountyCounts(VaRows(rows)));
    m
  }

  lemma {:induction false} AttachMembership(f: Feature, m: seq<CountyCount>)
    ensures forall row :: row in Attach(f, m) <==>
              exists e :: e in m && row == MapRow(f, Some(e.county), e.classOne, e.total, e.percent)
  {
    if m != [] {
      AttachMembership(f, m[1..]);
      assert m == [m[0]] + m[1..];
    }
  }

  lemma {:induction false} LeftJoinMembership(fs: seq<Feature>, t: seq<CountyCount>)
    ensures forall row :: row in LeftJoin(fs, t) <==> exists f :: f in fs && row in FeatureRows(f, t)
  {
    if fs != [] {
      LeftJoinMembership(fs[1..], t);
      assert fs == [fs[0]] + fs[1..];
    }
  }

  /** Every polygon of `fs` gets a row of the left merge, and every row belongs to one. */
  lemma LeftJoinFeatures(fs: seq<Feature>, t: seq<CountyCount>)
    ensures forall f :: f in fs ==> exists row :: row in LeftJoin(fs, t) && row.feature == f
    ensures forall row :: row in LeftJoin(fs, t) ==> row.feature in fs
  {
    LeftJoinMembership(fs, t);
    forall f | f in fs
      ensures exists row :: row in LeftJoin(fs, t) && row.feature == f
    {
      var rs := FeatureRows(f, t);
      FeatureRowsFacts(f, t);
      assert rs[0] in rs;
    }
    forall row | row in LeftJoin(fs, t)
      ensures row.feature in fs
    {
      var f :| f in fs && row in FeatureRows(f, t);
      FeatureRowsFacts(f, t);
    }
  }

  lemma FeatureRowsFacts(f: Feature, t: seq<CountyCount>)
    ensures forall row :: row in FeatureRows(f, t) ==> row.feature == f
    ensures forall row :: row in FeatureRows(f, t) && row.county.None? ==>
              row.classOne == 0 && row.total == 0 && row.percent == 0.0
              && forall e :: e in t ==> e.code != f.geoid
    ensures forall row :: row in FeatureRows(f, t) && row.county.Some? ==>
              exists e :: e in t && e.code == f.geoid && e.county == row.county.value
                          && e.classOne == row.classOne && e.total == row.total && e.percent == row.percent
    ensures (forall e :: e in t ==> e.code != f.geoid) ==> FeatureRows(f, t) == [MapRow(f, None, 0, 0, 0.0)]
  {
    var m := CodeMatches(t, f.geoid);
    AttachMembership(f, m);
    if m == [] {
      assert forall e :: e in t ==> e.code != f.geoid;
    } else {
      assert m[0] in m;
    }
  }

  /** A polygon whose GEOID matches no county code is zero-filled; a matched one
      carries the counts of its group, whose percentage lies in [0, 100]. */
  lemma MapRowsFilled(rows: seq<Record>, features: seq<Feature>)
    ensures forall row :: row in VaMap(rows, features) ==>
              && row.classOne <= row.total
              && 0.0 <= row.percent <= 100.0
              && (row.county.None? <==> row.total == 0)
              && (row.county.None? ==> row.classOne == 0 && row.percent == 0.0)
              && (row.percent == 0.0 <==> row.classOne == 0)
              && (row.county.Some? ==> row.total == KeyCount(VaRows(rows), (row.feature.geoid, row.county.value)))
              && (row.county.None? <==> forall r :: r in rows && r.state == "VA" ==> r.countyCode != Some(row.feature.geoid) || r.county.None?)
  {
    forall row | row in VaMap(rows, features)
      ensures && row.classOne <= row.total
              && 0.0 <= row.percent <= 100.0
              && (row.county.None? <==> row.total == 0)
              && (row.county.None? ==> row.classOne == 0 && row.percent == 0.0)
              && (row.percent == 0.0 <==> row.classOne == 0)
              && (row.county.Some? ==> row.total == KeyCount(VaRows(rows), (row.feature.geoid, row.county.value)))
              && (row.county.None? <==> forall r :: r in rows && r.state == "VA" ==> r.countyCode != Some(row.feature.geoid) || r.county.None?)
    {
      MapRowFilled(rows, features, row);
    }
  }

  lemma MapRowFilled(rows: seq<Record>, features: seq<Feature>, row: MapRow)
    requires row in VaMap(rows, features)
    ensures && row.classOne <= row.total
            && 0.0 <= row.percent <= 100.0
            && (row.county.None? <==> row.total == 0)
            && (row.county.None? ==> row.classOne == 0 && row.percent == 0.0)
            && (row.percent == 0.0 <==> row.classOne == 0)
            && (row.county.Some? ==> row.total == KeyCount(VaRows(rows), (row.feature.geoid, row.county.value)))
            && (row.county.None? <==> forall r :: r in rows && r.state == "VA" ==> r.countyCode != Some(row.feature.geoid) || r.county.None?)
  {
    var t := CountyCounts(VaRows(rows));
    LeftJoinMembership(VaFeatures(features), t);
    var f :| f in VaFeatures(features) && row in FeatureRows(f, t);
    FeatureRowFilled(rows, f, row);
  }

  /** The facts of `MapRowFilled` for a row produced for polygon `f`. */
  lemma FeatureRowFilled(rows: seq<Record>, f: Feature, row: MapRow)
    requires row in FeatureRows(f, CountyCounts(VaRows(rows)))
    ensures && row.classOne <= row.total
            && 0.0 <= row.percent <= 100.0
            && (row.county.None? <==> row.total == 0)
            && (row.county.None? ==> row.classOne == 0 && row.percent == 0.0)
            && (row.percent == 0.0 <==> row.classOne == 0)
            && (row.county.Some? ==> row.total == KeyCount(VaRows(rows), (row.feature.geoid, row.county.value)))
            && (row.county.None? <==> forall r :: r in rows && r.state == "VA" ==> r.countyCode != Some(row.feature.geoid) || r.county.None?)
  {
    var va := VaRows(rows);
    var t := CountyCounts(va);
    FeatureRowsFacts(f, t);
    if row.county.Some? {
      var e :| e in t && e.code == f.geoid && e.county == row.county.value
               && e.classOne == row.classOne && e.total == row.total && e.percent == row.percent;
      var i :| 0 <= i < |t| && t[i] == e;
      CountyCountsBounded(va, i);
    }
    GeoidMatchesVaRow(rows, t, f.geoid);
  }


  /** Some merged row has code `geoid` exactly when some Virginia row has that code and a county name. */
  lemma GeoidMatchesVaRow(rows: seq<Record>, t: seq<CountyCount>, geoid: string)
    requires t == CountyCounts(VaRows(rows))
    ensures (exists e :: e in t && e.code == geoid) <==>
            exists r :: r in rows && r.state == "VA" && r.countyCode == Some(geoid) && r.county.Some?
  {
    var va := VaRows(rows);
    CountyCountsKeys(va);
    WhereMembership(rows, [StateIs("VA")]);
    forall r ensures AllHold([StateIs("VA")], r) <==> r.state == "VA" {
      assert [StateIs("VA")][0] == StateIs("VA");
    }
    if exists e :: e in t && e.code == geoid {
      var e :| e in t && e.code == geoid;
      KeyedRowWitness(va, (e.code, e.county));
      var r :| r in va && KeyOf(r) == Some((e.code, e.county));
    }
    if exists r :: r in rows && r.state == "VA" && r.countyCode == Some(geoid) && r.county.Some? {
      var r :| r in rows && r.state == "VA" && r.countyCode == Some(geoid) && r.county.Some?;
      assert r in va;
      KeyCountPositive(va, r);
    }
  }

  /** In `rows`, a county code never comes with two different county names. */
  ghost predicate CodeNamesOneCounty(rows: seq<Record>) {
    forall r1, r2 ::
      (r1 in rows && r2 in rows && KeyOf(r1).Some? && KeyOf(r2).Some? && r1.countyCode == r2.countyCode)
      ==> r1.county == r2.county
  }

  lemma {:induction false} NoCodeMatches(t: seq<CountyCount>, geoid: string)
    requires forall e :: e in t ==> e.code != geoid
    ensures CodeMatches(t, geoid) == []
  {
    if t != [] {
      assert t[0] in t;
      NoCodeMatches(t[1..], geoid);
    }
  }

  lemma {:induction false} AtMostOneMatch(t: seq<CountyCount>, geoid: string)
    requires forall i, j :: 0 <= i < j < |t| ==> t[i].code != t[j].code
    ensures |CodeMatches(t, geoid)| <= 1
  {
    if t != [] {
      AtMostOneMatch(t[1..], geoid);
      if t[0].code == geoid {
        assert forall e :: e in t[1..] ==> e.code != geoid;
        NoCodeMatches(t[1..], geoid);
      }
    }
  }

  lemma {:induction false} OneRowPerFeature(fs: seq<Feature>, t: seq<CountyCount>)
    requires forall i, j :: 0 <= i < j < |t| ==> t[i].code != t[j].code
    ensures |LeftJoin(fs, t)| == |fs|
  {
    if fs != [] {
      OneRowPerFeature(fs[1..], t);
      AtMostOneMatch(t, fs[0].geoid);
    }
  }

  /** When each county code of the Virginia rows names one county, the map table has
      exactly one row per Virginia polygon. */
  lemma MapOneRowPerCounty(rows: seq<Record>, features: seq<Feature>)
    requires CodeNamesOneCounty(VaRows(rows))
    ensures |VaMap(rows, features)| == |VaFeatures(features)|
  {
    var va := VaRows(rows);
    var t := CountyCounts(va);
    CountyCountsKeys(va);
    KeyLessIsStrictTotalOrder();
    forall i, j | 0 <= i < j < |t| ensures t[i].code != t[j].code {
      if t[i].code == t[j].code {
        var ki, kj := (t[i].code, t[i].county), (t[j].code, t[j].county);
        assert t[i] in t && t[j] in t;
        KeyedRowWitness(va, ki);
        KeyedRowWitness(va, kj);
      }
    }
    OneRowPerFeature(VaFeatures(features), t);
  }
}
