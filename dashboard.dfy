/** The interactive layer: the option lists of the selectors, the reset button, and
    `update_dashboard`, which builds every view from one filtered set of rows. */
module Dashboard {
  import opened Wrappers
  import opened Text
  import opened Ordering
  import opened Records
  import opened Filtering
  import opened Stats
  import opened CrossTab
  import opened Counties

  /** `['All'] + sorted(np.unique(values).astype(str))`. */
  function Options(values: seq<string>): (opts: seq<string>)
    ensures |opts| >= 1 && opts[0] == All
    ensures StrictlySorted(opts[1..], LexLess)
    ensures forall s :: s in opts[1..] <==> s in values
  {
    LexLessIsStrictTotalOrder();
    SortedUniqueCorrect(values, LexLess);
    var opts := [All] + SortedUnique(values, LexLess);
    assert opts[1..] == SortedUnique(values, LexLess);
    opts
  }

  /** The `CLASSIFICATION` column rendered as strings. */
  function ClassificationStrings(rows: seq<Record>): (ss: seq<string>)
    ensures forall s :: s in ss <==> exists r :: r in rows && s == IntToString(r.classification)
  {
    if rows == [] then []
    else
      var rest := ClassificationStrings(rows[1..]);
      assert forall r :: r in rows <==> r == rows[0] || r in rows[1..];
      [IntToString(rows[0].classification)] + rest
  }

  /** The `AGE_BAND` labels that occur; rows outside every band are not listed. */
  function BandStrings(rows: seq<Record>): (ss: seq<string>)
    ensures forall s :: s in ss <==> exists r :: r in rows && BandLabel(r.age) == Some(s)
  {
    if rows == [] then []
    else
      var rest := BandStrings(rows[1..]);
      assert forall r :: r in rows <==> r == rows[0] || r in rows[1..];
      (match BandLabel(rows[0].age) case Some(l) => [l] case None => []) + rest
  }

  /** The county names that occur; rows without a name are not listed. */
  function CountyStrings(rows: seq<Record>): (ss: seq<string>)
    ensures forall s :: s in ss <==> exists r :: r in rows && r.county == Some(s)
  {
    if rows == [] then []
    else
      var rest := CountyStrings(rows[1..]);
      assert forall r :: r in rows <==> r == rows[0] || r in rows[1..];
      (match rows[0].county case Some(n) => [n] case None => []) + rest
  }

  function ClassificationOptions(data: seq<Record>): seq<string> {
    Options(ClassificationStrings(data))
  }

  function AgeBandOptions(data: seq<Record>): seq<string> {
    Options(BandStrings(data))
  }

  /** County choices come from the Virginia rows only. */
  function CountyOptions(data: seq<Record>): seq<string> {
    Options(CountyStrings(VaRows(data)))
  }

  lemma OptionsTail(opts: seq<string>, s: string)
    requires |opts| >= 1 && opts[0] == All && s in opts && s != All
    ensures s in opts[1..]
  {
    assert opts == [opts[0]] + opts[1..];
  }

  /** A classification option other than 'All' parses, and selects exactly the rows of
      one classification, of which there is at least one. */
  lemma ClassificationOptionSelects(data: seq<Record>, c: string)
    requires c in ClassificationOptions(data)[1..]
    ensures GetFilteredData(data, c, All, All).Ok?
    ensures GetFilteredData(data, c, All, All).value != []
    ensures forall x :: x in GetFilteredData(data, c, All, All).value <==>
              x in data && IntToString(x.classification) == c
  {
    var r :| r in data && c == IntToString(r.classification);
    ParseIntToString(r.classification);
    assert c != All;
    FilterIsWhere(data, c, All, All);
    FilteredRowsMatch(data, c, All, All);
    forall x | x in data
      ensures x.classification == ParseInt(c).value <==> IntToString(x.classification) == c
    {
      ParseIntToString(x.classification);
    }
    assert r in GetFilteredData(data, c, All, All).value;
  }

  /** An age-band option other than 'All' selects the rows in that band, and at least one. */
  lemma AgeBandOptionSelects(data: seq<Record>, b: string)
    requires b in AgeBandOptions(data)[1..]
    ensures GetFilteredData(data, All, b, All).Ok?
    ensures GetFilteredData(data, All, b, All).value != []
    ensures forall x :: x in GetFilteredData(data, All, b, All).value <==>
              x in data && BandLabel(x.age) == Some(b)
  {
    var r :| r in data && BandLabel(r.age) == Some(b);
    assert b != All;
    FilteredRowsMatch(data, All, b, All);
    assert r in GetFilteredData(data, All, b, All).value;
  }

  /** A county option selects at least one Virginia row of that county (a county
      literally named 'All' would switch the county filter off instead). */
  lemma CountyOptionSelects(data: seq<Record>, k: string)
    requires k in CountyOptions(data)[1..]
    ensures GetFilteredData(data, All, All, k).Ok?
    ensures exists x :: x in GetFilteredData(data, All, All, k).value && x.state == "VA"
    ensures k != All ==>
              forall x :: x in GetFilteredData(data, All, All, k).value <==> x in data && x.county == Some(k)
  {
    var r :| r in VaRows(data) && r.county == Some(k);
    WhereMembership(data, [StateIs("VA")]);
    assert [StateIs("VA")][0] == StateIs("VA");
    FilteredRowsMatch(data, All, All, k);
    assert r in GetFilteredData(data, All, All, k).value;
  }

  /** Whatever the three selectors show, filtering never raises: every classification
      option is 'All' or a printed integer. */
  lemma EveryOptionFilters(data: seq<Record>, c: string, b: string, k: string)
    requires c in ClassificationOptions(data)
    ensures GetFilteredData(data, c, b, k).Ok?
  {
    FilterIsWhere(data, c, b, k);
    if c != All {
      OptionsTail(ClassificationOptions(data), c);
      ClassificationOptionSelects(data, c);
      FilterIsWhere(data, c, All, All);
    }
  }

  /** The three views `update_dashboard` lays out. */
  datatype Views = Views(heatmap: seq<CrossRow>, stats: Summary, vaMap: seq<MapRow>)

  /** `update_dashboard` of the three-filter dashboards: filter once, then build the
      heatmap, the statistics and the county map from the same rows. */
  function UpdateDashboard(data: seq<Record>, boundary: seq<Feature>, c: string, b: string, k: string)
    : (r: Result<Views, FilterError>)
    ensures r.Err? <==> c != All && !IsIntegerLiteral(c)
    ensures r.Ok? ==> && ActiveConstraints(c, b, k).Ok?
                      && (var w := Where(data, ActiveConstraints(c, b, k).value);
                          r.value == Views(CrossTabulate(w), Summarize(w), VaMap(w, boundary)))
    ensures c == All && b == All && k == All ==>
              r == Ok(Views(CrossTabulate(data), Summarize(data), VaMap(data, boundary)))
  {
    FilterIsWhere(data, c, b, k);
    match GetFilteredData(data, c, b, k)
    case Err(e) => Err(e)
    case Ok(rows) => Ok(Views(CrossTabulate(rows), Summarize(rows), VaMap(rows, boundary)))
  }

  /** `update_dashboard` of the heatmap-only dashboard: selections become sentinels,
      then `create_heatmap` filters and tabulates. */
  function UpdateHeatmap(data: seq<Record>, c: string, b: string): (r: Result<seq<CrossRow>, FilterError>)
    ensures r.Err? <==> c != All && !IsIntegerLiteral(c)
  {
    match ToSentinels(c, b)
    case Err(e) => Err(e)
    case Ok(sel) => Ok(CrossTabulate(SentinelFilter(data, sel.0, sel.1)))
  }

  /** The heatmap-only dashboard shows the same table as the full dashboard with the
      county left at 'All', and fails on the same inputs. */
  lemma HeatmapDashboardsAgree(data: seq<Record>, boundary: seq<Feature>, c: string, b: string)
    ensures UpdateHeatmap(data, c, b).Err? <==> UpdateDashboard(data, boundary, c, b, All).Err?
    ensures UpdateHeatmap(data, c, b).Ok? ==>
              UpdateHeatmap(data, c, b).value == UpdateDashboard(data, boundary, c, b, All).value.heatmap
  {
    SentinelFilterAgrees(data, c, b);
  }

  /** The selectors and the reset button. Each widget offers its option list and
      starts at 'All'; `Valid` says every current value is one of its options. */
  class FilterWidgets {
    const data: seq<Record>
    const classificationOptions: seq<string>
    const ageBandOptions: seq<string>
    const countyOptions: seq<string>
    var classification: string
    var ageBand: string
    var county: string

    ghost predicate Valid()
      reads this
    {
      && classificationOptions == ClassificationOptions(data)
      && ageBandOptions == AgeBandOptions(data)
      && countyOptions == CountyOptions(data)
      && classification in classificationOptions
      && ageBand in ageBandOptions
      && county in countyOptions
    }

    constructor(data: seq<Record>)
      ensures this.data == data && Valid()
      ensures classification == All && ageBand == All && county == All
    {
      this.data := data;
      classificationOptions := ClassificationOptions(data);
      ageBandOptions := AgeBandOptions(data);
      countyOptions := CountyOptions(data);
      classification := All;
      ageBand := All;
      county := All;
    }

    /** `reset_filters`: every selector back to 'All', which selects every row. */
    method ResetFilters()
      requires Valid()
      modifies this
      ensures Valid()
      ensures classification == All && ageBand == All && county == All
      ensures GetFilteredData(data, classification, ageBand, county) == Ok(data)
    {
      classification := All;
      ageBand := All;
      county := All;
    }

    /** The filtered rows for the current selection; the selection never makes the
        classification parse fail. */
    function Selected(): (r: Result<seq<Record>, FilterError>)
      reads this
      requires Valid()
      ensures r.Ok? && IsSubsequence(r.value, data)
      ensures ActiveConstraints(classification, ageBand, county).Ok?
      ensures r.value == Where(data, ActiveConstraints(classification, ageBand, county).value)
    {
      EveryOptionFilters(data, classification, ageBand, county);
      FilterIsWhere(data, classification, ageBand, county);
      FilteredIsSubsequence(data, classification, ageBand, county);
      GetFilteredData(data, classification, ageBand, county)
    }
  }
}
