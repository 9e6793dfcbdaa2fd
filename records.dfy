/** One row of the dataset and its derived age band (the `AGE_BAND` column that
    each dashboard adds with `pd.cut` right after loading the file). */
module Records {
  import opened Wrappers
  import opened Text

  /** The columns the pipeline reads. `COUNTY` and `COUNTY_CODE` may be missing
      (NaN) in the file; county codes are kept as opaque strings. */
  datatype Record = Record(
    classification: int,
    age: real,
    county: Option<string>,
    countyCode: Option<string>,
    state: string)

  /** `range(0, 105, 5)` gives 21 edges, so 20 bins. */
  const BandCount: nat := 20
  const BandWidth: nat := 5

  /** `pd.cut(age, bins=range(0, 105, 5), right=False)`: the index of the
      right-open bin [5i, 5i+5) holding `age`, or no bin (NaN) outside [0, 100). */
  function AgeBand(age: real): (b: Option<nat>)
    ensures b.Some? <==> 0.0 <= age < 100.0
    ensures b.Some? ==> b.value < BandCount
                        && (BandWidth * b.value) as real <= age < (BandWidth * b.value + BandWidth) as real
  {
    if 0.0 <= age < 100.0 then Some((age / 5.0).Floor) else None
  }

  /** The bin an age falls in is the one whose interval holds it, and no other. */
  lemma AgeBandExact(age: real, i: nat)
    requires i < BandCount
    ensures AgeBand(age) == Some(i) <==> (5 * i) as real <= age < (5 * i + 5) as real
  {
    if (5 * i) as real <= age < (5 * i + 5) as real {
      assert AgeBand(age).Some?;
    }
  }

  /** The label of bin i: `f'{5i}-{5i+4}'`. */
  function Label(i: nat): string {
    NatToDecimal(BandWidth * i) + "-" + NatToDecimal(BandWidth * i + 4)
  }

  /** The `labels=` list handed to `pd.cut`, in bin order: one label per bin, and no
      label repeated, as `pd.cut` demands of an ordered list of labels. */
  function BandLabels(): (ls: seq<string>)
    ensures |ls| == BandCount && forall i :: 0 <= i < BandCount ==> ls[i] == Label(i)
    ensures forall i, j :: 0 <= i < j < |ls| ==> ls[i] != ls[j]
  {
    var ls := seq(BandCount, i requires 0 <= i => Label(i));
    forall i, j | 0 <= i < j < |ls| ensures ls[i] != ls[j] {
      if ls[i] == ls[j] {
        LabelInjective(i, j);
      }
    }
    ls
  }

  lemma LabelsFirstAndLast()
    ensures Label(0) == "0-4" && Label(1) == "5-9" && Label(19) == "95-99"
  {
    assert NatToDecimal(95) == NatToDecimal(9) + [DigitChar(5)];
    assert NatToDecimal(99) == NatToDecimal(9) + [DigitChar(9)];
  }

  /** No two bins share a label, so comparing `AGE_BAND` with a label selects exactly one bin. */
  lemma LabelInjective(i: nat, j: nat)
    requires Label(i) == Label(j)
    ensures i == j
  {
    var a, b := NatToDecimal(5 * i), NatToDecimal(5 * j);
    var li, lj := Label(i), Label(j);
    assert li[|a|] == '-' && lj[|b|] == '-';
    if |a| == |b| {
      assert a == li[..|a|] == lj[..|b|] == b;
      NatToDecimalInjective(5 * i, 5 * j);
    }
  }

  /** The value of the `AGE_BAND` column: the entry of the label list for the bin, or NaN. */
  function BandLabel(age: real): (l: Option<string>)
    ensures l.Some? <==> AgeBand(age).Some?
    ensures l.Some? ==> l.value == Label(AgeBand(age).value)
  {
    match AgeBand(age)
    case Some(i) => Some(BandLabels()[i])
    case None => None
  }

  /** An age carries the label of bin i exactly when it lies in [5i, 5i+5). */
  lemma BandLabelExact(age: real, i: nat)
    requires i < BandCount
    ensures BandLabel(age) == Some(Label(i)) <==> (5 * i) as real <= age < (5 * i + 5) as real
  {
    AgeBandExact(age, i);
    if BandLabel(age) == Some(Label(i)) {
      LabelInjective(AgeBand(age).value, i);
    }
  }
}
