/** The two colour binnings: `get_color_for_percent` of the named-colour county map
    and `get_color_for_value` of the compatibility script's pre-computed colours. */
module Colors {
  import opened Records
  import opened Counties

  /** The named colours of the county map, lightest first. */
  datatype Color = LightGray | LightBlue | SkyBlue | RoyalBlue | MediumBlue | DarkBlue

  /** Position of a colour in the bin order. */
  function Rank(c: Color): nat {
    match c
    case LightGray => 0
    case LightBlue => 1
    case SkyBlue => 2
    case RoyalBlue => 3
    case MediumBlue => 4
    case DarkBlue => 5
  }

  /** `get_color_for_percent`: exactly 0 is grey; every other value below 20,
      negatives included, is light blue; then one colour per 20-point bin, with
      everything from 80 up dark blue. */
  function ColorForPercent(percent: real): (c: Color)
    ensures c == LightGray <==> percent == 0.0
    ensures c == LightBlue <==> percent != 0.0 && percent < 20.0
    ensures c == SkyBlue <==> 20.0 <= percent < 40.0
    ensures c == RoyalBlue <==> 40.0 <= percent < 60.0
    ensures c == MediumBlue <==> 60.0 <= percent < 80.0
    ensures c == DarkBlue <==> 80.0 <= percent
  {
    if percent == 0.0 then LightGray
    else if percent < 20.0 then LightBlue
    else if percent < 40.0 then SkyBlue
    else if percent < 60.0 then RoyalBlue
    else if percent < 80.0 then MediumBlue
    else DarkBlue
  }

  /** For positive percentages a larger value never gets a lighter colour. */
  lemma ColorForPercentMonotone(p: real, q: real)
    requires 0.0 < p <= q
    ensures Rank(ColorForPercent(p)) <= Rank(ColorForPercent(q))
  {
  }

  /** The `map_color` column: one colour per row of the map table. */
  function MapColors(rows: seq<MapRow>): (cs: seq<Color>)
    ensures |cs| == |rows|
  {
    if rows == [] then [] else [ColorForPercent(rows[0].percent)] + MapColors(rows[1..])
  }

  lemma {:induction false} MapColorsAt(rows: seq<MapRow>, i: nat)
    requires i < |rows|
    ensures MapColors(rows)[i] == ColorForPercent(rows[i].percent)
  {
    if i > 0 {
      MapColorsAt(rows[1..], i - 1);
    }
  }

  /** On exact (unrounded) percentages a polygon is grey exactly when it has no
      class-1 rows: a county with records but no class-1 row is drawn like a county
      with no records. */
  lemma GreyMeansNoClassOne(rows: seq<Record>, features: seq<Feature>, i: nat)
    requires i < |VaMap(rows, features)|
    ensures var row := VaMap(rows, features)[i];
            && (MapColors(VaMap(rows, features))[i] == LightGray <==> row.classOne == 0)
            && (row.total == 0 ==> MapColors(VaMap(rows, features))[i] == LightGray)
  {
    var m := VaMap(rows, features);
    MapColorsAt(m, i);
    assert m[i] in m;
    MapRowsFilled(rows, features);
  }

  /** `max(0, min(100, value))`. */
  function Clamp(value: real): (c: real)
    ensures 0.0 <= c <= 100.0
    ensures 0.0 <= value <= 100.0 ==> c == value
    ensures value <= 0.0 ==> c == 0.0
    ensures value >= 100.0 ==> c == 100.0
  {
    var low := if value < 100.0 then value else 100.0;
    if low > 0.0 then low else 0.0
  }

  /** Python's `int(x)` on a float: truncation toward zero. */
  function Truncate(x: real): (n: int)
    ensures 0.0 <= x ==> 0 <= n && n as real <= x < n as real + 1.0
  {
    if x >= 0.0 then x.Floor else -((-x).Floor)
  }

  /** `idx = int(value / 100 * 8)` after clamping: which eighth of [0, 100] the value
      is in, with exactly 100 the only value reaching 8. */
  function PaletteIndex(value: real): (idx: int)
    ensures 0 <= idx <= 8
    ensures (idx as real) * 12.5 <= Clamp(value) < (idx as real + 1.0) * 12.5
  {
    Truncate(Clamp(value) / 100.0 * 8.0)
  }

  /** The number of colours in the `Blues9` palette. */
  const PaletteSize: nat := 9

  /** `blue_palette[8 - idx]`: always in bounds; entry `j` is read for the clamped
      values in [12.5 (8 - j), 12.5 (9 - j)): entry 8 for [0, 12.5), entry 1 for
      [87.5, 100), and entry 0 only at exactly 100, so darker colours (lower
      positions) go to higher values. */
  function ColorForValue<T>(palette: seq<T>, value: real): (c: T)
    requires |palette| == PaletteSize
    ensures forall j :: 0 <= j < PaletteSize && (8 - j) as real * 12.5 <= Clamp(value) < (9 - j) as real * 12.5
                        ==> c == palette[j]
    ensures Clamp(value) == 100.0 ==> c == palette[0]
  {
    palette[8 - PaletteIndex(value)]
  }

  /** Values at or below 0 take the last palette entry, values at or above 100 the first. */
  lemma ColorForValueExtremes<T>(palette: seq<T>, value: real)
    requires |palette| == PaletteSize
    ensures value <= 0.0 ==> ColorForValue(palette, value) == palette[8]
    ensures value >= 100.0 ==> ColorForValue(palette, value) == palette[0]
  {
  }

  /** A larger value never gets a larger palette position. */
  lemma PaletteIndexAntitone(v: real, w: real)
    requires v <= w
    ensures 8 - PaletteIndex(w) <= 8 - PaletteIndex(v)
  {
  }

  /** The five sample values of the test frame pass the clamp unchanged and land on
      palette positions 8, 6, 4, 3 and 1. */
  lemma SampleValues()
    ensures Clamp(10.0) == 10.0 && Clamp(30.0) == 30.0 && Clamp(50.0) == 50.0
            && Clamp(70.0) == 70.0 && Clamp(90.0) == 90.0
    ensures 8 - PaletteIndex(10.0) == 8 && 8 - PaletteIndex(30.0) == 6 && 8 - PaletteIndex(50.0) == 4
            && 8 - PaletteIndex(70.0) == 3 && 8 - PaletteIndex(90.0) == 1
  {
  }
}
