/** `getAQIColor` of citizen.js: the CSS colour name of the band of a
    reading, used to colour the route planner's sensor markers. */
module NamedColors {
  import opened AqiBands

  /** The colour of each band, from Good to Hazardous. */
  const NamePalette: seq<string> := ["green", "yellow", "orange", "red", "purple", "maroon"]

  /** The if/else-if chain: the first bound at or above `aqi` picks the
      colour, and a reading above 300 gets the last one. */
  function AqiColor(aqi: int): (color: string)
    ensures |NamePalette| == BandCount && color == NamePalette[Band(aqi)]
  {
    BandIs(aqi, 0);
    BandIs(aqi, 1);
    BandIs(aqi, 2);
    BandIs(aqi, 3);
    BandIs(aqi, 4);
    BandIs(aqi, 5);
    if aqi <= 50 then "green"
    else if aqi <= 100 then "yellow"
    else if aqi <= 150 then "orange"
    else if aqi <= 200 then "red"
    else if aqi <= 300 then "purple"
    else "maroon"
  }

  /** The six colours are distinct: each starts with its own letter. */
  lemma NamePaletteDistinct()
    ensures forall i, j :: 0 <= i < j < |NamePalette| ==> NamePalette[i] != NamePalette[j]
  {
    assert forall i :: 0 <= i < |NamePalette| ==> NamePalette[i][0] == "gyorpm"[i];
  }

  /** Every reading gets exactly one of the six colours, and it is the
      colour of band b exactly when the reading lies in band b. */
  lemma AqiColorBand(aqi: int, b: nat)
    requires b < BandCount
    ensures AqiColor(aqi) in NamePalette
    ensures AqiColor(aqi) == NamePalette[b] <==> InBand(aqi, b)
  {
    NamePaletteDistinct();
    BandIs(aqi, b);
  }
}
