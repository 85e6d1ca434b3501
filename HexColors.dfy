/** `getAQIColor` of boilerplate.js: the hex colour of the band of a
    reading, used to paint the dashboard's AQI markers. */
module HexColors {
  import opened AqiBands

  /** The colour of each band, from Good to Hazardous. */
  const HexPalette: seq<string> := ["#00e400", "#ffff00", "#ff7e00", "#ff0000", "#8f3f97", "#7e0023"]

  /** The if-chain of returns: the first bound at or above `aqi` picks the
      colour, and a reading above 300 gets the last one. */
  function AqiColor(aqi: int): (color: string)
    ensures |HexPalette| == BandCount && color == HexPalette[Band(aqi)]
  {
    BandIs(aqi, 0);
    BandIs(aqi, 1);
    BandIs(aqi, 2);
    BandIs(aqi, 3);
    BandIs(aqi, 4);
    BandIs(aqi, 5);
    if aqi <= 50 then "#00e400"
    else if aqi <= 100 then "#ffff00"
    else if aqi <= 150 then "#ff7e00"
    else if aqi <= 200 then "#ff0000"
    else if aqi <= 300 then "#8f3f97"
    else "#7e0023"
  }

  /** The six colours are distinct, so the colour names the band. */
  lemma HexPaletteDistinct()
    ensures forall i, j :: 0 <= i < j < |HexPalette| ==> HexPalette[i] != HexPalette[j]
  {
    assert forall i :: 1 <= i <= 3 ==> HexPalette[i][3] == "f70"[i - 1];
    assert forall i :: 0 <= i < |HexPalette| ==> HexPalette[i][1] == "0fff87"[i];
  }

  /** Every reading gets exactly one of the six colours, and it is the
      colour of band b exactly when the reading lies in band b. */
  lemma AqiColorBand(aqi: int, b: nat)
    requires b < BandCount
    ensures AqiColor(aqi) in HexPalette
    ensures AqiColor(aqi) == HexPalette[b] <==> InBand(aqi, b)
  {
    HexPaletteDistinct();
    BandIs(aqi, b);
  }
}
