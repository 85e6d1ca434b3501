/** The three AQI classifiers of the site (the dashboard's hex colours, the
    route planner's colour names and the health widget's categories) cut
    the scale at the same places: for every reading they all pick the
    entry of the same band. */
module BandAgreement {
  import opened AqiBands
  import HexColors
  import NamedColors
  import HealthWidget

  /** The dashboard colour, the route planner colour and the health
      category of a reading are the entries of one and the same band. */
  lemma ClassifiersAgree(aqi: int, b: nat)
    requires b < BandCount
    ensures HexColors.AqiColor(aqi) == HexColors.HexPalette[b] <==>
            HealthWidget.AqiCategory(aqi) == HealthWidget.Categories[b]
    ensures NamedColors.AqiColor(aqi) == NamedColors.NamePalette[b] <==>
            HealthWidget.AqiCategory(aqi) == HealthWidget.Categories[b]
  {
    HexColors.AqiColorBand(aqi, b);
    NamedColors.AqiColorBand(aqi, b);
    HealthWidget.AqiCategoryBand(aqi, b);
  }

  /** A worse reading never gets the colour or category of a better band. */
  lemma ClassifiersMonotone(a1: int, a2: int, i: nat, j: nat)
    requires a1 <= a2 && i < BandCount && j < BandCount
    requires HexColors.AqiColor(a1) == HexColors.HexPalette[i] && HexColors.AqiColor(a2) == HexColors.HexPalette[j]
    ensures i <= j
    ensures NamedColors.AqiColor(a1) == NamedColors.NamePalette[i] && NamedColors.AqiColor(a2) == NamedColors.NamePalette[j]
    ensures HealthWidget.AqiCategory(a1) == HealthWidget.Categories[i] && HealthWidget.AqiCategory(a2) == HealthWidget.Categories[j]
  {
    HexColors.AqiColorBand(a1, i);
    HexColors.AqiColorBand(a2, j);
    BandIs(a1, i);
    BandIs(a2, j);
    BandMonotone(a1, a2);
    ClassifiersAgree(a1, i);
    ClassifiersAgree(a2, j);
  }
}
