/** The six AQI bands shared by every classifier of the site: Good,
    Moderate, Unhealthy for Sensitive Groups, Unhealthy, Very Unhealthy and
    Hazardous, separated by the inclusive upper bounds 50, 100, 150, 200 and
    300. Band 5 has no upper bound. */
module AqiBands {

  /** The inclusive upper bound of bands 0 to 4. */
  const Bounds: seq<int> := [50, 100, 150, 200, 300]

  /** The number of bands. */
  const BandCount: nat := 6

  /** `aqi` lies in band b: above the bound of the band before (if any) and
      at most its own bound (if any). */
  predicate InBand(aqi: int, b: nat) {
    b < BandCount &&
    (b == 0 || aqi > Bounds[b - 1]) &&
    (b == BandCount - 1 || aqi <= Bounds[b])
  }

  /** The bound of each band lies above that of the band before. */
  lemma BoundsIncrease(i: nat, j: nat)
    requires i < j < |Bounds|
    ensures Bounds[i] < Bounds[j]
  {
  }

  /** A reading in band b lies at or below the bound of every band from b
      on. */
  lemma AtMostLaterBounds(aqi: int, b: nat, c: nat)
    requires InBand(aqi, b) && b < c < BandCount
    ensures aqi <= Bounds[c - 1]
  {
    if b < c - 1 {
      BoundsIncrease(b, c - 1);
    }
  }

  /** No reading lies in two bands. */
  lemma BandUnique(aqi: int, b: nat, c: nat)
    requires InBand(aqi, b) && InBand(aqi, c)
    ensures b == c
  {
    if b < c {
      AtMostLaterBounds(aqi, b, c);
    } else if c < b {
      AtMostLaterBounds(aqi, c, b);
    }
  }

  /** The band of `aqi`, found by scanning the bounds from band `from` up;
      `aqi` lies above every bound below `from`. */
  function BandFrom(aqi: int, from: nat): (b: nat)
    requires from < BandCount && (from == 0 || aqi > Bounds[from - 1])
    ensures from <= b && InBand(aqi, b)
    decreases BandCount - from
  {
    if from == BandCount - 1 || aqi <= Bounds[from] then from else BandFrom(aqi, from + 1)
  }

  /** The band of a reading: every reading lies in exactly one band. */
  function Band(aqi: int): (b: nat)
    ensures InBand(aqi, b)
    ensures forall c :: InBand(aqi, c) ==> c == b
  {
    var b := BandFrom(aqi, 0);
    assert forall c :: InBand(aqi, c) ==> c == b by {
      forall c | InBand(aqi, c) ensures c == b {
        BandUnique(aqi, b, c);
      }
    }
    b
  }

  /** The band of the reading `aqi` is `b` exactly when `aqi` lies in b. */
  lemma BandIs(aqi: int, b: nat)
    ensures Band(aqi) == b <==> InBand(aqi, b)
  {
  }

  /** A worse reading never falls in a better band. */
  lemma BandMonotone(a1: int, a2: int)
    requires a1 <= a2
    ensures Band(a1) <= Band(a2)
  {
    var b1, b2 := Band(a1), Band(a2);
    if b2 < b1 {
      AtMostLaterBounds(a2, b2, b1);
    }
  }

  /** Each bound belongs to the band it closes; one more opens the next. */
  lemma BandBoundaries()
    ensures Band(50) == 0 && Band(51) == 1
    ensures Band(100) == 1 && Band(101) == 2
    ensures Band(150) == 2 && Band(151) == 3
    ensures Band(200) == 3 && Band(201) == 4
    ensures Band(300) == 4 && Band(301) == 5
  {
    BandIs(50, 0);
    BandIs(51, 1);
    BandIs(100, 1);
    BandIs(101, 2);
    BandIs(150, 2);
    BandIs(151, 3);
    BandIs(200, 3);
    BandIs(201, 4);
    BandIs(300, 4);
    BandIs(301, 5);
  }
}
