/** The rule-based pollution source classifier of airecomandation.js: a
    first-match rule table on a sensor's AQI and dominant pollutant picks a
    likely source and the action that goes with it, and every listed
    monument within 5 km of a sensor reading above 150 adds an alert to the
    action. The great-circle distance is a parameter of the model. */
module AiRecommendation {

  /** A sensor reading `{ aqi, pollutant, lat, lon }`. */
  datatype Sensor = Sensor(aqi: int, pollutant: string, lat: real, lon: real)

  /** A position `{ lat, lon }`. */
  datatype Point = Point(lat: real, lon: real)

  datatype Monument = Monument(name: string, lat: real, lon: real)

  /** The monuments to protect, in the order they are checked. */
  const Monuments: seq<Monument> := [
    Monument("Taj Mahal", 27.1751, 78.0421),
    Monument("India Gate", 28.6129, 77.2295)
  ]

  /** The result `{ source, action }`. */
  datatype Recommendation = Recommendation(source: string, action: string)

  /** The likely sources, in the order their rules are tried. */
  datatype Source = Industrial | CropBurning | ForestFire | Traffic | Normal

  const Order: seq<Source> := [Industrial, CropBurning, ForestFire, Traffic, Normal]

  /** The condition of each source's rule; Normal is the default. */
  predicate Matches(s: Source, aqi: int, pollutant: string) {
    match s
    case Industrial => aqi > 250
    case CropBurning => aqi > 180
    case ForestFire => pollutant in ["SO2", "NO2"]
    case Traffic => aqi > 100
    case Normal => true
  }

  /** The place of each source's rule in the table. */
  function Rank(s: Source): nat {
    match s
    case Industrial => 0
    case CropBurning => 1
    case ForestFire => 2
    case Traffic => 3
    case Normal => 4
  }

  function SourceName(s: Source): string {
    match s
    case Industrial => "Industrial"
    case CropBurning => "Crop Burning"
    case ForestFire => "Forest Fire"
    case Traffic => "Traffic"
    case Normal => "Normal"
  }

  /** The action each source calls for. */
  function BaseAction(s: Source): string {
    match s
    case Industrial => "Restrict vehicles"
    case CropBurning => "Issue alerts"
    case ForestFire => "Alert forest dept"
    case Traffic => "Reroute vehicles"
    case Normal => "No action needed"
  }

  /** The first source of `rules` whose rule matches; Normal when none
      does. */
  function FirstMatch(rules: seq<Source>, aqi: int, pollutant: string): (s: Source)
    ensures (exists i :: 0 <= i < |rules| && rules[i] == s && Matches(s, aqi, pollutant) && forall j :: 0 <= j < i ==> !Matches(rules[j], aqi, pollutant)) ||
            (s == Normal && forall j :: 0 <= j < |rules| ==> !Matches(rules[j], aqi, pollutant))
  {
    if rules == [] then Normal
    else if Matches(rules[0], aqi, pollutant) then rules[0]
    else
      var s := FirstMatch(rules[1..], aqi, pollutant);
      assert forall j :: 1 <= j < |rules| ==> rules[j] == rules[1..][j - 1];
      s
  }

  /** Every source sits in the table at its rank. */
  lemma RankInOrder(t: Source)
    ensures Rank(t) < |Order| && Order[Rank(t)] == t
    ensures forall i :: 0 <= i < |Order| ==> Rank(Order[i]) == i
  {
  }

  /** The source of a reading: the first rule of the table that matches. */
  function Classify(aqi: int, pollutant: string): (s: Source)
    ensures Matches(s, aqi, pollutant)
    ensures forall t :: Rank(t) < Rank(s) ==> !Matches(t, aqi, pollutant)
  {
    var s := FirstMatch(Order, aqi, pollutant);
    assert Matches(s, aqi, pollutant) && forall t :: Rank(t) < Rank(s) ==> !Matches(t, aqi, pollutant) by {
      RankInOrder(Normal);
      var i :| 0 <= i < |Order| && Order[i] == s && Matches(s, aqi, pollutant) &&
        forall j :: 0 <= j < i ==> !Matches(Order[j], aqi, pollutant);
      forall t | Rank(t) < Rank(s) ensures !Matches(t, aqi, pollutant) {
        RankInOrder(t);
      }
    }
    s
  }

  /** The alert a monument adds to the action. */
  function Alert(m: Monument): string {
    " | ALERT: Protect " + m.name
  }

  /** The alerts of the monuments `ms` for a reading of `aqi` at `at`, in
      list order: those within 5 km, when the reading exceeds 150. */
  function Alerts(aqi: int, at: Point, ms: seq<Monument>, distanceKm: (Point, Point) -> real): string {
    if ms == [] then ""
    else
      var m := ms[|ms| - 1];
      Alerts(aqi, at, ms[..|ms| - 1], distanceKm) +
      (if distanceKm(at, Point(m.lat, m.lon)) < 5.0 && aqi > 150 then Alert(m) else "")
  }

  /** What the classifier returns for a reading. */
  function Recommend(sensor: Sensor, distanceKm: (Point, Point) -> real): Recommendation {
    var s := Classify(sensor.aqi, sensor.pollutant);
    Recommendation(SourceName(s), BaseAction(s) + Alerts(sensor.aqi, Point(sensor.lat, sensor.lon), Monuments, distanceKm))
  }

  /** The if/else-if chain of the classifier is the rule table tried in
      order. */
  lemma ClassifyChain(aqi: int, pollutant: string)
    ensures Classify(aqi, pollutant) ==
      if aqi > 250 then Industrial
      else if aqi > 180 then CropBurning
      else if pollutant in ["SO2", "NO2"] then ForestFire
      else if aqi > 100 then Traffic
      else Normal
  {
    var s := Classify(aqi, pollutant);
    assert Rank(s) == Rank(if aqi > 250 then Industrial
      else if aqi > 180 then CropBurning
      else if pollutant in ["SO2", "NO2"] then ForestFire
      else if aqi > 100 then Traffic
      else Normal);
  }

  /** One turn of the monument loop: the monument's alert is appended
      when it is near and the reading exceeds 150. */
  lemma AlertStep(aqi: int, at: Point, ms: seq<Monument>, i: nat, distanceKm: (Point, Point) -> real,
                  base: string, action: string, action': string)
    requires i < |ms| && action == base + Alerts(aqi, at, ms[..i], distanceKm)
    requires action' == if distanceKm(at, Point(ms[i].lat, ms[i].lon)) < 5.0 && aqi > 150 then action + Alert(ms[i]) else action
    ensures action' == base + Alerts(aqi, at, ms[..i + 1], distanceKm)
  {
    assert ms[..i + 1][..i] == ms[..i];
  }

  /** `ruleBasedRecommendation`: the rule chain sets `source` and `action`,
      then each monument in turn may append its alert. */
  method RuleBasedRecommendation(sensor: Sensor, distanceKm: (Point, Point) -> real) returns (rec: Recommendation)
    ensures rec == Recommend(sensor, distanceKm)
  {
    var aqi, pollutant, lat, lon := sensor.aqi, sensor.pollutant, sensor.lat, sensor.lon;
    var source, action := "Normal", "No action needed";
    if aqi > 250 {
      source, action := "Industrial", "Restrict vehicles";
    } else if aqi > 180 {
      source, action := "Crop Burning", "Issue alerts";
    } else if pollutant in ["SO2", "NO2"] {
      source, action := "Forest Fire", "Alert forest dept";
    } else if aqi > 100 {
      source, action := "Traffic", "Reroute vehicles";
    }
    ClassifyChain(aqi, pollutant);
    ghost var s := Classify(aqi, pollutant);
    ghost var base := action;
    assert source == SourceName(s) && base == BaseAction(s);
    var monuments := Monuments;
    for i := 0 to |monuments|
      invariant action == base + Alerts(aqi, Point(lat, lon), monuments[..i], distanceKm)
    {
      var mon := monuments[i];
      var dist := distanceKm(Point(lat, lon), Point(mon.lat, mon.lon));
      ghost var before := action;
      if dist < 5.0 && aqi > 150 {
        action := action + Alert(mon);
      }
      AlertStep(aqi, Point(lat, lon), monuments, i, distanceKm, base, before, action);
    }
    assert monuments[..|monuments|] == Monuments;
    rec := Recommendation(source, action);
  }

  /** `getRecommendation`: both the normal path and the fallback return the
      rule-based recommendation. */
  method GetRecommendation(sensor: Sensor, distanceKm: (Point, Point) -> real) returns (rec: Recommendation)
    ensures rec == Recommend(sensor, distanceKm)
  {
    rec := RuleBasedRecommendation(sensor, distanceKm);
  }

  /** Above 180 the pollutant plays no part; the position never changes the
      source. */
  lemma SourceInputs(aqi: int, p1: string, p2: string, lat1: real, lon1: real, lat2: real, lon2: real,
                     d1: (Point, Point) -> real, d2: (Point, Point) -> real)
    ensures aqi > 180 ==> Recommend(Sensor(aqi, p1, lat1, lon1), d1) == Recommend(Sensor(aqi, p2, lat1, lon1), d1)
    ensures Recommend(Sensor(aqi, p1, lat1, lon1), d1).source == Recommend(Sensor(aqi, p1, lat2, lon2), d2).source
  {
    ClassifyChain(aqi, p1);
    ClassifyChain(aqi, p2);
  }

  /** At 150 or below no monument alert is added. */
  lemma {:induction false} NoAlertsAtOrBelow150(aqi: int, at: Point, ms: seq<Monument>, distanceKm: (Point, Point) -> real)
    requires aqi <= 150
    ensures Alerts(aqi, at, ms, distanceKm) == ""
  {
    if ms != [] {
      NoAlertsAtOrBelow150(aqi, at, ms[..|ms| - 1], distanceKm);
    }
  }

  /** At 150 or below the action is the source's action alone. */
  lemma QuietAtOrBelow150(sensor: Sensor, distanceKm: (Point, Point) -> real)
    requires sensor.aqi <= 150
    ensures Recommend(sensor, distanceKm).action == BaseAction(Classify(sensor.aqi, sensor.pollutant))
  {
    NoAlertsAtOrBelow150(sensor.aqi, Point(sensor.lat, sensor.lon), Monuments, distanceKm);
  }

  /** The action opens with the source's action, followed by no alert, the
      Taj Mahal alert, the India Gate alert, or both in that order; each
      alert is there exactly when its monument is within 5 km and the
      reading exceeds 150. */
  lemma ActionShape(sensor: Sensor, distanceKm: (Point, Point) -> real)
    ensures var at, s := Point(sensor.lat, sensor.lon), Classify(sensor.aqi, sensor.pollutant);
      var taj := distanceKm(at, Point(27.1751, 78.0421)) < 5.0 && sensor.aqi > 150;
      var gate := distanceKm(at, Point(28.6129, 77.2295)) < 5.0 && sensor.aqi > 150;
      Recommend(sensor, distanceKm).action ==
        BaseAction(s) + (if taj then " | ALERT: Protect Taj Mahal" else "") +
        (if gate then " | ALERT: Protect India Gate" else "")
  {
    var at := Point(sensor.lat, sensor.lon);
    assert Monuments[..1] == [Monuments[0]] && Monuments[..1][..0] == [];
    var a1 := Alerts(sensor.aqi, at, Monuments[..1], distanceKm);
    var a2 := Alerts(sensor.aqi, at, Monuments, distanceKm);
    var t := if distanceKm(at, Point(27.1751, 78.0421)) < 5.0 && sensor.aqi > 150 then Alert(Monuments[0]) else "";
    var g := if distanceKm(at, Point(28.6129, 77.2295)) < 5.0 && sensor.aqi > 150 then Alert(Monuments[1]) else "";
    assert Alerts(sensor.aqi, at, Monuments[..1][..0], distanceKm) == "";
    assert a1 == "" + t;
    assert "" + t == t;
    assert Monuments[..|Monuments| - 1] == Monuments[..1];
    assert a2 == t + g;
    AlertTexts();
  }

  /** The two monument alerts. */
  lemma AlertTexts()
    ensures Alert(Monuments[0]) == " | ALERT: Protect Taj Mahal"
    ensures Alert(Monuments[1]) == " | ALERT: Protect India Gate"
  {
  }

  /** Each source has its own name and its own action. */
  lemma PairingInjective(s1: Source, s2: Source)
    requires s1 != s2
    ensures SourceName(s1) != SourceName(s2) && BaseAction(s1) != BaseAction(s2)
  {
    assert |SourceName(s1)| != |SourceName(s2)|;
    assert |BaseAction(s1)| != |BaseAction(s2)| || BaseAction(s1)[0] != BaseAction(s2)[0];
  }
}
