/** The health widget of health.js: `getAQICategory` names the band of a
    reading with a key, a CSS class and a line of advice, and
    `buildPersonalizedMessage` builds a message from the reader's age and
    declared conditions, clause by clause. */
module HealthWidget {
  import opened AqiBands

  /** The record `{ key, cls, advice }`. */
  datatype Category = Category(key: string, cls: string, advice: string)

  /** The category of each band, from Good to Hazardous. */
  const Categories: seq<Category> := [
    Category("Good", "aqi-good", "Air quality is satisfactory."),
    Category("Moderate", "aqi-moderate", "Acceptable; sensitive people should limit exertion."),
    Category("Unhealthy for Sensitive Groups", "aqi-usg", "Sensitive groups should reduce outdoor activity."),
    Category("Unhealthy", "aqi-unhealthy", "Everyone may feel health effects."),
    Category("Very Unhealthy", "aqi-veryunhealthy", "Health alert: serious effects for everyone."),
    Category("Hazardous", "aqi-hazardous", "Emergency conditions. Avoid all outdoor exertion.")
  ]

  /** `getAQICategory`: the if-chain of returns over the five bounds. */
  function AqiCategory(aqi: int): (c: Category)
    ensures |Categories| == BandCount && c == Categories[Band(aqi)]
  {
    BandIs(aqi, 0);
    BandIs(aqi, 1);
    BandIs(aqi, 2);
    BandIs(aqi, 3);
    BandIs(aqi, 4);
    BandIs(aqi, 5);
    if aqi <= 50 then Category("Good", "aqi-good", "Air quality is satisfactory.")
    else if aqi <= 100 then Category("Moderate", "aqi-moderate", "Acceptable; sensitive people should limit exertion.")
    else if aqi <= 150 then Category("Unhealthy for Sensitive Groups", "aqi-usg", "Sensitive groups should reduce outdoor activity.")
    else if aqi <= 200 then Category("Unhealthy", "aqi-unhealthy", "Everyone may feel health effects.")
    else if aqi <= 300 then Category("Very Unhealthy", "aqi-veryunhealthy", "Health alert: serious effects for everyone.")
    else Category("Hazardous", "aqi-hazardous", "Emergency conditions. Avoid all outdoor exertion.")
  }

  /** The six CSS classes are distinct, so the class (and so the record)
      names the band. */
  lemma CategoriesDistinct()
    ensures forall i, j :: 0 <= i < j < |Categories| ==> Categories[i].cls != Categories[j].cls
  {
    assert forall i :: 0 <= i < |Categories| ==> Categories[i].cls[4] == "gmuuvh"[i];
    assert Categories[2].cls[5] != Categories[3].cls[5];
  }

  /** Every reading gets exactly one of the six categories, and it is the
      category of band b exactly when the reading lies in band b. */
  lemma AqiCategoryBand(aqi: int, b: nat)
    requires b < BandCount
    ensures AqiCategory(aqi) in Categories
    ensures AqiCategory(aqi) == Categories[b] <==> InBand(aqi, b)
  {
    CategoriesDistinct();
    BandIs(aqi, b);
  }

  /** The bounds are inclusive: 50 is Good and 51 Moderate, 300 Very
      Unhealthy and 301 Hazardous. */
  lemma CategoryBoundaries()
    ensures AqiCategory(50).key == "Good" && AqiCategory(51).key == "Moderate"
    ensures AqiCategory(300).key == "Very Unhealthy" && AqiCategory(301).key == "Hazardous"
  {
    BandBoundaries();
  }

  /** The clauses a personalised message is made of: one of two risk
      clauses, then one clause per recognised condition. */
  datatype Clause = HigherRisk | TypicalRisk | Asthma | Heart | Diabetes

  /** The word (or emoji) each clause opens with. */
  function Opening(c: Clause): string {
    match c
    case HigherRisk => "\U{26A0}\U{FE0F}"
    case TypicalRisk => "\U{1F642}"
    case Asthma => "Asthma"
    case Heart => "Heart"
    case Diabetes => "Diabetes"
  }

  /** The rest of each clause, ending in a space. */
  function Remainder(c: Clause): string {
    match c
    case HigherRisk => " You are in a higher-risk group. "
    case TypicalRisk => " You are in a typical-risk group. "
    case Asthma => " detected \U{2014} avoid strenuous activity outdoors. "
    case Heart => " condition \U{2014} avoid exertion outdoors. "
    case Diabetes => " \U{2014} extra care during high pollution. "
  }

  /** The text of each clause. */
  function ClauseText(c: Clause): string {
    Opening(c) + Remainder(c)
  }

  /** The first character of each clause, different for every clause. */
  lemma ClauseHead(c: Clause)
    ensures |ClauseText(c)| > 0
    ensures ClauseText(c)[0] == match c
      case HigherRisk => '\U{26A0}'
      case TypicalRisk => '\U{1F642}'
      case Asthma => 'A'
      case Heart => 'H'
      case Diabetes => 'D'
  {
    assert ClauseText(c)[0] == Opening(c)[0];
  }

  /** The message made of a list of clauses. */
  function Join(cs: seq<Clause>): string {
    if cs == [] then "" else ClauseText(cs[0]) + Join(cs[1..])
  }

  /** Appending a clause appends its text. */
  lemma {:induction false} JoinSnoc(cs: seq<Clause>, c: Clause)
    ensures Join(cs + [c]) == Join(cs) + ClauseText(c)
  {
    if cs == [] {
      assert [c][1..] == [];
    } else {
      assert (cs + [c])[1..] == cs[1..] + [c];
      JoinSnoc(cs[1..], c);
    }
  }

  /** A message names its clauses unambiguously: each clause text starts
      with a character no other clause text starts with. */
  lemma {:induction false} JoinInjective(cs1: seq<Clause>, cs2: seq<Clause>)
    requires Join(cs1) == Join(cs2)
    ensures cs1 == cs2
  {
    if cs1 == [] {
      if cs2 != [] {
        ClauseHead(cs2[0]);
      }
    } else {
      ClauseHead(cs1[0]);
      if cs2 != [] {
        ClauseHead(cs2[0]);
        assert cs1[0] == cs2[0] by {
          assert Join(cs1)[0] == ClauseText(cs1[0])[0];
          assert Join(cs2)[0] == ClauseText(cs2[0])[0];
        }
        var n := |ClauseText(cs1[0])|;
        assert Join(cs1[1..]) == Join(cs1)[n..];
        assert Join(cs2[1..]) == Join(cs2)[n..];
        JoinInjective(cs1[1..], cs2[1..]);
        assert cs1 == [cs1[0]] + cs1[1..] && cs2 == [cs2[0]] + cs2[1..];
      }
    }
  }

  /** A reader is in the higher-risk group when twelve or younger, 65 or
      older, or with any declared condition. */
  predicate Vulnerable(age: int, conditions: seq<string>) {
    age <= 12 || age >= 65 || |conditions| > 0
  }

  /** The clauses of the message for a reader: the risk clause, then the
      asthma, heart and diabetes clauses of the conditions declared. */
  function Clauses(age: int, conditions: seq<string>): seq<Clause> {
    [if Vulnerable(age, conditions) then HigherRisk else TypicalRisk] +
    (if "asthma" in conditions then [Asthma] else []) +
    (if "heart" in conditions then [Heart] else []) +
    (if "diabetes" in conditions then [Diabetes] else [])
  }

  /** One `msg +=` step: when its condition holds the clause text is
      appended and the clause joins the clauses said so far. */
  lemma SayStep(msg: string, said: seq<Clause>, says: bool, c: Clause, msg': string, said': seq<Clause>)
    requires msg == Join(said)
    requires msg' == if says then msg + ClauseText(c) else msg
    requires said' == said + if says then [c] else []
    ensures msg' == Join(said')
  {
    if says {
      JoinSnoc(said, c);
    } else {
      assert said' == said;
    }
  }

  /** `buildPersonalizedMessage`: start empty, append the risk clause, then
      the clause of each recognised condition in turn. `categoryKey` is
      taken and never read. */
  method BuildPersonalizedMessage(age: int, conditions: seq<string>, categoryKey: string)
    returns (msg: string)
    ensures msg == Join(Clauses(age, conditions))
  {
    msg := "";
    var vulnerable := (age <= 12 || age >= 65) || |conditions| > 0;
    ghost var m0 := msg;
    if vulnerable {
      msg := msg + ClauseText(HigherRisk);
    } else {
      msg := msg + ClauseText(TypicalRisk);
    }
    ghost var said := [if vulnerable then HigherRisk else TypicalRisk];
    SayStep(m0, [], true, said[0], msg, said);
    ghost var s0;
    m0, s0 := msg, said;
    if "asthma" in conditions {
      msg := msg + ClauseText(Asthma);
    }
    said := s0 + if "asthma" in conditions then [Asthma] else [];
    SayStep(m0, s0, "asthma" in conditions, Asthma, msg, said);
    m0, s0 := msg, said;
    if "heart" in conditions {
      msg := msg + ClauseText(Heart);
    }
    said := s0 + if "heart" in conditions then [Heart] else [];
    SayStep(m0, s0, "heart" in conditions, Heart, msg, said);
    m0, s0 := msg, said;
    if "diabetes" in conditions {
      msg := msg + ClauseText(Diabetes);
    }
    said := s0 + if "diabetes" in conditions then [Diabetes] else [];
    SayStep(m0, s0, "diabetes" in conditions, Diabetes, msg, said);
  }

  /** The place of each clause in the message. */
  function Rank(c: Clause): nat {
    match c
    case HigherRisk => 0
    case TypicalRisk => 0
    case Asthma => 1
    case Heart => 2
    case Diabetes => 3
  }

  /** The message opens with the higher-risk clause exactly when the reader
      is vulnerable and with the typical-risk clause otherwise; it is never
      empty. */
  lemma MessageOpening(age: int, conditions: seq<string>)
    ensures ClauseText(HigherRisk) <= Join(Clauses(age, conditions)) <==> Vulnerable(age, conditions)
    ensures ClauseText(TypicalRisk) <= Join(Clauses(age, conditions)) <==> !Vulnerable(age, conditions)
    ensures |Join(Clauses(age, conditions))| > 0
  {
    var cs := Clauses(age, conditions);
    var msg := Join(cs);
    assert msg == ClauseText(cs[0]) + Join(cs[1..]);
    ClauseHead(HigherRisk);
    ClauseHead(TypicalRisk);
    assert msg[0] == ClauseText(cs[0])[0];
  }

  /** Each condition clause is there exactly when its condition is
      declared, the risk clause comes first and only there, and the clauses
      follow the order asthma, heart, diabetes. */
  lemma ClausesShape(age: int, conditions: seq<string>)
    ensures Asthma in Clauses(age, conditions) <==> "asthma" in conditions
    ensures Heart in Clauses(age, conditions) <==> "heart" in conditions
    ensures Diabetes in Clauses(age, conditions) <==> "diabetes" in conditions
    ensures 1 <= |Clauses(age, conditions)| <= 4 && Rank(Clauses(age, conditions)[0]) == 0
    ensures forall i, j :: 0 <= i < j < |Clauses(age, conditions)| ==>
      Rank(Clauses(age, conditions)[i]) < Rank(Clauses(age, conditions)[j])
  {
  }

  /** The message tells the reader's risk group and declared conditions
      apart: two readers get the same message exactly when they share the
      risk group and the recognised conditions. */
  lemma MessageDetermines(age1: int, conditions1: seq<string>, age2: int, conditions2: seq<string>)
    ensures Join(Clauses(age1, conditions1)) == Join(Clauses(age2, conditions2)) <==>
      (Vulnerable(age1, conditions1) <==> Vulnerable(age2, conditions2)) &&
      ("asthma" in conditions1 <==> "asthma" in conditions2) &&
      ("heart" in conditions1 <==> "heart" in conditions2) &&
      ("diabetes" in conditions1 <==> "diabetes" in conditions2)
  {
    var cs1, cs2 := Clauses(age1, conditions1), Clauses(age2, conditions2);
    if Join(cs1) == Join(cs2) {
      JoinInjective(cs1, cs2);
      ClausesShape(age1, conditions1);
      ClausesShape(age2, conditions2);
      assert cs1[0] == cs2[0];
    }
  }
}
