/** The health advisory generator `getHealthRecommendation(aqi, age, symptoms,
    experience)`, shipped twice: on the server (app.js) and in the browser
    (citizen.js). Both apply the same four threshold rules in the same order
    and differ only in the wording of two messages. */
module Advisory {

  /** The five messages: four rules and the fallback. */
  datatype Alert = WearMask | StayIndoors | AvoidExertion | UsePurifier | AirIsGood

  /** Which copy of the generator speaks. */
  datatype Wording = AppWording | CitizenWording

  /** The rules in the order they are applied. */
  const Rules: seq<Alert> := [WearMask, StayIndoors, AvoidExertion, UsePurifier]

  /** The condition of each rule; the fallback is no rule. */
  predicate Fires(a: Alert, aqi: int, symptoms: seq<string>, experience: string) {
    match a
    case WearMask => aqi > 100 || experience == "high"
    case StayIndoors => aqi > 150
    case AvoidExertion => "asthma" in symptoms || "heart" in symptoms
    case UsePurifier => aqi > 200
    case AirIsGood => false
  }

  /** The place of each message in the output order. */
  function Position(a: Alert): nat {
    match a
    case WearMask => 0
    case StayIndoors => 1
    case AvoidExertion => 2
    case UsePurifier => 3
    case AirIsGood => 4
  }

  /** The messages appear in strictly increasing position. */
  ghost predicate Ordered(s: seq<Alert>) {
    forall i, j :: 0 <= i < j < |s| ==> Position(s[i]) < Position(s[j])
  }

  /** The rules of `rules` that fire, in their order (defined from the last
      rule back, as the rules are applied one after another). */
  function Fired(rules: seq<Alert>, aqi: int, symptoms: seq<string>, experience: string): (r: seq<Alert>)
    ensures |r| <= |rules|
    ensures forall a :: a in r <==> a in rules && Fires(a, aqi, symptoms, experience)
  {
    if rules == [] then []
    else
      var last := rules[|rules| - 1];
      Fired(rules[..|rules| - 1], aqi, symptoms, experience) +
      (if Fires(last, aqi, symptoms, experience) then [last] else [])
  }

  /** The advice: the rules that fire, or the fallback alone when none does. */
  function Advice(aqi: int, symptoms: seq<string>, experience: string): seq<Alert> {
    var fired := Fired(Rules, aqi, symptoms, experience);
    if fired == [] then [AirIsGood] else fired
  }

  /** The symbol each message starts with. */
  function Symbol(a: Alert): string {
    match a
    case WearMask => "\U{26A0}\U{FE0F}"
    case StayIndoors => "\U{1F3E0}"
    case AvoidExertion => "\U{1F4A8}"
    case UsePurifier => "\U{1F534}"
    case AirIsGood => "\U{2705}"
  }

  /** The words of each message in each copy. */
  function Sentence(w: Wording, a: Alert): string {
    match a
    case WearMask => if w == AppWording then "Wear an N95 mask outdoors" else "Consider wearing an N95 mask outdoors"
    case StayIndoors =>
      if w == AppWording then "Limit outdoor activity, stay indoors"
      else "Limit outdoor activity, stay indoors if possible"
    case AvoidExertion => "Avoid strenuous outdoor activity"
    case UsePurifier => "Use indoor air purifier if available"
    case AirIsGood => "Air quality is good"
  }

  /** The text of each message in each copy: its symbol, a space, its words. */
  function Text(w: Wording, a: Alert): string {
    Symbol(a) + " " + Sentence(w, a)
  }

  /** The texts of a list of messages. */
  function Render(w: Wording, s: seq<Alert>): (r: seq<string>)
    ensures |r| == |s| && forall i :: 0 <= i < |s| ==> r[i] == Text(w, s[i])
  {
    if s == [] then [] else [Text(w, s[0])] + Render(w, s[1..])
  }

  /** The rule table applied to one reading, written out rule by rule. */
  lemma FiredRules(aqi: int, symptoms: seq<string>, experience: string)
    ensures Fired(Rules, aqi, symptoms, experience) ==
      (if aqi > 100 || experience == "high" then [WearMask] else []) +
      (if aqi > 150 then [StayIndoors] else []) +
      (if "asthma" in symptoms || "heart" in symptoms then [AvoidExertion] else []) +
      (if aqi > 200 then [UsePurifier] else [])
  {
    var h0 := if aqi > 100 || experience == "high" then [WearMask] else [];
    var r1, r2, r3 := [WearMask], [WearMask, StayIndoors], [WearMask, StayIndoors, AvoidExertion];
    assert Fired(r1, aqi, symptoms, experience) == h0 by {
      assert r1[..0] == [];
    }
    assert Fired(r2, aqi, symptoms, experience) == h0 + if aqi > 150 then [StayIndoors] else [] by {
      assert r2[..1] == r1;
    }
    assert Fired(r3, aqi, symptoms, experience) == Fired(r2, aqi, symptoms, experience) +
      if "asthma" in symptoms || "heart" in symptoms then [AvoidExertion] else [] by {
      assert r3[..2] == r2;
    }
    assert Rules[..3] == r3;
  }

  /** Rendering one more message appends its text. */
  lemma RenderSnoc(w: Wording, s: seq<Alert>, a: Alert)
    ensures Render(w, s + [a]) == Render(w, s) + [Text(w, a)]
  {
    var l, r := Render(w, s + [a]), Render(w, s) + [Text(w, a)];
    assert |l| == |r|;
    forall i | 0 <= i < |l| ensures l[i] == r[i] {
      if i < |s| {
        assert (s + [a])[i] == s[i];
      }
    }
  }

  /** A rule step: when its condition holds the rule's text is pushed and
      the rule joins the advice so far. */
  lemma PushStep(w: Wording, pushed: seq<string>, fired: seq<Alert>, fires: bool, a: Alert,
                 pushed': seq<string>, fired': seq<Alert>)
    requires pushed == Render(w, fired)
    requires pushed' == if fires then pushed + [Text(w, a)] else pushed
    requires fired' == fired + if fires then [a] else []
    ensures pushed' == Render(w, fired')
  {
    if fires {
      RenderSnoc(w, fired, a);
    } else {
      assert fired' == fired;
    }
  }

  /** The fallback: an empty list becomes the good-air message alone. */
  lemma FallbackStep(w: Wording, pushed: seq<string>, aqi: int, symptoms: seq<string>, experience: string)
    requires pushed == Render(w, Fired(Rules, aqi, symptoms, experience))
    ensures (if |pushed| > 0 then pushed else [Text(w, AirIsGood)]) == Render(w, Advice(aqi, symptoms, experience))
  {
    if |pushed| == 0 {
      assert Render(w, [AirIsGood]) == [Text(w, AirIsGood)] + Render(w, []);
    }
  }

  /** `getHealthRecommendation`: push the message of each rule that fires,
      in rule order, and fall back to the good-air message. `age` is taken
      and never read. */
  method HealthRecommendation(aqi: int, age: int, symptoms: seq<string>, experience: string, w: Wording)
    returns (alerts: seq<string>)
    ensures alerts == Render(w, Advice(aqi, symptoms, experience))
  {
    var pushed: seq<string> := [];
    ghost var p0 := pushed;
    if aqi > 100 || experience == "high" {
      pushed := pushed + [Text(w, WearMask)];
    }
    ghost var fired := if aqi > 100 || experience == "high" then [WearMask] else [];
    PushStep(w, p0, [], aqi > 100 || experience == "high", WearMask, pushed, fired);
    ghost var f0;
    p0, f0 := pushed, fired;
    if aqi > 150 {
      pushed := pushed + [Text(w, StayIndoors)];
    }
    fired := f0 + if aqi > 150 then [StayIndoors] else [];
    PushStep(w, p0, f0, aqi > 150, StayIndoors, pushed, fired);
    p0, f0 := pushed, fired;
    if "asthma" in symptoms || "heart" in symptoms {
      pushed := pushed + [Text(w, AvoidExertion)];
    }
    fired := f0 + if "asthma" in symptoms || "heart" in symptoms then [AvoidExertion] else [];
    PushStep(w, p0, f0, "asthma" in symptoms || "heart" in symptoms, AvoidExertion, pushed, fired);
    p0, f0 := pushed, fired;
    if aqi > 200 {
      pushed := pushed + [Text(w, UsePurifier)];
    }
    fired := f0 + if aqi > 200 then [UsePurifier] else [];
    PushStep(w, p0, f0, aqi > 200, UsePurifier, pushed, fired);
    FiredRules(aqi, symptoms, experience);
    FallbackStep(w, pushed, aqi, symptoms, experience);
    alerts := if |pushed| > 0 then pushed else [Text(w, AirIsGood)];
  }

  /** Every message of an ordered list but the last comes before the last. */
  lemma BeforeLast(s: seq<Alert>, a: Alert)
    requires Ordered(s) && s != [] && a in s[..|s| - 1]
    ensures Position(a) < Position(s[|s| - 1])
  {
    var k :| 0 <= k < |s| - 1 && s[..|s| - 1][k] == a;
    assert s[k] == a;
  }

  /** An ordered list stays ordered when a message placed after all of it
      is appended. */
  lemma OrderedSnoc(s: seq<Alert>, x: Alert)
    requires Ordered(s) && forall a :: a in s ==> Position(a) < Position(x)
    ensures Ordered(s + [x])
  {
    forall i, j | 0 <= i < j < |s + [x]| ensures Position((s + [x])[i]) < Position((s + [x])[j]) {
      assert (s + [x])[i] == s[i] && s[i] in s;
    }
  }

  /** Filtering keeps the order of its input. */
  lemma {:induction false} FiredOrdered(rules: seq<Alert>, aqi: int, symptoms: seq<string>, experience: string)
    requires Ordered(rules)
    ensures Ordered(Fired(rules, aqi, symptoms, experience))
  {
    if rules != [] {
      var init, last := rules[..|rules| - 1], rules[|rules| - 1];
      assert Ordered(init) by {
        forall i, j | 0 <= i < j < |init| ensures Position(init[i]) < Position(init[j]) {
          assert init[i] == rules[i] && init[j] == rules[j];
        }
      }
      FiredOrdered(init, aqi, symptoms, experience);
      var front := Fired(init, aqi, symptoms, experience);
      if Fires(last, aqi, symptoms, experience) {
        forall a | a in front ensures Position(a) < Position(last) {
          BeforeLast(rules, a);
        }
        OrderedSnoc(front, last);
      } else {
        assert Fired(rules, aqi, symptoms, experience) == front + [];
        assert front + [] == front;
      }
    }
  }

  /** One to four messages, in rule order (mask, indoors, exertion, purifier),
      and the good-air message only alone, exactly when no rule fires. */
  lemma AdviceShape(aqi: int, symptoms: seq<string>, experience: string)
    ensures 1 <= |Advice(aqi, symptoms, experience)| <= 4
    ensures Ordered(Advice(aqi, symptoms, experience))
    ensures AirIsGood in Advice(aqi, symptoms, experience) <==> Advice(aqi, symptoms, experience) == [AirIsGood]
    ensures Advice(aqi, symptoms, experience) == [AirIsGood] <==>
      aqi <= 100 && experience != "high" && "asthma" !in symptoms && "heart" !in symptoms
  {
    FiredOrdered(Rules, aqi, symptoms, experience);
    var fired := Fired(Rules, aqi, symptoms, experience);
    if fired != [] {
      assert fired[0] in fired;
    }
    if !(aqi <= 100 && experience != "high" && "asthma" !in symptoms && "heart" !in symptoms) {
      assert WearMask in fired || AvoidExertion in fired;
    }
  }

  /** The mask message is given exactly when aqi exceeds 100 or exposure is
      "high"; each other rule likewise exactly when its condition holds. */
  lemma AdviceRules(aqi: int, symptoms: seq<string>, experience: string)
    ensures WearMask in Advice(aqi, symptoms, experience) <==> aqi > 100 || experience == "high"
    ensures StayIndoors in Advice(aqi, symptoms, experience) <==> aqi > 150
    ensures AvoidExertion in Advice(aqi, symptoms, experience) <==> "asthma" in symptoms || "heart" in symptoms
    ensures UsePurifier in Advice(aqi, symptoms, experience) <==> aqi > 200
  {
  }

  /** The purifier message never comes alone: the mask and stay-indoors
      messages are there too, before it. */
  lemma PurifierFollowsMask(aqi: int, symptoms: seq<string>, experience: string)
    requires UsePurifier in Advice(aqi, symptoms, experience)
    ensures exists i, j, k ::
      (0 <= i < j < k < |Advice(aqi, symptoms, experience)| &&
       Advice(aqi, symptoms, experience)[i] == WearMask &&
       Advice(aqi, symptoms, experience)[j] == StayIndoors &&
       Advice(aqi, symptoms, experience)[k] == UsePurifier)
  {
    var s := Advice(aqi, symptoms, experience);
    AdviceShape(aqi, symptoms, experience);
    AdviceRules(aqi, symptoms, experience);
    var i :| 0 <= i < |s| && s[i] == WearMask;
    var j :| 0 <= j < |s| && s[j] == StayIndoors;
    var k :| 0 <= k < |s| && s[k] == UsePurifier;
    OrderedIndex(s, i, j);
    OrderedIndex(s, j, k);
  }

  /** In an ordered list a message of lower position sits at a lower index. */
  lemma OrderedIndex(s: seq<Alert>, i: nat, j: nat)
    requires Ordered(s) && i < |s| && j < |s| && Position(s[i]) < Position(s[j])
    ensures i < j
  {
  }

  /** A worse aqi never withdraws a rule's message. */
  lemma AdviceMonotone(aqi1: int, aqi2: int, symptoms: seq<string>, experience: string)
    requires aqi1 <= aqi2
    ensures forall a :: a in Advice(aqi1, symptoms, experience) && a != AirIsGood ==> a in Advice(aqi2, symptoms, experience)
  {
    AdviceShape(aqi1, symptoms, experience);
    AdviceRules(aqi1, symptoms, experience);
    AdviceRules(aqi2, symptoms, experience);
  }

  /** Each copy gives every message its own text, so the list of texts
      determines the advice. */
  lemma {:induction false} RenderInjective(w: Wording, s1: seq<Alert>, s2: seq<Alert>)
    requires Render(w, s1) == Render(w, s2)
    ensures s1 == s2
  {
    assert |s1| == |s2|;
    forall i | 0 <= i < |s1| ensures s1[i] == s2[i] {
      assert Text(w, s1[i]) == Text(w, s2[i]);
      if s1[i] != s2[i] {
        TextInjective(w, s1[i], s2[i]);
      }
    }
  }

  /** Distinct messages have distinct texts: each starts with its own symbol. */
  lemma TextInjective(w: Wording, a: Alert, b: Alert)
    requires a != b
    ensures Text(w, a) != Text(w, b)
  {
    TextHead(w, a);
    TextHead(w, b);
  }

  /** A text starts with the first character of its symbol, and no two
      symbols share that character. */
  lemma TextHead(w: Wording, a: Alert)
    ensures |Text(w, a)| > 0 && Text(w, a)[0] == Symbol(a)[0]
    ensures Symbol(a)[0] == match a
      case WearMask => '\U{26A0}'
      case StayIndoors => '\U{1F3E0}'
      case AvoidExertion => '\U{1F4A8}'
      case UsePurifier => '\U{1F534}'
      case AirIsGood => '\U{2705}'
  {
  }

  /** The two copies word the mask and stay-indoors messages differently and
      the other three identically. */
  lemma WordingsDiffer(a: Alert)
    ensures Text(AppWording, a) == Text(CitizenWording, a) <==> a != WearMask && a != StayIndoors
  {
    if a == WearMask || a == StayIndoors {
      assert |Text(AppWording, a)| != |Text(CitizenWording, a)|;
    }
  }

  /** The browser's call, with aqi 180, ['asthma'] and 'high': mask, indoors
      and exertion messages in the browser's wording. */
  method CitizenFixtureAlerts() returns (alerts: seq<string>)
    ensures alerts == [Text(CitizenWording, WearMask), Text(CitizenWording, StayIndoors), Text(CitizenWording, AvoidExertion)]
  {
    alerts := HealthRecommendation(180, 30, ["asthma"], "high", CitizenWording);
    CitizenSampleAdvice();
  }

  /** The rules that fire for the browser's sample reading. */
  lemma CitizenSampleAdvice()
    ensures Advice(180, ["asthma"], "high") == [WearMask, StayIndoors, AvoidExertion]
  {
    FiredRules(180, ["asthma"], "high");
    assert "asthma" in ["asthma"];
  }

  /** The server's call uses the sample aqi 180: whatever the request says,
      the mask and stay-indoors messages come first and the purifier message
      never appears. */
  lemma ServerSampleAdvice(symptoms: seq<string>, experience: string)
    ensures |Advice(180, symptoms, experience)| >= 2 && Advice(180, symptoms, experience)[..2] == [WearMask, StayIndoors]
    ensures UsePurifier !in Advice(180, symptoms, experience)
  {
    FiredRules(180, symptoms, experience);
  }
}
