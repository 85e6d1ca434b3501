# Exposure-aware routing and air-quality advice, modelled in Dafny

This project models the algorithmic core of a small air-quality web
application (a server in `app.js` and browser scripts under `public/js/`).

- **Route planner.** `getEdgeWeight` scores a directed edge from its
  pollution (`aqi`), `distance` and `tourist` values.
  - The cost is alpha·aqi + beta·distance.
  - In scenic mode, gamma·tourist is subtracted from that.
  - `dijkstra` is a naive Dijkstra over the keys of a string-keyed graph
    object. It keeps tentative distances (`Infinity` until reached), a
    `prev` dictionary and a set `pq` of pending nodes.
  - Each round it selects the nearest pending node, stops if that node is
    `end`, and relaxes its edges.
  - Finally it walks `prev` back from `end`.
  - The server (`app.js`) and the browser (`public/js/citizen.js`) ship the
    same code with different fixture graphs.
- **Health advisory.** `getHealthRecommendation` applies four threshold rules
  in a fixed order and falls back to a good-air message. The server and the
  browser word two of the messages differently.
- **AQI banding.** Three classifiers cut the AQI scale at the inclusive bounds
  50, 100, 150, 200 and 300:
  - `getAQIColor` in `public/js/boilerplate.js` (hex colours);
  - `getAQIColor` in `public/js/citizen.js` (colour names);
  - `getAQICategory` in `public/js/health.js` (key, CSS class and advice).

  `buildPersonalizedMessage` builds a risk message, clause by clause.
- **Pollution-source classifier.** `ruleBasedRecommendation` in
  `airecomandation.js` picks a likely source and its action from a
  first-match rule table. It then appends an alert for each listed monument
  within 5 km of a reading above 150. `getRecommendation` returns the same
  value.

## How the model is built

Each file follows the form of its source.

- **Mutation becomes methods.** Code that mutates local dictionaries, sets
  and arrays (`dijkstra`, the alert pushes, the `msg +=` steps, the monument
  loop) is modelled by methods, with loops where the source loops. Each
  method is proved against a specification function or predicate.
- **If-chains become functions.** The pure if-chains (`getAQIColor`,
  `getAQICategory`) are functions. Each is tied to a shared declarative band
  definition, `AqiBands.InBand`.
- **Search state.** `dist`, `prev` and `pq` are value maps and a sequence
  that the method reassigns.
  - JavaScript's `Infinity` is `Dist.Infinity`.
  - The strict `<` of the `reduce` is `Less`.
  - `while (prev[u])` is `Truthy`: the key is present and not the empty
    string.
  - The search tracks extra ghost state that the source does not have:
    - `via`, the index of the edge that set each predecessor;
    - `rank`, the order in which nodes were settled.
- **Distance is a parameter.** The haversine distance is a parameter
  `distanceKm` of the classifier.

Files:
- `RouteGraph.dfy`: graphs, edge cost, walks, reachability, route cost,
  cheapest route.
- `RouteSearch.dfy`: the search.
- `RouteFixtures.dfy`: the two fixture graphs.
- `Advisory.dfy`: the health advisory.
- `AqiBands.dfy`: the shared bands.
- `HexColors.dfy`: boilerplate.js's colours.
- `NamedColors.dfy`: citizen.js's colours.
- `HealthWidget.dfy`: health.js.
- `BandAgreement.dfy`: cross-file agreement.
- `AiRecommendation.dfy`: the source classifier.

With all coefficients 1, scenic mode does not change the route the search
picks on the server's fixture graph: the tourist scores are too small to
outweigh the pollution differences.
- Plain mode: A-B-D costs 276, A-C-D 285 and A-B-C-D 306.
- Scenic mode: 269, 278 and 284 respectively.

Both searches return A-B-D (`RouteFixtures.AppRoute`).

## Model

| member | source | states |
|---|---|---|
| RouteGraph.EdgeWeight | app.js:65-67 | Outside scenic mode an edge costs alpha·aqi + beta·distance; in scenic mode a non-negative gamma·tourist bonus can only lower that cost. |
| RouteGraph.ScenicBonus | app.js:65-67 | The edge cost is alpha·aqi + beta·distance, minus gamma·tourist in scenic mode; outside scenic mode the tourist score has no effect on the cost. |
| RouteGraph.CostAppend | app.js:77 | The cost of a route made of two pieces is the sum of their costs. |
| RouteGraph.AlongTail | app.js:76-78 | Dropping the first node of a route drops its first edge and leaves a route. |
| RouteGraph.CostNonNegative | app.js:65-67 | With non-negative edge costs, every route costs at least 0. |
| RouteGraph.WalkHasEdges | app.js:76-78 | Every walk of adjacent nodes has a choice of edges along it. |
| RouteGraph.AlongIsWalk | app.js:76-78 | A node sequence with edges along it, whose nodes are graph keys, is a walk. |
| RouteGraph.WalkCons | app.js:83 | Putting a predecessor (joined by an edge) in front of a walk gives a walk with the same last node. |
| RouteGraph.AlongCons | app.js:77-78 | Putting an edge in front of a route adds exactly that edge's cost. |
| RouteGraph.ReachableStep | app.js:76-78 | Reachability extends along any edge. |
| RouteGraph.ReachableSelf | app.js:84 | Every node is reachable from itself by the one-node walk. |
| RouteGraph.WalkSlice | app.js:83 | A stretch of a walk is a walk. |
| RouteGraph.RepeatCycle | app.js:83 | A walk that visits some node twice contains a cycle of the graph. |
| RouteGraph.Pigeonhole | app.js:69 | A sequence of graph nodes longer than the list of keys repeats a node. |
| RouteSearch.SelectMin | app.js:73 | The selected pending node has a tentative distance no greater than any pending node's, and a strictly smaller one than every node before it in key order: the earliest of the minima wins. |
| RouteSearch.RelaxOne | app.js:76-79 | Relaxing one more edge keeps the relaxation invariant: the same nodes have distances, none grows, and each node either keeps its entry or gets a strictly smaller finite distance with predecessor u through one of u's edges. Only with non-negative costs is that distance dist[u]+cost, u's own distance unchanged, and every edge relaxed so far tight. |
| RouteSearch.RelaxSkip | app.js:78 | An edge whose alternative is not strictly smaller, or whose target has no entry in the distance map (it is neither a key nor start), changes nothing. |
| RouteSearch.RelaxUpdate | app.js:78 | An edge whose alternative is strictly smaller sets the target's distance and predecessor and keeps the relaxation invariant. |
| RouteSearch.UpdateKeeps | app.js:78 | After an update every node is either untouched or relaxed through an edge of u, and no distance grew. |
| RouteSearch.UpdateCosts | app.js:77-78 | With non-negative costs: u's own distance is unchanged, a relaxed node's distance is dist[u] plus its edge's cost and at least dist[u], and every edge relaxed so far is tight. |
| RouteSearch.RelaxEdges | app.js:76-79 | After relaxing all of u's edges: distances never increased; `prev[v] := u` was set only for a node v that has a distance entry (a key or start) and is reached by an edge of u; and with non-negative costs every edge of u is tight. |
| RouteSearch.RemoveAt | app.js:74 | Deleting the selected node removes exactly that node from the pending set, which shrinks by one and stays free of duplicates. |
| RouteSearch.WalkBackGo | app.js:83 | While `prev[u]` is truthy, the predecessor link of u is an edge from a reached node, `end` has a truthy predecessor and is reachable from start, and with a settling order the number of steps is below the bound. |
| RouteSearch.WalkBackStep | app.js:83 | One `unshift` and step back along `prev` keeps the walk-back invariant: the path so far is a walk ending at `end`; and when every predecessor edge accounts for its target's distance (as it does with non-negative costs), the cost of the edges walked so far accounts for dist[end]. |
| RouteSearch.WalkBackDone | app.js:81-85 | When the walk back stops: if `end` has no truthy predecessor the result is `[start]` when end is start and `[]` otherwise; with a truthy predecessor it is non-empty; an unreachable end gives `[]`; when no id is empty, a non-empty result is a walk from start to end; when in addition every predecessor edge accounts for its target's distance (as with non-negative costs), its cost equals dist[end]. |
| RouteSearch.ChainCons | app.js:83 | Stepping back from the first node of a predecessor chain extends the chain. |
| RouteSearch.WalkBackStuck | app.js:83 | A walk back that has taken as many steps as the graph has keys and still has a truthy predecessor has gone through a chain of predecessors that repeats a node. |
| RouteSearch.LoopsCycle | app.js:83 | Predecessor links from `end` that go round for ever lie on a cycle of the graph. |
| RouteSearch.Reconstruct | app.js:81-85 | If `end` has no truthy predecessor the result is `[start]` when end is start and `[]` otherwise; an unreachable end gives `[]`; when no id is empty, a non-empty result is a walk from start to end, and when in addition every predecessor edge accounts for its target's distance (as with non-negative costs), its cost equals dist[end]; when predecessors follow a settling order (non-negative costs) the walk back ends; `Diverges` is returned only when the predecessor chain from `end`, one node longer than the graph has keys, repeats a node, so the source loop would never end. |
| RouteSearch.StepLayout | app.js:69-75 | One main-loop round removes exactly the selected node from `pq`, records it as settled, and keeps every key and start in `distances`; so the loop runs at most as many rounds as there are keys. |
| RouteSearch.StepOrigin | app.js:70-78 | After a round that does not select `end`, every key and start still has a distance; if start is `end` and a key, no such round happened (the first round stops); and if start is not a key, every key stays at Infinity. Start's own distance and predecessor are not promised to stay: a negative-cost self-loop on start changes both. |
| RouteSearch.StepLinks | app.js:76-78 | After a round, every recorded predecessor is the source of a graph edge into its node, with both ends reached and the node reachable from start. |
| RouteSearch.Untouched | app.js:78 | With non-negative costs, relaxing the edges of u leaves every node no farther than u untouched. |
| RouteSearch.SettledKept | app.js:73-78 | With non-negative costs, nodes settled earlier are no farther than the selected node and keep their distances and predecessors. |
| RouteSearch.SettledRanked | app.js:78 | With non-negative costs, every predecessor is settled before the node it precedes, so the predecessor chain has no cycle. |
| RouteSearch.SettledOrder | app.js:73 | With non-negative costs, every settled node is no farther than every node still pending. |
| RouteSearch.SettledTight | app.js:76-79 | With non-negative costs, every edge out of a settled node is tight: its target's distance is at most the source's distance plus the edge cost. |
| RouteSearch.SettledAccounted | app.js:77-78 | With non-negative costs, each predecessor edge accounts exactly for its target's distance, and no distance is negative. |
| RouteSearch.StepSettled | app.js:72-79 | With non-negative costs, one round keeps all the settled-node facts. |
| RouteSearch.Step | app.js:72-79 | One main-loop round that does not select `end` keeps the whole loop invariant. |
| RouteSearch.LowerBound | app.js:72-79 | With non-negative costs and tight settled edges, a pending node that is no farther than any other pending node is at distance at most c plus the cost of any route to it from a node at distance at most c: no route undercuts it. |
| RouteSearch.Reached | app.js:72-79 | With non-negative costs and non-empty ids, a reachable `end` distinct from start gets a predecessor. |
| RouteSearch.Optimal | app.js:72-85 | With non-negative costs, a route from start to end whose cost equals dist[end] is a cheapest route. |
| RouteSearch.Init | app.js:69-71 | Initially every key is at Infinity, start is at 0, all keys are pending and the loop invariant holds. |
| RouteSearch.Ready | app.js:72-80 | When the loop ends, every predecessor link is a graph edge between reached nodes, and its source is start or has a predecessor of its own (with negative costs the links may still form a cycle that never reaches start); with start equal to end nothing was relaxed; with non-negative costs the links follow the settling order and account for distances; when in addition no id is empty, a reachable end distinct from start has a truthy predecessor. |
| RouteSearch.Dijkstra | app.js:68-86 | Start equal to end gives exactly `[start]`; an unreachable end (including a missing start or end) gives `[]`; when no id is empty, a non-empty result is a walk from start to end; with non-negative costs the search terminates with a path, and when in addition no id is empty the path is non-empty whenever end is reachable and is a cheapest route; `Diverges` only when the graph has a cycle. |
| RouteFixtures.AppGraph | app.js:56-61 | The server's fixture graph is a well-formed diamond A, B, C, D with no empty ids. |
| RouteFixtures.CitizenGraph | public/js/citizen.js:18-23 | The browser's fixture graph is a well-formed diamond A, B, C, D with no empty ids. |
| RouteFixtures.DeadEnd | app.js:60 | No route leaves D, which has no edges. |
| RouteFixtures.DiamondRoutes | app.js:56-61 | In a diamond, the only routes from A to D are A-B-D, A-C-D and A-B-C-D, each along its single choice of edges. |
| RouteFixtures.DiamondReach | app.js:56-61 | D is reachable from A. |
| RouteFixtures.FixtureCosts | app.js:56-61 | Under unit coefficients every fixture edge costs at least 0, in both modes. |
| RouteFixtures.CostTwo | app.js:77 | A two-edge route costs the sum of its two edges. |
| RouteFixtures.CostThree | app.js:77 | A three-edge route costs the sum of its three edges. |
| RouteFixtures.AppCheapest | app.js:56-61 | On the server's graph the only cheapest route from A to D is A-B-D, in both modes. |
| RouteFixtures.CitizenCheapest | public/js/citizen.js:18-23 | On the browser's graph the only cheapest route from A to D is A-C-D, in both modes. |
| RouteFixtures.LinkRises | app.js:56-61 | Every link of the diamond leads to a later junction in the order A, B, C, D. |
| RouteFixtures.WalkRises | app.js:56-61 | Every walk of at least one edge in the diamond ends at a later junction than it starts. |
| RouteFixtures.DiamondAcyclic | app.js:56-61 | The fixture diamond has no cycle. |
| RouteFixtures.FixtureSearchEnds | app.js:56-86 | On either fixture graph, for any coefficients (including negative scenic costs) and any start and end, the walk back ends with a path, and a non-empty path is a walk from start to end. |
| RouteFixtures.AppRoute | app.js:56-86 | The search from A to D on the server's graph returns A-B-D with or without scenic preference. |
| RouteFixtures.CitizenRoute | public/js/citizen.js:18-75 | The search from A to D on the browser's graph returns A-C-D with or without scenic preference. |
| Advisory.Fired | app.js:88-92 | Filtering the rules keeps exactly the rules whose condition holds, and no more rules than there are. |
| Advisory.Render | app.js:89-93 | The texts of a list of messages are, position by position, each message's text in the given wording. |
| Advisory.FiredRules | app.js:89-92 | The rules that fire are, in order, mask (aqi > 100 or high exposure), indoors (aqi > 150), exertion (asthma or heart), purifier (aqi > 200). |
| Advisory.RenderSnoc | app.js:89 | Pushing a message appends its text. |
| Advisory.PushStep | app.js:89-92 | One conditional push keeps the pushed texts equal to the texts of the rules fired so far. |
| Advisory.FallbackStep | app.js:93 | An empty alert list becomes the good-air message alone, which is the advice when no rule fires. |
| Advisory.HealthRecommendation | app.js:87-94 | The alerts are the texts, in the caller's wording, of the advice: the rules that fire in rule order, or the good-air message alone. `age` plays no part. |
| Advisory.BeforeLast | app.js:89-92 | In an ordered list, every message before the last has a lower position. |
| Advisory.OrderedSnoc | app.js:89-92 | Appending a message placed after all others keeps a list ordered. |
| Advisory.FiredOrdered | app.js:89-92 | The fired rules keep the rule order. |
| Advisory.AdviceShape | app.js:87-94 | The advice has one to four messages in rule order; the good-air message appears only alone, and exactly when no rule fires. |
| Advisory.AdviceRules | app.js:89-92 | Each rule's message is present exactly when its condition holds. |
| Advisory.PurifierFollowsMask | public/js/citizen.js:80-83 | If the purifier message is present, then the mask and stay-indoors messages are present too, and they come before it. |
| Advisory.OrderedIndex | public/js/citizen.js:80-83 | In an ordered list a message of lower position sits at a lower index. |
| Advisory.AdviceMonotone | app.js:89-92 | A higher aqi never withdraws a rule's message. |
| Advisory.RenderInjective | app.js:87-94 | The list of alert texts determines the advice. |
| Advisory.TextInjective | app.js:89-93 | Distinct messages have distinct texts. |
| Advisory.TextHead | app.js:89-93 | Each text starts with its own symbol character. |
| Advisory.WordingsDiffer | public/js/citizen.js:80-84 | The server and the browser word the mask and stay-indoors messages differently and the other three identically. |
| Advisory.CitizenSampleAdvice | public/js/citizen.js:78-85 | aqi 180, asthma and high exposure fire the mask, indoors and exertion rules. |
| Advisory.CitizenFixtureAlerts | public/js/citizen.js:78-85 | The browser's call with aqi 180, `['asthma']` and `'high'` yields the mask, indoors and exertion texts in the browser's wording. |
| Advisory.ServerSampleAdvice | app.js:89-92 | At aqi 180 the mask and stay-indoors messages come first and the purifier message never appears, whatever the symptoms and exposure. |
| AqiBands.BoundsIncrease | public/js/health.js:5-9 | The band bounds strictly increase. |
| AqiBands.AtMostLaterBounds | public/js/health.js:5-9 | A reading in a band lies at or below the bound of every later band. |
| AqiBands.BandUnique | public/js/health.js:5-10 | No reading lies in two bands. |
| AqiBands.BandFrom | public/js/health.js:5-10 | Scanning the bounds upwards finds a band that contains the reading. |
| AqiBands.Band | public/js/health.js:5-10 | Every reading lies in exactly one of the six bands. |
| AqiBands.BandIs | public/js/health.js:5-10 | The band of a reading is b exactly when the reading lies in b. |
| AqiBands.BandMonotone | public/js/boilerplate.js:2-9 | A higher reading never falls in a lower band. |
| AqiBands.BandBoundaries | public/js/boilerplate.js:3-7 | The bounds are inclusive: 50, 100, 150, 200 and 300 close their bands, and 51, 101, 151, 201 and 301 open the next ones. |
| HexColors.AqiColor | public/js/boilerplate.js:2-9 | The colour is the hex colour of the reading's band. |
| HexColors.HexPaletteDistinct | public/js/boilerplate.js:3-8 | The six hex colours are distinct. |
| HexColors.AqiColorBand | public/js/boilerplate.js:2-9 | Every reading gets one of the six hex colours, and it is band b's colour exactly when the reading lies in band b. |
| NamedColors.AqiColor | public/js/citizen.js:37-44 | The colour is the colour name of the reading's band. |
| NamedColors.NamePaletteDistinct | public/js/citizen.js:38-43 | The six colour names are distinct. |
| NamedColors.AqiColorBand | public/js/citizen.js:37-44 | Every reading gets one of the six colour names, and it is band b's name exactly when the reading lies in band b. |
| HealthWidget.AqiCategory | public/js/health.js:4-11 | The category is the record of the reading's band. |
| HealthWidget.CategoriesDistinct | public/js/health.js:5-10 | The six categories have distinct CSS classes. |
| HealthWidget.AqiCategoryBand | public/js/health.js:4-11 | Every reading gets one of the six categories, and it is band b's category exactly when the reading lies in band b. |
| HealthWidget.CategoryBoundaries | public/js/health.js:5-10 | 50 is Good, 51 Moderate, 300 Very Unhealthy and 301 Hazardous. |
| HealthWidget.ClauseHead | public/js/health.js:17-22 | Each message clause is non-empty and starts with a character of its own. |
| HealthWidget.JoinSnoc | public/js/health.js:17-22 | Appending a clause to the message appends its text. |
| HealthWidget.JoinInjective | public/js/health.js:17-22 | A message determines the clauses it is made of. |
| HealthWidget.SayStep | public/js/health.js:17-22 | One `msg +=` step keeps the message equal to the text of the clauses said so far. |
| HealthWidget.BuildPersonalizedMessage | public/js/health.js:13-25 | The message is the risk clause followed by the asthma, heart and diabetes clauses of the conditions declared. `categoryKey` plays no part. |
| HealthWidget.MessageOpening | public/js/health.js:15-18 | The message opens with the higher-risk clause exactly when age ≤ 12, age ≥ 65 or some condition is declared, and with the typical-risk clause otherwise; it is never empty. |
| HealthWidget.ClausesShape | public/js/health.js:20-22 | The asthma, heart and diabetes clauses appear exactly when declared, after the single risk clause, in that fixed order. |
| HealthWidget.MessageDetermines | public/js/health.js:13-24 | Two readers get the same message exactly when they share the risk group and the recognised conditions. |
| BandAgreement.ClassifiersAgree | public/js/boilerplate.js:3-8 | For every reading, boilerplate.js's hex colour, citizen.js's colour name and health.js's category are the entries of the same band. |
| BandAgreement.ClassifiersMonotone | public/js/citizen.js:37-44 | A higher reading never gets the colour or category of a lower band, in any of the three classifiers. |
| AiRecommendation.FirstMatch | airecomandation.js:23-26 | The scan returns a rule that matches and that no earlier rule precedes with a match, or the default when nothing matches. |
| AiRecommendation.RankInOrder | airecomandation.js:23-26 | Each source sits in the rule table at its rank. |
| AiRecommendation.Classify | airecomandation.js:21-26 | The source's rule matches, and no rule tried before it does. |
| AiRecommendation.ClassifyChain | airecomandation.js:23-26 | The first match is decided in the order aqi > 250, aqi > 180, pollutant SO2 or NO2, aqi > 100, otherwise Normal. |
| AiRecommendation.AlertStep | airecomandation.js:33-36 | One turn of the monument loop appends that monument's alert exactly when it is within 5 km and the reading exceeds 150. |
| AiRecommendation.RuleBasedRecommendation | airecomandation.js:19-39 | The source is the name of the first matching rule's source, and the action is that source's action followed by the alerts of the nearby monuments, in list order. |
| AiRecommendation.GetRecommendation | airecomandation.js:42-50 | It returns the same value as the rule-based recommendation. |
| AiRecommendation.SourceInputs | airecomandation.js:20-26 | Above 180 the pollutant does not affect the result, and the position never affects the source. |
| AiRecommendation.NoAlertsAtOrBelow150 | airecomandation.js:35 | At 150 or below no monument adds an alert. |
| AiRecommendation.QuietAtOrBelow150 | airecomandation.js:33-36 | At 150 or below the action is exactly the source's action, with no suffix. |
| AiRecommendation.ActionShape | airecomandation.js:29-36 | The action begins with the source's action. At most two suffixes follow: the Taj Mahal alert, then the India Gate alert. Each is present exactly when its monument is within 5 km and the reading exceeds 150. |
| AiRecommendation.AlertTexts | airecomandation.js:30-35 | Each monument alert is the separator (a vertical bar between spaces) followed by "ALERT: Protect Taj Mahal" or "ALERT: Protect India Gate". |
| AiRecommendation.PairingInjective | airecomandation.js:21-26 | Distinct sources have distinct names and distinct actions. |

## Left out

- The Express server, its middleware, views, HTTP routes and login stubs. They are input/output plumbing.
- All DOM, Leaflet, flatpickr and Chart.js code. This includes `renderHealthWidget`, the map markers, and `pathLatLng`/`coords`, which only convert the returned path for display.
- `Math.random` in the hourly-AQI endpoint.
- The haversine distance and `deg2rad`. They are floating-point trigonometry, so the distance is an arbitrary function parameter `distanceKm`.
- The `async`/`try` wrapper of `getRecommendation`. Only its returned value is modelled.
- Readings, costs and coefficients are integers (`int`), as in every fixture. JavaScript numbers are doubles, so fractional values, `NaN` and rounding are not modelled.
- Object key order is the graph's `keys` sequence, as written in the object literal. JavaScript puts integer-like keys first in ascending order; the model takes whatever order `keys` has.
- `prev` lookups of names inherited from `Object.prototype` (such as `"constructor"`) are not modelled. The model treats `prev` as a plain map.
- `preferScenic` is a boolean. JavaScript truthiness of other values is not modelled.
- `symptoms` and `conditions` are lists of strings, matched by element. If a caller passed a single string, `includes` would match substrings; that case is not modelled.
- RouteSearch.Reconstruct: the JavaScript `while (prev[u])` loop can run forever when negative scenic costs make the predecessor chain cyclic. After as many steps as there are keys, the model returns `Diverges` instead of looping. It proves that this happens only when the predecessor chain repeats a node, so the graph has a cycle, and never with non-negative costs. It does not prove that such a cycle has negative total cost.
- RouteSearch.Dijkstra: its walk, non-empty-path and cheapest-route claims (and those of RouteSearch.Reconstruct and RouteSearch.WalkBackDone) assume no node is named by the empty string (`NoEmptyIds`). With such a node, `prev[u]` would be falsy and the walk back would stop early.
- RouteSearch.Dijkstra: optimality is proved only for non-negative edge costs. With negative scenic costs the greedy search keeps its exact behaviour, but no optimality is claimed.
