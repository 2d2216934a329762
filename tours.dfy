/** The values the processor works on (cities, legs, routes, distances) and the specification
    of what it computes: the distance table, the enumerated tours, a route's score and the
    first minimum among the scores. */
module Tours {
  import opened Itertools

  type City = string

  /** A leg or route length in fixed-point units of 10^-precision km (tenths of a kilometre
      at precision 1). Python's round() on such values is the identity. */
  type Dist = nat

  /** One directed leg, identified by its ordered pair of cities. */
  datatype Leg = Leg(start: City, end: City)

  /** A tour: the cities in visiting order, the anchor city first and last. */
  type Route = seq<City>

  /** The failures the processor can raise. */
  datatype Error =
    | MissingLeg(leg: Leg)  // KeyError: a leg of the route is not in the distance table
    | NoCities              // IndexError: nodes[0] of an empty city mapping
    | NoRoutes              // TypeError: the best route is still None when it is logged

  datatype Result<T> = Ok(value: T) | Err(error: Error)

  /** What get_distances returns: the total distance and the partial distances of the legs. */
  datatype Scored = Scored(total: nat, partials: seq<Dist>)

  /** What minimize returns: the best route, its total and its partial distances. */
  datatype Best = Best(route: Route, total: nat, partials: seq<Dist>)

  /** The source's key for a leg: the two city names joined by a dash. */
  function LegName(start: City, end: City): string
  {
    start + "-" + end
  }

  /** Two different legs share one name once a city name contains a dash. */
  lemma LegNameCollides()
    ensures Leg("A-B", "C") != Leg("A", "B-C")
    ensures LegName("A-B", "C") == LegName("A", "B-C")
  {
  }

  /** flights holds one entry per ordered pair of distinct cities, with that pair's distance. */
  ghost predicate IsDistanceTable(flights: map<Leg, Dist>, cities: seq<City>, distance: (City, City) -> Dist)
  {
    (forall l :: l in flights <==> l.start in cities && l.end in cities && l.start != l.end) &&
    (forall l :: l in flights ==> flights[l] == distance(l.start, l.end))
  }

  /** The legs of permutations(cities, 2) in enumeration order: the keys the table is filled with. */
  ghost function PairLegs(cities: seq<City>): seq<Leg>
  {
    var pairs := Arrangements(cities, 2);
    ArrangementLengths(cities, 2);
    seq(|pairs|, k requires 0 <= k < |pairs| => Leg(pairs[k][0], pairs[k][1]))
  }

  /** Over distinct cities the pairs are every ordered pair of two different cities: no leg
      from a city to itself. */
  lemma PairLegsMembers(cities: seq<City>)
    requires NoDup(cities)
    ensures forall l :: l in PairLegs(cities) <==> l.start in cities && l.end in cities && l.start != l.end
  {
    forall l ensures l in PairLegs(cities) <==> l.start in cities && l.end in cities && l.start != l.end {
      PairLegMember(cities, l);
    }
  }

  /** One leg of PairLegsMembers. */
  lemma PairLegMember(cities: seq<City>, l: Leg)
    requires NoDup(cities)
    ensures l in PairLegs(cities) <==> l.start in cities && l.end in cities && l.start != l.end
  {
    if l in PairLegs(cities) {
      PairLegSound(cities, l);
    }
    if l.start in cities && l.end in cities && l.start != l.end {
      PairLegComplete(cities, l);
    }
  }

  /** An enumerated leg joins two different cities. */
  lemma PairLegSound(cities: seq<City>, l: Leg)
    requires NoDup(cities) && l in PairLegs(cities)
    ensures l.start in cities && l.end in cities && l.start != l.end
  {
    var pairs := Arrangements(cities, 2);
    var legs := PairLegs(cities);
    PairArrangements(cities);
    ArrangementLengths(cities, 2);
    var k :| 0 <= k < |legs| && legs[k] == l;
    assert pairs[k] in pairs;
  }

  /** Every leg between two different cities is enumerated. */
  lemma PairLegComplete(cities: seq<City>, l: Leg)
    requires NoDup(cities) && l.start in cities && l.end in cities && l.start != l.end
    ensures l in PairLegs(cities)
  {
    var pairs := Arrangements(cities, 2);
    var legs := PairLegs(cities);
    PairArrangements(cities);
    ArrangementLengths(cities, 2);
    var p := [l.start, l.end];
    assert p in pairs;
    var k :| 0 <= k < |pairs| && pairs[k] == p;
    assert legs[k] == l;
  }

  /** Over distinct cities each ordered pair comes once, N * (N - 1) legs in all. */
  lemma PairLegsCount(cities: seq<City>)
    requires NoDup(cities)
    ensures NoDup(PairLegs(cities))
    ensures |PairLegs(cities)| == |cities| * (|cities| - 1)
  {
    var pairs := Arrangements(cities, 2);
    var legs := PairLegs(cities);
    PairArrangements(cities);
    ArrangementLengths(cities, 2);
    forall a, b | 0 <= a < b < |legs| ensures legs[a] != legs[b] {
      assert pairs[a] != pairs[b];
      assert pairs[a] == [legs[a].start, legs[a].end];
      assert pairs[b] == [legs[b].start, legs[b].end];
    }
  }

  /** The dictionary filled by storing distance(l.start, l.end) under each leg l in turn. */
  ghost function TableOf(legs: seq<Leg>, distance: (City, City) -> Dist): map<Leg, Dist>
  {
    if legs == [] then map[]
    else
      var last := legs[|legs| - 1];
      TableOf(legs[..|legs| - 1], distance)[last := distance(last.start, last.end)]
  }

  /** The filled dictionary holds exactly the given legs, each with its distance, and one entry
      per leg when no leg repeats. */
  lemma {:induction false} TableOfSpec(legs: seq<Leg>, distance: (City, City) -> Dist)
    ensures forall l :: l in TableOf(legs, distance) <==> l in legs
    ensures forall l :: l in TableOf(legs, distance) ==> TableOf(legs, distance)[l] == distance(l.start, l.end)
    ensures NoDup(legs) ==> |TableOf(legs, distance)| == |legs|
  {
    if legs != [] {
      var init := legs[..|legs| - 1];
      TableOfSpec(init, distance);
      assert legs == init + [legs[|legs| - 1]];
      if NoDup(legs) {
        assert NoDup(init);
        assert legs[|legs| - 1] !in init;
      }
    }
  }

  /** The table as the source keys it, by leg name: each leg's distance stored under its name
      in turn, a later leg overwriting an earlier one of the same name. */
  ghost function NamedTableOf(legs: seq<Leg>, distance: (City, City) -> Dist): map<string, Dist>
  {
    if legs == [] then map[]
    else
      var last := legs[|legs| - 1];
      NamedTableOf(legs[..|legs| - 1], distance)[LegName(last.start, last.end) := distance(last.start, last.end)]
  }

  /** The legs (A-B, C) and (A, B-C), written in that order: keyed by name, the second
      overwrites the first, so the two legs leave one entry and the leg from A-B to C reads the
      distance from A to B-C. Keyed by pair, both legs keep their own distance. */
  lemma NamedTableCollision(distance: (City, City) -> Dist)
    ensures NamedTableOf([Leg("A-B", "C"), Leg("A", "B-C")], distance) == map["A-B-C" := distance("A", "B-C")]
    ensures TableOf([Leg("A-B", "C"), Leg("A", "B-C")], distance) ==
      map[Leg("A-B", "C") := distance("A-B", "C"), Leg("A", "B-C") := distance("A", "B-C")]
  {
    var legs := [Leg("A-B", "C"), Leg("A", "B-C")];
    LegNameCollides();
    assert legs[..1] == [Leg("A-B", "C")] && legs[..1][..0] == [];
    assert LegName("A-B", "C") == "A-B-C";
  }

  /** The tours anchored at the first city: the anchor, one permutation of the other cities,
      the anchor again, in the order in which the permutations are enumerated. */
  ghost function Routes(nodes: seq<City>): seq<Route>
    requires nodes != []
  {
    var perms := Permutations(nodes[1..]);
    seq(|perms|, k requires 0 <= k < |perms| => [nodes[0]] + perms[k] + [nodes[0]])
  }

  /** route leaves the anchor nodes[0], visits every other city exactly once and returns. */
  ghost predicate IsTour(nodes: seq<City>, route: Route)
    requires nodes != []
  {
    |route| == |nodes| + 1 && route[0] == nodes[0] && route[|nodes|] == nodes[0] &&
    multiset(route[1..|nodes|]) == multiset(nodes[1..])
  }

  /** The legs of a route, one per consecutive pair of cities (range(len(route) - 1)). */
  ghost function Legs(route: Route): seq<Leg>
  {
    if |route| == 0 then []
    else seq(|route| - 1, i requires 0 <= i < |route| - 1 => Leg(route[i], route[i + 1]))
  }

  /** The sum of xs, accumulated from the left. */
  ghost function Sum(xs: seq<nat>): nat
  {
    if xs == [] then 0 else Sum(xs[..|xs| - 1]) + xs[|xs| - 1]
  }

  /** The table entry of each leg, in order. */
  ghost function Partials(flights: map<Leg, Dist>, legs: seq<Leg>): seq<Dist>
    requires forall i :: 0 <= i < |legs| ==> legs[i] in flights
  {
    seq(|legs|, i requires 0 <= i < |legs| => flights[legs[i]])
  }

  /** Walks the legs from the first: each is looked up in the table, its distance appended to
      the partials and added to the total; the walk stops at a leg the table does not hold. */
  ghost function ScoreLegs(flights: map<Leg, Dist>, legs: seq<Leg>): Result<Scored>
  {
    if legs == [] then Ok(Scored(0, []))
    else
      var leg := legs[|legs| - 1];
      match ScoreLegs(flights, legs[..|legs| - 1])
      case Err(e) => Err(e)
      case Ok(s) =>
        if leg in flights then Ok(Scored(s.total + flights[leg], s.partials + [flights[leg]]))
        else Err(MissingLeg(leg))
  }

  /** What get_distances computes for a route. */
  ghost function Score(flights: map<Leg, Dist>, route: Route): Result<Scored>
  {
    ScoreLegs(flights, Legs(route))
  }

  /** Once the walk has failed on a prefix, the rest of the legs do not change its outcome. */
  lemma {:induction false} ScoreLegsErrPersists(flights: map<Leg, Dist>, legs: seq<Leg>, n: nat)
    requires n <= |legs| && ScoreLegs(flights, legs[..n]).Err?
    ensures ScoreLegs(flights, legs) == ScoreLegs(flights, legs[..n])
    decreases |legs| - n
  {
    if n < |legs| {
      assert legs[..n + 1][..n] == legs[..n];
      ScoreLegsErrPersists(flights, legs, n + 1);
    } else {
      assert legs[..n] == legs;
    }
  }

  /** A route scores exactly when the table holds all of its legs; then the partials are the
      table entries of the legs in order and the total is their sum. */
  lemma {:induction false} ScoreLegsOk(flights: map<Leg, Dist>, legs: seq<Leg>)
    ensures ScoreLegs(flights, legs).Ok? <==> forall i :: 0 <= i < |legs| ==> legs[i] in flights
    ensures ScoreLegs(flights, legs).Ok? ==>
      ScoreLegs(flights, legs).value.partials == Partials(flights, legs) &&
      ScoreLegs(flights, legs).value.total == Sum(Partials(flights, legs))
  {
    if legs != [] {
      var init := legs[..|legs| - 1];
      var last := legs[|legs| - 1];
      ScoreLegsOk(flights, init);
      assert forall i :: 0 <= i < |init| ==> init[i] == legs[i];
      if ScoreLegs(flights, init).Ok? && last in flights {
        assert Partials(flights, legs)[..|init|] == Partials(flights, init);
        assert Partials(flights, legs) == Partials(flights, init) + [flights[last]];
      } else if ScoreLegs(flights, init).Ok? {
        assert legs[|init|] == last;
      } else {
        var i :| 0 <= i < |init| && init[i] !in flights;
        assert legs[i] == init[i];
      }
    }
  }

  /** Otherwise the lookup fails on the first leg the table does not hold. */
  lemma {:induction false} ScoreLegsErr(flights: map<Leg, Dist>, legs: seq<Leg>)
    ensures ScoreLegs(flights, legs).Err? ==>
      exists k :: (0 <= k < |legs| && legs[k] !in flights &&
        (forall j :: 0 <= j < k ==> legs[j] in flights) &&
        ScoreLegs(flights, legs).error == MissingLeg(legs[k]))
  {
    if legs != [] {
      var init := legs[..|legs| - 1];
      var last := legs[|legs| - 1];
      if ScoreLegs(flights, init).Err? {
        ScoreLegsErr(flights, init);
        var k :| 0 <= k < |init| && init[k] !in flights && (forall j :: 0 <= j < k ==> init[j] in flights) &&
          ScoreLegs(flights, init).error == MissingLeg(init[k]);
        assert legs[k] == init[k];
        assert forall j :: 0 <= j < k ==> legs[j] == init[j];
      } else if last !in flights {
        ScoreLegsOk(flights, init);
        assert forall i :: 0 <= i < |init| ==> init[i] == legs[i];
        assert legs[|init|] == last;
      }
    }
  }

  /** get_distances on a route scores it exactly when the table holds every leg
      (route[i], route[i + 1]); then partials[i] is the table entry of that leg and the total is
      the sum of the partials. */
  lemma ScoreSpec(flights: map<Leg, Dist>, route: Route)
    ensures Score(flights, route).Ok? <==> forall i :: 0 <= i < |route| - 1 ==> Leg(route[i], route[i + 1]) in flights
    ensures Score(flights, route).Ok? ==>
      |Score(flights, route).value.partials| == (if route == [] then 0 else |route| - 1) &&
      (forall i :: 0 <= i < |route| - 1 ==> Score(flights, route).value.partials[i] == flights[Leg(route[i], route[i + 1])]) &&
      Score(flights, route).value.total == Sum(Score(flights, route).value.partials)
  {
    var legs := Legs(route);
    ScoreLegsOk(flights, legs);
    assert forall i :: 0 <= i < |route| - 1 ==> legs[i] == Leg(route[i], route[i + 1]);
  }

  /** A leg missing from the table is a lookup failure on the first such leg. */
  lemma ScoreFailure(flights: map<Leg, Dist>, route: Route)
    ensures Score(flights, route).Err? ==>
      exists k :: (0 <= k < |route| - 1 && Leg(route[k], route[k + 1]) !in flights &&
        (forall j :: 0 <= j < k ==> Leg(route[j], route[j + 1]) in flights) &&
        Score(flights, route).error == MissingLeg(Leg(route[k], route[k + 1])))
  {
    var legs := Legs(route);
    ScoreLegsErr(flights, legs);
    assert forall i :: 0 <= i < |route| - 1 ==> legs[i] == Leg(route[i], route[i + 1]);
  }

  ghost predicate AllScored(flights: map<Leg, Dist>, routes: seq<Route>)
  {
    forall i :: 0 <= i < |routes| ==> Score(flights, routes[i]).Ok?
  }

  ghost function TotalOf(flights: map<Leg, Dist>, route: Route): nat
    requires Score(flights, route).Ok?
  {
    Score(flights, route).value.total
  }

  /** The first route whose scoring fails, whose error minimize propagates. */
  ghost function FirstUnscored(flights: map<Leg, Dist>, routes: seq<Route>): (k: nat)
    requires !AllScored(flights, routes)
    ensures k < |routes| && Score(flights, routes[k]).Err?
    ensures forall j :: 0 <= j < k ==> Score(flights, routes[j]).Ok?
  {
    FirstUnscoredFrom(flights, routes, 0)
  }

  ghost function FirstUnscoredFrom(flights: map<Leg, Dist>, routes: seq<Route>, i: nat): (k: nat)
    requires i < |routes|
    requires exists j :: i <= j < |routes| && Score(flights, routes[j]).Err?
    ensures i <= k < |routes| && Score(flights, routes[k]).Err?
    ensures forall j :: i <= j < k ==> Score(flights, routes[j]).Ok?
    decreases |routes| - i
  {
    if Score(flights, routes[i]).Err? then i else FirstUnscoredFrom(flights, routes, i + 1)
  }

  /** The totals of a list of scored routes, in order. */
  ghost function Totals(flights: map<Leg, Dist>, routes: seq<Route>): seq<nat>
    requires AllScored(flights, routes)
  {
    seq(|routes|, j requires 0 <= j < |routes| => TotalOf(flights, routes[j]))
  }

  /** ts[k] is the smallest of ts, and no earlier entry reaches it. */
  ghost predicate IsFirstMin(ts: seq<nat>, k: int)
  {
    0 <= k < |ts| &&
    (forall j :: 0 <= j < |ts| ==> ts[k] <= ts[j]) &&
    (forall j :: 0 <= j < k ==> ts[k] < ts[j])
  }

  /** routes[k] has the smallest total, and no earlier route reaches that total. */
  ghost predicate FirstMinimum(flights: map<Leg, Dist>, routes: seq<Route>, k: int)
  {
    AllScored(flights, routes) && IsFirstMin(Totals(flights, routes), k)
  }

  /** A route together with its own total and partial distances. */
  ghost function BestOf(flights: map<Leg, Dist>, route: Route): Best
    requires Score(flights, route).Ok?
  {
    Best(route, Score(flights, route).value.total, Score(flights, route).value.partials)
  }

  /** Ties are broken by enumeration order, so at most one position is the first minimum. */
  lemma FirstMinimumUnique(flights: map<Leg, Dist>, routes: seq<Route>, k1: int, k2: int)
    requires FirstMinimum(flights, routes, k1) && FirstMinimum(flights, routes, k2)
    ensures k1 == k2
  {
    var ts := Totals(flights, routes);
    assert ts[k1] <= ts[k2] && ts[k2] <= ts[k1];
  }

  /** A failing route at position k with every earlier route scored is the first failing one. */
  lemma FirstUnscoredAt(flights: map<Leg, Dist>, routes: seq<Route>, k: nat)
    requires k < |routes| && Score(flights, routes[k]).Err?
    requires forall j :: 0 <= j < k ==> Score(flights, routes[j]).Ok?
    ensures !AllScored(flights, routes) && FirstUnscored(flights, routes) == k
  {
  }

  /** The search over the route list as minimize runs it, route by route: the first scored route
      is the best so far, a later one replaces it only with a strictly smaller total, and the
      first route that fails to score fails the search. An empty list has no best route. */
  ghost function Search(flights: map<Leg, Dist>, routes: seq<Route>): Result<Best>
  {
    if |routes| == 0 then Err(NoRoutes)
    else
      var route := routes[|routes| - 1];
      var prior := if |routes| == 1 then Err(NoRoutes) else Search(flights, routes[..|routes| - 1]);
      if |routes| > 1 && prior.Err? then prior
      else match Score(flights, route)
        case Err(e) => Err(e)
        case Ok(s) =>
          if prior.Ok? && prior.value.total <= s.total then prior
          else Ok(Best(route, s.total, s.partials))
  }

  /** Once the search has failed on a non-empty prefix, the remaining routes do not change it. */
  lemma {:induction false} SearchErrPersists(flights: map<Leg, Dist>, routes: seq<Route>, n: nat)
    requires 1 <= n <= |routes| && Search(flights, routes[..n]).Err?
    ensures Search(flights, routes) == Search(flights, routes[..n])
    decreases |routes| - n
  {
    if n < |routes| {
      assert routes[..n + 1][..n] == routes[..n];
      SearchErrPersists(flights, routes, n + 1);
    } else {
      assert routes[..n] == routes;
    }
  }

  /** A list is scored when the list without its last route is, and its last route too. */
  lemma AllScoredSplit(flights: map<Leg, Dist>, routes: seq<Route>)
    requires routes != []
    ensures AllScored(flights, routes) <==>
      AllScored(flights, routes[..|routes| - 1]) && Score(flights, routes[|routes| - 1]).Ok?
  {
  }

  /** The totals of a scored list are those of the list without its last route, then the
      last route's total. */
  lemma TotalsSplit(flights: map<Leg, Dist>, routes: seq<Route>)
    requires routes != [] && AllScored(flights, routes)
    ensures AllScored(flights, routes[..|routes| - 1])
    ensures Totals(flights, routes) ==
      Totals(flights, routes[..|routes| - 1]) + [TotalOf(flights, routes[|routes| - 1])]
  {
  }

  /** Appending an entry no smaller than the first minimum keeps the first minimum where it was. */
  lemma FirstMinKept(ts: seq<nat>, t: nat, k: int)
    requires IsFirstMin(ts, k) && ts[k] <= t
    ensures IsFirstMin(ts + [t], k)
  {
  }

  /** Appending an entry strictly smaller than the first minimum makes it the first minimum. */
  lemma FirstMinReplaced(ts: seq<nat>, t: nat, k: int)
    requires IsFirstMin(ts, k) && t < ts[k]
    ensures IsFirstMin(ts + [t], |ts|)
  {
  }

  /** The search succeeds exactly when the list is non-empty and every route scores. */
  lemma {:induction false} SearchOk(flights: map<Leg, Dist>, routes: seq<Route>)
    ensures Search(flights, routes).Ok? <==> routes != [] && AllScored(flights, routes)
  {
    if |routes| == 1 {
      AllScoredSplit(flights, routes);
    } else if |routes| > 1 {
      SearchOk(flights, routes[..|routes| - 1]);
      AllScoredSplit(flights, routes);
    }
  }

  /** A successful search returns the first route of smallest total, with that route's own
      total and partial distances. */
  lemma {:induction false} SearchFindsFirstMinimum(flights: map<Leg, Dist>, routes: seq<Route>)
    requires Search(flights, routes).Ok?
    ensures exists k :: FirstMinimum(flights, routes, k) && Search(flights, routes).value == BestOf(flights, routes[k])
  {
    SearchOk(flights, routes);
    var init := routes[..|routes| - 1];
    var last := routes[|routes| - 1];
    TotalsSplit(flights, routes);
    if |routes| == 1 {
      assert IsFirstMin(Totals(flights, routes), 0);
    } else {
      SearchOk(flights, init);
      SearchFindsFirstMinimum(flights, init);
      var k :| FirstMinimum(flights, init, k) && Search(flights, init).value == BestOf(flights, init[k]);
      assert init[k] == routes[k];
      var ts := Totals(flights, init);
      if ts[k] <= TotalOf(flights, last) {
        FirstMinKept(ts, TotalOf(flights, last), k);
      } else {
        FirstMinReplaced(ts, TotalOf(flights, last), k);
      }
    }
  }

  /** The search fails with the failure of the first route that does not score, or with no
      route at all when every route scores, which happens only for an empty list. */
  lemma {:induction false} SearchErr(flights: map<Leg, Dist>, routes: seq<Route>)
    ensures Search(flights, routes).Err? ==>
      Search(flights, routes).error == if AllScored(flights, routes) then NoRoutes
                                       else Score(flights, routes[FirstUnscored(flights, routes)]).error
  {
    SearchOk(flights, routes);
    if |routes| == 1 {
      if Search(flights, routes).Err? {
        FirstUnscoredAt(flights, routes, 0);
      }
    } else if |routes| > 1 {
      var init := routes[..|routes| - 1];
      var last := routes[|routes| - 1];
      SearchErr(flights, init);
      SearchOk(flights, init);
      assert forall j :: 0 <= j < |init| ==> init[j] == routes[j];
      if Search(flights, init).Err? {
        var k := FirstUnscored(flights, init);
        FirstUnscoredAt(flights, routes, k);
      } else if Score(flights, last).Err? {
        FirstUnscoredAt(flights, routes, |routes| - 1);
      }
    }
  }

  /** What minimize returns: the first route of smallest total when the list is non-empty and
      every route scores, otherwise the failure of the first route that does not score, or no
      route at all. */
  lemma SearchSpec(flights: map<Leg, Dist>, routes: seq<Route>)
    ensures Search(flights, routes).Ok? <==> routes != [] && AllScored(flights, routes)
    ensures Search(flights, routes).Ok? ==>
      exists k :: FirstMinimum(flights, routes, k) && Search(flights, routes).value == BestOf(flights, routes[k])
    ensures Search(flights, routes).Err? ==>
      Search(flights, routes).error == if AllScored(flights, routes) then NoRoutes
                                       else Score(flights, routes[FirstUnscored(flights, routes)]).error
  {
    SearchOk(flights, routes);
    SearchErr(flights, routes);
    if Search(flights, routes).Ok? {
      SearchFindsFirstMinimum(flights, routes);
    }
  }

  /** The enumerated routes are exactly the tours anchored at the first city. */
  lemma RoutesSpec(nodes: seq<City>)
    requires nodes != []
    ensures forall route :: route in Routes(nodes) <==> IsTour(nodes, route)
  {
    var perms := Permutations(nodes[1..]);
    PermutationsSpec(nodes[1..]);
    forall route ensures route in Routes(nodes) <==> IsTour(nodes, route) {
      if route in Routes(nodes) {
        var k :| 0 <= k < |perms| && Routes(nodes)[k] == route;
        assert route == [nodes[0]] + perms[k] + [nodes[0]];
        assert perms[k] in perms;
        assert |perms[k]| == |multiset(perms[k])| == |multiset(nodes[1..])| == |nodes| - 1;
        assert route[1..|nodes|] == perms[k];
      }
      if IsTour(nodes, route) {
        var interior := route[1..|nodes|];
        assert interior in perms;
        var k :| 0 <= k < |perms| && perms[k] == interior;
        assert route == [nodes[0]] + interior + [nodes[0]];
        assert Routes(nodes)[k] == route;
      }
    }
  }

  /** N cities give (N - 1)! routes. */
  lemma RoutesCount(nodes: seq<City>)
    requires nodes != []
    ensures |Routes(nodes)| == Factorial(|nodes| - 1)
  {
    PermutationsCount(nodes[1..]);
  }

  /** Over distinct cities no route is enumerated twice. */
  lemma RoutesNoDup(nodes: seq<City>)
    requires nodes != [] && NoDup(nodes)
    ensures NoDup(Routes(nodes))
  {
    var perms := Permutations(nodes[1..]);
    var routes := Routes(nodes);
    assert NoDup(nodes[1..]) by {
      forall a, b | 0 <= a < b < |nodes[1..]| ensures nodes[1..][a] != nodes[1..][b] {
        assert nodes[1..][a] == nodes[a + 1] && nodes[1..][b] == nodes[b + 1];
      }
    }
    PermutationsNoDup(nodes[1..]);
    forall a, b | 0 <= a < b < |routes| ensures routes[a] != routes[b] {
      if |perms[a]| == |perms[b]| {
        assert routes[a][1..|perms[a]| + 1] == perms[a];
        assert routes[b][1..|perms[b]| + 1] == perms[b];
      } else {
        assert |routes[a]| != |routes[b]|;
      }
    }
  }

  /** Every leg of a tour over two or more distinct cities joins two different cities, so a
      complete distance table holds it and the tour has a score. */
  lemma TourIsScored(nodes: seq<City>, distance: (City, City) -> Dist, flights: map<Leg, Dist>, route: Route)
    requires NoDup(nodes) && |nodes| >= 2 && IsDistanceTable(flights, nodes, distance)
    requires IsTour(nodes, route)
    ensures Score(flights, route).Ok?
  {
    TourSteps(nodes, route);
    var legs := Legs(route);
    assert forall i :: 0 <= i < |legs| ==> legs[i] in legs;
    ScoreLegsOk(flights, legs);
  }

  /** Each step of a tour over distinct cities goes from one city to a different one. */
  lemma TourSteps(nodes: seq<City>, route: Route)
    requires NoDup(nodes) && |nodes| >= 2
    requires IsTour(nodes, route)
    ensures forall l :: l in Legs(route) ==> l.start in nodes && l.end in nodes && l.start != l.end
  {
    var n := |nodes|;
    var interior := route[1..n];
    var others := nodes[1..];
    assert NoDup(others) by {
      forall a, b | 0 <= a < b < |others| ensures others[a] != others[b] {
        assert others[a] == nodes[a + 1] && others[b] == nodes[b + 1];
      }
    }
    RearrangementNoDup(interior, others);
    assert nodes[0] !in others;
    assert |interior| == n - 1 >= 1;
    forall x | x in interior ensures x in nodes && x != nodes[0] {
      assert x in multiset(interior);
      assert x in others;
    }
    var legs := Legs(route);
    forall l | l in legs ensures l.start in nodes && l.end in nodes && l.start != l.end {
      var i :| 0 <= i < |legs| && legs[i] == l;
      assert l == Leg(route[i], route[i + 1]);
      if i == 0 {
        assert route[1] == interior[0];
        assert interior[0] in interior;
      } else if i == n - 1 {
        assert route[i] == interior[i - 1];
        assert interior[i - 1] in interior;
      } else {
        assert route[i] == interior[i - 1] && route[i + 1] == interior[i];
        assert interior[i - 1] in interior && interior[i] in interior;
      }
    }
  }

  /** Every enumerated route over two or more distinct cities has a score. */
  lemma RoutesAreScored(nodes: seq<City>, distance: (City, City) -> Dist, flights: map<Leg, Dist>)
    requires NoDup(nodes) && |nodes| >= 2 && IsDistanceTable(flights, nodes, distance)
    ensures AllScored(flights, Routes(nodes))
  {
    RoutesSpec(nodes);
    var routes := Routes(nodes);
    forall k | 0 <= k < |routes| ensures Score(flights, routes[k]).Ok? {
      assert routes[k] in routes;
      TourIsScored(nodes, distance, flights, routes[k]);
    }
  }

  /** The first minimum is no longer than any route of the list. */
  lemma FirstMinimumBeats(flights: map<Leg, Dist>, routes: seq<Route>, k: int, route: Route)
    requires FirstMinimum(flights, routes, k) && route in routes
    ensures Score(flights, route).Ok? && TotalOf(flights, routes[k]) <= TotalOf(flights, route)
  {
    var j :| 0 <= j < |routes| && routes[j] == route;
    assert Totals(flights, routes)[j] == TotalOf(flights, route);
  }

  /** The first minimum among the enumerated routes is no longer than any tour of the cities:
      the search is exact, not a heuristic. */
  lemma FirstMinimumIsOptimal(nodes: seq<City>, distance: (City, City) -> Dist, flights: map<Leg, Dist>, k: int)
    requires NoDup(nodes) && |nodes| >= 2 && IsDistanceTable(flights, nodes, distance)
    requires FirstMinimum(flights, Routes(nodes), k)
    ensures forall route :: IsTour(nodes, route) ==>
      Score(flights, route).Ok? && TotalOf(flights, Routes(nodes)[k]) <= TotalOf(flights, route)
  {
    RoutesSpec(nodes);
    var routes := Routes(nodes);
    forall route | IsTour(nodes, route)
      ensures Score(flights, route).Ok? && TotalOf(flights, routes[k]) <= TotalOf(flights, route)
    {
      assert route in routes;
      FirstMinimumBeats(flights, routes, k, route);
    }
  }

  /** Over two or more distinct cities with a complete table the search cannot fail: there is a
      route, and the answer is a closed tour, with its own total and partials, no longer than
      any other closed tour of the cities. */
  lemma SearchFindsShortestTour(nodes: seq<City>, distance: (City, City) -> Dist, flights: map<Leg, Dist>)
    requires NoDup(nodes) && |nodes| >= 2 && IsDistanceTable(flights, nodes, distance)
    ensures Routes(nodes) != []
    ensures Search(flights, Routes(nodes)).Ok?
    ensures IsTour(nodes, Search(flights, Routes(nodes)).value.route)
    ensures Score(flights, Search(flights, Routes(nodes)).value.route).Ok?
    ensures Search(flights, Routes(nodes)).value == BestOf(flights, Search(flights, Routes(nodes)).value.route)
    ensures forall route :: IsTour(nodes, route) ==>
      Score(flights, route).Ok? && Search(flights, Routes(nodes)).value.total <= TotalOf(flights, route)
  {
    var routes := Routes(nodes);
    RoutesSpec(nodes);
    var anchored := nodes + [nodes[0]];
    assert anchored[1..|nodes|] == nodes[1..];
    assert IsTour(nodes, anchored);
    assert anchored in routes;
    RoutesAreScored(nodes, distance, flights);
    SearchSpec(flights, routes);
    var k :| FirstMinimum(flights, routes, k) && Search(flights, routes).value == BestOf(flights, routes[k]);
    assert routes[k] in routes;
    FirstMinimumIsOptimal(nodes, distance, flights, k);
  }

  /** A single city gives the one route (A, A), whose leg A-A the table never holds. */
  lemma SingleCityRouteFails(a: City, distance: (City, City) -> Dist, flights: map<Leg, Dist>)
    requires IsDistanceTable(flights, [a], distance)
    ensures Routes([a]) == [[a, a]]
    ensures Score(flights, [a, a]) == Err(MissingLeg(Leg(a, a)))
  {
    assert [a][1..] == [];
    assert Permutations<City>([]) == [[]];
    assert Routes([a])[0] == [a, a];
    var legs := Legs([a, a]);
    assert legs == [Leg(a, a)];
    assert legs[..0] == [];
    assert Leg(a, a) !in flights;
    assert ScoreLegs(flights, legs[..0]) == Ok(Scored(0, []));
    assert ScoreLegs(flights, legs) == Err(MissingLeg(Leg(a, a)));
  }
}
