/** The processor: built from the city mapping, it fills the distance table and the route
    list once, then scores routes and picks the shortest closed tour by exhaustive search. */
module Processing {
  import opened Itertools
  import opened Tours

  class Processor {
    /** The city names in the mapping's iteration order. */
    const cities: seq<City>
    /** The length of the leg from one city to another, already rounded to the configured
        precision; it stands for the great-circle computation of a flight. */
    const distance: (City, City) -> Dist
    /** The distance table, keyed by leg. */
    var flights: map<Leg, Dist>
    /** Every tour anchored at the first city, in enumeration order. */
    var routeList: seq<Route>

    /** The state the constructor leaves behind. */
    ghost predicate Valid()
      reads this
    {
      NoDup(cities) && cities != [] &&
      IsDistanceTable(flights, cities, distance) &&
      routeList == Routes(cities)
    }

    /** Construction from a non-empty city mapping: the table, then the route list. */
    constructor (cities: seq<City>, distance: (City, City) -> Dist)
      requires NoDup(cities) && cities != []
      ensures this.cities == cities && this.distance == distance
      ensures Valid()
      ensures |flights| == |cities| * (|cities| - 1)
      ensures |routeList| == Factorial(|cities| - 1)
    {
      this.cities := cities;
      this.distance := distance;
      new;
      flights := CollectDistances();
      var routes := CreateRoutes();
      routeList := routes.value;
      RoutesCount(cities);
    }

    /** Construction including its failure: an empty mapping has no first city. */
    static method Create(cities: seq<City>, distance: (City, City) -> Dist) returns (r: Result<Processor>)
      requires NoDup(cities)
      ensures r.Err? <==> cities == []
      ensures r.Err? ==> r.error == NoCities
      ensures r.Ok? ==> fresh(r.value) && r.value.Valid()
      ensures r.Ok? ==> r.value.cities == cities && r.value.distance == distance
    {
      if cities == [] {
        return Err(NoCities);
      }
      var p := new Processor(cities, distance);
      return Ok(p);
    }

    /** The distance of every ordered pair of distinct cities, keyed by the pair. */
    method CollectDistances() returns (table: map<Leg, Dist>)
      requires NoDup(cities)
      ensures IsDistanceTable(table, cities, distance)
      ensures |table| == |cities| * (|cities| - 1)
    {
      table := map[];
      var pairs := Arrangements(cities, 2);
      ArrangementLengths(cities, 2);
      ghost var legs := PairLegs(cities);
      for n := 0 to |pairs|
        invariant table == TableOf(legs[..n], distance)
      {
        var start, end := pairs[n][0], pairs[n][1];
        assert Leg(start, end) == legs[n];
        assert legs[..n + 1][..n] == legs[..n];
        table := table[Leg(start, end) := distance(start, end)];
      }
      assert legs[..|pairs|] == legs;
      TableOfSpec(legs, distance);
      PairLegsCount(cities);
      PairLegsMembers(cities);
    }

    /** The route list: the first city, one permutation of the others, the first city again.
        An empty mapping has no first city. */
    method CreateRoutes() returns (r: Result<seq<Route>>)
      ensures r.Err? <==> cities == []
      ensures r.Err? ==> r.error == NoCities
      ensures r.Ok? ==> r.value == Routes(cities)
    {
      if |cities| == 0 {
        return Err(NoCities);
      }
      var start := cities[0];
      var routes := Permutations(cities[1..]);
      var list: seq<Route> := [];
      for n := 0 to |routes|
        invariant |list| == n
        invariant forall j :: 0 <= j < n ==> list[j] == [start] + routes[j] + [start]
      {
        list := list + [[start] + routes[n] + [start]];
      }
      return Ok(list);
    }

    /** The partial distance of each leg of route, looked up in the table, and their total;
        a leg missing from the table fails the lookup. */
    method GetDistances(route: Route) returns (r: Result<Scored>)
      ensures r == Score(flights, route)
    {
      ghost var legs := Legs(route);
      var count := if |route| == 0 then 0 else |route| - 1;
      var total: nat := 0;
      var partials: seq<Dist> := [];
      for i := 0 to count
        invariant |legs| == count
        invariant ScoreLegs(flights, legs[..i]) == Ok(Scored(total, partials))
      {
        var leg := Leg(route[i], route[i + 1]);
        assert leg == legs[i];
        assert legs[..i + 1][..i] == legs[..i];
        if leg !in flights {
          ScoreLegsErrPersists(flights, legs, i + 1);
          return Err(MissingLeg(leg));
        }
        var partial := flights[leg];
        partials := partials + [partial];
        total := total + partial;
      }
      assert legs[..count] == legs;
      return Ok(Scored(total, partials));
    }

    /** The route with the smallest total, with that total and its partial distances; the first
        route reaching the minimum wins. A failing route fails the search, and an empty route
        list has no answer. */
    method Minimize() returns (r: Result<Best>)
      ensures r == Search(flights, routeList)
      ensures r.Ok? <==> routeList != [] && AllScored(flights, routeList)
      ensures r.Ok? ==> exists k :: FirstMinimum(flights, routeList, k) && r.value == BestOf(flights, routeList[k])
      ensures r.Err? ==> r.error == if AllScored(flights, routeList) then NoRoutes
                                   else Score(flights, routeList[FirstUnscored(flights, routeList)]).error
    {
      var found := false;
      var lowest: nat := 0;
      var best := Best([], 0, []);
      for i := 0 to |routeList|
        invariant found <==> i > 0
        invariant found ==> Search(flights, routeList[..i]) == Ok(best) && lowest == best.total
      {
        var scored := GetDistances(routeList[i]);
        assert routeList[..i + 1][..i] == routeList[..i];
        if scored.Err? {
          SearchErrPersists(flights, routeList, i + 1);
          SearchSpec(flights, routeList);
          return Err(scored.error);
        }
        if !found || scored.value.total < lowest {
          found, lowest := true, scored.value.total;
          best := Best(routeList[i], scored.value.total, scored.value.partials);
        }
      }
      assert routeList[..|routeList|] == routeList;
      SearchSpec(flights, routeList);
      if !found {
        return Err(NoRoutes);
      }
      return Ok(best);
    }

    /** Construction followed by minimize, over two or more distinct cities: the search
        succeeds, and the route it returns is a closed tour of the cities, with its own total
        and partials, no longer than any other closed tour. */
    static method Solve(cities: seq<City>, distance: (City, City) -> Dist) returns (p: Processor, r: Result<Best>)
      requires NoDup(cities) && |cities| >= 2
      ensures p.Valid() && p.cities == cities && p.distance == distance
      ensures r.Ok? && IsTour(cities, r.value.route)
      ensures Score(p.flights, r.value.route).Ok? && r.value == BestOf(p.flights, r.value.route)
      ensures forall route :: IsTour(cities, route) ==>
        Score(p.flights, route).Ok? && r.value.total <= TotalOf(p.flights, route)
    {
      p := new Processor(cities, distance);
      r := p.Minimize();
      SearchFindsShortestTour(cities, distance, p.flights);
    }

    /** minimize assigns nothing, so calling it again gives the same answer. */
    method MinimizeTwice() returns (first: Result<Best>, second: Result<Best>)
      ensures first == second
    {
      first := Minimize();
      second := Minimize();
    }
  }
}
