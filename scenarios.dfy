/** The worked examples of the processor's behaviour over three cities A, B and C whose
    pairwise distances, at one decimal place, are 314.8 (A-B), 629.4 (A-C) and 314.6 (B-C). */
module Scenarios {
  import opened Itertools
  import opened Tours
  import opened Processing

  /** The fixture's distances in tenths of a kilometre; the same both ways. */
  function FixtureDistance(a: City, b: City): Dist
  {
    if (a, b) == ("A", "B") || (a, b) == ("B", "A") then 3148
    else if (a, b) == ("A", "C") || (a, b) == ("C", "A") then 6294
    else if (a, b) == ("B", "C") || (a, b) == ("C", "B") then 3146
    else 0
  }

  /** Prefixing a single sequence. */
  lemma PrefixedSingle(x: City, p: seq<City>)
    ensures Prefixed(x, [p]) == [[x] + p]
  {
  }

  /** A one-city sequence has the one arrangement of length one. */
  lemma SingleArrangement(x: City)
    ensures Arrangements([x], 1) == [[x]]
  {
    var s: seq<City> := [x];
    assert RemoveAt(s, 0) == [];
    assert Arrangements(RemoveAt(s, 0), 0) == [[]];
    PrefixedSingle(x, []);
    assert [x] + [] == [x];
    assert ArrangementsFrom(s, 1, 1) == [];
    assert ArrangementsFrom(s, 1, 0) == Prefixed(x, [[]]) + ArrangementsFrom(s, 1, 1);
    assert ArrangementsFrom(s, 1, 0) == [[x]];
    assert Arrangements(s, 1) == [[x]];
  }

  /** The two orderings of two cities. */
  lemma TwoCityPermutations(b: City, c: City)
    ensures Permutations([b, c]) == [[b, c], [c, b]]
  {
    var s: seq<City> := [b, c];
    assert RemoveAt(s, 0) == [c];
    assert RemoveAt(s, 1) == [b];
    SingleArrangement(b);
    SingleArrangement(c);
    PrefixedSingle(b, [c]);
    PrefixedSingle(c, [b]);
    assert [b] + [c] == [b, c] && [c] + [b] == [c, b];
    assert ArrangementsFrom(s, 2, 2) == [];
    assert ArrangementsFrom(s, 2, 1) == [[c, b]];
    assert ArrangementsFrom(s, 2, 0) == [[b, c], [c, b]];
  }

  /** Prefixing two sequences. */
  lemma PrefixedPair(x: City, p: seq<City>, q: seq<City>)
    ensures Prefixed(x, [p, q]) == [[x] + p, [x] + q]
  {
    assert |Prefixed(x, [p, q])| == 2;
    assert Prefixed(x, [p, q])[0] == [x] + p;
    assert Prefixed(x, [p, q])[1] == [x] + q;
  }

  /** The six orderings of three cities, in the order Python yields them: by the position of
      the first element chosen, then of the second. */
  lemma ThreeCityPermutations(a: City, b: City, c: City)
    ensures Permutations([a, b, c]) == [[a, b, c], [a, c, b], [b, a, c], [b, c, a], [c, a, b], [c, b, a]]
  {
    var s: seq<City> := [a, b, c];
    assert RemoveAt(s, 0) == [b, c] && RemoveAt(s, 1) == [a, c] && RemoveAt(s, 2) == [a, b];
    TwoCityPermutations(b, c);
    TwoCityPermutations(a, c);
    TwoCityPermutations(a, b);
    PrefixedPair(a, [b, c], [c, b]);
    PrefixedPair(b, [a, c], [c, a]);
    PrefixedPair(c, [a, b], [b, a]);
    assert [a] + [b, c] == [a, b, c] && [a] + [c, b] == [a, c, b];
    assert [b] + [a, c] == [b, a, c] && [b] + [c, a] == [b, c, a];
    assert [c] + [a, b] == [c, a, b] && [c] + [b, a] == [c, b, a];
    assert ArrangementsFrom(s, 3, 3) == [];
    assert ArrangementsFrom(s, 3, 2) == [[c, a, b], [c, b, a]];
    assert ArrangementsFrom(s, 3, 1) == [[b, a, c], [b, c, a], [c, a, b], [c, b, a]];
    assert ArrangementsFrom(s, 3, 0) == [[a, b, c], [a, c, b], [b, a, c], [b, c, a], [c, a, b], [c, b, a]];
  }

  /** The routes over A, B and C: (A, B, C, A) then (A, C, B, A). */
  lemma ThreeCityRoutes()
    ensures Routes(["A", "B", "C"]) == [["A", "B", "C", "A"], ["A", "C", "B", "A"]]
  {
    var nodes: seq<City> := ["A", "B", "C"];
    assert nodes[1..] == ["B", "C"];
    TwoCityPermutations("B", "C");
    var routes := Routes(nodes);
    assert |routes| == 2;
    assert routes[0] == ["A"] + ["B", "C"] + ["A"] == ["A", "B", "C", "A"];
    assert routes[1] == ["A"] + ["C", "B"] + ["A"] == ["A", "C", "B", "A"];
  }

  /** The three fixture cities, in the mapping's order. */
  const Cities: seq<City> := ["A", "B", "C"]

  /** The expected distance table: 314.8, 629.4 and 314.6 both ways. */
  const Flights: map<Leg, Dist> :=
    map[Leg("A", "B") := 3148, Leg("B", "A") := 3148,
        Leg("A", "C") := 6294, Leg("C", "A") := 6294,
        Leg("B", "C") := 3146, Leg("C", "B") := 3146]

  /** Over the fixture cities the distance table is determined: it is the expected one. */
  lemma FixtureTable(table: map<Leg, Dist>)
    requires IsDistanceTable(table, Cities, FixtureDistance)
    ensures table == Flights
  {
    forall l ensures l in table <==> l in Flights {
      FixtureKey(l);
    }
    forall l | l in table ensures table[l] == Flights[l] {
      FixtureValue(l);
    }
  }

  /** Each entry of the fixture table is the fixture distance of its leg. */
  lemma FixtureValue(l: Leg)
    requires l in Flights
    ensures Flights[l] == FixtureDistance(l.start, l.end)
  {
  }

  /** A leg is in the fixture table exactly when it joins two different fixture cities. */
  lemma FixtureKey(l: Leg)
    ensures l in Flights <==> l.start in Cities && l.end in Cities && l.start != l.end
  {
  }

  /** _collect_distances over the fixture cities gives the expected table. */
  method CollectDistancesExample() returns (table: map<Leg, Dist>)
    ensures table == Flights
  {
    var p := new Processor(Cities, FixtureDistance);
    table := p.CollectDistances();
    FixtureTable(table);
  }

  /** Scoring three legs the table holds: their distances in order, and their sum. */
  lemma ScoreThreeLegs(flights: map<Leg, Dist>, l1: Leg, l2: Leg, l3: Leg)
    requires l1 in flights && l2 in flights && l3 in flights
    ensures ScoreLegs(flights, [l1, l2, l3]) ==
      Ok(Scored(flights[l1] + flights[l2] + flights[l3], [flights[l1], flights[l2], flights[l3]]))
  {
    var f1, f2, f3 := flights[l1], flights[l2], flights[l3];
    assert [l1][..0] == [] && [] + [f1] == [f1];
    assert ScoreLegs(flights, []) == Ok(Scored(0, []));
    assert ScoreLegs(flights, [l1]) == Ok(Scored(f1, [f1]));
    assert [l1, l2][..1] == [l1] && [f1] + [f2] == [f1, f2];
    assert ScoreLegs(flights, [l1, l2]) == Ok(Scored(f1 + f2, [f1, f2]));
    assert [l1, l2, l3][..2] == [l1, l2] && [f1, f2] + [f3] == [f1, f2, f3];
  }

  /** The legs of a route through three cities and back. */
  lemma FourCityLegs(a: City, b: City, c: City, d: City)
    ensures Legs([a, b, c, d]) == [Leg(a, b), Leg(b, c), Leg(c, d)]
  {
  }

  /** get_distances on (A, C, B, A): 1258.8 in all, legs of 629.4, 314.6 and 314.8. */
  lemma FixtureScores()
    ensures Score(Flights, ["A", "C", "B", "A"]) == Ok(Scored(12588, [6294, 3146, 3148]))
    ensures Score(Flights, ["A", "B", "C", "A"]) == Ok(Scored(12588, [3148, 3146, 6294]))
  {
    FourCityLegs("A", "C", "B", "A");
    FourCityLegs("A", "B", "C", "A");
    ScoreThreeLegs(Flights, Leg("A", "C"), Leg("C", "B"), Leg("B", "A"));
    ScoreThreeLegs(Flights, Leg("A", "B"), Leg("B", "C"), Leg("C", "A"));
  }

  /** get_distances over the fixture table. */
  method GetDistancesExample() returns (r: Result<Scored>)
    ensures r == Ok(Scored(12588, [6294, 3146, 3148]))
  {
    var p := new Processor(Cities, FixtureDistance);
    FixtureTable(p.flights);
    r := p.GetDistances(["A", "C", "B", "A"]);
    FixtureScores();
  }

  /** Both fixture tours total 1258.8; the tie goes to the first enumerated, (A, B, C, A). */
  lemma FixtureSearch()
    ensures Search(Flights, Routes(Cities)) == Ok(Best(["A", "B", "C", "A"], 12588, [3148, 3146, 6294]))
  {
    ThreeCityRoutes();
    FixtureScores();
    var routes: seq<Route> := [["A", "B", "C", "A"], ["A", "C", "B", "A"]];
    assert routes[..1] == [["A", "B", "C", "A"]];
  }

  /** minimize over the fixture cities. */
  method MinimizeExample() returns (r: Result<Best>)
    ensures r == Ok(Best(["A", "B", "C", "A"], 12588, [3148, 3146, 6294]))
  {
    var p := new Processor(Cities, FixtureDistance);
    FixtureTable(p.flights);
    r := p.Minimize();
    FixtureSearch();
  }

  /** Three two-leg routes with totals 10, 8 and 12. */
  const MockRoutes: seq<Route> := [["A", "B", "A"], ["C", "D", "C"], ["E", "F", "E"]]
  const MockFlights: map<Leg, Dist> :=
    map[Leg("A", "B") := 4, Leg("B", "A") := 6,
        Leg("C", "D") := 3, Leg("D", "C") := 5,
        Leg("E", "F") := 7, Leg("F", "E") := 5]

  /** Scoring two legs the table holds. */
  lemma ScoreTwoLegs(flights: map<Leg, Dist>, l1: Leg, l2: Leg)
    requires l1 in flights && l2 in flights
    ensures ScoreLegs(flights, [l1, l2]) == Ok(Scored(flights[l1] + flights[l2], [flights[l1], flights[l2]]))
  {
    var f1, f2 := flights[l1], flights[l2];
    assert [l1][..0] == [] && [] + [f1] == [f1];
    assert ScoreLegs(flights, []) == Ok(Scored(0, []));
    assert ScoreLegs(flights, [l1]) == Ok(Scored(f1, [f1]));
    assert [l1, l2][..1] == [l1] && [f1] + [f2] == [f1, f2];
  }

  /** The search keeps the strictly shorter second route over the first and the third. */
  lemma MockSearch()
    ensures Search(MockFlights, MockRoutes) == Ok(Best(["C", "D", "C"], 8, [3, 5]))
  {
    var routes := MockRoutes;
    assert Legs(["A", "B", "A"]) == [Leg("A", "B"), Leg("B", "A")];
    assert Legs(["C", "D", "C"]) == [Leg("C", "D"), Leg("D", "C")];
    assert Legs(["E", "F", "E"]) == [Leg("E", "F"), Leg("F", "E")];
    ScoreTwoLegs(MockFlights, Leg("A", "B"), Leg("B", "A"));
    ScoreTwoLegs(MockFlights, Leg("C", "D"), Leg("D", "C"));
    ScoreTwoLegs(MockFlights, Leg("E", "F"), Leg("F", "E"));
    assert routes[..1] == [["A", "B", "A"]];
    assert routes[..2] == [["A", "B", "A"], ["C", "D", "C"]];
    assert routes[..2][..1] == routes[..1];
    assert Search(MockFlights, routes[..1]) == Ok(Best(["A", "B", "A"], 10, [4, 6]));
    assert Search(MockFlights, routes[..2]) == Ok(Best(["C", "D", "C"], 8, [3, 5]));
  }

  /** minimize with the table and route list replaced after construction. */
  method MinimizeMockedExample() returns (r: Result<Best>)
    ensures r == Ok(Best(["C", "D", "C"], 8, [3, 5]))
  {
    var p := new Processor(["A"], FixtureDistance);
    p.flights, p.routeList := MockFlights, MockRoutes;
    r := p.Minimize();
    MockSearch();
  }

  /** A single city: its one route (A, A) has the leg A-A, which the table never holds. */
  method SingleCityExample() returns (r: Result<Best>)
    ensures r == Err(MissingLeg(Leg("A", "A")))
  {
    var p := new Processor(["A"], FixtureDistance);
    r := p.Minimize();
    SingleCityRouteFails("A", FixtureDistance, p.flights);
  }

  /** An empty mapping has no first city. */
  method NoCitiesExample() returns (r: Result<Processor>)
    ensures r.Err? && r.error == NoCities
  {
    r := Processor.Create([], FixtureDistance);
  }
}
