# route-optimizer processor, modelled in Dafny

The route optimizer finds the shortest closed tour through a small set of cities by
exhaustive search. Its `Processor` reads a mapping of city names to coordinates and then
works in four steps:

1. it fills a distance table with one entry per ordered pair of distinct cities;
2. it enumerates the candidate routes: the first city of the mapping is the anchor, and each
   route is the anchor, one permutation of the other cities, and the anchor again;
3. `get_distances` looks up every leg of a route in the table and returns the partial
   distances and their total;
4. `minimize` scores every route and keeps the first one with the smallest total.

This project models that processor and proves what it computes.

- `itertools.dfy` (module `Itertools`) defines Python's `itertools.permutations(s, r)` as
  `Arrangements(s, r)`. The tuples come in the lexicographic order of the chosen positions.
  `Permutations(s)` is `Arrangements(s, |s|)`. The lemmas prove which tuples are produced,
  how many, and that none repeats when the elements are distinct.
- `tours.dfy` (module `Tours`) holds the values and the specification functions:
  - `Leg` is a leg, keyed by its ordered pair of cities;
  - `IsDistanceTable` says what the table must hold;
  - `Routes` is the enumerated route list, and `IsTour` says what a closed tour is;
  - `Score` is what `get_distances` computes;
  - `Search` is what `minimize` computes, and `FirstMinimum` says what its answer means.
- `processing.dfy` (module `Processing`) is the class `Processor`. Its fields are the city
  names, the distance function, the table `flights` and the list `routeList`. Each of its
  methods runs the loop of the Python method it models and is proved against the
  specification function above.
- `scenarios.dfy` (module `Scenarios`) holds the worked examples with the expected values
  from tests/test_processor.py. The three cities A, B and C are 314.8 km (A-B), 629.4 km
  (A-C) and 314.6 km (B-C) apart.

Distances are natural numbers in fixed-point units of 10^-precision km, so 314.8 km at
precision 1 is `3148`. Each city pair's distance comes from a function parameter. That
parameter stands for `Flight(start, end, cities, precision).calculate_distance()`.

The failures of the code are modelled as `Err` values:

- `MissingLeg(leg)` is the `KeyError` of a table lookup.
- `NoCities` is the `IndexError` of `nodes[0]` on an empty mapping.
- `NoRoutes` is the `TypeError` that `minimize` raises on an empty route list. Its log
  message is built eagerly and joins `best_route`, which is then still `None`.

The code never checks
that at least two cities are given. One city gives the single route (A, A). Its leg A-A is
never put in the table, so `minimize` fails with a lookup error
(`Tours.SingleCityRouteFails`, `Scenarios.SingleCityExample`). An empty mapping fails when
the routes are built (`Processing.Processor.Create`).

## Model

| member | source | states |
|---|---|---|
| Itertools.ArrangementsCount | processor.py:51 | `permutations(s, r)` yields n!/(n-r)! tuples (Falling(\|s\|, r)) |
| Itertools.ArrangementIsSelection | processor.py:51 | every tuple of `permutations(s, r)` has r elements, all drawn from s without reuse |
| Itertools.SelectionIsArrangement | processor.py:51 | conversely, every r-element selection from s without reuse is yielded |
| Itertools.ArrangementsNoDup | processor.py:51 | over distinct elements no tuple is yielded twice |
| Itertools.PairArrangements | processor.py:51-53 | over distinct cities, `permutations(nodes, 2)` is exactly the pairs of two different cities, each once, N·(N-1) of them |
| Itertools.PermutationsSpec | processor.py:74 | `permutations(s)` yields exactly the rearrangements of s |
| Itertools.PermutationsCount | processor.py:74 | `permutations(s)` yields \|s\|! orderings |
| Itertools.PermutationsNoDup | processor.py:74 | over distinct elements every ordering is yielded once |
| Tours.PairLegsMembers | processor.py:49-56 | the legs enumerated for the table are exactly the ordered pairs of distinct cities; there is no leg from a city to itself |
| Tours.PairLegsCount | processor.py:49-56 | the enumerated legs do not repeat, and there are N·(N-1) of them |
| Tours.TableOfSpec | processor.py:52-56 | filling the dictionary leg by leg leaves exactly the given legs as keys, each with its own distance, and one entry per leg when no leg repeats |
| Tours.LegNameCollides | processor.py:96 | two different legs, (A-B, C) and (A, B-C), get the same dash-joined name |
| Tours.NamedTableCollision | processor.py:56 | keyed by name, the later of those two legs overwrites the earlier, so the leg from A-B to C reads the distance from A to B-C; keyed by pair, both legs keep their own distance |
| Tours.RoutesSpec | processor.py:72-77 | a route is enumerated iff it has N+1 cities, starts and ends at `nodes[0]`, and its interior is a rearrangement of `nodes[1:]` |
| Tours.RoutesCount | processor.py:74-77 | there are (N-1)! routes |
| Tours.RoutesNoDup | processor.py:74-77 | over distinct cities no route is enumerated twice |
| Tours.ScoreLegsOk | processor.py:95-99 | walking the legs succeeds iff the table holds every leg; the partials are then the table entries in order and the total is their sum |
| Tours.ScoreLegsErr | processor.py:95-97 | otherwise the walk fails on the first leg the table does not hold |
| Tours.ScoreLegsErrPersists | processor.py:97 | once a lookup has failed, the remaining legs do not change the outcome |
| Tours.ScoreSpec | processor.py:92-100 | `get_distances(route)` succeeds iff every leg (route[i], route[i+1]) is in the table; then there are len(route)-1 partials, `partials[i]` is the entry of leg i, and the total is their sum |
| Tours.ScoreFailure | processor.py:95-97 | otherwise the lookup fails on the first leg (route[k], route[k+1]) the table does not hold, and the error names that leg |
| Tours.TourIsScored | processor.py:49-56 | over two or more distinct cities, every closed tour has all of its legs in the table, so it scores |
| Tours.RoutesAreScored | processor.py:27-28 | over two or more distinct cities, with the table and route list the constructor builds, every enumerated route scores |
| Tours.FirstMinimumUnique | processor.py:112 | with strict `<`, ties go to the earliest route, so at most one position is the first minimum |
| Tours.SearchErrPersists | processor.py:110-111 | once the scan has failed, the remaining routes do not change its outcome |
| Tours.SearchOk | processor.py:105-121 | `minimize` succeeds iff the route list is non-empty and every route scores |
| Tours.SearchFindsFirstMinimum | processor.py:110-115 | a successful `minimize` returns a route of the list with that route's own total and partials; its total is no larger than any other route's, and every earlier route is strictly longer |
| Tours.SearchErr | processor.py:110-118 | a failing `minimize` fails with the error of the first route that does not score, or with `NoRoutes` when the list is empty |
| Tours.SearchSpec | processor.py:105-121 | the three statements above together |
| Tours.FirstMinimumBeats | processor.py:110-115 | the first minimum is no longer than any route of the list |
| Tours.FirstMinimumIsOptimal | processor.py:72-77 | the first minimum is no longer than any closed tour of the cities, so the search is exact |
| Tours.SearchFindsShortestTour | processor.py:105-121 | over two or more distinct cities with the complete table, the route list is non-empty and `minimize` succeeds; it returns a closed tour of the cities, with that tour's own total and partials, no longer than any other closed tour |
| Tours.SingleCityRouteFails | processor.py:74-77 | one city gives the single route (A, A), and scoring it fails on the leg A-A |
| Processing.Processor.constructor | processor.py:15-28 | builds the table, then the route list, from a non-empty mapping of distinct names; the table has N·(N-1) entries and the list has (N-1)! routes |
| Processing.Processor.Create | processor.py:15-28 | construction fails with `NoCities` exactly when the mapping is empty, as `nodes[0]` does |
| Processing.Processor.CollectDistances | processor.py:41-59 | the loop over `permutations(nodes, 2)` yields a table that holds every ordered pair of distinct cities with its distance, and nothing else; N·(N-1) entries |
| Processing.Processor.CreateRoutes | processor.py:61-79 | the loop builds exactly `Routes(cities)`, in enumeration order; an empty mapping fails with `NoCities` |
| Processing.Processor.GetDistances | processor.py:81-103 | the loop returns `Score(flights, route)`, whose meaning is `Tours.ScoreSpec` and `Tours.ScoreFailure` |
| Processing.Processor.Minimize | processor.py:105-121 | the loop returns `Search(flights, routeList)`. It succeeds iff the list is non-empty and every route scores. On success it returns the first route of smallest total, with that route's own total and partials. On failure it returns the first failing route's error, or `NoRoutes` |
| Processing.Processor.MinimizeTwice | processor.py:105-121 | `minimize` assigns no field, so two calls return the same answer |
| Processing.Processor.Solve | processor.py:15-121 | building a processor from two or more distinct cities and calling `minimize` succeeds, and returns a closed tour of the cities with its own total and partials, no longer than any other closed tour |
| Scenarios.ThreeCityRoutes | tests/test_processor.py:16 | the cities A, B, C give the routes (A, B, C, A) then (A, C, B, A) |
| Scenarios.TwoCityPermutations | processor.py:74 | `permutations((b, c))` is (b, c) then (c, b), equal names included |
| Scenarios.ThreeCityPermutations | processor.py:74 | `permutations((a, b, c))` yields abc, acb, bac, bca, cab, cba, the order on which the tie-break of processor.py:112 depends |
| Scenarios.FixtureTable | tests/test_processor.py:10-15 | over A, B, C the distance table is the expected one: 314.8, 629.4 and 314.6 both ways |
| Scenarios.CollectDistancesExample | tests/test_processor.py:26-30 | `_collect_distances` over the three cities returns that table |
| Scenarios.FixtureScores | tests/test_processor.py:47-51 | (A, C, B, A) scores 1258.8 with partials 629.4, 314.6, 314.8 |
| Scenarios.GetDistancesExample | tests/test_processor.py:43-51 | `get_distances((A, C, B, A))` returns 1258.8 and [629.4, 314.6, 314.8] |
| Scenarios.FixtureSearch | processor.py:112 | both tours total 1258.8, and the tie goes to (A, B, C, A) |
| Scenarios.MinimizeExample | processor.py:105-121 | `minimize` over the three cities returns (A, B, C, A), 1258.8, [314.8, 314.6, 629.4] |
| Scenarios.MockSearch | tests/test_processor.py:60-67 | over routes with totals 10, 8 and 12 the scan keeps the second route, total 8, partials [3, 5] |
| Scenarios.MinimizeMockedExample | tests/test_processor.py:57-67 | `minimize` after the table and route list are replaced returns that route |
| Scenarios.SingleCityExample | processor.py:74-77 | `minimize` over a single city fails on the leg A-A |
| Scenarios.NoCitiesExample | processor.py:72-73 | construction over an empty mapping fails with `NoCities` |

## Left out

- flight.py's great-circle computation (trigonometry on floats) is replaced by the
  `distance` parameter. The parameter is a total function: it returns a natural number for
  every pair of cities. flight.py:43-45 does not clamp the argument of `acos`, so two distinct
  cities at the same coordinates can raise a `ValueError` there. The model does not capture
  that failure, and the "fails exactly when the mapping is empty" of
  `Processing.Processor.Create` holds only for distances that can be computed.
- Python's `round` (processor.py:100, flight.py:46) is the identity on fixed-point distances.
  The model does not capture float addition error in the running total. It also does not
  capture `round(x, None)`, which rounds to a whole number: the command line passes `None`
  for `--precision 0`.
- `_read_json` (processor.py:30-39) is file I/O. The model takes the mapping's city names,
  in the mapping's order, as a sequence. Distinct names (`NoDup`) stand for the keys of a
  dictionary. The coordinates are folded into the distance function.
- The `precision` and `json_path` fields are not modelled; precision only fixes the unit of
  the distances.
- Logging (processor.py:57-58, 78, 101-102, 117-120) has no effect on results. The one
  exception is the `TypeError` on an empty route list, which is modelled as `NoRoutes`.
- cli.py is argument parsing and process entry, and is not part of this model.
- Scenarios.MinimizeMockedExample: the test replaces `get_distances` with a stub whose
  results need not match the routes, for example two partials for the two-city route (A, B).
  The model cannot stub a method. Instead it installs a table and three two-leg routes,
  (A, B, A), (C, D, C) and (E, F, E), whose scores are the stub's values (10, [4, 6]),
  (8, [3, 5]) and (12, [7, 5]). So the best route is (C, D, C), not the stub's (C, D).
- Processing.Processor.GetDistances: its own `ensures` only ties the result to
  `Score(flights, route)`; the meaning of that function is proved separately, in
  `Tours.ScoreSpec` and `Tours.ScoreFailure`.
- The model keys the table by `Leg` pairs rather than by the dash-joined names of
  processor.py:96 and flight.py:23. See Findings.

## Findings

| source | as written | input that shows it | evidently intended | confidence | as-written member | corrected member |
|---|---|---|---|---|---|---|
| processor.py:56, processor.py:96 | table key and lookup key are `start + '-' + end` | cities that include `A-B`, `C`, `A` and `B-C`: the legs (A-B, C) and (A, B-C) are both named `A-B-C`; whichever is written later overwrites the other, so the two legs leave one entry and one of them reads the other's distance | one entry per ordered pair of cities, each with its own distance | medium (needs a dash in city names); not executed | Tours.NamedTableCollision | Processing.Processor.CollectDistances |
