# Flight trip store, modelled in Dafny

This project models the in-memory flight-trip store of the
`flight_management` repository and proves properties of it. The store is an
ordered collection of trip records. It supports appending a record, removing
every record with a given name, updating fares in place, order-preserving
finds, and three fare aggregates (average, minimum between two cities,
maximum for an operator). The repository has two implementations, and the
model covers both:

- `FlightTripDatabase` (`flight_management/flight_trip_database.{h,cpp}`)
  over the five-field `FlightTrip` record (`flight_management/flight_trip.h`).
  Its fare updates change every matching record.
- The older `FlightDatabase` over `Flight` values
  (`lib/include/flight_management/trip_builder.h`). It books every insert under
  the operator "AirIndia", changes only the first matching flight on a fare
  update, and accumulates the average in a 32-bit integer.

Files:

- `wrappers.dfy`: module `Wrappers`, the `Option` type that the aggregates
  return.
- `scans.dfy`: module `Scans`, the specification functions the operations
  are proved against, with their lemmas. These are the order-preserving
  filter (`Filter`), the update-every-match (`UpdateWhere`), the first match
  and the update-first-match (`FirstIndex`, `UpdateFirst`), the sum and
  mean, the running minimum (`Least`), and the running maximum above a seed
  (`GreatestAbove`).
- `flight_trip.dfy`: module `FlightTrips`, the `FlightTrip` record, its
  rendering, and the rendering of a list of trips.
- `flight_trip_database.dfy`: module `TripDatabase`, the class
  `FlightTripDatabase`. It holds the trips as a `seq` field that the mutating
  methods reassign. The loops of the finds and aggregates are proved against
  the `Scans` functions. Module `TripDatabaseScenario` replays the acceptance
  walk-through against the class.
- `trip_builder.dfy`: module `TripBuilder`, the `Flight` value with its
  getters and `SetAirfare`, the class `FlightDatabase`, and the 32-bit
  average.

Both classes specify their state-changing methods by the new sequence as a
function of the old one (`trips == Filter(old(trips), NotNamed(name))`). The
query methods have no `modifies` clause, so they leave the store as it was,
like the source's `const` members.

## Model

| member | source | states |
|---|---|---|
| Scans.Filter | flight_management/flight_trip_database.cpp:60-61 | a copy-if result is never longer than the collection it was taken from |
| Scans.FilterMembers | flight_management/flight_trip_database.cpp:60-61 | an element is in the result exactly when it is in the collection and satisfies the predicate |
| Scans.FilterAppend | flight_management/flight_trip_database.cpp:60-61 | filtering a concatenation filters each part in turn, so relative order is kept |
| Scans.FilterCount | flight_management/flight_trip_database.cpp:24-25 | every copy of a kept element survives and no copy of a dropped one does (multiset count) |
| Scans.FilterPartition | flight_management/flight_trip_database.cpp:24-25 | a predicate and its negation split the collection: the kept and the erased records together account for all of it |
| Scans.FilterIdentity | flight_management/flight_trip_database.h:36-38 | filtering leaves the collection unchanged exactly when every element already passes |
| Scans.FilterFilter | flight_management/flight_trip_database.cpp:57-63 | filtering twice is one filter by the conjunction of both conditions |
| Scans.FilterNone | flight_management/flight_trip_database.cpp:60-61 | a copy-if that no element passes yields nothing |
| Scans.UpdateWhere | flight_management/flight_trip_database.cpp:31-37 | the transform written back in place: every matching element is replaced by its update, every other element stays at its position, and the length is kept |
| Scans.UpdateWhereNoMatch | flight_management/flight_trip_database.h:40-43 | an update that matches no record leaves the collection unchanged |
| Scans.FilterAfterUpdateWhere | flight_management/flight_trip_database.cpp:31-37 | after an update that keeps the selecting key, the matching records are the old matches, in order, each updated |
| Scans.FilterOthersAfterUpdateWhere | flight_management/flight_trip_database.cpp:31-37 | records outside the updated key are found exactly as before the update |
| Scans.FirstIndex | lib/include/flight_management/trip_builder.h:69-70 | the find-if position is absent exactly when nothing matches, and otherwise is in range, matches, and has no match before it |
| Scans.FirstIndexAt | lib/include/flight_management/trip_builder.h:69-71 | a scan that stops at the end or at its first match has found the find-if position, or found that there is none |
| Scans.UpdateFirst | lib/include/flight_management/trip_builder.h:69-74 | the element at the find-if position, if any, is replaced by its update; the length is kept, and the collection is unchanged when nothing matches |
| Scans.UpdateFirstAt | lib/include/flight_management/trip_builder.h:67-75 | a first-match update keeps the length and changes exactly the first matching position, and only its value |
| Scans.UpdateFirstIsUpdateWhereWhenUnique | lib/include/flight_management/trip_builder.h:67-75 | with at most one match, updating the first match equals updating every match |
| Scans.Sum | flight_management/flight_trip_database.cpp:75-76 | the running total accumulated from the left, one fare per step, starting at zero |
| Scans.Average | flight_management/flight_trip_database.cpp:73-77 | the mean is absent exactly for an empty collection, and otherwise times the count gives the sum |
| Scans.AverageWithinRange | flight_management/flight_trip_database.cpp:73-77 | the mean of a non-empty collection lies between some value at or below it and some value at or above it |
| Scans.Least | flight_management/flight_trip_database.cpp:83-90 | the running minimum is absent exactly for an empty collection |
| Scans.LeastIsMinimum | flight_management/flight_trip_database.cpp:83-90 | the running minimum of a non-empty collection is one of its values, and no value is below it |
| Scans.GreatestAbove | flight_management/flight_trip_database.cpp:95-102 | the running maximum seeded with a floor: a value replaces the running value only when it is larger, so an answer always lies above the floor |
| Scans.GreatestAboveIsMaximum | flight_management/flight_trip_database.cpp:95-102 | the maximum seeded with a floor is absent exactly when no value exceeds the floor, and otherwise is a value above the floor that no value exceeds |
| FlightTrips.Render | flight_management/flight_trip.h:35-37 | a trip renders as "FlightTrip{name: ", then name, operator, origin city, destination city and fare, each behind its fixed label, then a brace and a line break |
| FlightTrips.RenderOpensAndCloses | flight_management/flight_trip.h:35-37 | a trip's rendering starts with "FlightTrip{name: " and the name, and ends with a brace and a line break |
| FlightTrips.RenderTrips | flight_management/flight_trip_database.h:105-109 | a list of trips renders as the empty text exactly when the list is empty |
| FlightTrips.RenderTripsAppend | flight_management/flight_trip_database.h:105-109 | rendering a concatenated list renders each part in turn, so trips appear in sequence order |
| FlightTrips.RenderTripsSingle | flight_management/flight_trip_database.h:107 | each trip renders as " (+) " followed by its own rendering |
| TripDatabase.FlightTripDatabase.constructor | flight_management/flight_trip_database.h:96 | a new store holds no trips |
| TripDatabase.FlightTripDatabase.GetTotalTrips | flight_management/flight_trip_database.h:92 | the count is the length of the stored sequence; AddTrip raises it by one and RemoveCount states how much a removal lowers it |
| TripDatabase.FlightTripDatabase.AddTrip | flight_management/flight_trip_database.cpp:14-19 | the store becomes the old store plus one record with the five given fields at the end, and the count rises by one |
| TripDatabase.FlightTripDatabase.RemoveTrip | flight_management/flight_trip_database.cpp:21-26 | the store becomes exactly the records with a different name, in their old order, and it is unchanged when no record has the name |
| TripDatabase.FlightTripDatabase.UpdateFareByTrip | flight_management/flight_trip_database.cpp:28-38 | every record with the name gets the new fare, every other record is unchanged, and nothing changes when no record has the name |
| TripDatabase.FlightTripDatabase.UpdateFareByOperator | flight_management/flight_trip_database.cpp:40-50 | every record of the operator gets the new fare, every other record is unchanged, and nothing changes when the operator has no record |
| TripDatabase.FlightTripDatabase.SetFareWhere | flight_management/flight_trip_database.cpp:31-37 | the in-place transform sets the fare of each selected record and leaves the others |
| TripDatabase.FlightTripDatabase.FindFlightByNumber | flight_management/flight_trip_database.cpp:57-63 | the result is the subsequence of records with the name, in store order |
| TripDatabase.FlightTripDatabase.FindFlightsByOriginCity | flight_management/flight_trip_database.cpp:65-71 | the result is the subsequence of records leaving from the city, in store order |
| TripDatabase.FlightTripDatabase.Select | flight_management/flight_trip_database.cpp:59-62 | the copy-if loop yields the order-preserving subsequence of selected records |
| TripDatabase.FlightTripDatabase.FindAverageCostOfAllTrips | flight_management/flight_trip_database.cpp:73-78 | the summing loop's result is the mean of the stored fares, which is absent for an empty store |
| TripDatabase.FlightTripDatabase.FindMinFareBetweenCities | flight_management/flight_trip_database.cpp:80-91 | the running-minimum loop's result is the least fare among the trips between the two cities |
| TripDatabase.FlightTripDatabase.FindMaxFareByOperator | flight_management/flight_trip_database.cpp:93-103 | the running-maximum loop, seeded with the smallest positive double, yields the greatest of the operator's fares above that seed |
| TripDatabase.SelectedFares | flight_management/flight_trip_database.cpp:84-89 | a fare is among the selected fares exactly when some selected trip has it |
| TripDatabase.MinFareBetweenCities | flight_management/flight_trip_database.cpp:80-91 | the minimum query is absent exactly when no trip connects the cities, and otherwise it is the fare of a connecting trip that no connecting trip undercuts |
| TripDatabase.MaxFareByOperator | flight_management/flight_trip_database.cpp:93-103 | the maximum query is absent exactly when none of the operator's fares exceeds the seed, and otherwise it is the fare of one of the operator's trips that none of them exceeds |
| TripDatabase.RemoveThenFind | flight_management/flight_trip_database.cpp:21-26 | after removing a name, finding that name gives nothing, and finding any other name gives the same result as before |
| TripDatabase.RemoveCount | flight_management/flight_trip_database.cpp:21-26 | removal lowers the count by exactly the number of records with that name |
| TripDatabase.RemoveTwice | flight_management/flight_trip_database.cpp:21-26 | removing the same name twice is the same as removing it once |
| TripDatabase.UpdateFareByTripEffect | flight_management/flight_trip_database.cpp:28-38 | after an update by name, the store has the same length, the records with that name are the old ones in order with the new fare, and the records with other names are found as before |
| TripDatabase.UpdateFareByOperatorEffect | flight_management/flight_trip_database.cpp:40-50 | after an update by operator, the store has the same length, the operator's records are the old ones in order with the new fare, and other operators' records are found as before |
| TripDatabase.UpdateKeepsAllButFares | flight_management/flight_trip_database.cpp:31-37 | a fare update keeps the length and, at every position, the name, operator and both cities |
| TripDatabase.UnitFixtureAverage | flight_management/test/unit_tests.cpp:101-106 | the mean of the unit-test fixture's fares, 4000 and 3000, is 3500 |
| TripDatabaseScenario.AcceptanceWalkThrough | flight_management/test/acceptance_tests.cpp:37-58 | after the walk-through's adds, removal and fare update, the store holds three trips, the mean fare is 4410, the cheapest Pune-Bengaluru fare is 5000, and Indigo's highest fare is 5000 |
| TripDatabaseScenario.RemoveLast | flight_management/test/acceptance_tests.cpp:37-41 | removing the name of the trip added last gives back the three trips that were stored before it |
| TripDatabaseScenario.UpdateMiddle | flight_management/test/acceptance_tests.cpp:44-46 | raising 6E-702's fare to 5000 changes that record only |
| TripDatabaseScenario.WalkThroughAverage | flight_management/test/acceptance_tests.cpp:54 | the mean fare of the final store is 4410 |
| TripDatabaseScenario.WalkThroughLeast | flight_management/test/acceptance_tests.cpp:56 | the cheapest Pune-Bengaluru fare of the final store is 5000 |
| TripDatabaseScenario.WalkThroughGreatest | flight_management/test/acceptance_tests.cpp:58 | Indigo's highest fare in the final store is 5000 |
| TripBuilder.Flight.SetAirfare | lib/include/flight_management/trip_builder.h:32 | the airfare becomes the given value, and name, cities and operator are kept |
| TripBuilder.Flight.Render | lib/include/flight_management/trip_builder.h:44-46 | a flight renders as "Flight{name: ", then name, origin, destination, operator and airfare, each behind its fixed label, then a brace and a line break |
| TripBuilder.GettersReturnConstructorArguments | lib/include/flight_management/trip_builder.h:20-30 | the getters of a constructed flight return the constructor's arguments |
| TripBuilder.RenderOpensAndCloses | lib/include/flight_management/trip_builder.h:42-47 | a flight's rendering starts with "Flight{name: " and the name, and ends with a brace and a line break |
| TripBuilder.TruncateTowardZero | lib/include/flight_management/trip_builder.h:121 | the conversion back to the 32-bit total truncates toward zero: the result is within one of the value, on the side of zero |
| TripBuilder.TruncatedSum | lib/include/flight_management/trip_builder.h:120-121 | the 32-bit running total: starting at zero, each airfare is added and the sum truncated toward zero |
| TripBuilder.LegacyAverage | lib/include/flight_management/trip_builder.h:118-123 | the older average is absent exactly for an empty store, and otherwise is the total modulo 2^64 integer-divided by the count, so it is never negative and below 2^64 |
| TripBuilder.WholeSum | lib/include/flight_management/trip_builder.h:120-121 | with whole, non-negative airfares the truncating 32-bit total equals the exact total |
| TripBuilder.LegacyAverageOfWholeFares | lib/include/flight_management/trip_builder.h:118-123 | for whole, non-negative airfares whose total fits in 32 bits, the average is the integer quotient of the exact total by the count |
| TripBuilder.LegacyAverageRoundsMeanDown | lib/include/flight_management/trip_builder.h:118-123 | for the same airfares, the average is at most the exact mean and less than one below it, that is, the mean rounded down |
| TripBuilder.QuotientBracketsMean | lib/include/flight_management/trip_builder.h:122 | an integer quotient of a non-negative total lies within one below the exact mean |
| TripBuilder.LegacyAverageWrapsNegativeTotal | lib/include/flight_management/trip_builder.h:122 | one flight at -10 gives an average of 2^64 - 10, where the mean is -10 |
| TripBuilder.LegacyAverageDropsFractions | lib/include/flight_management/trip_builder.h:121 | two flights at 0.5 give an average of 0, where the mean is 0.5 |
| TripBuilder.FlightDatabase.constructor | lib/include/flight_management/trip_builder.h:52 | a new store holds no flights |
| TripBuilder.FlightDatabase.AddTrip | lib/include/flight_management/trip_builder.h:54-58 | the store becomes the old store plus one flight at the end, with the given name, cities and airfare, and with operator "AirIndia" whatever the caller intends |
| TripBuilder.FlightDatabase.RemoveTrip | lib/include/flight_management/trip_builder.h:60-65 | the store becomes exactly the flights with a different name, in their old order, and it is unchanged when no flight has the name |
| TripBuilder.FlightDatabase.UpdateFareByTrip | lib/include/flight_management/trip_builder.h:67-75 | only the first flight with the name gets the new airfare, and nothing changes when no flight has the name |
| TripBuilder.FlightDatabase.UpdateFareByOperator | lib/include/flight_management/trip_builder.h:77-85 | only the first flight of the operator gets the new airfare, and nothing changes when the operator has no flight |
| TripBuilder.FlightDatabase.SetAirfareOfFirst | lib/include/flight_management/trip_builder.h:69-74 | the find-if loop and the in-place write update the first match, if there is one |
| TripBuilder.FlightDatabase.FindFlightByNumber | lib/include/flight_management/trip_builder.h:92-103 | the result is the subsequence of flights with the name, in store order |
| TripBuilder.FlightDatabase.FindFlightsByOriginCity | lib/include/flight_management/trip_builder.h:105-116 | the result is the subsequence of flights leaving from the city, in store order |
| TripBuilder.FlightDatabase.Select | lib/include/flight_management/trip_builder.h:94-102 | the copying loop yields the order-preserving subsequence of selected flights |
| TripBuilder.FlightDatabase.FindAverageCostOfAllTrips | lib/include/flight_management/trip_builder.h:118-123 | the loop computes the 32-bit truncating total, taken modulo 2^64 and integer-divided by the count |
| TripBuilder.FlightDatabase.FindMinFareBetweenCities | lib/include/flight_management/trip_builder.h:125-136 | the running-minimum loop yields the least airfare among the flights between the two cities |
| TripBuilder.FlightDatabase.FindMaxFareByOperator | lib/include/flight_management/trip_builder.h:137-148 | the running-maximum loop, seeded with the smallest positive double, yields the greatest of the operator's airfares above that seed |
| TripBuilder.UpdateFareByTripTouchesFirstOnly | lib/include/flight_management/trip_builder.h:67-75 | an update by name keeps the length, sets the airfare of the first flight with that name, and leaves later duplicates and all other flights as they were |
| TripBuilder.UpdateFareByOperatorTouchesFirstOnly | lib/include/flight_management/trip_builder.h:77-85 | an update by operator keeps the length, sets the airfare of the operator's first flight, and leaves every other flight as it was |
| TripBuilder.DuplicateNameKeepsSecondFare | lib/include/flight_management/trip_builder.h:67-75 | with two flights of one name, the second keeps its airfare, so the older store differs from an update of every match |
| TripBuilder.UniqueNamesUpdateAgree | lib/include/flight_management/trip_builder.h:67-75 | when names are unique, the first-match update by name equals the update of every flight with that name |
| TripBuilder.RemoveThenFind | lib/include/flight_management/trip_builder.h:60-65 | after removing a name, finding that name gives nothing, and finding any other name gives the same result as before |
| TripBuilder.SelectedAirfares | lib/include/flight_management/trip_builder.h:128-134 | an airfare is among the selected airfares exactly when some selected flight has it |
| TripBuilder.MinFareBetweenCities | lib/include/flight_management/trip_builder.h:125-136 | the minimum query is absent exactly when no flight connects the cities, and otherwise it is the airfare of a connecting flight that no connecting flight undercuts |
| TripBuilder.MaxFareByOperator | lib/include/flight_management/trip_builder.h:137-148 | the maximum query is absent exactly when none of the operator's airfares exceeds the seed, and otherwise it is the airfare of one of the operator's flights that none of them exceeds |

## Left out

- Logging: the `LOG(INFO)` lines of the store and the logging facility in `flight_management/logging.h` produce console output only. They are not modelled.
- `DisplayAllTrips`, in both stores, writes to the log or to standard output, and the write is not modelled. For the current store, the rendering of the whole list is modelled (`FlightTrips.RenderTrips`). For the older store, only the rendering of one flight is modelled (`TripBuilder.Flight.Render`), not the listing that prints each flight followed by an extra line break.
- Number formatting: how a stream prints a double is supplied to the rendering functions as the parameter `showFare`.
- Drivers and tests are not modelled. The walk-through of the acceptance test and the fixture average of the unit tests are restated as lemmas.
- The pure-virtual interface `i_flight_trip_database.h` adds no behaviour to the concrete store. It is not part of this model.
- The builders and the chrono/units records (`flight_builder.h`, `flight_info.h`, `trip_info.h`) are not part of this model.
- Fares are real numbers. Double rounding in the running sum, and in the conversion of the count to a double, is not modelled.
- TripDatabase.FlightTripDatabase.FindAverageCostOfAllTrips: answers None for an empty store, where the source divides zero by zero and returns NaN.
- TripDatabase.FlightTripDatabase.FindMinFareBetweenCities: answers None when no trip connects the cities, where the source returns the largest double. A fare above that largest double, which a double can hold only as infinity, is not considered.
- TripDatabase.FlightTripDatabase.FindMaxFareByOperator: answers None when none of the operator's fares exceeds the smallest positive normal double, where the source returns that seed. A seed value and a fare equal to it are indistinguishable in the source. The model keeps the seed comparison, so a fare at or below the seed never shows up.
- TripBuilder.FlightDatabase.FindMinFareBetweenCities: answers None where the source returns the largest double, as above.
- TripBuilder.FlightDatabase.FindMaxFareByOperator: answers None where the source returns the smallest positive normal double, as above.
- TripBuilder.FlightDatabase.FindAverageCostOfAllTrips: answers None for an empty store, where the source divides an integer by zero, which is undefined. It does not model the undefined behaviour of a running total or an airfare outside the 32-bit range: `TruncatedSum` is unbounded. It also does not model the conversion of the unsigned quotient to double, which is exact only below 2^53: the model returns the exact quotient.
- TripBuilder.Flight.SetAirfare: `Flight` is held by value in the store's vector and copied out by the finds, so it is modelled as a datatype. The in-place `SetAirfare` on the vector element becomes the updated value written back at that index (`TripBuilder.FlightDatabase.SetAirfareOfFirst`).

## Findings

| source | as written | input that shows it | evidently intended | confidence | as-written member | corrected member |
|---|---|---|---|---|---|---|
| lib/include/flight_management/trip_builder.h:122 | the 32-bit signed total is converted to the unsigned 64-bit count type before the division | one flight with airfare -10: the average is about 1.8e19 (2^64 − 10 before the conversion to double rounds it to 2^64) | the mean, -10, which lies between the smallest and largest airfare | not executed; high | TripBuilder.LegacyAverageWrapsNegativeTotal | Scans.AverageWithinRange |
| lib/include/flight_management/trip_builder.h:120-121 | the running total is a 32-bit integer, so each addition truncates the fractional part | two flights with airfare 0.5: the average is 0 | the mean of the airfares, 0.5, as the newer store computes it | not executed; medium | TripBuilder.LegacyAverageDropsFractions | Scans.Average |

`TripBuilder.FlightDatabase.FindAverageCostOfAllTrips` keeps the as-written
computation (`TripBuilder.LegacyAverage`), because it models that code. The
corrected mean, `Scans.Average`, is what the current store's
`TripDatabase.FlightTripDatabase.FindAverageCostOfAllTrips` computes, and
`Scans.AverageWithinRange` proves it lies within the range of the airfares.
