/** The older flight store of lib/include/flight_management/trip_builder.h:
    the same operations as the trip store, over `Flight` values, except that
    every insert is booked under the operator "AirIndia", each fare update
    changes only the FIRST matching flight, and the average is accumulated
    in a 32-bit integer. */
module TripBuilder {
  import opened Wrappers
  import opened Scans

  /** A flight. The C++ class is held by value in the store's vector and
      copied out by the finds, so it is modelled as a value; `SetAirfare`
      gives the updated copy that the store writes back in place. */
  datatype Flight = Flight(name: string, origin: string, destination: string, operatedBy: string, airfare: real)
  {
    function GetName(): string { name }
    function GetOriginCity(): string { origin }
    function GetDestinationCity(): string { destination }
    function GetOperator(): string { operatedBy }
    function GetAirfare(): real { airfare }

    /** This flight with its airfare replaced and everything else kept. */
    function SetAirfare(newAirfare: real): (f: Flight)
      ensures f.GetAirfare() == newAirfare
      ensures f.GetName() == GetName() && f.GetOriginCity() == GetOriginCity()
      ensures f.GetDestinationCity() == GetDestinationCity() && f.GetOperator() == GetOperator()
    {
      this.(airfare := newAirfare)
    }

    /** The stream rendering of a flight; `showFare` gives a fare's text. */
    function Render(showFare: real -> string): string
    {
      "Flight{name: " + name + ", origin: " + origin + ", destination: " + destination
      + ", operator: " + operatedBy + ", airfare: " + showFare(airfare) + "}\n"
    }
  }

  /** The getters of a constructed flight give back the constructor's
      arguments, in the constructor's order. */
  lemma GettersReturnConstructorArguments(name: string, origin: string, destination: string,
                                          operatedBy: string, airfare: real)
    ensures var f := Flight(name, origin, destination, operatedBy, airfare);
      && f.GetName() == name && f.GetOriginCity() == origin && f.GetDestinationCity() == destination
      && f.GetOperator() == operatedBy && f.GetAirfare() == airfare
  {
  }

  /** The flight rendering opens with the fixed label and the flight's name
      and closes with a brace and a line break. */
  lemma RenderOpensAndCloses(f: Flight, showFare: real -> string)
    ensures var r, head := f.Render(showFare), "Flight{name: " + f.name;
      && |head| <= |r| && r[..|head|] == head
      && |r| >= 2 && r[|r| - 2..] == "}\n"
  {
  }

  /** The airfares of the given flights, in order. */
  function Airfares(flights: seq<Flight>): seq<real>
  {
    seq(|flights|, i requires 0 <= i < |flights| => flights[i].GetAirfare())
  }

  lemma AirfaresSnoc(flights: seq<Flight>, f: Flight)
    ensures Airfares(flights + [f]) == Airfares(flights) + [f.GetAirfare()]
  {
  }

  /** One more flight scanned: its airfare joins the selected airfares when
      the flight is selected. */
  lemma SelectedAirfaresStep(flights: seq<Flight>, i: nat, p: Flight -> bool)
    requires i < |flights|
    ensures Airfares(Filter(flights[..i + 1], p)) ==
      if p(flights[i]) then Airfares(Filter(flights[..i], p)) + [flights[i].GetAirfare()]
      else Airfares(Filter(flights[..i], p))
  {
    assert flights[..i + 1] == flights[..i] + [flights[i]];
    FilterSnoc(flights[..i], flights[i], p);
    AirfaresSnoc(Filter(flights[..i], p), flights[i]);
  }

  function HasName(name: string): Flight -> bool
  {
    (f: Flight) => f.GetName() == name
  }

  function HasOperator(operator: string): Flight -> bool
  {
    (f: Flight) => f.GetOperator() == operator
  }

  function LeavesFrom(city: string): Flight -> bool
  {
    (f: Flight) => f.GetOriginCity() == city
  }

  function Connects(origin: string, destination: string): Flight -> bool
  {
    (f: Flight) => f.GetOriginCity() == origin && f.GetDestinationCity() == destination
  }

  function NotNamed(name: string): Flight -> bool
  {
    (f: Flight) => f.GetName() != name
  }

  function WithAirfare(airfare: real): Flight -> Flight
  {
    (f: Flight) => f.SetAirfare(airfare)
  }

  // ---------------------------------------------------------------------
  // The 32-bit average
  // ---------------------------------------------------------------------

  /** Conversion of a double to a 32-bit integer: truncation toward zero. */
  function TruncateTowardZero(x: real): (r: int)
    ensures 0.0 <= x ==> r as real <= x < r as real + 1.0
    ensures x < 0.0 ==> r as real - 1.0 < x <= r as real
  {
    if x >= 0.0 then x.Floor else -((-x).Floor)
  }

  /** The 32-bit running total: each airfare is added in double arithmetic
      and the sum is truncated back to an integer at every step. */
  function TruncatedSum(xs: seq<real>): int
  {
    if xs == [] then 0
    else TruncateTowardZero(TruncatedSum(xs[..|xs| - 1]) as real + xs[|xs| - 1])
  }

  lemma TruncatedSumSnoc(xs: seq<real>, x: real)
    ensures TruncatedSum(xs + [x]) == TruncateTowardZero(TruncatedSum(xs) as real + x)
  {
    assert (xs + [x])[..|xs|] == xs;
  }

  /** 2 to the 64: the 32-bit total is converted to the unsigned 64-bit
      count type before the division. */
  const SizeModulus: int := 0x1_0000_0000_0000_0000

  /** The average as the older store computes it: the truncated total,
      taken modulo 2^64, integer-divided by the count. None for an empty
      store, where the source divides by zero. */
  function LegacyAverage(xs: seq<real>): (r: Option<real>)
    ensures r.None? <==> xs == []
    ensures r.Some? ==> 0.0 <= r.value < SizeModulus as real
  {
    if xs == [] then None else Some(((TruncatedSum(xs) % SizeModulus) / |xs|) as real)
  }

  /** Whole, non-negative airfares, as reals. */
  function AsReals(ks: seq<nat>): seq<real>
  {
    seq(|ks|, i requires 0 <= i < |ks| => ks[i] as real)
  }

  /** For whole, non-negative airfares whose total fits in 32 bits, the
      older average is the integer quotient of the exact total by the
      count. */
  lemma LegacyAverageOfWholeFares(ks: seq<nat>)
    requires ks != []
    requires Sum(AsReals(ks)) < 2147483648.0
    ensures TruncatedSum(AsReals(ks)) as real == Sum(AsReals(ks))
    ensures LegacyAverage(AsReals(ks)) == Some((TruncatedSum(AsReals(ks)) / |ks|) as real)
  {
    WholeSum(ks);
    SmallModulus(TruncatedSum(AsReals(ks)));
  }

  /** For the same airfares the older average is the exact mean rounded
      down: never above it and less than one below it. */
  lemma LegacyAverageRoundsMeanDown(ks: seq<nat>)
    requires ks != []
    requires Sum(AsReals(ks)) < 2147483648.0
    ensures Average(AsReals(ks)).value - 1.0 < LegacyAverage(AsReals(ks)).value <= Average(AsReals(ks)).value
  {
    var xs := AsReals(ks);
    var total, n, mean := TruncatedSum(xs), |xs|, Average(xs).value;
    LegacyAverageOfWholeFares(ks);
    WholeSum(ks);
    assert mean * (n as real) == Sum(xs);
    QuotientBracketsMean(total, n, mean);
  }

  /** The integer quotient of a non-negative total by a positive count lies
      within one below the exact mean. */
  lemma QuotientBracketsMean(total: int, n: int, mean: real)
    requires 0 <= total && 0 < n && mean * (n as real) == total as real
    ensures mean - 1.0 < (total / n) as real <= mean
  {
    var q, r := total / n, total % n;
    var nr := n as real;
    CastProduct(q, n);
    assert total as real == (q as real) * nr + r as real;
    PositiveFactor(mean - q as real, nr);
    PositiveFactor(q as real + 1.0 - mean, nr);
  }

  lemma SmallModulus(x: int)
    requires 0 <= x < SizeModulus
    ensures x % SizeModulus == x
  {
  }

  /** The cast of an integer product is the product of the casts. */
  lemma CastProduct(a: int, b: int)
    ensures (a * b) as real == (a as real) * (b as real)
  {
  }

  /** A product with a positive factor has the sign of the other factor. */
  lemma PositiveFactor(x: real, y: real)
    requires 0.0 < y
    ensures x * y >= 0.0 ==> x >= 0.0
    ensures x * y > 0.0 ==> x > 0.0
  {
  }

  /** With whole, non-negative airfares the truncation never bites: the
      32-bit total is the exact total. */
  lemma {:induction false} WholeSum(ks: seq<nat>)
    ensures 0 <= TruncatedSum(AsReals(ks)) && TruncatedSum(AsReals(ks)) as real == Sum(AsReals(ks))
    decreases |ks|
  {
    if ks != [] {
      var init, last := ks[..|ks| - 1], ks[|ks| - 1];
      var xs := AsReals(ks);
      assert xs[..|xs| - 1] == AsReals(init);
      assert xs[|xs| - 1] == last as real;
      WholeSum(init);
      var t := TruncatedSum(AsReals(init));
      assert t as real + last as real == (t + last) as real;
    }
  }

  /** As written, one flight with airfare -10 gives an "average" of about
      1.8e19 (2^64 - 10 before the conversion to double rounds it to 2^64):
      the negative total wraps in the unsigned division, and the result lies
      above every airfare, unlike a mean. */
  lemma LegacyAverageWrapsNegativeTotal()
    ensures LegacyAverage([-10.0]) == Some(18446744073709551606.0)
    ensures Average([-10.0]) == Some(-10.0)
  {
    assert [-10.0][..0] == [];
    assert TruncatedSum([-10.0]) == -10;
  }

  /** As written, two flights at 0.5 give an "average" of 0: each half is
      truncated away when added to the 32-bit total. */
  lemma LegacyAverageDropsFractions()
    ensures LegacyAverage([0.5, 0.5]) == Some(0.0)
    ensures Average([0.5, 0.5]) == Some(0.5)
  {
    TruncatedSumSnoc([0.5], 0.5);
    TruncatedSumSnoc([], 0.5);
    SumSnoc([0.5], 0.5);
    SumSnoc([], 0.5);
    assert [] + [0.5] == [0.5] && [0.5] + [0.5] == [0.5, 0.5];
  }

  // ---------------------------------------------------------------------
  // The store
  // ---------------------------------------------------------------------

  class FlightDatabase {
    /** Every added flight that has not been removed, in insertion order. */
    var flights: seq<Flight>

    constructor ()
      ensures flights == []
    {
      flights := [];
    }

    /** Appends one flight; its operator is always "AirIndia". */
    method AddTrip(name: string, origin: string, destination: string, airfare: real)
      modifies this
      ensures flights == old(flights) + [Flight(name, origin, destination, "AirIndia", airfare)]
      ensures flights[|flights| - 1].GetOperator() == "AirIndia"
    {
      flights := flights + [Flight(name, origin, destination, "AirIndia", airfare)];
    }

    /** Removes every flight with the given name; the survivors keep their
        order. A name that is not stored leaves the store as it is. */
    method RemoveTrip(name: string)
      modifies this
      ensures flights == Filter(old(flights), NotNamed(name))
      ensures (forall f | f in old(flights) :: f.GetName() != name) ==> flights == old(flights)
    {
      var all := flights;
      var kept: seq<Flight> := [];
      var i := 0;
      while i < |all|
        invariant 0 <= i <= |all|
        invariant kept == Filter(all[..i], NotNamed(name))
      {
        assert all[..i + 1] == all[..i] + [all[i]];
        FilterSnoc(all[..i], all[i], NotNamed(name));
        if all[i].GetName() != name {
          kept := kept + [all[i]];
        }
        i := i + 1;
      }
      assert all[..i] == all;
      FilterIdentity(all, NotNamed(name));
      flights := kept;
    }

    /** Sets the airfare of the first flight with the given name only. */
    method UpdateFareByTrip(name: string, airfare: real)
      modifies this
      ensures flights == UpdateFirst(old(flights), HasName(name), WithAirfare(airfare))
      ensures (forall f | f in old(flights) :: f.GetName() != name) ==> flights == old(flights)
    {
      SetAirfareOfFirst(HasName(name), airfare);
    }

    /** Sets the airfare of the first flight of the given operator only. */
    method UpdateFareByOperator(operator: string, airfare: real)
      modifies this
      ensures flights == UpdateFirst(old(flights), HasOperator(operator), WithAirfare(airfare))
      ensures (forall f | f in old(flights) :: f.GetOperator() != operator) ==> flights == old(flights)
    {
      SetAirfareOfFirst(HasOperator(operator), airfare);
    }

    /** The find-if and in-place update behind both fare updates. */
    method SetAirfareOfFirst(p: Flight -> bool, airfare: real)
      modifies this
      ensures flights == UpdateFirst(old(flights), p, WithAirfare(airfare))
    {
      var i := 0;
      while i < |flights| && !p(flights[i])
        invariant 0 <= i <= |flights|
        invariant forall j | 0 <= j < i :: !p(flights[j])
      {
        i := i + 1;
      }
      FirstIndexAt(flights, p, i);
      if i < |flights| {
        flights := flights[i := flights[i].SetAirfare(airfare)];
      }
    }

    /** The flights with the given name, in store order. */
    method FindFlightByNumber(name: string) returns (matches: seq<Flight>)
      ensures matches == Filter(flights, HasName(name))
    {
      matches := Select(HasName(name));
    }

    /** The flights leaving from the given city, in store order. */
    method FindFlightsByOriginCity(origin: string) returns (matches: seq<Flight>)
      ensures matches == Filter(flights, LeavesFrom(origin))
    {
      matches := Select(LeavesFrom(origin));
    }

    /** The copying loop behind both finds. */
    method Select(p: Flight -> bool) returns (matches: seq<Flight>)
      ensures matches == Filter(flights, p)
    {
      matches := [];
      var i := 0;
      while i < |flights|
        invariant 0 <= i <= |flights|
        invariant matches == Filter(flights[..i], p)
      {
        assert flights[..i + 1] == flights[..i] + [flights[i]];
        FilterSnoc(flights[..i], flights[i], p);
        if p(flights[i]) {
          matches := matches + [flights[i]];
        }
        i := i + 1;
      }
      assert flights[..i] == flights;
    }

    /** The average airfare as the older store computes it (see
        LegacyAverage). */
    method FindAverageCostOfAllTrips() returns (average: Option<real>)
      ensures average == LegacyAverage(Airfares(flights))
    {
      var sum: int := 0;
      var i := 0;
      while i < |flights|
        invariant 0 <= i <= |flights|
        invariant sum == TruncatedSum(Airfares(flights[..i]))
      {
        assert flights[..i + 1] == flights[..i] + [flights[i]];
        AirfaresSnoc(flights[..i], flights[i]);
        TruncatedSumSnoc(Airfares(flights[..i]), flights[i].GetAirfare());
        sum := TruncateTowardZero(sum as real + flights[i].GetAirfare());
        i := i + 1;
      }
      assert flights[..i] == flights;
      average := if |flights| == 0 then None else Some(((sum % SizeModulus) / |flights|) as real);
    }

    /** The least airfare between two cities; None when no flight connects
        them, where the source returns its largest-double seed. */
    method FindMinFareBetweenCities(origin: string, destination: string) returns (least: Option<real>)
      ensures least == Least(Airfares(Filter(flights, Connects(origin, destination))))
    {
      var p := Connects(origin, destination);
      least := None;
      var i := 0;
      while i < |flights|
        invariant 0 <= i <= |flights|
        invariant least == Least(Airfares(Filter(flights[..i], p)))
      {
        var f := flights[i];
        SelectedAirfaresStep(flights, i, p);
        if p(f) {
          LeastSnoc(Airfares(Filter(flights[..i], p)), f.GetAirfare());
          if least.None? || f.GetAirfare() < least.value {
            least := Some(f.GetAirfare());
          }
        }
        i := i + 1;
      }
      assert flights[..i] == flights;
    }

    /** The greatest airfare of an operator; None when no flight of that
        operator has an airfare above the smallest positive double, where
        the source returns that seed. */
    method FindMaxFareByOperator(operator: string) returns (greatest: Option<real>)
      ensures greatest == GreatestAbove(Airfares(Filter(flights, HasOperator(operator))), SmallestPositiveDouble)
    {
      var p := HasOperator(operator);
      greatest := None;
      var i := 0;
      while i < |flights|
        invariant 0 <= i <= |flights|
        invariant greatest == GreatestAbove(Airfares(Filter(flights[..i], p)), SmallestPositiveDouble)
      {
        var f := flights[i];
        SelectedAirfaresStep(flights, i, p);
        if p(f) {
          GreatestAboveSnoc(Airfares(Filter(flights[..i], p)), f.GetAirfare(), SmallestPositiveDouble);
          if (greatest.None? && SmallestPositiveDouble < f.GetAirfare())
             || (greatest.Some? && greatest.value < f.GetAirfare()) {
            greatest := Some(f.GetAirfare());
          }
        }
        i := i + 1;
      }
      assert flights[..i] == flights;
    }
  }

  // ---------------------------------------------------------------------
  // How the operations relate
  // ---------------------------------------------------------------------

  /** A fare update by name touches one flight at most: the first with that
      name. Later flights with the same name, and all other flights, keep
      their airfare. With at most one flight of that name it is the same as
      updating every flight of that name. */
  lemma UpdateFareByTripTouchesFirstOnly(flights: seq<Flight>, name: string, airfare: real, j: nat)
    requires j < |flights|
    ensures var after := UpdateFirst(flights, HasName(name), WithAirfare(airfare));
      && |after| == |flights|
      && after[j] == if flights[j].GetName() == name && forall k | 0 <= k < j :: flights[k].GetName() != name
                     then flights[j].SetAirfare(airfare) else flights[j]
  {
    UpdateFirstAt(flights, HasName(name), WithAirfare(airfare), j);
  }

  /** The same for a fare update by operator. */
  lemma UpdateFareByOperatorTouchesFirstOnly(flights: seq<Flight>, operator: string, airfare: real, j: nat)
    requires j < |flights|
    ensures var after := UpdateFirst(flights, HasOperator(operator), WithAirfare(airfare));
      && |after| == |flights|
      && after[j] == if flights[j].GetOperator() == operator
                        && forall k | 0 <= k < j :: flights[k].GetOperator() != operator
                     then flights[j].SetAirfare(airfare) else flights[j]
  {
    UpdateFirstAt(flights, HasOperator(operator), WithAirfare(airfare), j);
  }

  /** With two flights of one name, the first-match update leaves the
      second at its old airfare, where the newer store would update both. */
  lemma DuplicateNameKeepsSecondFare(a: Flight, b: Flight, airfare: real)
    requires a.GetName() == b.GetName() && b.GetAirfare() != airfare
    ensures UpdateFirst([a, b], HasName(a.GetName()), WithAirfare(airfare)) == [a.SetAirfare(airfare), b]
    ensures UpdateWhere([a, b], HasName(a.GetName()), WithAirfare(airfare))
            != UpdateFirst([a, b], HasName(a.GetName()), WithAirfare(airfare))
  {
    FirstIndexAt([a, b], HasName(a.GetName()), 0);
    assert UpdateWhere([a, b], HasName(a.GetName()), WithAirfare(airfare))[1].GetAirfare() == airfare;
  }

  /** When names are unique, the first-match update by name agrees with
      updating every flight of that name. */
  lemma {:induction false} UniqueNamesUpdateAgree(flights: seq<Flight>, name: string, airfare: real)
    requires forall i, j | 0 <= i < j < |flights| :: flights[i].GetName() != flights[j].GetName()
    ensures UpdateFirst(flights, HasName(name), WithAirfare(airfare))
            == UpdateWhere(flights, HasName(name), WithAirfare(airfare))
  {
    UpdateFirstIsUpdateWhereWhenUnique(flights, HasName(name), WithAirfare(airfare));
  }

  /** After removing a name, finding that name gives nothing, and finding
      any other name gives what it gave before. */
  lemma {:induction false} RemoveThenFind(flights: seq<Flight>, removed: string, sought: string)
    ensures Filter(Filter(flights, NotNamed(removed)), HasName(removed)) == []
    ensures sought != removed ==>
      Filter(Filter(flights, NotNamed(removed)), HasName(sought)) == Filter(flights, HasName(sought))
  {
    FilterMembers(flights, NotNamed(removed));
    FilterNone(Filter(flights, NotNamed(removed)), HasName(removed));
    if sought != removed {
      FilterFilter(flights, NotNamed(removed), HasName(sought), HasName(sought));
    }
  }

  /** What the minimum query answers: nothing exactly when no flight
      connects the two cities, and otherwise the airfare of such a flight
      that no such flight undercuts. */
  lemma MinFareBetweenCities(flights: seq<Flight>, origin: string, destination: string)
    ensures var least := Least(Airfares(Filter(flights, Connects(origin, destination))));
      && (least.None? <==>
           forall f | f in flights :: !(f.GetOriginCity() == origin && f.GetDestinationCity() == destination))
      && (least.Some? ==>
           && (exists f | f in flights :: f.GetOriginCity() == origin && f.GetDestinationCity() == destination
                                        && f.GetAirfare() == least.value)
           && forall f | f in flights && f.GetOriginCity() == origin && f.GetDestinationCity() == destination ::
                least.value <= f.GetAirfare())
  {
    var p := Connects(origin, destination);
    SelectedAirfares(flights, p);
    if Airfares(Filter(flights, p)) != [] {
      LeastIsMinimum(Airfares(Filter(flights, p)));
    }
  }

  /** What the maximum query answers: nothing exactly when no flight of the
      operator has an airfare above the smallest positive double, and
      otherwise the airfare of such a flight that none of its flights
      exceeds. */
  lemma MaxFareByOperator(flights: seq<Flight>, operator: string)
    ensures var greatest := GreatestAbove(Airfares(Filter(flights, HasOperator(operator))), SmallestPositiveDouble);
      && (greatest.None? <==>
           forall f | f in flights && f.GetOperator() == operator :: f.GetAirfare() <= SmallestPositiveDouble)
      && (greatest.Some? ==>
           && (exists f | f in flights :: f.GetOperator() == operator && f.GetAirfare() == greatest.value)
           && forall f | f in flights && f.GetOperator() == operator :: f.GetAirfare() <= greatest.value)
  {
    SelectedAirfares(flights, HasOperator(operator));
    GreatestAboveIsMaximum(Airfares(Filter(flights, HasOperator(operator))), SmallestPositiveDouble);
  }

  /** An airfare is among the selected airfares exactly when a selected
      flight has it. */
  lemma SelectedAirfares(flights: seq<Flight>, p: Flight -> bool)
    ensures forall x | x in Airfares(Filter(flights, p)) :: exists f | f in flights :: p(f) && f.GetAirfare() == x
    ensures forall f | f in flights && p(f) :: f.GetAirfare() in Airfares(Filter(flights, p))
  {
    var sel := Filter(flights, p);
    FilterMembers(flights, p);
    forall x | x in Airfares(sel) ensures exists f | f in flights :: p(f) && f.GetAirfare() == x {
      var k :| 0 <= k < |sel| && Airfares(sel)[k] == x;
      assert sel[k] in sel;
    }
    forall f | f in flights && p(f) ensures f.GetAirfare() in Airfares(sel) {
      var k :| 0 <= k < |sel| && sel[k] == f;
      assert Airfares(sel)[k] == f.GetAirfare();
    }
  }
}
