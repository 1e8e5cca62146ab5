/** The trip store of flight_management/flight_trip_database.{h,cpp}: an
    ordered collection of trip records, changed in place by additions,
    removals and fare updates, and read by order-preserving finds and by
    fare aggregates. */
module TripDatabase {
  import opened Wrappers
  import opened Scans
  import opened FlightTrips

  /** The fares of the given trips, in order. */
  function Fares(trips: seq<FlightTrip>): seq<real>
  {
    seq(|trips|, i requires 0 <= i < |trips| => trips[i].fare)
  }

  lemma FaresSnoc(trips: seq<FlightTrip>, t: FlightTrip)
    ensures Fares(trips + [t]) == Fares(trips) + [t.fare]
  {
  }

  /** The trip records that a key selects. */
  function Named(name: string): FlightTrip -> bool
  {
    (t: FlightTrip) => t.name == name
  }

  function OperatedBy(operator: string): FlightTrip -> bool
  {
    (t: FlightTrip) => t.operatedBy == operator
  }

  function NotOperatedBy(operator: string): FlightTrip -> bool
  {
    (t: FlightTrip) => t.operatedBy != operator
  }

  function From(city: string): FlightTrip -> bool
  {
    (t: FlightTrip) => t.originCity == city
  }

  function Between(origin: string, destination: string): FlightTrip -> bool
  {
    (t: FlightTrip) => t.originCity == origin && t.destinationCity == destination
  }

  function NotNamed(name: string): FlightTrip -> bool
  {
    (t: FlightTrip) => t.name != name
  }

  /** The update that sets a trip's fare and leaves its other fields. */
  function WithFare(fare: real): FlightTrip -> FlightTrip
  {
    (t: FlightTrip) => t.(fare := fare)
  }

  class FlightTripDatabase {
    /** Every added trip that has not been removed, in insertion order. */
    var trips: seq<FlightTrip>

    constructor ()
      ensures trips == []
    {
      trips := [];
    }

    /** The number of stored trips. */
    function GetTotalTrips(): nat
      reads this
    {
      |trips|
    }

    /** Appends one record with the given fields; earlier records stay. */
    method AddTrip(name: string, operatedBy: string, origin: string, destination: string, fare: real)
      modifies this
      ensures trips == old(trips) + [FlightTrip(name, operatedBy, origin, destination, fare)]
      ensures GetTotalTrips() == old(GetTotalTrips()) + 1
    {
      trips := trips + [FlightTrip(name, operatedBy, origin, destination, fare)];
    }

    /** Removes every record with the given name; the survivors keep their
        order. A name that is not stored leaves the store as it is. */
    method RemoveTrip(name: string)
      modifies this
      ensures trips == Filter(old(trips), NotNamed(name))
      ensures (forall t | t in old(trips) :: t.name != name) ==> trips == old(trips)
    {
      var all := trips;
      var kept: seq<FlightTrip> := [];
      var i := 0;
      while i < |all|
        invariant 0 <= i <= |all|
        invariant kept == Filter(all[..i], NotNamed(name))
      {
        assert all[..i + 1] == all[..i] + [all[i]];
        FilterSnoc(all[..i], all[i], NotNamed(name));
        if all[i].name != name {
          kept := kept + [all[i]];
        }
        i := i + 1;
      }
      assert all[..i] == all;
      FilterIdentity(all, NotNamed(name));
      trips := kept;
    }

    /** Sets the fare of every record with the given name. */
    method UpdateFareByTrip(name: string, fare: real)
      modifies this
      ensures trips == UpdateWhere(old(trips), Named(name), WithFare(fare))
      ensures (forall t | t in old(trips) :: t.name != name) ==> trips == old(trips)
    {
      SetFareWhere(Named(name), fare);
    }

    /** Sets the fare of every record of the given operator. */
    method UpdateFareByOperator(operator: string, fare: real)
      modifies this
      ensures trips == UpdateWhere(old(trips), OperatedBy(operator), WithFare(fare))
      ensures (forall t | t in old(trips) :: t.operatedBy != operator) ==> trips == old(trips)
    {
      SetFareWhere(OperatedBy(operator), fare);
    }

    /** The in-place transform behind both fare updates: each record is
        rewritten where it stands. */
    method SetFareWhere(p: FlightTrip -> bool, fare: real)
      modifies this
      ensures trips == UpdateWhere(old(trips), p, WithFare(fare))
      ensures (forall t | t in old(trips) :: !p(t)) ==> trips == old(trips)
    {
      var i := 0;
      while i < |trips|
        invariant 0 <= i <= |trips| == |old(trips)|
        invariant forall j | 0 <= j < i ::
          trips[j] == if p(old(trips)[j]) then old(trips)[j].(fare := fare) else old(trips)[j]
        invariant forall j | i <= j < |trips| :: trips[j] == old(trips)[j]
      {
        if p(trips[i]) {
          trips := trips[i := trips[i].(fare := fare)];
        }
        i := i + 1;
      }
    }

    /** The records with the given name, in store order. */
    method FindFlightByNumber(name: string) returns (matches: seq<FlightTrip>)
      ensures matches == Filter(trips, Named(name))
    {
      matches := Select(Named(name));
    }

    /** The records leaving from the given city, in store order. */
    method FindFlightsByOriginCity(city: string) returns (matches: seq<FlightTrip>)
      ensures matches == Filter(trips, From(city))
    {
      matches := Select(From(city));
    }

    /** The copy-if behind both finds. */
    method Select(p: FlightTrip -> bool) returns (matches: seq<FlightTrip>)
      ensures matches == Filter(trips, p)
    {
      matches := [];
      var i := 0;
      while i < |trips|
        invariant 0 <= i <= |trips|
        invariant matches == Filter(trips[..i], p)
      {
        assert trips[..i + 1] == trips[..i] + [trips[i]];
        FilterSnoc(trips[..i], trips[i], p);
        if p(trips[i]) {
          matches := matches + [trips[i]];
        }
        i := i + 1;
      }
      assert trips[..i] == trips;
    }

    /** The mean fare over all records; None for an empty store, where the
        source divides zero by zero. */
    method FindAverageCostOfAllTrips() returns (average: Option<real>)
      ensures average == Average(Fares(trips))
    {
      var sum := 0.0;
      var i := 0;
      while i < |trips|
        invariant 0 <= i <= |trips|
        invariant sum == Sum(Fares(trips[..i]))
      {
        assert trips[..i + 1] == trips[..i] + [trips[i]];
        FaresSnoc(trips[..i], trips[i]);
        SumSnoc(Fares(trips[..i]), trips[i].fare);
        sum := sum + trips[i].fare;
        i := i + 1;
      }
      assert trips[..i] == trips;
      assert sum == Sum(Fares(trips));
      average := if |trips| == 0 then None else Some(sum / (|trips| as real));
    }

    /** The least fare between two cities; None when no record runs between
        them, where the source returns its largest-double seed. */
    method FindMinFareBetweenCities(origin: string, destination: string) returns (least: Option<real>)
      ensures least == Least(Fares(Filter(trips, Between(origin, destination))))
    {
      var p := Between(origin, destination);
      least := None;
      var i := 0;
      while i < |trips|
        invariant 0 <= i <= |trips|
        invariant least == Least(Fares(Filter(trips[..i], p)))
      {
        var t := trips[i];
        LeastStep(trips, i, p);
        if p(t) {
          if least.None? || t.fare < least.value {
            least := Some(t.fare);
          }
        }
        i := i + 1;
      }
      assert trips[..i] == trips;
    }

    /** The greatest fare of an operator; None when no record of that
        operator has a fare above the smallest positive double, where the
        source returns that seed. */
    method FindMaxFareByOperator(operator: string) returns (greatest: Option<real>)
      ensures greatest == GreatestAbove(Fares(Filter(trips, OperatedBy(operator))), SmallestPositiveDouble)
    {
      var p := OperatedBy(operator);
      greatest := None;
      var i := 0;
      while i < |trips|
        invariant 0 <= i <= |trips|
        invariant greatest == GreatestAbove(Fares(Filter(trips[..i], p)), SmallestPositiveDouble)
      {
        var t := trips[i];
        GreatestStep(trips, i, p);
        if p(t) {
          if (greatest.None? && SmallestPositiveDouble < t.fare) || (greatest.Some? && greatest.value < t.fare) {
            greatest := Some(t.fare);
          }
        }
        i := i + 1;
      }
      assert trips[..i] == trips;
    }
  }

  /** One more trip scanned: its fare joins the selected fares when the
      trip is selected. */
  lemma SelectedFaresStep(trips: seq<FlightTrip>, i: nat, p: FlightTrip -> bool)
    requires i < |trips|
    ensures Fares(Filter(trips[..i + 1], p)) ==
      if p(trips[i]) then Fares(Filter(trips[..i], p)) + [trips[i].fare] else Fares(Filter(trips[..i], p))
  {
    assert trips[..i + 1] == trips[..i] + [trips[i]];
    FilterSnoc(trips[..i], trips[i], p);
    FaresSnoc(Filter(trips[..i], p), trips[i]);
  }

  /** The running minimum after one more trip. */
  lemma LeastStep(trips: seq<FlightTrip>, i: nat, p: FlightTrip -> bool)
    requires i < |trips|
    ensures var before, f := Least(Fares(Filter(trips[..i], p))), trips[i].fare;
      Least(Fares(Filter(trips[..i + 1], p))) ==
        if !p(trips[i]) then before
        else if before.None? || f < before.value then Some(f)
        else before
  {
    SelectedFaresStep(trips, i, p);
    LeastSnoc(Fares(Filter(trips[..i], p)), trips[i].fare);
  }

  /** The running maximum after one more trip. */
  lemma GreatestStep(trips: seq<FlightTrip>, i: nat, p: FlightTrip -> bool)
    requires i < |trips|
    ensures var before, f := GreatestAbove(Fares(Filter(trips[..i], p)), SmallestPositiveDouble), trips[i].fare;
      GreatestAbove(Fares(Filter(trips[..i + 1], p)), SmallestPositiveDouble) ==
        if !p(trips[i]) then before
        else if (before.None? && SmallestPositiveDouble < f) || (before.Some? && before.value < f) then Some(f)
        else before
  {
    SelectedFaresStep(trips, i, p);
    GreatestAboveSnoc(Fares(Filter(trips[..i], p)), trips[i].fare, SmallestPositiveDouble);
  }

  /** A fare is among the selected fares exactly when a selected trip has it. */
  lemma SelectedFares(trips: seq<FlightTrip>, p: FlightTrip -> bool)
    ensures forall x | x in Fares(Filter(trips, p)) :: exists t | t in trips :: p(t) && t.fare == x
    ensures forall t | t in trips && p(t) :: t.fare in Fares(Filter(trips, p))
  {
    var sel := Filter(trips, p);
    FilterMembers(trips, p);
    forall x | x in Fares(sel) ensures exists t | t in trips :: p(t) && t.fare == x {
      var k :| 0 <= k < |sel| && Fares(sel)[k] == x;
      assert sel[k] in sel;
    }
    forall t | t in trips && p(t) ensures t.fare in Fares(sel) {
      var k :| 0 <= k < |sel| && sel[k] == t;
      assert Fares(sel)[k] == t.fare;
    }
  }

  /** What the minimum query answers: nothing exactly when no trip runs
      between the two cities, and otherwise the fare of such a trip that no
      such trip undercuts. */
  lemma MinFareBetweenCities(trips: seq<FlightTrip>, origin: string, destination: string)
    ensures var least := Least(Fares(Filter(trips, Between(origin, destination))));
      && (least.None? <==>
           forall t | t in trips :: !(t.originCity == origin && t.destinationCity == destination))
      && (least.Some? ==>
           && (exists t | t in trips :: t.originCity == origin && t.destinationCity == destination
                                       && t.fare == least.value)
           && forall t | t in trips && t.originCity == origin && t.destinationCity == destination ::
                least.value <= t.fare)
  {
    var p := Between(origin, destination);
    SelectedFares(trips, p);
    if Fares(Filter(trips, p)) != [] {
      LeastIsMinimum(Fares(Filter(trips, p)));
    }
  }

  /** What the maximum query answers: nothing exactly when no trip of the
      operator has a fare above the smallest positive double (the seed), and
      otherwise the fare of such a trip that no trip of the operator exceeds. */
  lemma MaxFareByOperator(trips: seq<FlightTrip>, operator: string)
    ensures var greatest := GreatestAbove(Fares(Filter(trips, OperatedBy(operator))), SmallestPositiveDouble);
      && (greatest.None? <==>
           forall t | t in trips && t.operatedBy == operator :: t.fare <= SmallestPositiveDouble)
      && (greatest.Some? ==>
           && (exists t | t in trips :: t.operatedBy == operator && t.fare == greatest.value)
           && forall t | t in trips && t.operatedBy == operator :: t.fare <= greatest.value)
  {
    SelectedFares(trips, OperatedBy(operator));
    GreatestAboveIsMaximum(Fares(Filter(trips, OperatedBy(operator))), SmallestPositiveDouble);
  }

  // ---------------------------------------------------------------------
  // How the operations relate
  // ---------------------------------------------------------------------

  /** After removing a name, finding that name gives nothing, and finding
      any other name gives what it gave before. */
  lemma {:induction false} RemoveThenFind(trips: seq<FlightTrip>, removed: string, sought: string)
    ensures Filter(Filter(trips, NotNamed(removed)), Named(removed)) == []
    ensures sought != removed ==>
      Filter(Filter(trips, NotNamed(removed)), Named(sought)) == Filter(trips, Named(sought))
  {
    FilterMembers(trips, NotNamed(removed));
    FilterNone(Filter(trips, NotNamed(removed)), Named(removed));
    if sought != removed {
      FilterFilter(trips, NotNamed(removed), Named(sought), Named(sought));
    }
  }

  /** Removal takes away exactly the records with the removed name, so the
      count drops by the number of such records. */
  lemma {:induction false} RemoveCount(trips: seq<FlightTrip>, name: string)
    ensures |Filter(trips, NotNamed(name))| == |trips| - |Filter(trips, Named(name))|
  {
    FilterPartition(trips, Named(name), NotNamed(name));
  }

  /** Removing a name a second time changes nothing. */
  lemma {:induction false} RemoveTwice(trips: seq<FlightTrip>, name: string)
    ensures Filter(Filter(trips, NotNamed(name)), NotNamed(name)) == Filter(trips, NotNamed(name))
  {
    FilterMembers(trips, NotNamed(name));
    FilterIdentity(Filter(trips, NotNamed(name)), NotNamed(name));
  }

  /** After a fare update by name, the records with that name are the old
      ones, in the same order, each with the new fare; the records with
      other names are found exactly as before. */
  lemma UpdateFareByTripEffect(trips: seq<FlightTrip>, name: string, fare: real)
    ensures var after := UpdateWhere(trips, Named(name), WithFare(fare));
      && |after| == |trips|
      && Filter(after, Named(name)) == UpdateWhere(Filter(trips, Named(name)), Named(name), WithFare(fare))
      && (forall t | t in Filter(after, Named(name)) :: t.fare == fare)
      && Filter(after, NotNamed(name)) == Filter(trips, NotNamed(name))
  {
    var after := UpdateWhere(trips, Named(name), WithFare(fare));
    FilterAfterUpdateWhere(trips, Named(name), WithFare(fare));
    FilterOthersAfterUpdateWhere(trips, Named(name), WithFare(fare), NotNamed(name));
    FilterMembers(trips, Named(name));
  }

  /** After a fare update by operator, that operator's records are the old
      ones, in the same order, each with the new fare; other operators'
      records are found exactly as before. */
  lemma UpdateFareByOperatorEffect(trips: seq<FlightTrip>, operator: string, fare: real)
    ensures var after := UpdateWhere(trips, OperatedBy(operator), WithFare(fare));
      && |after| == |trips|
      && Filter(after, OperatedBy(operator))
         == UpdateWhere(Filter(trips, OperatedBy(operator)), OperatedBy(operator), WithFare(fare))
      && (forall t | t in Filter(after, OperatedBy(operator)) :: t.fare == fare)
      && Filter(after, NotOperatedBy(operator)) == Filter(trips, NotOperatedBy(operator))
  {
    var after := UpdateWhere(trips, OperatedBy(operator), WithFare(fare));
    FilterAfterUpdateWhere(trips, OperatedBy(operator), WithFare(fare));
    FilterOthersAfterUpdateWhere(trips, OperatedBy(operator), WithFare(fare), NotOperatedBy(operator));
    FilterMembers(trips, OperatedBy(operator));
  }

  /** A fare update keeps every record's name, operator and cities where
      they were: the store differs only in fares. */
  lemma UpdateKeepsAllButFares(trips: seq<FlightTrip>, p: FlightTrip -> bool, fare: real)
    ensures var after := UpdateWhere(trips, p, WithFare(fare));
      |after| == |trips| && forall i | 0 <= i < |trips| :: after[i].(fare := trips[i].fare) == trips[i]
  {
  }

  /** The mean fare of the two-trip fixture of the unit tests (fares 4000
      and 3000) is 3500. */
  lemma UnitFixtureAverage()
    ensures Average(Fares([FlightTrip("6E-509", "Indigo", "Pune", "Delhi", 4000.0),
                           FlightTrip("AI-238", "AirIndia", "Mumbai", "Delhi", 3000.0)]))
            == Some(3500.0)
  {
    var xs := [4000.0, 3000.0];
    assert Fares([FlightTrip("6E-509", "Indigo", "Pune", "Delhi", 4000.0),
                  FlightTrip("AI-238", "AirIndia", "Mumbai", "Delhi", 3000.0)]) == xs;
    SumSnoc([4000.0], 3000.0);
    SumSnoc([], 4000.0);
    assert [] + [4000.0] == [4000.0] && [4000.0] + [3000.0] == xs;
  }
}

module TripDatabaseScenario {
  import opened Wrappers
  import opened Scans
  import opened FlightTrips
  import opened TripDatabase

  /** The acceptance walk-through: three trips stored, a fourth added and
      removed, one fare raised by name; the average, the cheapest
      Pune-Bengaluru fare and Indigo's highest fare then come out as the
      walk-through expects, and the store is back to three trips. */
  method AcceptanceWalkThrough() returns (count: nat, average: Option<real>, least: Option<real>, greatest: Option<real>)
    ensures count == 3
    ensures average == Some(4410.0)
    ensures least == Some(5000.0)
    ensures greatest == Some(5000.0)
  {
    var db := new FlightTripDatabase();
    db.AddTrip("AI-854", "AirIndia", "Pune", "Delhi", 5000.0);
    db.AddTrip("6E-702", "Indigo", "Pune", "Bengaluru", 3000.0);
    db.AddTrip("6E-302", "Indigo", "Mumbai", "Bengaluru", 3230.0);
    db.AddTrip("SJ-512", "SpiceJet", "Bengaluru", "Ahmedabad", 5000.0);
    assert db.trips == Before() + [FlightTrip("SJ-512", "SpiceJet", "Bengaluru", "Ahmedabad", 5000.0)];
    RemoveLast(db.trips);
    db.RemoveTrip("SJ-512");
    UpdateMiddle(db.trips);
    db.UpdateFareByTrip("6E-702", 5000.0);
    count := db.GetTotalTrips();
    average := db.FindAverageCostOfAllTrips();
    least := db.FindMinFareBetweenCities("Pune", "Bengaluru");
    greatest := db.FindMaxFareByOperator("Indigo");
    WalkThroughAverage();
    WalkThroughLeast();
    WalkThroughGreatest();
  }

  function Before(): seq<FlightTrip>
  {
    [FlightTrip("AI-854", "AirIndia", "Pune", "Delhi", 5000.0),
     FlightTrip("6E-702", "Indigo", "Pune", "Bengaluru", 3000.0),
     FlightTrip("6E-302", "Indigo", "Mumbai", "Bengaluru", 3230.0)]
  }

  function After(): seq<FlightTrip>
  {
    [FlightTrip("AI-854", "AirIndia", "Pune", "Delhi", 5000.0),
     FlightTrip("6E-702", "Indigo", "Pune", "Bengaluru", 5000.0),
     FlightTrip("6E-302", "Indigo", "Mumbai", "Bengaluru", 3230.0)]
  }

  /** Removing the fourth trip's name gives back the first three. */
  lemma RemoveLast(trips: seq<FlightTrip>)
    requires trips == Before() + [FlightTrip("SJ-512", "SpiceJet", "Bengaluru", "Ahmedabad", 5000.0)]
    ensures Filter(trips, NotNamed("SJ-512")) == Before()
  {
    FilterIdentity(Before(), NotNamed("SJ-512"));
    FilterSnoc(Before(), trips[3], NotNamed("SJ-512"));
  }

  /** Raising 6E-702's fare changes the middle record only. */
  lemma UpdateMiddle(trips: seq<FlightTrip>)
    requires trips == Before()
    ensures UpdateWhere(trips, Named("6E-702"), WithFare(5000.0)) == After()
  {
  }

  /** Filtering three records keeps the selected ones in order. */
  lemma FilterThree(x: FlightTrip, y: FlightTrip, z: FlightTrip, p: FlightTrip -> bool)
    ensures Filter([x, y, z], p) == (if p(x) then [x] else []) + (if p(y) then [y] else []) + (if p(z) then [z] else [])
  {
    FilterSnoc([], x, p);
    FilterSnoc([x], y, p);
    FilterSnoc([x, y], z, p);
    assert [] + [x] == [x] && [x] + [y] == [x, y] && [x, y] + [z] == [x, y, z];
  }

  /** The mean fare of the walk-through's final store. */
  lemma WalkThroughAverage()
    ensures Average(Fares(After())) == Some(4410.0)
  {
    assert Fares(After()) == [5000.0, 5000.0, 3230.0];
    SumSnoc([], 5000.0);
    SumSnoc([5000.0], 5000.0);
    SumSnoc([5000.0, 5000.0], 3230.0);
    assert [] + [5000.0] == [5000.0] && [5000.0] + [5000.0] == [5000.0, 5000.0];
    assert [5000.0, 5000.0] + [3230.0] == [5000.0, 5000.0, 3230.0];
  }

  /** The cheapest Pune-Bengaluru fare of the final store. */
  lemma WalkThroughLeast()
    ensures Least(Fares(Filter(After(), Between("Pune", "Bengaluru")))) == Some(5000.0)
  {
    var t := After();
    FilterThree(t[0], t[1], t[2], Between("Pune", "Bengaluru"));
    assert Filter(t, Between("Pune", "Bengaluru")) == [t[1]];
    assert Fares([t[1]]) == [5000.0];
    LeastSnoc([], 5000.0);
    assert [] + [5000.0] == [5000.0];
  }

  /** Indigo's highest fare in the final store. */
  lemma WalkThroughGreatest()
    ensures GreatestAbove(Fares(Filter(After(), OperatedBy("Indigo"))), SmallestPositiveDouble) == Some(5000.0)
  {
    var t := After();
    assert Fares(Filter(t, OperatedBy("Indigo"))) == [5000.0, 3230.0] by {
      FilterThree(t[0], t[1], t[2], OperatedBy("Indigo"));
      assert Filter(t, OperatedBy("Indigo")) == [t[1], t[2]];
    }
    assert GreatestAbove([5000.0, 3230.0], SmallestPositiveDouble) == Some(5000.0) by {
      GreatestAboveSnoc([], 5000.0, SmallestPositiveDouble);
      GreatestAboveSnoc([5000.0], 3230.0, SmallestPositiveDouble);
      assert [] + [5000.0] == [5000.0] && [5000.0] + [3230.0] == [5000.0, 3230.0];
    }
  }
}
