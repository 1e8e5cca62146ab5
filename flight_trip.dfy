/** The trip record (flight_management/flight_trip.h) and its stream
    rendering. The text of a fare (a double written with the stream's
    default format) is supplied by the caller as `showFare`. */
module FlightTrips {

  /** One stored trip. The fare is a real number; the source's double
      rounding is not modelled. */
  datatype FlightTrip = FlightTrip(
    name: string,
    operatedBy: string,
    originCity: string,
    destinationCity: string,
    fare: real)

  const Opening := "FlightTrip{name: "

  /** The rendering of one trip: the five fields in the order name,
      operator, origin city, destination city, fare, each behind its fixed
      label, closed by a brace and a line break. */
  function Render(t: FlightTrip, showFare: real -> string): string
  {
    Opening + t.name + ", operator: " + t.operatedBy
      + ", origin_city: " + t.originCity + ", destination_city: " + t.destinationCity
      + ", fare: " + showFare(t.fare) + "}\n"
  }

  /** The rendering opens with the fixed label and the trip's name, and
      closes with a brace and a line break. */
  lemma RenderOpensAndCloses(t: FlightTrip, showFare: real -> string)
    ensures var r := Render(t, showFare);
      && |Opening + t.name| <= |r| && r[..|Opening + t.name|] == Opening + t.name
      && |r| >= 2 && r[|r| - 2..] == "}\n"
  {
  }

  /** The rendering of a list of trips: each trip behind a " (+) " marker,
      in sequence order; the empty list renders as nothing. */
  function RenderTrips(trips: seq<FlightTrip>, showFare: real -> string): (r: string)
    ensures trips == [] <==> r == ""
  {
    if trips == [] then ""
    else RenderTrips(trips[..|trips| - 1], showFare) + " (+) " + Render(trips[|trips| - 1], showFare)
  }

  /** Rendering a concatenation renders each part in turn. */
  lemma {:induction false} RenderTripsAppend(a: seq<FlightTrip>, b: seq<FlightTrip>, showFare: real -> string)
    ensures RenderTrips(a + b, showFare) == RenderTrips(a, showFare) + RenderTrips(b, showFare)
    decreases |b|
  {
    if b == [] {
      assert a + b == a;
    } else {
      var init, last := b[..|b| - 1], b[|b| - 1];
      assert (a + b)[..|a + b| - 1] == a + init;
      assert (a + b)[|a + b| - 1] == last;
      RenderTripsAppend(a, init, showFare);
      var ra, ri, rl := RenderTrips(a, showFare), RenderTrips(init, showFare), Render(last, showFare);
      calc {
        RenderTrips(a + b, showFare);
        RenderTrips(a + init, showFare) + " (+) " + rl;
        (ra + ri) + " (+) " + rl;
        { assert (ra + ri) + " (+) " + rl == ra + (ri + " (+) " + rl); }
        ra + (ri + " (+) " + rl);
        ra + RenderTrips(b, showFare);
      }
    }
  }

  /** A single trip renders as its marker followed by its own line. */
  lemma RenderTripsSingle(t: FlightTrip, showFare: real -> string)
    ensures RenderTrips([t], showFare) == " (+) " + Render(t, showFare)
  {
    assert [t][..0] == [];
  }
}
