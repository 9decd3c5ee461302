/** The weather reading source: one snowfall reading per monitored city. */
module Weather {
  import opened Results
  import Decimal

  datatype City = City(name: string, lat: real, lon: real)

  /** A reading; `snowfall` is in tenths of an inch, `date` a timestamp. */
  datatype Reading = Reading(city: string, snowfall: int, date: int)

  /** Why a weather fetch failed; the dispatcher only passes it on. */
  datatype FetchError = FetchError(message: string)

  const MonitoredCities: seq<City> := [
    City("City 1", 42.3601, -71.0589),
    City("City 2", 41.8781, -87.6298),
    City("City 3", 40.7128, -74.0060),
    City("City 4", 39.9526, -75.1652),
    City("City 5", 47.6062, -122.3321),
    City("City 6", 37.7749, -122.4194),
    City("City 7", 34.0522, -118.2437),
    City("City 8", 25.7617, -80.1918)
  ]

  /** The mock readings: city `k` gets the `k`-th random draw, rounded to tenths
      of at most eight inches, stamped with the clock read for it. */
  function MockReadings(cities: seq<City>, draw: nat -> real, clock: nat -> int): (rs: seq<Reading>)
    ensures |rs| == |cities|
    ensures forall k :: 0 <= k < |rs| ==>
      rs[k].city == cities[k].name && rs[k].date == clock(k) &&
      rs[k].snowfall == Decimal.SnowfallTenths(draw(k))
  {
    if cities == [] then []
    else
      MockReadings(cities[..|cities| - 1], draw, clock)
        + [Reading(cities[|cities| - 1].name, Decimal.SnowfallTenths(draw(|cities| - 1)), clock(|cities| - 1))]
  }

  /** Every mock reading lies between 0 and 8 inches when the draws are those of `Math.random()`. */
  lemma MockSnowfallInRange(cities: seq<City>, draw: nat -> real, clock: nat -> int)
    requires forall k :: 0.0 <= draw(k) < 1.0
    ensures forall r :: r in MockReadings(cities, draw, clock) ==> 0 <= r.snowfall <= 80
  {
    var rs := MockReadings(cities, draw, clock);
    forall r | r in rs ensures 0 <= r.snowfall <= 80 {
      var k :| 0 <= k < |rs| && rs[k] == r;
      assert 0.0 <= draw(k) < 1.0;
    }
  }

  /** `getWeatherForAllCities`: rethrows the error it caught, or yields the mock
      reading of every monitored city, in the order of the list. */
  function GetWeatherForAllCities(draw: nat -> real, clock: nat -> int, failure: Option<FetchError>): (r: Result<seq<Reading>, FetchError>)
    ensures failure.Some? <==> r.Failure?
    ensures failure.Some? ==> r == Failure(failure.value)
    ensures r.Success? ==> |r.value| == |MonitoredCities|
    ensures r.Success? ==> forall k :: 0 <= k < |r.value| ==>
      r.value[k].city == MonitoredCities[k].name && r.value[k].date == clock(k) &&
      r.value[k].snowfall == Decimal.SnowfallTenths(draw(k))
  {
    match failure
    case Some(e) => Failure(e)
    case None => Success(MockReadings(MonitoredCities, draw, clock))
  }
}
