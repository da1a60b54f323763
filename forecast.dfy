/**
 * The forecast provider: one Open-Meteo hourly forecast reduced to the
 * aggregates the decision uses.  The HTTP exchange is an input value.
 */
module Forecast {
  import opened Wrappers

  /** Number of leading hourly entries that are aggregated (`[0:3]`). */
  const Horizon: nat := 3
  /** Precipitation total above which rain is expected, in mm. */
  const RainThreshold: real := 0.1
  /** Precipitation total above which the rain probability flag is 100, in mm. */
  const HeavyRainThreshold: real := 0.5

  /** The `hourly` series of a parsed response. */
  datatype Hourly = Hourly(temperature: seq<real>, precipitation: seq<real>)

  /**
   * What one request yields: no connection at all, or an HTTP status with a
   * body that did (Some) or did not (None) parse into the two series.
   */
  datatype Response = Unreachable | Reply(status: int, body: Option<Hourly>)

  /** The dictionary the provider returns (before rounding). */
  datatype Summary = Summary(
    temperaturaMedia: real,
    volumeChuvaTotal: real,
    vaiChover: bool,
    probabilidadeChuva: int)

  function Sum(xs: seq<real>): real {
    if xs == [] then 0.0 else xs[0] + Sum(xs[1..])
  }

  /** Python's `xs[0:3]`: the first min(3, |xs|) entries. */
  function Window(xs: seq<real>): (w: seq<real>)
    ensures |w| == if |xs| < Horizon then |xs| else Horizon
    ensures w <= xs
  {
    if |xs| < Horizon then xs else xs[..Horizon]
  }

  /** `raise_for_status()` raises for client (4xx) and server (5xx) errors. */
  predicate IsHttpError(status: int) {
    400 <= status < 600
  }

  /**
   * `consultar_clima`: None whenever a step raises (no connection, HTTP
   * error, malformed body, or the mean of an empty temperature series).
   */
  function Consult(response: Response): (r: Option<Summary>)
    ensures r.None? <==>
      response.Unreachable? || IsHttpError(response.status) || response.body.None? ||
      response.body.value.temperature == []
    ensures r.Some? ==>
      var temps, rains := Window(response.body.value.temperature), Window(response.body.value.precipitation);
      r.value.temperaturaMedia * (|temps| as real) == Sum(temps) &&
      r.value.volumeChuvaTotal == Sum(rains) &&
      (r.value.vaiChover <==> Sum(rains) > RainThreshold) &&
      (r.value.probabilidadeChuva == 100 <==> Sum(rains) > HeavyRainThreshold) &&
      (r.value.probabilidadeChuva == 0 <==> Sum(rains) <= HeavyRainThreshold)
  {
    match response
    case Unreachable => None
    case Reply(status, body) =>
      if IsHttpError(status) || body.None? then None
      else
        var temps := Window(body.value.temperature);
        var rains := Window(body.value.precipitation);
        if |temps| == 0 then None  // ZeroDivisionError in the mean
        else Some(Summary(
          Sum(temps) / (|temps| as real),
          Sum(rains),
          Sum(rains) > RainThreshold,
          if Sum(rains) > HeavyRainThreshold then 100 else 0))
  }

  /** A 100 rain probability always comes with the rain flag set. */
  lemma ProbabilityImpliesRain(response: Response)
    requires Consult(response).Some?
    ensures Consult(response).value.probabilidadeChuva == 100 ==> Consult(response).value.vaiChover
  {
  }

  /** Entries past the third hour never influence the result. */
  lemma OnlyFirstHoursUsed(status: int, t1: seq<real>, p1: seq<real>, t2: seq<real>, p2: seq<real>)
    requires Window(t1) == Window(t2) && Window(p1) == Window(p2)
    ensures Consult(Reply(status, Some(Hourly(t1, p1)))) == Consult(Reply(status, Some(Hourly(t2, p2))))
  {
  }

  lemma {:induction false} SumBounds(xs: seq<real>, lo: real, hi: real)
    requires forall i :: 0 <= i < |xs| ==> lo <= xs[i] <= hi
    ensures lo * (|xs| as real) <= Sum(xs) <= hi * (|xs| as real)
  {
    if xs != [] {
      SumBounds(xs[1..], lo, hi);
      var n := |xs[1..]| as real;
      assert lo * (n + 1.0) == lo * n + lo;
      assert hi * (n + 1.0) == hi * n + hi;
    }
  }

  /** The mean temperature lies between the lowest and the highest aggregated temperature. */
  lemma MeanWithinRange(response: Response, lo: real, hi: real)
    requires Consult(response).Some?
    requires forall i :: 0 <= i < |Window(response.body.value.temperature)| ==>
      lo <= Window(response.body.value.temperature)[i] <= hi
    ensures lo <= Consult(response).value.temperaturaMedia <= hi
  {
    var temps := Window(response.body.value.temperature);
    var n := |temps| as real;
    var m := Consult(response).value.temperaturaMedia;
    SumBounds(temps, lo, hi);
    assert m * n == Sum(temps);
    assert (m - lo) * n >= 0.0;
    assert (hi - m) * n >= 0.0;
  }

  lemma {:induction false} SumNonNegative(xs: seq<real>)
    requires forall i :: 0 <= i < |xs| ==> xs[i] >= 0.0
    ensures Sum(xs) >= 0.0
  {
    if xs != [] {
      SumNonNegative(xs[1..]);
    }
  }

  /** With non-negative hourly precipitation the aggregated volume is non-negative. */
  lemma VolumeNonNegative(response: Response)
    requires Consult(response).Some?
    requires forall i :: 0 <= i < |response.body.value.precipitation| ==> response.body.value.precipitation[i] >= 0.0
    ensures Consult(response).value.volumeChuvaTotal >= 0.0
  {
    SumNonNegative(Window(response.body.value.precipitation));
  }
}
