/**
 * What `fetchCurrentWeather` makes of the HTTP exchange with Open-Meteo's
 * forecast endpoint (`current_weather=true`). The request itself, the URL
 * built from the stored coordinate and the JSON parser are outside the
 * model: the call arrives as an `Outcome` that either threw (a transport
 * failure) or returned a response whose body is either unparsable or a JSON
 * object, of which only the `current_weather` member and its `weathercode`
 * and `temperature` fields matter.
 */
module Fetch {
  import opened Wrappers
  import opened Conditions

  /** The `current_weather` object; a field that is absent or of the wrong type reads as None. */
  datatype CurrentWeather = CurrentWeather(weathercode: Option<int>, temperature: Option<real>)

  /** A response body: text that is not a JSON object, or a JSON object with or without `current_weather`. */
  datatype Body = Unparsable | Json(currentWeather: Option<CurrentWeather>)

  datatype HttpResponse = HttpResponse(code: int, body: Option<Body>)

  /** One reading; a temperature of None stands for NaN. */
  datatype WeatherResult = WeatherResult(condition: string, temperatureC: Option<real>)

  /** The code `optInt` falls back to when `weathercode` is missing. */
  const MissingCode := -1

  /** OkHttp's `isSuccessful`: a status code in the 2xx range. */
  function IsSuccessful(code: int): (ok: bool)
    ensures ok <==> code / 100 == 2
  {
    200 <= code < 300
  }

  /** The body of a successful response, when it carries a `current_weather` object. */
  predicate CarriesWeather(resp: HttpResponse) {
    IsSuccessful(resp.code) && resp.body.Some? && resp.body.value.Json? && resp.body.value.currentWeather.Some?
  }

  /**
   * The reading extracted from one call: an exception when the call threw or
   * the body is not JSON, null when the status is not 2xx, the body is absent
   * or `current_weather` is missing, and otherwise a reading whose condition
   * is a label of the code table.
   */
  function FetchCurrentWeather(call: Outcome<HttpResponse>): (r: Outcome<Option<WeatherResult>>)
    ensures r.Threw? <==>
      call.Threw? || (IsSuccessful(call.value.code) && call.value.body == Some(Unparsable))
    ensures r.Returned? && r.value.Some? <==> call.Returned? && CarriesWeather(call.value)
    ensures r.Returned? && r.value.Some? ==> r.value.value.condition in Labels
  {
    match call
    case Threw => Threw
    case Returned(resp) =>
      if !IsSuccessful(resp.code) then Returned(None)
      else
        match resp.body
        case None => Returned(None)
        case Some(Unparsable) => Threw
        case Some(Json(None)) => Returned(None)
        case Some(Json(Some(current))) =>
          var code := current.weathercode.GetOr(MissingCode);
          Returned(Some(WeatherResult(MapWeatherCodeToText(code), current.temperature)))
  }

  /**
   * A reading carries the label of its code and the temperature as sent; a
   * missing `weathercode` gives "Unknown" and a missing `temperature` an
   * unset temperature.
   */
  lemma ReadingFields(code: int, current: CurrentWeather)
    requires IsSuccessful(code)
    ensures var r := FetchCurrentWeather(Returned(HttpResponse(code, Some(Json(Some(current))))));
      && r.Returned? && r.value.Some?
      && (current.weathercode.None? ==> r.value.value.condition == Unknown)
      && (current.weathercode.Some? ==> r.value.value.condition == MapWeatherCodeToText(current.weathercode.value))
      && r.value.value.temperatureC == current.temperature
  {
    assert MapWeatherCodeToText(MissingCode) == Unknown;
  }
}
