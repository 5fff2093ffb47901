/**
 * Change detection in `doWork`: a fetched reading is compared with the last
 * persisted observation (`last_condition`, `last_temp`), and only a
 * significant change is stored and rendered.
 *
 * Temperatures are `Option<real>`: None is NaN, which is also what an unset
 * `last_temp` reads as. With that, the source's `abs(last - new) >= 1.0`
 * and its NaN behaviour are exact: an unset last temperature always counts
 * as a change, and an unset new temperature against a set last one never
 * does (NaN compares false).
 */
module ChangeDetection {
  import opened Wrappers
  import opened Conditions
  import opened Fetch

  /** A temperature move of at least this many degrees Celsius is significant. */
  const Threshold: real := 1.0

  function Abs(x: real): real {
    if x < 0.0 then -x else x
  }

  /**
   * `abs(last - new) >= 1.0`, with NaN on either side: an unset last
   * temperature is always a change, an unset new one against a set last
   * one never is, and otherwise the reading must leave the open interval of
   * one degree around the last one.
   */
  function TemperatureChanged(last: Option<real>, now: Option<real>): (changed: bool)
    ensures last.None? ==> changed
    ensures last.Some? && now.None? ==> !changed
    ensures last.Some? && now.Some? ==>
      (changed <==> now.value <= last.value - Threshold || last.value + Threshold <= now.value)
  {
    match last
    case None => true
    case Some(l) => now.Some? && Abs(l - now.value) >= Threshold
  }

  /** The stored condition is compared with exact string equality; an unset one always differs. */
  function ConditionChanged(last: Option<string>, now: string): (changed: bool)
    ensures changed <==> last.None? || last.value != now
  {
    last != Some(now)
  }

  /** The rule of `doWork`: a new condition or a temperature change is significant. */
  function IsSignificant(lastCondition: Option<string>, lastTemp: Option<real>, condition: string, temp: Option<real>): (significant: bool)
    ensures lastCondition.None? || lastTemp.None? ==> significant
    ensures temp.None? ==> (significant <==> lastCondition != Some(condition) || lastTemp.None?)
  {
    ConditionChanged(lastCondition, condition) || TemperatureChanged(lastTemp, temp)
  }

  /**
   * The other side of the rule: a reading is insignificant exactly when the
   * stored condition is the same, a last temperature is stored, and the new
   * temperature is unset or within a degree of it.
   */
  lemma InsignificantIff(lastCondition: Option<string>, lastTemp: Option<real>, condition: string, temp: Option<real>)
    ensures !IsSignificant(lastCondition, lastTemp, condition, temp) <==>
      && lastCondition == Some(condition)
      && lastTemp.Some?
      && (temp.None? || -1.0 < lastTemp.value - temp.value < 1.0)
  {
  }

  /** Examples: a move of less than a degree is ignored, a whole degree or a new label is not. */
  lemma SignificanceExamples()
    ensures !IsSignificant(Some("Clear"), Some(20.0), "Clear", Some(20.4))
    ensures IsSignificant(Some("Clear"), Some(20.0), "Clear", Some(21.0))
    ensures IsSignificant(Some("Clear"), Some(20.0), "Clouds", Some(20.0))
    ensures IsSignificant(Some("Clear"), Some(20.0), "Clear", Some(19.0))
    ensures forall c, t :: IsSignificant(Some(c), None, c, t)
  {
  }

  /** The three ways one cycle of `doWork` can go. */
  datatype Decision =
    | FetchFailed                                       // retry; nothing written, nothing rendered
    | NoSignificantChange                               // success; nothing written, nothing rendered
    | Persist(condition: string, temperatureC: Option<real>)  // write both keys, then render

  /** The decision of one cycle, given the stored observation and the outcome of the HTTP call. */
  function Decide(lastCondition: Option<string>, lastTemp: Option<real>, call: Outcome<HttpResponse>): (d: Decision)
    ensures d.FetchFailed? <==> !(call.Returned? && CarriesWeather(call.value))
    ensures d.Persist? ==> d.condition in NormalLabels
    ensures d.Persist? ==> IsSignificant(lastCondition, lastTemp, d.condition, d.temperatureC)
    ensures call.Returned? && CarriesWeather(call.value) ==>
      var current := call.value.body.value.currentWeather.value;
      var condition := NormalizeCondition(MapWeatherCodeToText(current.weathercode.GetOr(MissingCode)));
      && (d.Persist? <==> IsSignificant(lastCondition, lastTemp, condition, current.temperature))
      && (d.Persist? ==> d.condition == condition && d.temperatureC == current.temperature)
  {
    match FetchCurrentWeather(call)
    case Threw => FetchFailed
    case Returned(None) => FetchFailed
    case Returned(Some(w)) =>
      var condition := NormalizeCondition(w.condition);
      assert condition in NormalLabels by {
        var code :| MapWeatherCodeToText(code) == w.condition;
        NormalizeMappedLabel(code);
      }
      if IsSignificant(lastCondition, lastTemp, condition, w.temperatureC) then
        Persist(condition, w.temperatureC)
      else
        NoSignificantChange
  }

  /** A cycle that moves 0.2 degrees under the same clear sky changes nothing. */
  lemma NoiseIsIgnored()
    ensures Decide(Some("Clear"), Some(20.0),
                   Returned(HttpResponse(200, Some(Json(Some(CurrentWeather(Some(0), Some(20.2)))))))) == NoSignificantChange
  {
    assert MapWeatherCodeToText(0) == "Clear";
    NormalFormIsFixed("Clear");
  }

  /** The first reading against empty preferences, code 61 at 15.6 degrees, is stored as it arrived. */
  lemma FirstRainIsStored()
    ensures Decide(None, None,
                   Returned(HttpResponse(200, Some(Json(Some(CurrentWeather(Some(61), Some(15.6)))))))) == Persist("Rain", Some(15.6))
  {
    assert MapWeatherCodeToText(61) == "Rain";
    NormalFormIsFixed("Rain");
  }

  /** A server error is a failed fetch. */
  lemma ServerErrorFails()
    ensures Decide(Some("Clear"), Some(20.0), Returned(HttpResponse(503, None))) == FetchFailed
  {
  }

  /**
   * Running the cycle again on the same response after it persisted a reading
   * changes nothing more, unless the reading had no temperature: an unset
   * temperature is stored as NaN, so the same reading is significant again on
   * every cycle.
   */
  lemma RepeatedCycle(lastCondition: Option<string>, lastTemp: Option<real>, call: Outcome<HttpResponse>)
    requires Decide(lastCondition, lastTemp, call).Persist?
    ensures var d := Decide(lastCondition, lastTemp, call);
      Decide(Some(d.condition), d.temperatureC, call) == NoSignificantChange <==> d.temperatureC.Some?
  {
  }

  /** A stored condition written by a cycle is already normalised, so the next cycle compares like with like. */
  lemma PersistedConditionIsNormal(lastCondition: Option<string>, lastTemp: Option<real>, call: Outcome<HttpResponse>)
    requires Decide(lastCondition, lastTemp, call).Persist?
    ensures var c := Decide(lastCondition, lastTemp, call).condition;
      NormalizeCondition(c) == c
  {
    NormalizeIdempotent(Decide(lastCondition, lastTemp, call).condition);
  }
}
