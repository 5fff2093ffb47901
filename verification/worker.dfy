/**
 * The periodic refresh (`WeatherWorker.doWork`): fetch, normalise, compare
 * with the stored observation, and on a significant change store it and
 * re-render every widget. Kotlin exceptions are modelled explicitly: a fetch
 * that throws and an update that throws both end in retry, because `doWork`
 * catches every Throwable.
 */
module Worker {
  import opened Wrappers
  import opened Conditions
  import opened Fetch
  import opened ChangeDetection
  import opened Icons
  import opened Render
  import opened Platform

  /** The worker's result: `Result.success()` or `Result.retry()`. */
  datatype WorkResult = Success | Retry

  class WeatherWorker {
    const prefs: Prefs
    const host: WidgetHost

    constructor (prefs: Prefs, host: WidgetHost)
      ensures this.prefs == prefs && this.host == host
    {
      this.prefs := prefs;
      this.host := host;
    }

    /**
     * One cycle. A failed fetch retries and a reading without significant
     * change succeeds, both without writing or rendering anything. A
     * significant reading writes both observation keys in one edit and then
     * updates the registered widgets in order; when one of those updates
     * throws, the remaining widgets are not updated and the cycle retries,
     * with the new observation already stored.
     */
    method DoWork(call: Outcome<HttpResponse>, registry: string -> int) returns (result: WorkResult)
      modifies prefs, host
      ensures match Decide(old(prefs.lastCondition), old(prefs.lastTemp), call)
        case FetchFailed =>
          result == Retry && unchanged(prefs) && host.log == old(host.log)
        case NoSignificantChange =>
          result == Success && unchanged(prefs) && host.log == old(host.log)
        case Persist(condition, temperatureC) =>
          && prefs.lastCondition == Some(condition)
          && prefs.lastTemp == temperatureC
          && prefs.theme == old(prefs.theme)
          && var k := FirstFailure(host.ids, host.failing);
          && host.log == old(host.log) + Renders(host.ids[..k], condition, PickDrawable(condition, prefs.theme, registry), host.widths)
          && (result == Success <==> k == |host.ids|)
    {
      var weather := FetchCurrentWeather(call);
      if weather.Threw? || weather.value.None? {
        return Retry;
      }
      var condition := NormalizeCondition(weather.value.value.condition);
      var tempC := weather.value.value.temperatureC;

      var lastCondition := prefs.lastCondition;
      var lastTemp := prefs.lastTemp;
      var tempChanged := TemperatureChanged(lastTemp, tempC);
      var conditionChanged := ConditionChanged(lastCondition, condition);

      if conditionChanged || tempChanged {
        prefs.PutObservation(condition, tempC);
        var completed := UpdateWidgets(condition, registry);
        if !completed {
          return Retry;
        }
      }
      return Success;
    }

    /**
     * Pushes one update to each registered widget, in order: the wide layout
     * with the condition as title for widgets at least 300 dp wide, the
     * compact icon-only layout otherwise. Nothing catches an exception here,
     * so the first failing widget ends the loop.
     */
    method UpdateWidgets(condition: string, registry: string -> int) returns (completed: bool)
      modifies host
      ensures var k := FirstFailure(host.ids, host.failing);
        && host.log == old(host.log) + Renders(host.ids[..k], condition, PickDrawable(condition, prefs.theme, registry), host.widths)
        && (completed <==> k == |host.ids|)
    {
      var ids := host.ids;
      // Nothing below writes the preferences, so every iteration's lookup sees this theme.
      var theme := prefs.theme;
      ghost var icon := PickDrawable(condition, theme, registry);
      var i := 0;
      while i < |ids|
        invariant i <= FirstFailure(ids, host.failing)
        invariant host.log == old(host.log) + Renders(ids[..i], condition, icon, host.widths)
      {
        var iconRes := PickDrawable(condition, theme, registry);
        var u := Views(ids[i], condition, iconRes, MinWidth(host.widths, ids[i]));
        var delivered := host.UpdateAppWidget(u);
        if !delivered {
          assert theme == prefs.theme;
          return false;
        }
        assert ids[..i + 1][..i] == ids[..i];
        i := i + 1;
      }
      assert ids[..i] == ids;
      assert theme == prefs.theme;
      return true;
    }
  }
}
