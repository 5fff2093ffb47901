/**
 * The two pieces of Android state the core touches, as objects whose fields
 * the core updates: the widget's SharedPreferences and the app-widget host.
 */
module Platform {
  import opened Wrappers
  import opened Render

  /**
   * The preferences file "weather_widget_prefs", restricted to the keys the
   * core uses. The coordinate keys `lat` and `lon` only feed the request URL
   * and are not part of the model.
   */
  class Prefs {
    /** "last_condition"; None when the key is unset. */
    var lastCondition: Option<string>
    /** "last_temp"; None when the key is unset or holds NaN, which read the same. */
    var lastTemp: Option<real>
    /** "pref_widget_theme"; written only by the settings screen. */
    var theme: Option<string>

    constructor (lastCondition: Option<string>, lastTemp: Option<real>, theme: Option<string>)
      ensures this.lastCondition == lastCondition && this.lastTemp == lastTemp && this.theme == theme
    {
      this.lastCondition := lastCondition;
      this.lastTemp := lastTemp;
      this.theme := theme;
    }

    /** One `edit()` that puts both observation keys and applies them together. */
    method PutObservation(condition: string, temperatureC: Option<real>)
      modifies this
      ensures lastCondition == Some(condition) && lastTemp == temperatureC
      ensures theme == old(theme)
    {
      lastCondition := Some(condition);
      lastTemp := temperatureC;
    }
  }

  /**
   * The app-widget manager as seen by this provider: the registered widget
   * ids in order, the minimum width each widget's options report, the widgets
   * whose update throws (reading their options or delivering their views),
   * and the log of updates it has accepted.
   */
  class WidgetHost {
    const ids: seq<int>
    const widths: map<int, int>
    const failing: set<int>
    var log: seq<WidgetUpdate>

    constructor (ids: seq<int>, widths: map<int, int>, failing: set<int>)
      ensures this.ids == ids && this.widths == widths && this.failing == failing
      ensures log == []
    {
      this.ids := ids;
      this.widths := widths;
      this.failing := failing;
      log := [];
    }

    /** `updateAppWidget`: accepts the update, or throws (reported as `delivered == false`) for a failing widget. */
    method UpdateAppWidget(u: WidgetUpdate) returns (delivered: bool)
      modifies this
      ensures delivered <==> u.id !in failing
      ensures log == if delivered then old(log) + [u] else old(log)
    {
      delivered := u.id !in failing;
      if delivered {
        log := log + [u];
      }
    }
  }
}
