/**
 * The widget provider's own renders, which draw from the stored observation
 * rather than from a fetch: `updateSingleWidget`, `onUpdate` and
 * `onAppWidgetOptionsChanged`. Each only reads the preferences, and each
 * catches every exception of a widget's update, so one failing widget never
 * stops the others.
 */
module Provider {
  import opened Icons
  import opened Render
  import opened Platform

  /** Renders one widget from the preferences, always on the wide layout with its title. */
  method UpdateSingleWidget(prefs: Prefs, host: WidgetHost, id: int, registry: string -> int)
    modifies host
    ensures unchanged(prefs)
    ensures host.log == old(host.log) +
      if id in host.failing then []
      else [SingleWidgetViews(id, ShownCondition(prefs.lastCondition), PickDrawable(ShownCondition(prefs.lastCondition), prefs.theme, registry))]
  {
    var lastCondition := ShownCondition(prefs.lastCondition);
    var iconRes := PickDrawable(lastCondition, prefs.theme, registry);
    var u := SingleWidgetViews(id, lastCondition, iconRes);
    var _ := host.UpdateAppWidget(u);
  }

  /**
   * Renders every widget the system names, in order, from the stored
   * condition; a widget whose update throws is skipped and the loop goes on.
   */
  method OnUpdate(prefs: Prefs, host: WidgetHost, appWidgetIds: seq<int>, registry: string -> int)
    modifies host
    ensures unchanged(prefs)
    ensures host.log == old(host.log) +
      Renders(Surviving(appWidgetIds, host.failing), ShownCondition(prefs.lastCondition),
        PickDrawable(ShownCondition(prefs.lastCondition), prefs.theme, registry), host.widths)
  {
    var lastCondition := ShownCondition(prefs.lastCondition);
    ghost var icon := PickDrawable(lastCondition, prefs.theme, registry);
    var i := 0;
    while i < |appWidgetIds|
      invariant i <= |appWidgetIds|
      invariant host.log == old(host.log) + Renders(Surviving(appWidgetIds[..i], host.failing), lastCondition, icon, host.widths)
    {
      var id := appWidgetIds[i];
      var iconRes := PickDrawable(lastCondition, prefs.theme, registry);
      var u := Views(id, lastCondition, iconRes, MinWidth(host.widths, id));
      SurvivingRendersStep(appWidgetIds, i, host.failing, lastCondition, icon, host.widths);
      var _ := host.UpdateAppWidget(u);
      i := i + 1;
    }
    assert appWidgetIds[..i] == appWidgetIds;
    assert lastCondition == ShownCondition(prefs.lastCondition);
    assert icon == PickDrawable(ShownCondition(prefs.lastCondition), prefs.theme, registry);
  }

  /** Re-renders one widget from the stored condition for the width in its new options. */
  method OnAppWidgetOptionsChanged(prefs: Prefs, host: WidgetHost, id: int, newMinWidth: int, registry: string -> int)
    modifies host
    ensures unchanged(prefs)
    ensures host.log == old(host.log) +
      if id in host.failing then []
      else [Views(id, ShownCondition(prefs.lastCondition), PickDrawable(ShownCondition(prefs.lastCondition), prefs.theme, registry), newMinWidth)]
  {
    var lastCondition := ShownCondition(prefs.lastCondition);
    var iconRes := PickDrawable(lastCondition, prefs.theme, registry);
    var u := Views(id, lastCondition, iconRes, newMinWidth);
    var _ := host.UpdateAppWidget(u);
  }
}
