# Weather widget refresh pipeline, modelled in Dafny

This project models the refresh pipeline of an Android home-screen weather widget. It covers four parts:

- **Worker cycle.** `WeatherWorker.doWork` fetches the current weather for the stored coordinate from Open-Meteo. It maps the WMO weather code to a label and normalises the label. It then compares the reading with the last stored observation (`last_condition`, `last_temp`). Only on a significant change does it store the reading and re-render every widget.
- **Icon resolution.** `pickDrawableForConditionAndTheme` resolves icons with a fallback to the Malayalam icon set. The provider and the worker each hold a copy. `WeatherWorker.kt:151-180` and `MyWeatherWidgetProvider.kt:63-92` are statement for statement the same, differing only in line breaks and comments, and both are modelled by `Icons.PickDrawable`.
- **Width-dependent rendering.** A widget at least 300 dp wide gets the `widget_5x1` layout with the condition as its title. A narrower widget gets the icon-only `widget_2x1` layout.
- **Provider renders.** The provider's own renders draw from the stored condition: `updateSingleWidget`, `onUpdate` and `onAppWidgetOptionsChanged`.

Files and modules:

- `wrappers.dfy` (`Wrappers`): `Option` for nullable values and unset preference keys, and `Outcome` for a call that returns or throws.
- `text.dfy` (`Text`): `lowercase`/`titlecase` with `Locale.ROOT`, on ASCII letters.
- `conditions.dfy` (`Conditions`): `mapWeatherCodeToText`, `normalizeCondition`.
- `icons.dfy` (`Icons`): `pickDrawableForConditionAndTheme`. The Android resource table is a parameter `registry: string -> int`, where 0 means "no such drawable".
- `fetch.dfy` (`Fetch`): what `fetchCurrentWeather` makes of the HTTP response.
- `change.dfy` (`ChangeDetection`): the significance rule of `doWork` and the three-way decision of one cycle.
- `render.dfy` (`Render`): one widget update, and the ordered update sequences the loops produce.
- `platform.dfy` (`Platform`): the state the core changes, as classes. `Prefs` is the SharedPreferences file. `WidgetHost` is the app-widget manager: registered ids in order, reported minimum widths, the widgets whose update throws, and the log of accepted updates.
- `worker.dfy` (`Worker`): `doWork` and `updateWidgets` as methods of `WeatherWorker`.
- `provider.dfy` (`Provider`): `updateSingleWidget`, `onUpdate`, `onAppWidgetOptionsChanged`.

Temperatures are `Option<real>`. `None` stands for NaN, which is also what an unset `last_temp` reads as. With this choice the test `abs(last - new) >= 1.0` and its NaN behaviour are stated exactly:

- an unset last temperature always counts as a change;
- an unset new temperature against a set last temperature never counts as one.

Kotlin exceptions are modelled as values:

- **Fetch.** A transport failure or an unparsable body makes the fetch throw.
- **Per-widget failures.** A widget listed in `WidgetHost.failing` makes its own update throw.
- **Worker.** `updateWidgets` catches nothing. The first failing widget ends its loop, and `doWork` returns retry. By then the new observation has already been written.
- **Provider.** Each render catches its widget's exception and goes on with the next widget.

Behaviour of the code worth noting:

- **Condition comparison.** The stored condition is compared with exact string equality, not case-insensitively. The stored value is always normalised already (`ChangeDetection.PersistedConditionIsNormal`).
- **Unset new temperature.** A set last temperature against an unset new one is not a temperature change.
- **Freezing rain.** The table's label is `"Freezing Rain"`, which normalisation turns into `"Freezing rain"`. That name has no icon entry, so codes 66 and 67 show the unknown icon.
- **Stored temperature.** It is stored as fetched, not rounded.
- **Theme.** The theme is any stored string. Only `black_white` and `transparent` select their own suffix.
- **Fetch exceptions.** The fetch can throw, and `doWork` catches the exception and retries.
- **Widget failures in the worker.** They are not isolated per widget: one failure aborts the remaining renders of that cycle. A retry with the same reading that has a temperature is then insignificant and renders nothing. A retry with a reading without a temperature is significant again, because NaN was stored: it re-writes the preferences and re-renders (`ChangeDetection.RepeatedCycle`).

## Model

| member | source | states |
|---|---|---|
| `Conditions.MapWeatherCodeToText` | app/src/main/java/com/example/weatherwidget/WeatherWorker.kt:103-116 | total: every integer gets one of the ten labels, and "Unknown" exactly for the codes outside the table (including the default -1) |
| `Conditions.MapMatchesTable` | app/src/main/java/com/example/weatherwidget/WeatherWorker.kt:103-116 | for every label but "Unknown", a code maps to it iff the code is in that label's row of the table (both directions) |
| `Conditions.NormalizeCondition` | app/src/main/java/com/example/weatherwidget/WeatherWorker.kt:99-101 | the result has no lower-case first letter and no upper-case later letter, and equals the input up to case |
| `Conditions.NormalFormIsFixed` | app/src/main/java/com/example/weatherwidget/WeatherWorker.kt:99-101 | a string already in that normal form is returned unchanged |
| `Conditions.NormalizeIdempotent` | app/src/main/java/com/example/weatherwidget/WeatherWorker.kt:99-101 | normalising twice equals normalising once |
| `Conditions.NormalFormIsUnique` | app/src/main/java/com/example/weatherwidget/WeatherWorker.kt:99-101 | the normalised label is the only normal-form string equal to the input up to case |
| `Conditions.FreezingRainNormalized` | app/src/main/java/com/example/weatherwidget/WeatherWorker.kt:99-111 | "Freezing Rain" normalises to "Freezing rain" |
| `Conditions.NormalizeMappedLabel` | app/src/main/java/com/example/weatherwidget/WeatherWorker.kt:99-116 | normalisation is the identity on every label of the table except "Freezing Rain", which becomes "Freezing rain" |
| `Fetch.FetchCurrentWeather` | app/src/main/java/com/example/weatherwidget/WeatherWorker.kt:72-91 | it throws iff the call threw or a 2xx body is not JSON; it yields a reading iff the status is 2xx and the body has `current_weather`; otherwise (non-2xx, no body, no `current_weather`) it yields null; a reading's condition is a table label |
| `Fetch.IsSuccessful` | app/src/main/java/com/example/weatherwidget/WeatherWorker.kt:78 | a response is successful iff its status code is in the 2xx class |
| `Fetch.ReadingFields` | app/src/main/java/com/example/weatherwidget/WeatherWorker.kt:84-89 | a missing `weathercode` gives "Unknown", a present one its label; the temperature is passed through, a missing one staying unset |
| `ChangeDetection.InsignificantIff` | app/src/main/java/com/example/weatherwidget/WeatherWorker.kt:48-54 | a reading is insignificant iff the stored condition equals the new one, a last temperature is stored, and the new temperature is unset or less than 1.0 away |
| `ChangeDetection.SignificanceExamples` | app/src/main/java/com/example/weatherwidget/WeatherWorker.kt:51-54 | 20.0 to 20.4 under the same condition is not significant; 20.0 to 21.0 or 19.0, or a new condition, is; an unset last temperature always is |
| `ChangeDetection.TemperatureChanged` | app/src/main/java/com/example/weatherwidget/WeatherWorker.kt:49-51 | an unset last temperature is always a change; an unset new one against a set last one never is; otherwise a change iff the new value is at least 1.0 below or above the last |
| `ChangeDetection.ConditionChanged` | app/src/main/java/com/example/weatherwidget/WeatherWorker.kt:48-52 | the condition changed iff none is stored or the stored one differs from the new one |
| `ChangeDetection.IsSignificant` | app/src/main/java/com/example/weatherwidget/WeatherWorker.kt:48-54 | with nothing stored every reading is significant; a reading without a temperature is significant iff the condition changed or no last temperature is stored |
| `ChangeDetection.Decide` | app/src/main/java/com/example/weatherwidget/WeatherWorker.kt:36-63 | the cycle fails iff the call yields no reading; a reading is stored iff it is significant against the old observation; what is stored is the fetched temperature and the normalised label of the fetched code ("Unknown" for a missing code), which is a normalised label |
| `ChangeDetection.NoiseIsIgnored` | app/src/main/java/com/example/weatherwidget/WeatherWorker.kt:48-62 | code 0 at 20.2 against a stored ("Clear", 20.0) is no significant change |
| `ChangeDetection.FirstRainIsStored` | app/src/main/java/com/example/weatherwidget/WeatherWorker.kt:44-57 | code 61 at 15.6 against empty preferences stores ("Rain", 15.6), unrounded |
| `ChangeDetection.ServerErrorFails` | app/src/main/java/com/example/weatherwidget/WeatherWorker.kt:39-43 | an HTTP 503 response is a failed fetch |
| `ChangeDetection.RepeatedCycle` | app/src/main/java/com/example/weatherwidget/WeatherWorker.kt:48-57 | after a cycle stores a reading, the same response is a no-op on the next cycle iff the reading had a temperature (NaN is stored and re-triggers every cycle) |
| `ChangeDetection.PersistedConditionIsNormal` | app/src/main/java/com/example/weatherwidget/WeatherWorker.kt:44-57 | the condition a cycle stores is a fixed point of normalisation |
| `Icons.ThemeOf` | app/src/main/java/com/example/weatherwidget/MyWeatherWidgetProvider.kt:64 | an unset theme preference reads as `malayalam`; a set one is used as stored |
| `Icons.Suffix` | app/src/main/java/com/example/weatherwidget/MyWeatherWidgetProvider.kt:64-72 | "_bw" iff the theme is `black_white`, "_tr" iff `transparent`, "_ml" for every other theme |
| `Icons.BaseName` | app/src/main/java/com/example/weatherwidget/MyWeatherWidgetProvider.kt:65-85 | the base name is one of the nine drawable bases |
| `Icons.BaseNameTable` | app/src/main/java/com/example/weatherwidget/MyWeatherWidgetProvider.kt:75-85 | the table written out name by name: `clear`, `clouds`, `rain`, `snow`, `drizzle`, `fog` and `mist` give `weather_` plus that name, `thunderstorm` gives `weather_thunder`, and any other lower-case form gives `weather_unknown` |
| `Icons.BaseNameIgnoresCase` | app/src/main/java/com/example/weatherwidget/MyWeatherWidgetProvider.kt:65-85 | a condition and its lower-case form choose the same base |
| `Icons.PickDrawable` | app/src/main/java/com/example/weatherwidget/MyWeatherWidgetProvider.kt:63-92 | the icon is the registry entry of the themed name or of the `_ml` name, and it is 0 iff both are missing |
| `Icons.ThemedIconPreferred` | app/src/main/java/com/example/weatherwidget/MyWeatherWidgetProvider.kt:87-91 | a registered themed icon is the result |
| `Icons.FallbackFindsIcon` | app/src/main/java/com/example/weatherwidget/MyWeatherWidgetProvider.kt:87-91 | the result is nonzero whenever the `_ml` variant is registered, whatever the theme |
| `Icons.DefaultThemeUsesFallback` | app/src/main/java/com/example/weatherwidget/MyWeatherWidgetProvider.kt:64-91 | under an unset or unrecognised theme the result is `registry(base + "_ml")` |
| `Icons.PickDrawableIgnoresCase` | app/src/main/java/com/example/weatherwidget/WeatherWorker.kt:151-180 | conditions equal up to case resolve to the same icon |
| `Icons.LabelHasIconKey` | app/src/main/java/com/example/weatherwidget/WeatherWorker.kt:157-175 | every table label other than "Freezing Rain" and "Unknown" lower-cases to a key of the icon table |
| `Icons.UnknownIconCodes` | app/src/main/java/com/example/weatherwidget/WeatherWorker.kt:165-175 | after mapping and normalisation, a code gets `weather_unknown` iff it is outside the table or is 66/67 (freezing rain) |
| `Render.ShownCondition` | app/src/main/java/com/example/weatherwidget/MyWeatherWidgetProvider.kt:36 | the stored condition, or "Unknown" when none is stored |
| `Render.MinWidth` | app/src/main/java/com/example/weatherwidget/WeatherWorker.kt:127-128 | a widget's reported minimum width, 0 when its options do not carry one |
| `Render.Views` | app/src/main/java/com/example/weatherwidget/WeatherWorker.kt:126-147 | wide layout iff min width >= 300; a title iff wide, and then it is the condition; the icon is always set |
| `Render.SingleWidgetViews` | app/src/main/java/com/example/weatherwidget/MyWeatherWidgetProvider.kt:38-47 | `updateSingleWidget`'s update: always the wide layout, titled with the condition, with the given icon |
| `Render.SingleWidgetIgnoresWidth` | app/src/main/java/com/example/weatherwidget/MyWeatherWidgetProvider.kt:36-47 | `updateSingleWidget`'s update equals the width-aware one exactly when the widget is at least 300 dp wide |
| `Render.Renders` | app/src/main/java/com/example/weatherwidget/WeatherWorker.kt:126-148 | the updates for a list of widgets; it has one update per id (the element-wise content is the `Render.RendersAt` row) |
| `Render.RendersAt` | app/src/main/java/com/example/weatherwidget/WeatherWorker.kt:126-148 | the i-th update is the one for the i-th id at its own reported width: each widget exactly once, in order |
| `Render.RendersSnoc` | app/src/main/java/com/example/weatherwidget/MyWeatherWidgetProvider.kt:122-144 | rendering one more widget appends exactly its update |
| `Render.Surviving` | app/src/main/java/com/example/weatherwidget/MyWeatherWidgetProvider.kt:122-144 | the ids left after removing failing widgets, in order; never more than given (which ids survive is the `Render.SurvivingMembers` row, each step the `Render.SurvivingRendersStep` row) |
| `Render.SurvivingMembers` | app/src/main/java/com/example/weatherwidget/MyWeatherWidgetProvider.kt:122-144 | an id is updated iff it was given and does not fail: one failure does not stop the others |
| `Render.NothingFailingKeepsAll` | app/src/main/java/com/example/weatherwidget/MyWeatherWidgetProvider.kt:122-144 | without failures every given id is updated, in order |
| `Render.SurvivingRendersStep` | app/src/main/java/com/example/weatherwidget/MyWeatherWidgetProvider.kt:122-144 | one more loop iteration adds the widget's update, or nothing when it fails |
| `Render.FirstFailure` | app/src/main/java/com/example/weatherwidget/WeatherWorker.kt:118-148 | the position of the first failing widget (or the count): every widget before it succeeds |
| `Render.LastUpdateFor` | app/src/main/java/com/example/weatherwidget/MyWeatherWidgetProvider.kt:29-52 | what a widget displays: an update for that widget at a position of the log after which no update for it follows, i.e. the last one it received; nothing iff it received none |
| `Render.RepeatedUpdateIsIdempotent` | app/src/main/java/com/example/weatherwidget/MyWeatherWidgetProvider.kt:28-52 | pushing the same update twice displays the same as pushing it once |
| `Render.RoundShowsOnWidgets` | app/src/main/java/com/example/weatherwidget/WeatherWorker.kt:54-58 | after a full round every widget of the round displays its new update, whatever it showed before |
| `Platform.Prefs.PutObservation` | app/src/main/java/com/example/weatherwidget/WeatherWorker.kt:55-57 | one edit writes `last_condition` and `last_temp` together and leaves the theme alone |
| `Platform.WidgetHost.UpdateAppWidget` | app/src/main/java/com/example/weatherwidget/WeatherWorker.kt:147 | an update is appended to the host's log unless the widget fails, in which case nothing changes |
| `Worker.WeatherWorker.DoWork` | app/src/main/java/com/example/weatherwidget/WeatherWorker.kt:36-68 | fetch failure: retry, no write, no render; no significant change: success, no write, no render; significant: both keys written, then widgets updated in order up to the first failure, success iff none failed |
| `Worker.WeatherWorker.UpdateWidgets` | app/src/main/java/com/example/weatherwidget/WeatherWorker.kt:118-149 | the log gains exactly the updates of the registered widgets before the first failing one; completes iff none fails |
| `Provider.UpdateSingleWidget` | app/src/main/java/com/example/weatherwidget/MyWeatherWidgetProvider.kt:33-56 | preferences unchanged; one wide update titled with the stored condition ("Unknown" when unset), unless the widget fails |
| `Provider.OnUpdate` | app/src/main/java/com/example/weatherwidget/MyWeatherWidgetProvider.kt:118-145 | preferences unchanged; the log gains, in order, one width-aware update per given id that does not fail, from the stored condition or "Unknown" |
| `Provider.OnAppWidgetOptionsChanged` | app/src/main/java/com/example/weatherwidget/MyWeatherWidgetProvider.kt:147-177 | preferences unchanged; one update for the new width from the stored condition or "Unknown", unless the widget fails |

## Left out

- HTTP and JSON. The request is not modelled: the OkHttp call, the URL built from `lat`/`lon`, and the defaults `10.0159`/`76.3419`. Nor is JSON parsing. The model starts from a call outcome and a parsed body. `optInt`'s coercion of non-integer JSON values is folded into "present or absent".
- Floating point. Doubles and floats are reals. The `Float` narrowing at `putFloat` is not modelled, so a stored temperature is read back exactly.
- `formatTemperature`: it is never called.
- Scheduling. The WorkManager enqueue code in `onUpdate` and the periodic schedule in `App.kt` are operating-system plumbing.
- Concurrency. One cycle or render runs at a time; overlapping cycles are not modelled.
- Logging (`Log.*`, `printStackTrace`) has no effect on the state and is not modelled.
- Case mapping covers ASCII letters only. Every label and icon key is ASCII. Non-ASCII conditions would need the full Unicode tables.
- Layout resources. `RemoteViews` is reduced to (layout, icon, title). A failure of `setTextViewText` inside its own try is not modelled; the title is always set on the wide layout.
- The settings screen, the location flow and the permission request are not part of this model.
