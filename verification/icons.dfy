/**
 * Icon resolution (`pickDrawableForConditionAndTheme`, which exists as two
 * identical copies, one in the provider and one in the worker): the theme
 * chooses a suffix, the lower-cased condition chooses a base name, and the
 * drawable `base + suffix` is looked up, falling back to the Malayalam
 * variant `base + "_ml"` when the themed one is not registered.
 *
 * The Android resource table is a parameter `registry`: a function from a
 * drawable name to its resource id, where 0 means "no such drawable".
 */
module Icons {
  import opened Wrappers
  import opened Text
  import opened Conditions

  const ThemeMalayalam := "malayalam"
  const ThemeBlackWhite := "black_white"
  const ThemeTransparent := "transparent"

  const DefaultSuffix := "_ml"
  const UnknownBase := "weather_unknown"

  /** No drawable: the value the registry returns for a name it does not know. */
  const NoIcon := 0

  /** The lower-cased condition names that have icons of their own, with the base name of each. */
  const IconBases: map<string, string> := map[
    "clear" := "weather_clear",
    "clouds" := "weather_clouds",
    "rain" := "weather_rain",
    "snow" := "weather_snow",
    "thunderstorm" := "weather_thunder",
    "drizzle" := "weather_drizzle",
    "fog" := "weather_fog",
    "mist" := "weather_mist"
  ]

  /** Every base name the table can give, the unknown icon included. */
  const BaseNames: set<string> := {"weather_clear", "weather_clouds", "weather_rain", "weather_snow",
                                   "weather_thunder", "weather_drizzle", "weather_fog", "weather_mist",
                                   UnknownBase}

  /** The theme preference read with its default: an unset theme is the Malayalam theme. */
  function ThemeOf(pref: Option<string>): (theme: string)
    ensures pref.None? ==> theme == ThemeMalayalam
    ensures pref.Some? ==> theme == pref.value
  {
    pref.GetOr(ThemeMalayalam)
  }

  /** The drawable-name suffix of a theme. */
  function Suffix(theme: string): (suffix: string)
    ensures suffix in {"_bw", "_tr", DefaultSuffix}
    ensures suffix == "_bw" <==> theme == ThemeBlackWhite
    ensures suffix == "_tr" <==> theme == ThemeTransparent
  {
    if theme == ThemeBlackWhite then "_bw"
    else if theme == ThemeTransparent then "_tr"
    else DefaultSuffix
  }

  /** The base drawable name of a condition: its lower-case form looked up in the icon table, `weather_unknown` when absent. */
  function BaseName(condition: string): (base: string)
    ensures base in BaseNames
  {
    var key := Lower(condition);
    if key in IconBases then IconBases[key] else UnknownBase
  }

  /** The eight recognised names give their own base name; every other name gives the unknown icon. */
  lemma BaseNameTable(condition: string)
    ensures Lower(condition) == "clear" ==> BaseName(condition) == "weather_clear"
    ensures Lower(condition) == "clouds" ==> BaseName(condition) == "weather_clouds"
    ensures Lower(condition) == "rain" ==> BaseName(condition) == "weather_rain"
    ensures Lower(condition) == "snow" ==> BaseName(condition) == "weather_snow"
    ensures Lower(condition) == "thunderstorm" ==> BaseName(condition) == "weather_thunder"
    ensures Lower(condition) == "drizzle" ==> BaseName(condition) == "weather_drizzle"
    ensures Lower(condition) == "fog" ==> BaseName(condition) == "weather_fog"
    ensures Lower(condition) == "mist" ==> BaseName(condition) == "weather_mist"
    ensures Lower(condition) !in {"clear", "clouds", "rain", "snow", "thunderstorm", "drizzle", "fog", "mist"}
      ==> BaseName(condition) == UnknownBase
  {
  }

  /** The lookup is case-insensitive: a condition and its lower-case form choose the same base name. */
  lemma BaseNameIgnoresCase(condition: string)
    ensures BaseName(Lower(condition)) == BaseName(condition)
  {
    LowerIdempotent(condition);
  }

  /** The drawable name tried first: the condition's base name with the theme's suffix. */
  function ThemedName(condition: string, theme: Option<string>): string {
    BaseName(condition) + Suffix(ThemeOf(theme))
  }

  /** The drawable name tried when the themed one is missing: the Malayalam variant of the same base. */
  function FallbackName(condition: string): string {
    BaseName(condition) + DefaultSuffix
  }

  /** The icon resource for a condition under the stored theme, falling back to the Malayalam icon. */
  function PickDrawable(condition: string, theme: Option<string>, registry: string -> int): (icon: int)
    ensures icon == registry(ThemedName(condition, theme)) || icon == registry(FallbackName(condition))
    ensures icon == NoIcon <==>
      registry(ThemedName(condition, theme)) == NoIcon && registry(FallbackName(condition)) == NoIcon
  {
    var themed := registry(ThemedName(condition, theme));
    if themed != NoIcon then themed else registry(FallbackName(condition))
  }

  /** A registered themed icon is always preferred over the fallback. */
  lemma ThemedIconPreferred(condition: string, theme: Option<string>, registry: string -> int)
    requires registry(ThemedName(condition, theme)) != NoIcon
    ensures PickDrawable(condition, theme, registry) == registry(ThemedName(condition, theme))
  {
  }

  /** Whenever the Malayalam variant is registered, some icon is found, whatever the theme. */
  lemma FallbackFindsIcon(condition: string, theme: Option<string>, registry: string -> int)
    requires registry(FallbackName(condition)) != NoIcon
    ensures PickDrawable(condition, theme, registry) != NoIcon
  {
  }

  /** Under the default theme (absent or any unrecognised value) the icon is the Malayalam variant. */
  lemma DefaultThemeUsesFallback(condition: string, theme: Option<string>, registry: string -> int)
    requires ThemeOf(theme) != ThemeBlackWhite && ThemeOf(theme) != ThemeTransparent
    ensures PickDrawable(condition, theme, registry) == registry(FallbackName(condition))
  {
  }

  /** Two conditions that differ only in case resolve to the same icon. */
  lemma PickDrawableIgnoresCase(a: string, b: string, theme: Option<string>, registry: string -> int)
    requires Lower(a) == Lower(b)
    ensures PickDrawable(a, theme, registry) == PickDrawable(b, theme, registry)
  {
  }

  /** The lower-case form of each label with an icon of its own is a key of the icon table. */
  lemma {:induction false} LabelHasIconKey(text: string)
    requires text in Labels - {"Freezing Rain", Unknown}
    ensures Lower(text) in IconBases
  {
    assert IsNormalForm(text);
    LowerOfCapitalised(text);
    match text
    case "Clear" => assert ['c'] + "lear" == "clear";
    case "Clouds" => assert ['c'] + "louds" == "clouds";
    case "Fog" => assert ['f'] + "og" == "fog";
    case "Mist" => assert ['m'] + "ist" == "mist";
    case "Drizzle" => assert ['d'] + "rizzle" == "drizzle";
    case "Rain" => assert ['r'] + "ain" == "rain";
    case "Snow" => assert ['s'] + "now" == "snow";
    case "Thunderstorm" => assert ['t'] + "hunderstorm" == "thunderstorm";
  }

  /**
   * Over the whole pipeline, a weather code gets the unknown icon exactly when it
   * has no label (an unlisted code) or is freezing rain (codes 66 and 67), whose
   * normalised label "Freezing rain" has no entry in the icon table.
   */
  lemma {:induction false} UnknownIconCodes(code: int)
    ensures BaseName(NormalizeCondition(MapWeatherCodeToText(code))) == UnknownBase
      <==> code !in KnownCodes || code in {66, 67}
  {
    var text := MapWeatherCodeToText(code);
    NormalizeMappedLabel(code);
    var normal := NormalizeCondition(text);
    assert Lower(normal) == Lower(text);
    if code in KnownCodes && code !in {66, 67} {
      LabelHasIconKey(text);
    } else {
      assert text in {"Freezing Rain", Unknown};
      assert Lower(normal) !in IconBases;
    }
  }
}
