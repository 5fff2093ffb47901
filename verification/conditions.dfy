/**
 * The condition side of the refresh worker: the table from Open-Meteo's WMO
 * weather codes (`current_weather.weathercode`) to display labels, and the
 * normalisation every fetched label goes through before it is compared and
 * stored.
 */
module Conditions {
  import opened Text

  const Unknown := "Unknown"

  /** The weather codes that have a label of their own. */
  const KnownCodes: set<int> := {0, 1, 2, 3, 45, 48, 51, 53, 55, 56, 57, 61, 63, 65, 66, 67,
                                 71, 73, 75, 77, 80, 81, 82, 85, 86, 95, 96, 99}

  /** Every label the table can produce. */
  const Labels: set<string> := {"Clear", "Clouds", "Fog", "Mist", "Drizzle", "Rain",
                                "Freezing Rain", "Snow", "Thunderstorm", Unknown}

  /** The labels after normalisation: the same, except that "Freezing Rain" loses its capital R. */
  const NormalLabels: set<string> := {"Clear", "Clouds", "Fog", "Mist", "Drizzle", "Rain",
                                      "Freezing rain", "Snow", "Thunderstorm", Unknown}

  /** The code table read by label: which codes each label stands for. */
  function CodesOf(text: string): set<int> {
    match text
    case "Clear" => {0}
    case "Clouds" => {1, 2, 3}
    case "Fog" => {45}
    case "Mist" => {48}
    case "Drizzle" => {51, 53, 55, 56, 57}
    case "Rain" => {61, 63, 65, 80, 81, 82}
    case "Freezing Rain" => {66, 67}
    case "Snow" => {71, 73, 75, 77, 85, 86}
    case "Thunderstorm" => {95, 96, 99}
    case _ => {}
  }

  /** The label for a weather code; every code not in the table, such as the missing-field default -1, is "Unknown". */
  function MapWeatherCodeToText(code: int): (text: string)
    ensures text in Labels
    ensures text == Unknown <==> code !in KnownCodes
  {
    if code == 0 then "Clear"
    else if code in {1, 2, 3} then "Clouds"
    else if code == 45 then "Fog"
    else if code == 48 then "Mist"
    else if code in {51, 53, 55, 56, 57} then "Drizzle"
    else if code in {61, 63, 65, 80, 81, 82} then "Rain"
    else if code in {66, 67} then "Freezing Rain"
    else if code in {71, 73, 75, 85, 86, 77} then "Snow"
    else if code in {95, 96, 99} then "Thunderstorm"
    else Unknown
  }

  /** The function agrees with the table read by label, in both directions. */
  lemma {:induction false} MapMatchesTable(code: int, text: string)
    requires text in Labels && text != Unknown
    ensures MapWeatherCodeToText(code) == text <==> code in CodesOf(text)
  {
    match text
    case "Clear" =>
    case "Clouds" =>
    case "Fog" =>
    case "Mist" =>
    case "Drizzle" =>
    case "Rain" =>
    case "Freezing Rain" =>
    case "Snow" =>
    case "Thunderstorm" =>
  }

  /** A string in normal form: its first character is not a lower-case letter and no later character is upper case. */
  predicate IsNormalForm(s: string) {
    && (s != [] ==> !IsLower(s[0]))
    && (forall i :: 1 <= i < |s| ==> !IsUpper(s[i]))
  }

  /** Lower-case the label, then title-case its first character. */
  function NormalizeCondition(raw: string): (r: string)
    ensures IsNormalForm(r)
    ensures Lower(r) == Lower(raw)
  {
    var lower := Lower(raw);
    if lower == [] then [] else
      var r := [TitleChar(lower[0])] + lower[1..];
      assert Lower(r) == lower by {
        forall i | 0 <= i < |r| ensures Lower(r)[i] == lower[i] {
          if i > 0 {
            assert r[i] == lower[i];
          }
        }
      }
      LowerIdempotent(raw);
      r
  }

  /** A string already in normal form is left unchanged. */
  lemma NormalFormIsFixed(s: string)
    requires IsNormalForm(s)
    ensures NormalizeCondition(s) == s
  {
    var lower := Lower(s);
    if s != [] {
      assert TitleChar(lower[0]) == s[0];
      assert lower[1..] == s[1..];
    }
  }

  /** Normalising twice is the same as normalising once. */
  lemma NormalizeIdempotent(raw: string)
    ensures NormalizeCondition(NormalizeCondition(raw)) == NormalizeCondition(raw)
  {
    NormalFormIsFixed(NormalizeCondition(raw));
  }

  /**
   * The normal form is determined by the letters alone: the normalised label
   * is the only normal-form string that equals `raw` up to case.
   */
  lemma NormalFormIsUnique(raw: string, s: string)
    requires IsNormalForm(s) && Lower(s) == Lower(raw)
    ensures s == NormalizeCondition(raw)
  {
    NormalFormIsFixed(s);
  }

  /** A first character that is not lower case, followed by a tail that lower-casing leaves alone, is in normal form. */
  lemma NormalFormByTail(s: string)
    requires s != [] && !IsLower(s[0]) && Lower(s[1..]) == s[1..]
    ensures IsNormalForm(s)
  {
    forall i | 1 <= i < |s| ensures !IsUpper(s[i]) {
      assert s[i] == s[1..][i - 1] == LowerChar(s[1..][i - 1]);
    }
  }

  /** Changing the case of one letter does not change the lower-case form. */
  lemma LowerIgnoresCaseAt(s: string, k: nat, c: char)
    requires k < |s| && LowerChar(c) == LowerChar(s[k])
    ensures Lower(s[k := c]) == Lower(s)
  {
  }

  lemma FreezingRainIsNormal()
    ensures IsNormalForm("Freezing rain")
  {
    assert "Freezing rain"[1..] == "reezing rain";
    assert Lower("reezing rain") == "reezing rain";
    NormalFormByTail("Freezing rain");
  }

  /** The one label of the table that normalisation changes. */
  lemma FreezingRainNormalized()
    ensures NormalizeCondition("Freezing Rain") == "Freezing rain"
  {
    assert "Freezing Rain"[9 := 'r'] == "Freezing rain";
    LowerIgnoresCaseAt("Freezing Rain", 9, 'r');
    FreezingRainIsNormal();
    NormalFormIsUnique("Freezing Rain", "Freezing rain");
  }

  /** Normalisation leaves every label of the table unchanged, except "Freezing Rain", which becomes "Freezing rain". */
  lemma {:induction false} NormalizeMappedLabel(code: int)
    ensures var text := MapWeatherCodeToText(code);
      NormalizeCondition(text) == if text == "Freezing Rain" then "Freezing rain" else text
    ensures NormalizeCondition(MapWeatherCodeToText(code)) in NormalLabels
  {
    var text := MapWeatherCodeToText(code);
    if text == "Freezing Rain" {
      FreezingRainNormalized();
    } else {
      assert text in Labels - {"Freezing Rain"};
      assert IsNormalForm(text);
      NormalFormIsFixed(text);
    }
  }
}
