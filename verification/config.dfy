/** The process settings and the foreign helpers the report routes consult:
    the administrator list, the verification threshold, `JSON.parse` and
    `JSON.stringify` (whose behaviour this model does not restate), and the
    block-explorer URL builder. */
module Config {
  import opened Wrappers
  import opened JsonValue
  import opened Text

  /** `AI_VERIFICATION_THRESHOLD`: unset or empty, a number, or text that
      `parseFloat` reads as `NaN`. */
  datatype ThresholdSetting = ThresholdUnset | ThresholdNumber(t: real) | ThresholdNaN

  const DefaultThreshold: real := 0.7

  datatype Env = Env(
    adminAddresses: string,
    threshold: ThresholdSetting,
    parse: string -> Option<Json>,
    stringify: Json -> string,
    explorerUrl: string -> string)

  /** The threshold a confidence is compared with; `None` when it is `NaN`,
      which no comparison satisfies. */
  function EffectiveThreshold(setting: ThresholdSetting): Option<real>
  {
    match setting
    case ThresholdUnset => Some(DefaultThreshold)
    case ThresholdNumber(t) => Some(t)
    case ThresholdNaN => None
  }

  /** `process.env.AI_VERIFICATION_THRESHOLD || "0.7"`: the text `parseFloat`
      is given, the default standing in for a missing or empty variable. */
  function ThresholdText(raw: Option<string>): string
  {
    if raw.Some? && |raw.value| > 0 then raw.value else "0.7"
  }

  /** The setting a variable's text amounts to: unset when missing or empty,
      otherwise what `parseFloat` makes of it. */
  function ReadThreshold(raw: Option<string>): ThresholdSetting
  {
    if raw.None? || |raw.value| == 0 then ThresholdUnset
    else match ParseFloat(raw.value)
      case Some(t) => ThresholdNumber(t)
      case None => ThresholdNaN
  }

  /** The threshold the route compares with is `parseFloat` of the variable's
      text or of the default text: the three-way setting loses nothing. */
  lemma ThresholdIsParsedText(raw: Option<string>)
    ensures EffectiveThreshold(ReadThreshold(raw)) == ParseFloat(ThresholdText(raw))
  {
    if raw.None? || |raw.value| == 0 {
      DefaultTextReads(ThresholdText(raw));
    }
  }

  /** The default text reads as the default threshold. */
  lemma DefaultTextReads(t: string)
    requires t == "0.7"
    ensures ParseFloat(t) == Some(DefaultThreshold)
  {
    assert t[..1] == "0" && t[2..] == "7";
    DefaultDigits();
    ParseFloatDecimal(t, 1);
  }

  /** The digits either side of the point in "0.7". */
  lemma DefaultDigits()
    ensures AllDigits("0") && DigitsValue("0") == 0
    ensures AllDigits("7") && FractionValue("7") == DefaultThreshold
  {
    assert "0"[..0] == [] && "7"[..0] == [];
    assert DigitsValue("7") == 7;
    assert Pow10(1) == 10;
  }

  /** A missing variable, an empty one and the text "0.7" all give the
      threshold 0.7. */
  lemma UnsetReadsAsDefault()
    ensures EffectiveThreshold(ReadThreshold(None)) == Some(DefaultThreshold)
    ensures EffectiveThreshold(ReadThreshold(Some(""))) == Some(DefaultThreshold)
    ensures EffectiveThreshold(ReadThreshold(Some("0.7"))) == Some(DefaultThreshold)
  {
    ThresholdIsParsedText(Some("0.7"));
    ThresholdIsParsedText(None);
  }

  /** Text that starts with a letter reads as `NaN`, so no confidence
      clears it. */
  lemma WordReadsAsNaN(raw: string)
    requires |raw| > 0 && ('a' <= raw[0] <= 'z' || 'A' <= raw[0] <= 'Z')
    ensures EffectiveThreshold(ReadThreshold(Some(raw))).None?
  {
    ParseFloatNaN(raw);
  }
}
