/** The kinds of value a preference can hold and how user input is turned
    into each (PreferenceType.java). The registry holds preferences of
    different kinds side by side, so their values are one union type. */
module PreferenceTypes {
  import opened Results
  import InputValues

  datatype Value = Text(text: string) | Flag(flag: bool) | Number(number: int)

  /** A named conversion from input text to a value, or the exception it throws. */
  datatype PreferenceType = PreferenceType(name: string, converter: string -> Outcome<Value>)

  /** `convert(input)`: the type's converter applied to the input. */
  function Convert(t: PreferenceType, input: string): Outcome<Value> {
    t.converter(input)
  }

  /** The identity conversion of `TEXT`. */
  function TextConverter(input: string): (r: Outcome<Value>)
    ensures r.Ok? && r.value.Text? && r.value.text == input
  {
    Ok(Text(input))
  }

  const FlagWords: set<string> := {"on", "true", "yes", "off", "false", "no"}
  const TrueWords: set<string> := {"on", "true", "yes"}

  /** The conversion of `FLAG`: three words for true, three for false, matched
      exactly (case matters); anything else is rejected as invalid input. */
  function FlagConverter(input: string): (r: Outcome<Value>)
    ensures r.Ok? <==> input in FlagWords
    ensures r.Ok? ==> r.value == Flag(input in TrueWords)
    ensures r.Fail? ==> r.fault == InvalidInput
  {
    match input
    case "on" => Ok(Flag(true))
    case "true" => Ok(Flag(true))
    case "yes" => Ok(Flag(true))
    case "off" => Ok(Flag(false))
    case "false" => Ok(Flag(false))
    case "no" => Ok(Flag(false))
    case _ => Fail(InvalidInput)
  }

  /** The conversion of `NUMBER`, `Integer.parseInt`: optionally signed decimal
      digits within the 32-bit range, `NumberFormatException` otherwise. */
  function NumberConverter(input: string): (r: Outcome<Value>)
    ensures r.Ok? ==> r.value.Number? && InputValues.IntMin <= r.value.number <= InputValues.IntMax
    ensures r.Ok? ==> |input| > 0 && InputValues.AllDigits(input[1..])
    ensures r.Fail? ==> r.fault == NumberFormat
    ensures r.Ok? <==> (InputValues.WellFormedDecimal(input) &&
      InputValues.IntMin <= InputValues.DecimalValue(input) <= InputValues.IntMax)
    ensures r.Ok? ==> r.value == Number(InputValues.DecimalValue(input))
  {
    match InputValues.ParseDecimal(input, InputValues.IntMin, InputValues.IntMax)
    case Some(n) => Ok(Number(n))
    case None => Fail(NumberFormat)
  }

  const TEXT := PreferenceType("text", TextConverter)
  const FLAG := PreferenceType("flag", FlagConverter)
  const NUMBER := PreferenceType("number", NumberConverter)

  /** `TEXT` keeps the input as it is; `FLAG` does not fold case. */
  lemma BuiltInConversions(s: string)
    ensures Convert(TEXT, s) == Ok(Text(s))
    ensures Convert(FLAG, "yes") == Ok(Flag(true)) && Convert(FLAG, "off") == Ok(Flag(false))
    ensures Convert(FLAG, "TRUE") == Fail(InvalidInput) && Convert(FLAG, "1") == Fail(InvalidInput)
  {
  }

  /** Every number of the 32-bit range survives being written in decimal and
      converted by `NUMBER`; one past the range is rejected. */
  lemma NumberRoundTrip(n: int)
    requires InputValues.IntMin <= n <= InputValues.IntMax
    ensures Convert(NUMBER, InputValues.DecimalText(n)) == Ok(Number(n))
    ensures Convert(NUMBER, InputValues.DecimalText(InputValues.IntMax + 1)) == Fail(NumberFormat)
  {
    InputValues.ParseDecimalText(n, InputValues.IntMin, InputValues.IntMax);
    InputValues.IntegerOverflowIsEmpty();
  }

  /** `NUMBER` reads what `Integer.parseInt` reads: a plus sign and leading
      zeros are fine; a letter, a lone sign and the empty text are not. */
  lemma NumberConverterExamples()
    ensures Convert(NUMBER, "+7") == Ok(Number(7)) && Convert(NUMBER, "007") == Ok(Number(7))
    ensures Convert(NUMBER, "a") == Fail(NumberFormat) && Convert(NUMBER, "-") == Fail(NumberFormat)
    ensures Convert(NUMBER, "") == Fail(NumberFormat)
  {
    InputValues.AsIntegerExamples();
  }
}
