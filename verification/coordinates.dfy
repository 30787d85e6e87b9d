/**
 * The latitude/longitude test shared by the floor-plan and point-of-interest schemas
 * (lib/validations/floorPlans.ts and lib/validations/pointOfInterest.ts define it
 * word for word). `parseFloat` is not modelled: the caller supplies what it makes of
 * a string.
 */
module Coordinates {
  import opened Wrappers
  import opened Strings

  /** The outcome of `parseFloat`: NaN, a finite number, or an infinity. */
  datatype ParsedNumber = NotANumber | Finite(value: real) | Infinite(positive: bool)

  /** Absent, empty or blank text passes; otherwise the parsed number must lie in [-bound, bound].
      NaN fails, and so does an infinity, which is outside every bound. */
  predicate CoordinateOk(text: Option<string>, parse: string -> ParsedNumber, bound: real) {
    if text.None? || Trim(text.value) == "" then true
    else
      match parse(text.value)
      case NotANumber => false
      case Finite(x) => -bound <= x <= bound
      case Infinite(_) => false
  }

  predicate LatitudeOk(text: Option<string>, parse: string -> ParsedNumber) {
    CoordinateOk(text, parse, 90.0)
  }

  predicate LongitudeOk(text: Option<string>, parse: string -> ParsedNumber) {
    CoordinateOk(text, parse, 180.0)
  }

  /** The latitude rule: blank passes; otherwise only a number in [-90, 90] passes. */
  lemma LatitudeRule(text: Option<string>, parse: string -> ParsedNumber)
    ensures text.None? || Trim(text.value) == "" ==> LatitudeOk(text, parse)
    ensures text.Some? && Trim(text.value) != "" ==>
      (LatitudeOk(text, parse) <==> parse(text.value).Finite? && -90.0 <= parse(text.value).value <= 90.0)
  {
  }

  /** The longitude rule: blank passes; otherwise only a number in [-180, 180] passes. */
  lemma LongitudeRule(text: Option<string>, parse: string -> ParsedNumber)
    ensures text.None? || Trim(text.value) == "" ==> LongitudeOk(text, parse)
    ensures text.Some? && Trim(text.value) != "" ==>
      (LongitudeOk(text, parse) <==> parse(text.value).Finite? && -180.0 <= parse(text.value).value <= 180.0)
  {
  }

  /** Every valid latitude is also a valid longitude, and the bounds themselves are included. */
  lemma LatitudeWithinLongitude(text: Option<string>, parse: string -> ParsedNumber)
    ensures LatitudeOk(text, parse) ==> LongitudeOk(text, parse)
  {
  }

  /** The blank test agrees with "every character is whitespace". */
  lemma BlankMeansWhitespaceOnly(text: string, parse: string -> ParsedNumber, bound: real)
    requires IsBlank(text)
    ensures CoordinateOk(Some(text), parse, bound)
  {
    TrimEmptyIffBlank(text);
  }
}
