/**
 * The library error enum of src/error.rs, without its human-facing messages.
 * `TypeConversion` is the variant the narrowing conversions of src/types/integer.rs
 * return; the enum as shown does not list it, so it is added here.
 */
module Errors {

  datatype InfluxLineError =
    | Failed
    | NoValue
    | NoMeasurement
    | NoFields
    | UnexpectedEscapeSymbol
    | UnescapedSpecialCharacter
    | NoWhitespaceDelimiter
    | NoQuoteDelimiter
    | SymbolsAfterClosedString
    | NameRestriction
    | IntegerNotParsed
    | UIntegerNotParsed
    | BooleanNotParsed
    | TimestampNotParsed
    | BadValue
    | DateTimeOutOfRange
    | TypeConversion
}
