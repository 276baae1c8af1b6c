/** The recoverable failures that replace the source's `panic!` and `unwrap` calls. */
module Errors {

  datatype ParseError =
      /** A character that is not one of `.`, `X`, `O` in either case. */
    | InvalidCell(ch: char)
      /** A cell character was expected but the text ended first. */
    | MissingSymbol
      /** A field that should hold a non-negative decimal integer does not. */
    | InvalidNumber(text: string)
      /** A termination rule with a number of comma-separated fields other than 1, 2 or 3. */
    | FieldCount(count: nat)
      /** An output selector that names no known report. */
    | Unsupported(text: string)
}
