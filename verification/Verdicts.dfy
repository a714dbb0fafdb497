/** Verdicts of code outside this model: range syntax, file openability and the
    page-label grammar, each a fixed function of its argument. */
module Verdicts {
  import opened Tokens

  datatype RangeVerdict = ValidRange | BadRange | OtherFailure

  datatype Environment = Environment(
    numrange: Token -> RangeVerdict,
    pageRange: Token -> bool,
    opens: Token -> bool,
    pageLabels: seq<Token> -> bool)
}
