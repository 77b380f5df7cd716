/** Normalisation of operator tokens into JsonLogic operator names. */
module Operators {

  /** `||` becomes `or`, `&&` becomes `and`; every other token is its own name. */
  function ProcessOp(operator: string): (r: string)
    ensures operator == "||" ==> r == "or"
    ensures operator == "&&" ==> r == "and"
    ensures operator != "||" && operator != "&&" ==> r == operator
    ensures r != "||" && r != "&&"
  {
    match operator
    case "||" => "or"
    case "&&" => "and"
    case _ => operator
  }

  /** Normalising a name a second time changes nothing. */
  lemma ProcessOpIdempotent(operator: string)
    ensures ProcessOp(ProcessOp(operator)) == ProcessOp(operator)
  {
  }
}
