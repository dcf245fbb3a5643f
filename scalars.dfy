/** convertValueToString: the text a literal's value is rendered as. */
module Scalars {
  import opened Syntax

  /** A number keeps the text the big-float formatter gives it, a string its own
      content, a bool its `%v` word; every other type becomes "" (the source also
      prints a warning, which this model does not keep). */
  function ConvertValueToString(val: CtyValue): string {
    match val
    case NumberVal(formatted) => formatted
    case StringVal(text) => text
    case BoolVal(b) => if b then "true" else "false"
    case OtherVal(_) => ""
  }

  /** Reads back the two words `%v` prints for a bool. */
  function ParseBool(s: string): (r: Option<bool>)
    ensures r.Some? <==> s == "true" || s == "false"
  {
    if s == "true" then Some(true) else if s == "false" then Some(false) else None
  }

  /** A string literal is rendered unchanged, a bool as a word that reads back
      as the same bool, and any unsupported type as the empty string. */
  lemma ScalarForms(val: CtyValue)
    ensures val.StringVal? ==> ConvertValueToString(val) == val.text
    ensures val.BoolVal? ==> ParseBool(ConvertValueToString(val)) == Some(val.b)
    ensures val.NumberVal? ==> ConvertValueToString(val) == val.formatted
    ensures val.OtherVal? ==> ConvertValueToString(val) == ""
  {
  }
}
