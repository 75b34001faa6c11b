/**
 * The Boolean field value of src/types/boolean.rs: five accepted spellings
 * for each truth value, matched exactly.
 */
module Booleans {
  import opened Wrappers

  datatype Boolean = Boolean(value: bool)

  datatype BooleanParseError = BooleanParseError

  const TrueSpellings: set<string> := {"t", "T", "true", "True", "TRUE"}
  const FalseSpellings: set<string> := {"f", "F", "false", "False", "FALSE"}

  /** `from_str`: one of the listed spellings, character for character, or an error. */
  function FromStr(s: string): (r: Result<Boolean, BooleanParseError>)
    ensures r == Ok(Boolean(true)) <==> s in TrueSpellings
    ensures r == Ok(Boolean(false)) <==> s in FalseSpellings
    ensures r.Err? <==> s !in TrueSpellings && s !in FalseSpellings
  {
    match s
    case "t" => Ok(Boolean(true))
    case "T" => Ok(Boolean(true))
    case "true" => Ok(Boolean(true))
    case "True" => Ok(Boolean(true))
    case "TRUE" => Ok(Boolean(true))
    case "f" => Ok(Boolean(false))
    case "F" => Ok(Boolean(false))
    case "false" => Ok(Boolean(false))
    case "False" => Ok(Boolean(false))
    case "FALSE" => Ok(Boolean(false))
    case _ => Err(BooleanParseError)
  }

  /** The derived `Display` of the wrapped `bool`. */
  function Display(b: Boolean): (r: string)
    ensures |r| == if b.value then 4 else 5
  {
    if b.value then "true" else "false"
  }

  /** No spelling means both values, so a parse result is unique. */
  lemma SpellingsDisjoint()
    ensures TrueSpellings * FalseSpellings == {}
  {
  }

  /** Displayed booleans parse back to themselves. */
  lemma DisplayRoundTrip(b: Boolean)
    ensures FromStr(Display(b)) == Ok(b)
  {
  }

  /** Other casings of an accepted word are refused. */
  lemma OtherCasingsRejected()
    ensures FromStr("tRUE") == Err(BooleanParseError)
    ensures FromStr("fALSE") == Err(BooleanParseError)
    ensures FromStr("") == Err(BooleanParseError)
  {
  }
}
