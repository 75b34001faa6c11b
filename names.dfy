/**
 * The general-purpose name of src/types/name.rs and the naming restriction
 * shared by every name type: a name is non-empty and does not start with `_`,
 * the namespace InfluxDB reserves for itself.
 */
module InfluxNames {
  import opened Wrappers

  /** The naming restriction of InfluxDB: non-empty, and `_` is reserved as a first character. */
  predicate MeetsNamingRestriction(name: string) {
    name != [] && name[0] != '_'
  }

  datatype InfluxName = InfluxName(value: string)

  /** The rejected string travels with the error. */
  datatype MalformedNameError = MalformedNameError(name: string)

  /** `try_from`: accepts exactly the names meeting the restriction and stores them unchanged. */
  function TryFrom(value: string): (r: Result<InfluxName, MalformedNameError>)
    ensures r.Ok? <==> MeetsNamingRestriction(value)
    ensures r.Ok? ==> r.value.value == value
    ensures r.Err? ==> r.error == MalformedNameError(value)
  {
    if value == [] || value[0] == '_' then Err(MalformedNameError(value))
    else Ok(InfluxName(value))
  }

  /** `PartialEq<str>`: a name equals a string exactly when it stores that string. */
  function EqualsStr(n: InfluxName, other: string): (r: bool)
    ensures r <==> n.value == other
  {
    n.value == other
  }

  /** Every string in the reserved namespace is refused, whatever follows the `_`. */
  lemma ReservedNamespace(rest: string)
    ensures TryFrom(['_'] + rest) == Err(MalformedNameError(['_'] + rest))
  {
  }

  /** A name that was accepted once is accepted again from its stored string. */
  lemma TryFromStored(value: string)
    requires TryFrom(value).Ok?
    ensures TryFrom(TryFrom(value).value.value) == TryFrom(value)
  {
  }

  /** The cases of name.rs's documentation. */
  lemma DocumentedNames()
    ensures TryFrom("measurement").Ok? && EqualsStr(TryFrom("measurement").value, "measurement")
    ensures TryFrom("_bad") == Err(MalformedNameError("_bad"))
    ensures TryFrom("") == Err(MalformedNameError(""))
  {
  }
}
