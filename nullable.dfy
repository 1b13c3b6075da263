/**
 * PHP's nullable values, as the session persistence code uses them: a value
 * that may be `null`, the loose comparison `$x != null` on strings, and the
 * conversion of a nullable string when it is concatenated.
 */
module Nullable {

  /** A value that may be PHP's `null` (None). */
  datatype Option<+T> = None | Some(value: T)

  /** `m[k]` when the key is present, `null` otherwise. */
  function Lookup<K, V>(m: map<K, V>, k: K): (r: Option<V>)
    ensures r.Some? <==> k in m
    ensures r.Some? ==> r.value == m[k]
  {
    if k in m then Some(m[k]) else None
  }

  /**
   * PHP's `$x == null` for a nullable string: `null` compares loosely equal
   * to `null` and to the empty string, and to no other string (not even "0").
   */
  predicate LooselyNull(x: Option<string>)
  {
    x.None? || x.value == ""
  }

  /** The text a nullable string contributes to a concatenation: `null . "x"` is "x". */
  function AsText(x: Option<string>): string
  {
    if x.Some? then x.value else ""
  }
}
