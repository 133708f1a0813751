/** Small shared vocabulary: optional values, results, identifiers and
    JavaScript truthiness of optional request fields. */
module Common {

  datatype Option<+T> = None | Some(value: T) {
    /** `x || default` on a value that is either present or absent. */
    function GetOr(default: T): T {
      match this
      case Some(v) => v
      case None => default
    }
  }

  datatype Result<+T, +E> = Ok(value: T) | Err(error: E)

  /** Row identifiers and references between rows. */
  type Id = string

  /** A string field is truthy in JavaScript when present and non-empty. */
  predicate Truthy(s: Option<string>) {
    s.Some? && s.value != ""
  }

  /** A numeric field is truthy when present and non-zero (NaN is not modelled). */
  predicate TruthyInt(n: Option<int>) {
    n.Some? && n.value != 0
  }

  predicate TruthyReal(x: Option<real>) {
    x.Some? && x.value != 0.0
  }

  /** `findFirst` on a catalog: the first row, if there is one. */
  function Head<T>(s: seq<T>): Option<T> {
    if s == [] then None else Some(s[0])
  }

  /** The identifier the store hands out when its counter stands at `n`.
      Identifiers of different counter values differ in length, hence are distinct. */
  function MintedId(n: nat): (id: Id)
    ensures |id| == n
  {
    seq(n, _ => '#')
  }
}
