/** Loosely typed field values as the salary controller receives them, and the
    controller's coercion of such values to numbers. */
module Coerce {

  /** A field of a request body or of a stored document: missing (`undefined`),
      a number, or present but not numeric (a non-empty string such as "abc"). */
  datatype Value = Absent | Num(n: real) | Junk

  /** JavaScript truthiness: `undefined` and the number 0 are falsy, every other
      number and every non-empty string is truthy. */
  predicate Truthy(v: Value)
  {
    match v
    case Absent => false
    case Num(n) => n != 0.0
    case Junk => true
  }

  /** `ensureNumber`: a missing or non-numeric value reads as 0, a number as itself. */
  function EnsureNumber(v: Value): real
  {
    if v.Num? then v.n else 0.0
  }

  /** A falsy value always coerces to 0, and a non-zero coercion comes from a truthy value. */
  lemma FalsyCoercesToZero(v: Value)
    ensures !Truthy(v) ==> EnsureNumber(v) == 0.0
    ensures EnsureNumber(v) != 0.0 ==> Truthy(v) && v == Num(EnsureNumber(v))
  {
  }
}
