/**
 * The two JavaScript values the command bar can produce by accident: reading
 * past the end of an array yields `undefined`, and `x % 0` yields `NaN`.
 * Only the as-written models of the key handlers use them.
 */
module Js {

  /** A value read from an array: defined, or `undefined` when the index is out of range */
  datatype Value<+T> = Defined(value: T) | Undefined

  /** A JavaScript number restricted to what the handlers compute: a natural or NaN */
  datatype Number = Finite(n: nat) | NaN

  /** `s[i]` as JavaScript evaluates it */
  function At<T>(s: seq<T>, i: int): Value<T> {
    if 0 <= i < |s| then Defined(s[i]) else Undefined
  }

  /** `(a + 1) % n` as JavaScript evaluates it for a natural a */
  function SuccMod(a: nat, n: nat): (r: Number)
    ensures r.NaN? <==> n == 0
    ensures r.Finite? ==> r.n < n
  {
    if n == 0 then NaN else Finite((a + 1) % n)
  }
}
