/** Optional values: JavaScript's `undefined`/`null` versus a present value. */
module Wrappers {

  datatype Option<+T> = None | Some(value: T)
}

/** The parts of JavaScript's value semantics the map screen relies on. */
module Js {
  import opened Wrappers

  /** A string-valued property is truthy when it is present and not the empty string. */
  predicate Truthy(v: Option<string>)
  {
    v.Some? && v.value != ""
  }

  /**
   * `a || b` for two possibly-absent string properties: one of the two operands, the left
   * one whenever it is truthy, and truthy exactly when either operand is.
   */
  function OrElse(a: Option<string>, b: Option<string>): (r: Option<string>)
    ensures r == a || r == b
    ensures Truthy(a) ==> r == a
    ensures Truthy(r) <==> Truthy(a) || Truthy(b)
  {
    if Truthy(a) then a else b
  }

  /**
   * `a || fallback` where the fallback is a string literal: the property's value when it is
   * truthy, otherwise the fallback, so never empty when the fallback is not.
   */
  function OrDefault(a: Option<string>, fallback: string): (r: string)
    ensures r == fallback || (a.Some? && r == a.value)
    ensures Truthy(a) ==> r == a.value
    ensures fallback != "" ==> r != ""
  {
    if Truthy(a) then a.value else fallback
  }
}
