/** throwIfNil and throwIfNotIn (src/exception.ts): guards that throw an
    `Error` with the caller's message. Both are modelled as functions to an
    Outcome, so neither can return a value or change any state. */
module Guards {
  import opened Wrappers
  import opened Js

  /** throwIfNil (lines 7-11). */
  function ThrowIfNil(value: JsValue, error: string): (r: Outcome<Exception>)
    ensures r.Fail? <==> value == Undefined || value == Null
    ensures r.Fail? ==> r.error == Error(error)
  {
    if IsNil(value) then Fail(Error(error)) else Pass
  }

  /** throwIfNotIn (lines 16-20); lodash `includes` on an array compares by
      SameValueZero, which on the modelled values is equality. */
  function ThrowIfNotIn<T(==)>(value: T, list: seq<T>, message: string): (r: Outcome<Exception>)
    ensures r.Fail? <==> forall i :: 0 <= i < |list| ==> list[i] != value
    ensures r.Fail? ==> r.error == Error(message)
  {
    if value !in list then Fail(Error(message)) else Pass
  }

  /** The other falsy values, `0`, `""` and `false`, pass throwIfNil, and so
      does every object. */
  lemma FalsyValuesPass(error: string, o: object)
    ensures ThrowIfNil(Num(0), error) == Pass
    ensures ThrowIfNil(Str(""), error) == Pass
    ensures ThrowIfNil(Bool(false), error) == Pass
    ensures ThrowIfNil(Obj(o), error) == Pass
  {
  }
}
