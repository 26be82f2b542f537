/** The slice of JavaScript's dynamic values that the library inspects:
    `typeof`, truthiness, the `||` operator, `valueOf()` and `isNaN` on
    numbers, and the way a call either returns or throws.
 */
module JsValue {
  import opened MaybeType

  /** A JavaScript value as the library sees it.
      Numbers are integers, with `NaN` as a separate tag; fractional
      numbers and the infinities are not modelled. */
  datatype JsVal =
    | Undefined
    | Null
    | Bool(b: bool)
    | Num(n: int)
    | NaN
    | Str(s: string)
      /** An object other than a function or a Maybe. `conv` says what its
          `valueOf()` returns. */
    | Obj(conv: Conversion)
      /** A function. `id` tells functions apart; what calling one returns is
          supplied by the caller of the operation that calls it. `conv` says
          what its `valueOf()` does: `ReturnsSelf` is the behaviour inherited
          from `Object.prototype`, and `NotCallable` covers `f.valueOf = 1`
          and a function whose prototype chain was cut. */
    | Func(id: nat, conv: Conversion)
      /** An object built by `maybe.just` or the `maybe.nothing` singleton. */
    | MaybeVal(m: Maybe<JsVal>)

  /** What the `valueOf()` of an object or a function does. `ReturnsSelf` is the behaviour
      inherited from `Object.prototype`; `ReturnsValue` covers boxed
      primitives (`new String('x')`), dates and user-defined `valueOf`;
      `NotCallable` is an object whose `valueOf` is missing or is not a
      function (`Object.create(null)`, `{valueOf: 1}`), so calling it throws. */
  datatype Conversion = ReturnsSelf | ReturnsValue(result: JsVal) | NotCallable

  /** An object or function whose `valueOf` cannot be called. */
  predicate ValueOfNotCallable(v: JsVal) {
    (v.Obj? || v.Func?) && v.conv.NotCallable?
  }

  /** The literal `{}`. */
  const EmptyObject: JsVal := Obj(ReturnsSelf)

  /** The `typeof` operator. */
  function TypeOf(v: JsVal): string {
    match v
    case Undefined => "undefined"
    case Null => "object"
    case Bool(_) => "boolean"
    case Num(_) => "number"
    case NaN => "number"
    case Str(_) => "string"
    case Obj(_) => "object"
    case Func(_, _) => "function"
    case MaybeVal(_) => "object"
  }

  /** `v == null`: loose equality with null holds for null and undefined only. */
  predicate Nullish(v: JsVal) {
    v.Null? || v.Undefined?
  }

  /** JavaScript truthiness: `false`, `0`, `NaN`, `''`, `null` and
      `undefined` are falsy; every object and function is truthy. */
  predicate Truthy(v: JsVal) {
    match v
    case Undefined => false
    case Null => false
    case Bool(b) => b
    case Num(n) => n != 0
    case NaN => false
    case Str(s) => s != ""
    case Obj(_) => true
    case Func(_, _) => true
    case MaybeVal(_) => true
  }

  /** `a || b`: the first operand when it is truthy, the second otherwise. */
  function Or(a: JsVal, b: JsVal): (r: JsVal)
    ensures Truthy(a) ==> r == a
    ensures !Truthy(a) ==> r == b
    ensures Truthy(r) <==> Truthy(a) || Truthy(b)
  {
    if Truthy(a) then a else b
  }

  /** `v.valueOf()`. Primitives answer themselves (through their wrapper
      prototypes), Maybe objects inherit `Object.prototype`'s `valueOf`,
      which answers the receiver, an object or function answers what its
      own `valueOf` does, and one without a callable `valueOf` makes the
      call throw a `TypeError`. On null and undefined the property lookup
      itself throws; the library never makes that call, so it is not
      defined there. */
  function ValueOf(v: JsVal): (r: Completion<JsVal>)
    requires !Nullish(v)
    ensures r.Throw? <==> ValueOfNotCallable(v)
    ensures r.Throw? ==> r.error == TypeErrorObject
    ensures (v.Obj? || v.Func?) && v.conv.ReturnsValue? ==> r == Normal(v.conv.result)
    ensures (v.Obj? || v.Func?) && v.conv.ReturnsSelf? ==> r == Normal(v)
    ensures !v.Obj? && !v.Func? ==> r == Normal(v)
  {
    match v
    case Obj(ReturnsValue(result)) => Normal(result)
    case Func(_, ReturnsValue(result)) => Normal(result)
    case Obj(NotCallable) => Throw(TypeErrorObject)
    case Func(_, NotCallable) => Throw(TypeErrorObject)
    case _ => Normal(v)
  }

  /** The global `isNaN`, on values whose `typeof` is `'number'`, the only
      ones the library hands it. */
  predicate IsNaN(v: JsVal)
    requires TypeOf(v) == "number"
  {
    v.NaN?
  }

  /** What a `throw` raises: a caller-supplied value, a fresh `Error`
      object with the given message, or the `TypeError` the engine raises
      when a non-function is called (its message is engine-specific). */
  datatype Thrown = Raised(value: JsVal) | ErrorObject(message: string) | TypeErrorObject

  /** How a call ends: it returns a value or it throws. It is
      failure-compatible, so `var x :- F(); ...` propagates a throw. */
  datatype Completion<+T> = Normal(value: T) | Throw(error: Thrown) {

    predicate IsFailure() {
      Throw?
    }

    function PropagateFailure<U>(): Completion<U>
      requires Throw?
    {
      Throw(error)
    }

    function Extract(): T
      requires Normal?
    {
      value
    }
  }
}
