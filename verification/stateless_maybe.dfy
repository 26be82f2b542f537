/** The operations of `src/maybe.js`: the checked constructor `maybe`, the
    type-directed constructors built on `unbox`, and the prototype's
    combinators. `maybe.just(v)` is the constructor `Just(v)` (it performs no
    check, so `Just(Null)` can be built with it), `maybe.nothing` is
    `Nothing`, and `maybe.from` is `From`, an alias of `Wrap`.
 */
module StatelessMaybe {
  import opened MaybeType
  import opened JsValue
  import opened Decimal

  /** The message of the error thrown when an empty value is read. */
  const NothingMessage: string := "Trying to get value of Nothing"

  /** `maybe.isInstance(v)`, the `instanceof Ctor` test. Among the values
      modelled here it holds exactly for the ones the library builds:
      `maybe.just(x)` and `maybe.nothing`. */
  function IsInstance(v: JsVal): (b: bool)
    ensures b <==> exists m: Maybe<JsVal> :: v == MaybeVal(m)
  {
    v.MaybeVal?
  }

  /** A Maybe as the checked constructors make it: a present value is
      neither null, undefined nor itself a Maybe. */
  predicate WellFormed(m: Maybe<JsVal>) {
    m.Just? ==> !Nullish(m.value) && !IsInstance(m.value)
  }

  /** A value that, if it is a Maybe, is a well-formed one. */
  predicate Settled(v: JsVal) {
    IsInstance(v) ==> WellFormed(v.m)
  }

  /** `maybe(v)`: nothing for null and undefined, `v` itself when it is
      already a Maybe, and `maybe.just(v)` otherwise. */
  function Wrap(v: JsVal): (r: Maybe<JsVal>)
    ensures r.Nothing? <==> Nullish(v) || v == MaybeVal(Nothing)
    ensures r.Just? && !IsInstance(v) ==> r.value == v
    ensures IsInstance(v) ==> r == v.m
    ensures Settled(v) ==> WellFormed(r)
  {
    if Nullish(v) then Nothing
    else if IsInstance(v) then v.m
    else Just(v)
  }

  /** `maybe.from(v)`: the same result as `maybe(v)`. */
  function From(v: JsVal): (r: Maybe<JsVal>)
    ensures r == Wrap(v)
  {
    Wrap(v)
  }

  /** `unbox(v)`: calls `valueOf()` on `v`, or on `{}` when `v` is falsy,
      which throws when `v` (a function included) has no callable
      `valueOf`. Otherwise the answer is the primitive that call produced,
      unless `v` is a function or the call answered an object (or null); in
      those cases `v` itself. */
  function Unbox(v: JsVal): (r: Completion<JsVal>)
    ensures r.Throw? <==> ValueOfNotCallable(v)
    ensures r.Throw? ==> r.error == TypeErrorObject
    ensures r.Normal? ==> r.value == v || (v.Obj? && v.conv.ReturnsValue? && r.value == v.conv.result)
    ensures v.Obj? && v.conv.ReturnsValue? && TypeOf(v.conv.result) != "object"
            ==> r == Normal(v.conv.result)
    ensures r.Normal? && TypeOf(r.value) == "object" ==> r.value == v
    ensures TypeOf(v) == "function" && !ValueOfNotCallable(v) ==> r == Normal(v)
    ensures !Truthy(v) ==> r == Normal(v)
  {
    var unboxed :- ValueOf(Or(v, EmptyObject));
    if TypeOf(v) == "function" then Normal(v)
    else if TypeOf(unboxed) == "object" then Normal(v)
    else Normal(unboxed)
  }

  /** `maybe.string(v)`: throws what `unbox` throws; otherwise present
      exactly when the unboxed value is a non-empty string, and then holding
      that string. */
  function MaybeString(v: JsVal): (r: Completion<Maybe<JsVal>>)
    ensures Unbox(v).Throw? ==> r == Throw(Unbox(v).error)
    ensures Unbox(v).Normal? ==> r.Normal?
    ensures r.Normal? ==> (r.value.Just? <==> Unbox(v).value.Str? && Unbox(v).value.s != "")
    ensures r.Normal? && r.value.Just? ==> r.value.value == Unbox(v).value
    ensures r.Normal? ==> WellFormed(r.value)
  {
    var unboxed :- Unbox(v);
    if TypeOf(unboxed) == "string" && unboxed != Str("") then Normal(Just(unboxed))
    else Normal(Nothing)
  }

  /** `maybe.number(v)`: throws what `unbox` throws; otherwise present
      exactly when the unboxed value is a number other than NaN, and then
      holding that number. */
  function MaybeNumber(v: JsVal): (r: Completion<Maybe<JsVal>>)
    ensures Unbox(v).Throw? ==> r == Throw(Unbox(v).error)
    ensures Unbox(v).Normal? ==> r.Normal?
    ensures r.Normal? ==> (r.value.Just? <==> Unbox(v).value.Num?)
    ensures r.Normal? && r.value.Just? ==> r.value.value == Unbox(v).value
    ensures r.Normal? ==> WellFormed(r.value)
  {
    var unboxed :- Unbox(v);
    if TypeOf(unboxed) == "number" && !IsNaN(unboxed) then Normal(Just(unboxed))
    else Normal(Nothing)
  }

  /** `maybe.object(v)`: throws what `unbox` throws; otherwise the checked
      wrap of the unboxed value when that is an object (null included),
      nothing when it is not. */
  function MaybeObject(v: JsVal): (r: Completion<Maybe<JsVal>>)
    ensures Unbox(v).Throw? ==> r == Throw(Unbox(v).error)
    ensures Unbox(v).Normal? && TypeOf(Unbox(v).value) != "object" ==> r == Normal(Nothing)
    ensures Unbox(v).Normal? && TypeOf(Unbox(v).value) == "object" ==> r == Normal(Wrap(v))
    ensures r.Normal? && r.value.Just? && !IsInstance(v) ==> r.value.value == v
    ensures IsInstance(v) ==> r == Normal(v.m)
    ensures r.Normal? && Settled(v) ==> WellFormed(r.value)
  {
    var unboxed :- Unbox(v);
    if TypeOf(unboxed) == "object" then Normal(Wrap(unboxed))
    else Normal(Nothing)
  }

  /** `m.filter(p)`: the receiver itself when it holds a value on which `p`
      answers something truthy, nothing otherwise. */
  function Filter(m: Maybe<JsVal>, p: JsVal -> JsVal): (r: Maybe<JsVal>)
    ensures r == m || r == Nothing
    ensures r.Just? <==> m.Just? && Truthy(p(m.value))
  {
    if m.Empty() then m
    else if Truthy(p(m.value)) then m
    else Nothing
  }

  /** `m.map(fn)`: nothing stays nothing; a present value is passed to `fn`
      and the answer goes through the checked constructor, so a null or
      undefined answer collapses and a Maybe answer is not wrapped again. */
  function Map(m: Maybe<JsVal>, fn: JsVal -> JsVal): (r: Maybe<JsVal>)
    ensures m.Nothing? ==> r == Nothing
    ensures m.Just? && Nullish(fn(m.value)) ==> r == Nothing
    ensures m.Just? && IsInstance(fn(m.value)) ==> r == fn(m.value).m
    ensures m.Just? && !Nullish(fn(m.value)) && !IsInstance(fn(m.value)) ==> r == Just(fn(m.value))
    ensures m.Just? && Settled(fn(m.value)) ==> WellFormed(r)
  {
    if m.Empty() then m
    else Wrap(fn(m.value))
  }

  /** One call of a callback: what it was passed and what it answered. */
  datatype Call = Call(arg: JsVal, answer: JsVal)

  /** What `m.forEach(fn)` produces: the value it returns and the calls of
      `fn` it made. */
  datatype Visit = Visit(returned: Maybe<JsVal>, calls: seq<Call>)

  /** `m.forEach(fn)`: calls `fn` once with the value when there is one, not
      at all otherwise, and returns the receiver. */
  function ForEach(m: Maybe<JsVal>, fn: JsVal -> JsVal): (r: Visit)
    ensures r.returned == m
    ensures |r.calls| == (if m.Just? then 1 else 0)
    ensures forall c :: c in r.calls ==> c.arg == m.value && c.answer == fn(c.arg)
  {
    if m.NonEmpty() then Visit(m, [Call(m.value, fn(m.value))])
    else Visit(m, [])
  }

  /** `m.getOrElse(orElse)`: the value when present; otherwise, when
      `orElse` is a function, what calling it with no arguments returns
      (`invoke` gives that for each function), and `orElse` itself if not. */
  function GetOrElse(m: Maybe<JsVal>, orElse: JsVal, invoke: nat -> JsVal): (r: JsVal)
    ensures m.Just? ==> r == m.value
    ensures m.Nothing? && orElse.Func? ==> r == invoke(orElse.id)
    ensures m.Nothing? && !orElse.Func? ==> r == orElse
  {
    if m.NonEmpty() then m.value
    else if TypeOf(orElse) == "function" then invoke(orElse.id)
    else orElse
  }

  /** `m.orElse(orElse)`: the receiver when it holds a value, otherwise the
      checked wrap of the fallback `getOrElse` resolves. */
  function OrElse(m: Maybe<JsVal>, orElse: JsVal, invoke: nat -> JsVal): (r: Maybe<JsVal>)
    ensures m.Just? ==> r == m
    ensures m.Nothing? && orElse.Func? ==> r == Wrap(invoke(orElse.id))
    ensures m.Nothing? && !orElse.Func? ==> r == Wrap(orElse)
  {
    if m.Empty() then Wrap(GetOrElse(m, orElse, invoke))
    else m
  }

  /** `m.getOrThrow(e)`: returns the value when present and throws
      otherwise: `e` when it is truthy, a fresh `Error` with
      `NothingMessage` when it is falsy or missing (`Undefined`). */
  function GetOrThrow(m: Maybe<JsVal>, e: JsVal): (r: Completion<JsVal>)
    ensures r.Normal? <==> m.Just?
    ensures r.Normal? ==> r.value == m.value
    ensures m.Nothing? && Truthy(e) ==> r == Throw(Raised(e))
    ensures m.Nothing? && !Truthy(e) ==> r == Throw(ErrorObject(NothingMessage))
    ensures r.Throw? && r.error.Raised? ==> Truthy(r.error.value)
  {
    if m.Empty() then
      Throw(if Truthy(e) then Raised(e) else ErrorObject(NothingMessage))
    else Normal(m.value)
  }

  /** `m.get()`: the held value of a `maybe.just`; on `maybe.nothing` it
      calls `getOrThrow()` without an argument, so it always throws the
      default error. */
  function Get(m: Maybe<JsVal>): (r: Completion<JsVal>)
    ensures m.Just? ==> r == Normal(m.value)
    ensures m.Nothing? ==> r == Throw(ErrorObject(NothingMessage))
  {
    match m
    case Just(v) => Normal(v)
    case Nothing => GetOrThrow(m, Undefined)
  }

  /** `String(v)`. Primitives follow the language's rules (integers of
      magnitude at most 2^53 in plain decimal) and a Maybe uses its own
      `toString`. Other objects, functions and larger integers are rendered by
      `host`, which stands for the conversion this model does not spell out. */
  function JsString(v: JsVal, host: JsVal -> string): (r: string)
    ensures v.Str? ==> r == v.s
    ensures v.Num? && -ExactLimit <= v.n <= ExactLimit ==>
              IsIntLiteral(r) && ParseInt(r) == v.n && r == IntToString(v.n)
    ensures v == MaybeVal(Nothing) ==> r == ""
    ensures v.MaybeVal? && v.m.Just? ==> r == JsString(v.m.value, host)
    ensures v.Obj? || v.Func? || (v.Num? && !(-ExactLimit <= v.n <= ExactLimit)) ==> r == host(v)
  {
    match v
    case Undefined => "undefined"
    case Null => "null"
    case Bool(b) => if b then "true" else "false"
    case Num(n) =>
      if -ExactLimit <= n <= ExactLimit then ParseIntToString(n); IntToString(n) else host(v)
    case NaN => "NaN"
    case Str(s) => s
    case MaybeVal(Nothing) => ""
    case MaybeVal(Just(x)) => JsString(x, host)
    case _ => host(v)
  }

  /** `m.toString()`: the empty string for nothing, `String(x)` for `just(x)`. */
  function ToString(m: Maybe<JsVal>, host: JsVal -> string): (r: string)
    ensures m.Nothing? ==> r == ""
    ensures m.Just? ==> r == JsString(m.value, host)
  {
    if m.Empty() then "" else JsString(m.value, host)
  }
}
