/** Properties that relate the operations of `StatelessMaybe` to each other
    and to independent descriptions of what they accept.
 */
module MaybeLaws {
  import opened MaybeType
  import opened JsValue
  import opened Decimal
  import opened StatelessMaybe

  // ----- the checked constructor -----

  /** Wrapping a Maybe hands it back, so wrapping twice is wrapping once. */
  lemma WrapIdempotent(v: JsVal)
    ensures Wrap(MaybeVal(Wrap(v))) == Wrap(v)
    ensures forall m: Maybe<JsVal> :: Wrap(MaybeVal(m)) == m
  {
  }

  /** A wrapped ordinary value reads back unchanged. */
  lemma WrapThenGet(v: JsVal, host: JsVal -> string)
    requires !Nullish(v) && !IsInstance(v)
    ensures Get(Wrap(v)) == Normal(v)
    ensures ToString(Wrap(v), host) == JsString(v, host)
  {
  }

  // ----- unbox and the type-directed constructors -----

  /** `unbox` described by the input's shape alone: an object or function
      without a callable `valueOf` throws, and only an object whose `valueOf` answers
      a non-object is replaced, by that answer. */
  function PrimitiveOf(v: JsVal): Completion<JsVal> {
    match v
    case Obj(ReturnsValue(p)) => if TypeOf(p) == "object" then Normal(v) else Normal(p)
    case Obj(NotCallable) => Throw(TypeErrorObject)
    case Func(_, NotCallable) => Throw(TypeErrorObject)
    case _ => Normal(v)
  }

  lemma UnboxIsPrimitiveOf(v: JsVal)
    ensures Unbox(v) == PrimitiveOf(v)
  {
  }

  /** `maybe.string` accepts exactly the non-empty strings and the objects
      whose `valueOf` answers one, and holds the string itself; it throws
      only for an object or function without a callable `valueOf`. */
  lemma StringAccepts(v: JsVal)
    ensures MaybeString(v) ==
      match v
      case Str(s) => Normal(if s != "" then Just(v) else Nothing)
      case Obj(ReturnsValue(Str(s))) => Normal(if s != "" then Just(Str(s)) else Nothing)
      case Obj(NotCallable) => Throw(TypeErrorObject)
      case Func(_, NotCallable) => Throw(TypeErrorObject)
      case _ => Normal(Nothing)
  {
  }

  /** `maybe.number` accepts exactly the numbers other than NaN (zero
      included) and the objects whose `valueOf` answers one; it throws only
      for an object or function without a callable `valueOf`. */
  lemma NumberAccepts(v: JsVal)
    ensures MaybeNumber(v) ==
      match v
      case Num(_) => Normal(Just(v))
      case Obj(ReturnsValue(Num(n))) => Normal(Just(Num(n)))
      case Obj(NotCallable) => Throw(TypeErrorObject)
      case Func(_, NotCallable) => Throw(TypeErrorObject)
      case _ => Normal(Nothing)
  {
  }

  /** `maybe.object` gives nothing for null and for everything whose unboxed
      form is not an object (primitives, functions, objects whose `valueOf`
      answers a primitive or a function), hands a Maybe back, wraps any
      other object as itself, and throws for an object or function without
      a callable `valueOf`. */
  lemma ObjectAccepts(v: JsVal)
    ensures MaybeObject(v) ==
      match v
      case Obj(ReturnsSelf) => Normal(Just(v))
      case Obj(ReturnsValue(p)) => Normal(if TypeOf(p) == "object" then Just(v) else Nothing)
      case Obj(NotCallable) => Throw(TypeErrorObject)
      case Func(_, NotCallable) => Throw(TypeErrorObject)
      case MaybeVal(m) => Normal(m)
      case _ => Normal(Nothing)
  {
  }

  /** What the constructors give for edge-case inputs. */
  lemma EdgeCaseExamples(f: nat)
    ensures Wrap(Null) == Nothing && Wrap(Undefined) == Nothing
    ensures MaybeString(Str("")) == Normal(Nothing)
    ensures MaybeString(Str("x")) == Normal(Just(Str("x")))
    ensures MaybeNumber(NaN) == Normal(Nothing)
    ensures MaybeNumber(Num(3)) == Normal(Just(Num(3)))
    ensures MaybeNumber(Num(0)) == Normal(Just(Num(0)))
    ensures MaybeString(Obj(ReturnsValue(Str("boxed")))) == Normal(Just(Str("boxed")))
    ensures MaybeObject(Null) == Normal(Nothing)
    ensures MaybeObject(EmptyObject) == Normal(Just(EmptyObject))
    ensures MaybeObject(Func(f, ReturnsSelf)) == Normal(Nothing)
    ensures MaybeNumber(Obj(NotCallable)) == Throw(TypeErrorObject)
    ensures MaybeString(Func(f, NotCallable)) == Throw(TypeErrorObject)
  {
  }

  // ----- filter -----

  /** Filtering twice with the same predicate is filtering once. */
  lemma FilterIdempotent(m: Maybe<JsVal>, p: JsVal -> JsVal)
    ensures Filter(Filter(m, p), p) == Filter(m, p)
  {
  }

  /** Two filters in a row are one filter on any predicate that is truthy
      exactly where both are, such as `x => p(x) && q(x)`. */
  lemma FilterConjunction(m: Maybe<JsVal>, p: JsVal -> JsVal, q: JsVal -> JsVal, both: JsVal -> JsVal)
    requires forall x :: Truthy(both(x)) <==> Truthy(p(x)) && Truthy(q(x))
    ensures Filter(Filter(m, p), q) == Filter(m, both)
  {
  }

  /** On a well-formed Maybe, filter is a map that answers null for the
      rejected value. */
  lemma FilterAsMap(m: Maybe<JsVal>, p: JsVal -> JsVal)
    requires WellFormed(m)
    ensures Filter(m, p) == Map(m, (x: JsVal) => if Truthy(p(x)) then x else Null)
  {
  }

  // ----- map -----

  /** Mapping the identity over a well-formed Maybe changes nothing. */
  lemma MapIdentity(m: Maybe<JsVal>)
    requires WellFormed(m)
    ensures Map(m, (x: JsVal) => x) == m
  {
  }

  /** Because `map` rewraps, a callback that answers a Maybe chains like a
      monadic bind, and chaining is associative. */
  lemma MapAssociative(m: Maybe<JsVal>, f: JsVal -> JsVal, g: JsVal -> JsVal)
    ensures Map(Map(m, f), g) == Map(m, (x: JsVal) => MaybeVal(Map(Wrap(f(x)), g)))
  {
  }

  /** When the first callback always answers an ordinary value, two maps
      fuse into one map of the composition. */
  lemma MapComposition(m: Maybe<JsVal>, f: JsVal -> JsVal, g: JsVal -> JsVal)
    requires forall x :: !Nullish(f(x)) && !IsInstance(f(x))
    ensures Map(Map(m, f), g) == Map(m, (x: JsVal) => g(f(x)))
  {
  }

  // ----- fallbacks and unwrapping -----

  /** `getOrElse` and `getOrThrow` agree on a present value whatever their
      arguments, and only `getOrThrow` fails, exactly on nothing. */
  lemma GetOrElseAgreesWithGetOrThrow(m: Maybe<JsVal>, orElse: JsVal, invoke: nat -> JsVal, e: JsVal)
    ensures GetOrThrow(m, e).Normal? ==> GetOrThrow(m, e).value == GetOrElse(m, orElse, invoke)
    ensures GetOrThrow(m, e).Throw? <==> m.Nothing?
    ensures Get(m).Normal? <==> GetOrThrow(m, e).Normal?
  {
  }

  /** On a well-formed Maybe, `orElse` is the checked wrap of `getOrElse`. */
  lemma OrElseIsWrapOfGetOrElse(m: Maybe<JsVal>, orElse: JsVal, invoke: nat -> JsVal)
    requires WellFormed(m)
    ensures OrElse(m, orElse, invoke) == Wrap(GetOrElse(m, orElse, invoke))
  {
  }

  /** The combinators keep a Maybe well formed, provided the values that
      callbacks and fallbacks bring in are themselves settled. */
  lemma CombinatorsPreserveWellFormed(m: Maybe<JsVal>, p: JsVal -> JsVal, fn: JsVal -> JsVal,
                                      orElse: JsVal, invoke: nat -> JsVal)
    requires WellFormed(m)
    requires forall x :: Settled(fn(x))
    requires Settled(orElse) && forall k :: Settled(invoke(k))
    ensures WellFormed(Filter(m, p))
    ensures WellFormed(Map(m, fn))
    ensures WellFormed(ForEach(m, fn).returned)
    ensures WellFormed(OrElse(m, orElse, invoke))
  {
  }

  // ----- toString -----

  /** `maybe.string(s).toString()` gives back `s`, the empty string included. */
  lemma ToStringOfString(s: string, host: JsVal -> string)
    ensures MaybeString(Str(s)).Normal?
    ensures ToString(MaybeString(Str(s)).value, host) == s
  {
  }

  /** `maybe.number(n).toString()` is the canonical numeral of `n`: it reads
      back as `n` and has no leading zero, after the sign or otherwise. */
  lemma ToStringOfNumber(n: int, host: JsVal -> string)
    requires -ExactLimit <= n <= ExactLimit
    ensures MaybeNumber(Num(n)).Normal?
    ensures IsIntLiteral(ToString(MaybeNumber(Num(n)).value, host))
    ensures ParseInt(ToString(MaybeNumber(Num(n)).value, host)) == n
    ensures ToString(MaybeNumber(Num(n)).value, host)[0] == '0' ==> n == 0
    ensures ToString(MaybeNumber(Num(n)).value, host)[0] == '-' ==>
              ToString(MaybeNumber(Num(n)).value, host)[1] != '0'
  {
  }

  /** What `toString` prints for a few small values. */
  lemma ToStringExamples(host: JsVal -> string)
    ensures ToString(Just(Num(7)), host) == "7"
    ensures ToString(Just(Num(-42)), host) == "-42"
    ensures ToString(Nothing, host) == ""
  {
  }

  /** The values whose `String` this model spells out without `host`:
      primitives with integers up to 2^53, and Maybes holding such values. */
  predicate Spelled(v: JsVal) {
    match v
    case Obj(_) => false
    case Func(_, _) => false
    case Num(n) => -ExactLimit <= n <= ExactLimit
    case MaybeVal(Just(x)) => Spelled(x)
    case _ => true
  }

  /** `host` only matters for objects, functions and large integers: on
      every spelled-out value any two renderings agree. */
  lemma {:induction false} JsStringIgnoresHost(v: JsVal, h1: JsVal -> string, h2: JsVal -> string)
    requires Spelled(v)
    ensures JsString(v, h1) == JsString(v, h2)
  {
    match v
    case MaybeVal(Just(x)) => JsStringIgnoresHost(x, h1, h2);
    case _ =>
  }

  /** A Maybe held inside a `maybe.just` prints like the Maybe itself. */
  lemma ToStringOfNested(m: Maybe<JsVal>, host: JsVal -> string)
    ensures ToString(Just(MaybeVal(m)), host) == ToString(m, host)
  {
  }
}
