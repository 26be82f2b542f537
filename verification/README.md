# stateless-maybe-js in Dafny

A model of `src/maybe.js`, a JavaScript Maybe/Option value. A Maybe is
either `maybe.just(v)`, which holds `v`, or the shared `maybe.nothing`.
The library offers a checked constructor `maybe(v)` (alias `maybe.from`), the
test `maybe.isInstance`, three type-directed constructors
(`maybe.string`, `maybe.number`, `maybe.object`) built on an `unbox` helper
that consults `valueOf()`, and the prototype combinators `filter`, `map`,
`forEach`, `orElse`, `getOrElse`, `getOrThrow` and `toString`.

Layout:

- `maybe_type.dfy` (`MaybeType`): `datatype Maybe<T> = Just(value) | Nothing`.
  `maybe.just` is the constructor `Just` and performs no check;
  `maybe.nothing` is `Nothing`.
- `js_value.dfy` (`JsValue`): the JavaScript values the library inspects.
  `JsVal` has the tags undefined, null, boolean, integral number, NaN,
  string, object, function, and Maybe. An object or function records what
  its `valueOf()` does: answers the receiver itself, answers some other
  value, or is not callable (`NotCallable`), in which case the call throws
  a `TypeError` (`TypeErrorObject`). The module also gives `typeof`,
  truthiness, `||`, `valueOf()`, `isNaN` on numbers, and `Completion`
  (a call returns or throws).
- `decimal.dfy` (`Decimal`): `String(n)` for integers of magnitude at most
  2^53, with a parser that proves the rendering lossless.
- `stateless_maybe.dfy` (`StatelessMaybe`): the operations of `src/maybe.js`.
  `maybe.from` is `StatelessMaybe.From`, an alias of `Wrap`, and
  `maybe.isInstance` is `StatelessMaybe.IsInstance`. `unbox` and the three
  type-directed constructors return a `Completion`, because `valueOf()`
  can throw.
- `maybe_laws.dfy` (`MaybeLaws`): lemmas that relate the operations to each
  other. They cover idempotent wrapping, map and filter laws, agreement of
  the unwrapping operations, and round trips through `toString`. They also
  give descriptions of what each type-directed constructor accepts, stated
  by the shape of the input alone.

Callbacks passed to `map`, `filter` and `forEach` are Dafny functions on
`JsVal`. A function passed as a JS value (`getOrElse`, `orElse`) is
`Func(id, conv)`. What calling it with no arguments returns is an `invoke`
parameter. `forEach` returns the receiver together with the log of the calls
it made. `getOrThrow` and `get` return a `Completion`. The thrown value is
either the caller's value or a fresh `Error` carrying the message
"Trying to get value of Nothing".

The model follows the code in three places where a reader might expect
otherwise:

- `filter` and `orElse` return the receiver itself, not a fresh present
  value.
- `getOrThrow(e)` throws the default error whenever `e` is falsy (`0`, `''`,
  `false`, ...), not only when it is missing.
- `maybe.just(null)` builds a present value holding null. Only the checked
  constructors rule that out. `WellFormed` names the shape they guarantee.

## Model

| member | source | states |
|---|---|---|
| StatelessMaybe.IsInstance | src/maybe.js:54-56 | the `instanceof Ctor` test: among the modelled values it holds exactly for the values the library builds, `maybe.just(x)` and `maybe.nothing` |
| StatelessMaybe.Wrap | src/maybe.js:48-52 | nothing exactly for null, undefined and a wrapped nothing; a Maybe input is returned as is; any other input is held unchanged; the result is well formed when the input is |
| StatelessMaybe.From | src/maybe.js:58-60 | `maybe.from(v)` gives the same result as `maybe(v)` for every input |
| StatelessMaybe.Unbox | src/maybe.js:62-74 | throws a `TypeError` exactly for an object or function without a callable `valueOf`, since `valueOf()` is called before the function test; otherwise the result is the input or its `valueOf()` answer; an object whose `valueOf` answers a primitive (a boxed primitive) gives that primitive; an object-typed result is always the input; other functions and falsy inputs pass through |
| StatelessMaybe.MaybeString | src/maybe.js:76-82 | throws exactly what `unbox` throws; otherwise present exactly when the unboxed value is a non-empty string, holding that string |
| StatelessMaybe.MaybeNumber | src/maybe.js:84-90 | throws exactly what `unbox` throws; otherwise present exactly when the unboxed value is a number other than NaN, holding that number |
| StatelessMaybe.MaybeObject | src/maybe.js:92-98 | throws exactly what `unbox` throws; otherwise nothing unless the unboxed value is an object, and then the checked wrap of the input: a Maybe input is returned as is, any other object is held as itself |
| StatelessMaybe.Filter | src/maybe.js:101-105 | the result is the receiver or nothing, and it is present exactly when the receiver holds a value the predicate finds truthy |
| StatelessMaybe.Map | src/maybe.js:107-111 | nothing maps to nothing; on `just(x)` a null or undefined `fn(x)` collapses to nothing, a Maybe answer is returned without wrapping again, and any other answer gives `just(fn(x))` |
| StatelessMaybe.ForEach | src/maybe.js:113-119 | returns the receiver; calls the callback once with the held value when present and never otherwise |
| StatelessMaybe.OrElse | src/maybe.js:121-125 | the receiver when present; otherwise the checked wrap of the resolved fallback (a function's return value or the value itself) |
| StatelessMaybe.GetOrElse | src/maybe.js:127-131 | the held value when present, whatever the fallback; otherwise the fallback's return value if it is a function, else the fallback |
| StatelessMaybe.GetOrThrow | src/maybe.js:133-139 | returns exactly when present, the held value; on nothing throws a truthy `e` itself and the default error for a falsy `e`; a raised user value is never falsy |
| StatelessMaybe.Get | src/maybe.js:146-172 | `get()` on a just returns its value; on nothing it throws the default error |
| StatelessMaybe.ToString | src/maybe.js:141-143 | the empty string on nothing, `String(x)` on `just(x)` |
| StatelessMaybe.JsString | src/maybe.js:142 | `String(v)`: a string prints as itself; an integer of magnitude at most 2^53 prints as its canonical numeral, which reads back as the number; `maybe.nothing` prints empty and `maybe.just(x)` prints as `x` does, through the Maybe's own `toString`; objects, functions and larger integers are whatever `host` renders |
| JsValue.ValueOf | src/maybe.js:63 | `v.valueOf()` throws a `TypeError` exactly when the object or function has no callable `valueOf`; otherwise it answers what that `valueOf` answers, the receiver for the inherited one, and a primitive answers itself |
| JsValue.Or | src/maybe.js:63 | `a \|\| b` is `a` when `a` is truthy and `b` otherwise, so it is truthy exactly when one operand is |
| Decimal.NatToString | src/maybe.js:142 | the numeral is non-empty, all digits, with no leading zero, one digit exactly below ten |
| Decimal.IntToString | src/maybe.js:142 | the numeral is a well-formed signed integer literal, with a minus sign exactly for negative numbers and no leading zero: `0` is written `0`, and no digit string after the sign starts with `0` |
| Decimal.ParseIntToString | src/maybe.js:142 | reading the numeral back gives the number |
| Decimal.IntToStringInjective | src/maybe.js:142 | distinct numbers are written differently |
| MaybeLaws.WrapIdempotent | src/maybe.js:48-52 | wrapping a Maybe returns it, so wrapping twice equals wrapping once |
| MaybeLaws.WrapThenGet | src/maybe.js:48-52 | a wrapped ordinary value is read back unchanged by `get` and printed as `String` prints the value, for any rendering of objects |
| MaybeLaws.UnboxIsPrimitiveOf | src/maybe.js:62-74 | `unbox` throws only for an object or function without a callable `valueOf`, and replaces only an object whose `valueOf` answers a non-object, by that answer |
| MaybeLaws.StringAccepts | src/maybe.js:76-82 | exactly non-empty strings and objects whose `valueOf` answers one are accepted; only an object or function without a callable `valueOf` throws |
| MaybeLaws.NumberAccepts | src/maybe.js:84-90 | exactly non-NaN numbers, zero included, and objects whose `valueOf` answers one are accepted; only an object or function without a callable `valueOf` throws |
| MaybeLaws.ObjectAccepts | src/maybe.js:92-98 | null, primitives, functions and objects with a primitive `valueOf` give nothing; a Maybe is returned; other objects are held as themselves; only an object or function without a callable `valueOf` throws |
| MaybeLaws.EdgeCaseExamples | src/maybe.js:48-98 | null and undefined give nothing; `''` and NaN are absent; `0` and boxed strings are present; `{}` is held and a function is refused by `maybe.object`; an object without a callable `valueOf` makes `maybe.number` throw a `TypeError`, and such a function makes `maybe.string` throw one |
| MaybeLaws.FilterIdempotent | src/maybe.js:101-105 | filtering twice with one predicate is filtering once |
| MaybeLaws.FilterConjunction | src/maybe.js:101-105 | two filters equal one filter on any predicate truthy exactly where both are, such as `x => p(x) && q(x)` |
| MaybeLaws.FilterAsMap | src/maybe.js:101-111 | on a well-formed Maybe, filter equals a map answering null for rejected values |
| MaybeLaws.MapIdentity | src/maybe.js:107-111 | mapping the identity leaves a well-formed Maybe unchanged |
| MaybeLaws.MapAssociative | src/maybe.js:107-111 | mapping with Maybe-answering callbacks chains associatively, like a monadic bind |
| MaybeLaws.MapComposition | src/maybe.js:107-111 | two maps fuse into a map of the composition when the first callback answers ordinary values |
| MaybeLaws.GetOrElseAgreesWithGetOrThrow | src/maybe.js:127-139 | both unwrappers agree on a present value; `getOrThrow` and `get` fail exactly on nothing |
| MaybeLaws.OrElseIsWrapOfGetOrElse | src/maybe.js:121-131 | on a well-formed Maybe, `orElse` is the checked wrap of `getOrElse` |
| MaybeLaws.CombinatorsPreserveWellFormed | src/maybe.js:100-144 | filter, map, forEach and orElse keep a Maybe well formed when callbacks and fallbacks bring in settled values |
| MaybeLaws.ToStringOfString | src/maybe.js:76-82 | `maybe.string(s).toString()` is `s`, the empty string included |
| MaybeLaws.ToStringOfNumber | src/maybe.js:84-90 | for \|n\| at most 2^53, `maybe.number(n).toString()` is the canonical numeral of `n`: it reads back as `n` and has no leading zero after the sign or otherwise |
| MaybeLaws.ToStringExamples | src/maybe.js:141-143 | `just(7)` prints `7`, `just(-42)` prints `-42`, nothing prints the empty string |
| MaybeLaws.JsStringIgnoresHost | src/maybe.js:142 | on primitives with integers up to 2^53, and Maybes holding them, `String` does not depend on how objects are rendered |
| MaybeLaws.ToStringOfNested | src/maybe.js:141-143 | a Maybe held in a just prints like the Maybe itself |

## Left out

- The module-registration wrapper (AMD, CommonJS, browser global) at
  src/maybe.js:21-39: loading glue with no behaviour.
- `Object.freeze` and its fallback: immutable datatypes give the same
  guarantee statically.
- Reference identity: datatype equality stands in for the identity of
  `maybe.nothing` and of returned receivers.
- Numbers are integers plus a NaN tag. Fractions, the infinities, `-0` and
  IEEE-754 rounding are not modelled. Symbols and BigInts are not modelled.
- StatelessMaybe.ToString: `String(x)` is spelled out for undefined, null,
  booleans, NaN, strings, nested Maybes and integers of magnitude at most
  2^53. For other objects, functions and larger integers it is the `host`
  parameter. The language's full conversion is outside this library: it
  covers the `toString` lookup, shortest round-trip digits above 2^53, and
  exponent notation from 10^21.
- StatelessMaybe.ToString: `String(x)` throws a `TypeError` for an object
  with neither a callable `toString` nor a callable `valueOf`. The `host`
  parameter answers a string for every input, so that throw is not
  modelled.
- StatelessMaybe.IsInstance: `instanceof` walks the prototype chain, so an
  object created with a Maybe as its prototype (`Object.create(maybe.nothing)`)
  also passes, and `maybe(d)` returns such a `d` unchanged. `JsVal` has no
  such objects, because prototype chains are not modelled.
- Exceptions and side effects inside callbacks or user `valueOf` are not
  modelled; callbacks are pure total functions. So is the `TypeError` a
  non-function callback raises in `map`, `filter` or `forEach`.
