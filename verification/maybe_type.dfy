/** The two-variant value at the centre of the library: a `maybe.just(v)`
    object, which holds `v`, or the shared `maybe.nothing` singleton.
    Datatype equality stands in for the reference identity the JavaScript
    objects have: there is exactly one `Nothing`, and a combinator that
    "returns the receiver" returns a value equal to it.
 */
module MaybeType {

  datatype Maybe<+T> = Just(value: T) | Nothing {

    /** The `empty` flag of a Maybe object. */
    predicate Empty() {
      Nothing?
    }

    /** The `nonEmpty` flag of a Maybe object. */
    predicate NonEmpty() {
      Just?
    }
  }
}
