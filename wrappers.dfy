/** Values shared by every part of the query engine: JavaScript's null/undefined
    as Option, thrown errors as Result, and the outcome of one enumeration pass. */
module Wrappers {

  /** `None` stands for an absent value: `undefined`, or `null` where the code
      treats the two alike. Where the code tells them apart, the member's
      comment says which of the two `None` is, and the other is an ordinary
      value of `T`. */
  datatype Option<T> = None | Some(value: T)

  /** A value where the code tells `undefined` and `null` apart. */
  datatype Argument<T> = Undefined | Null | Given(value: T)

  /** The errors the engine throws, one constructor per distinct message. */
  datatype Error =
    | NoElements            // new Error("no elements")
    | MoreThanOneElement    // new Error("more than one element")
    | InvalidIndex          // new Error("invalid index")
    | DuplicatedKey         // new Error("duplicated key")
    | NullFunc              // new Error("null func")
    | NullPredicate         // new Error("null predicate")
    | NullArgument(name: string)  // new Error("null argument " + name)
    | AssertFail            // the module-local assert helper of Lookup.ts and Grouping.ts
    | Unnamed               // new Error() without a message
    | NullThrown            // `throw null`
    | TypeError             // the runtime's TypeError: iterating or calling `undefined`

  /** The value of a call that either returns or throws. */
  datatype Result<T> = Ok(value: T) | Err(error: Error)

  /** What one enumeration pass yields: the items produced before it ends, and
      the error it stops with, if any (earlier items are not taken back). */
  datatype Pass<T> = Pass(items: seq<T>, failure: Option<Error>)
}
