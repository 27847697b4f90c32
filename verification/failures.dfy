/** What a call into the database or a handler can throw, how an `async` call settles,
    and where a transactional store operation may be made to fail. */
module Failures {

  /** A thrown JavaScript value: an `Error` (a pg error or `new Error(...)`) carries a
      message; anything else is a non-`Error` value. */
  datatype Thrown = ErrorObject(message: string) | NonError

  /** How an awaited call settles. */
  datatype Completion<T> = Resolved(value: T) | Rejected(reason: Thrown)

  /** The queries a transactional store operation issues, in the order it issues them.
      `InsertVersion` is the `createVersion` upsert, which goes through the pool and
      therefore commits on its own. */
  datatype Query = Connect | Begin | SelectVersion | SelectCurrent | Update | InsertVersion | Commit

  /** Which query of a store operation throws, if any, and what it throws.
      A fault naming a query the operation never issues does not fire. */
  datatype Fault = NoFault | FailAt(query: Query, thrown: Thrown)

  /** The fault fires at one of the queries in `qs`. */
  predicate FiresIn(f: Fault, qs: set<Query>) {
    f.FailAt? && f.query in qs
  }
}
