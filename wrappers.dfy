/** Optional values and pass/fail outcomes shared by the other modules. */
module Wrappers {

  /** A value that may be absent: a nullable column or a query that found nothing. */
  datatype Option<+T> = None | Some(value: T)

  /** The outcome of an ingestion step that can abort. */
  datatype Outcome<+E> = Pass | Fail(error: E)
}
