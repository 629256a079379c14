/** Optional values and fallible results, used for the lookups that may miss and the
    operations that throw in the original service code. */
module Outcomes {

  /** A value that may be absent (a document lookup that found nothing). */
  datatype Option<+T> = None | Some(value: T)

  /** The outcome of an operation that either succeeds or fails with an error message,
      the message being what the original code passes to `new Error(...)`. */
  datatype Result<+T> = Ok(value: T) | Err(message: string)
}
