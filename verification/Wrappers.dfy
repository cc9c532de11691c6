/** Types that the models share. */
module Wrappers {

  /** The optional value used for the source's `null` and `undefined`. */
  datatype Option<+T> = None | Some(value: T)

  /** `o ?? default`. */
  function Or<T>(o: Option<T>, default: T): T {
    if o.Some? then o.value else default
  }

  /** A write of a state file: done, failed before it touched the file, or failed half way. */
  datatype WriteResult = Written | Untouched | Truncated

  /** What a file that held `before` holds after a write of `next`; a truncated one reads as `blank`. */
  function Write<T>(before: T, result: WriteResult, next: T, blank: T): T {
    match result
    case Written => next
    case Untouched => before
    case Truncated => blank
  }
}
