/** Optional values and results, used for the absent fields of a paragraph
    and for the one failure an extraction call can report. */
module Wrappers {

  datatype Option<+T> = None | Some(value: T)

  datatype Result<+T, +E> = Success(value: T) | Failure(error: E)
}
