/** The absent-or-present result used wherever the services return `None`. */
module Wrappers {

  datatype Option<+T> = None | Some(value: T)

  /** The zero or one values an option holds, in sequence form. */
  function ToSeq<T>(o: Option<T>): seq<T> {
    if o.Some? then [o.value] else []
  }
}
