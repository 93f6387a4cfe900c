/** A value that may be absent: JavaScript's `undefined`/`null`, or a remote call that threw. */
module Wrappers {

  datatype Option<+T> = None | Some(value: T)
}
