/** A value that may be absent: a JavaScript `undefined`/`null` in the scroller's fields and events. */
module Wrappers {

  datatype Option<+T> = None | Some(value: T)
}
