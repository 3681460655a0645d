/** The optional value used wherever the component holds `null` or `undefined`. */
module Wrappers {

  datatype Option<+T> = None | Some(value: T)

  /** The set of values an optional value holds: empty or a singleton. */
  function Elements<T>(o: Option<T>): set<T> {
    match o
    case None => {}
    case Some(x) => {x}
  }
}
