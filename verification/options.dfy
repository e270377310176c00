/** The absent-or-present values of the dashboard's data: a CSV cell or object
    property that may be `undefined`/`null`, and a lookup that may miss. */
module Options {

  datatype Option<+T> = None | Some(value: T) {

    /** The carried value, or `default` when absent (JavaScript's `x ?? default`). */
    function GetOr(default: T): T {
      match this
      case Some(v) => v
      case None => default
    }
  }
}
