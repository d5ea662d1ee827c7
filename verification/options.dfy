/** Optional values. `None` stands for a field that is absent from a record
    and, for the numeric parsers, for JavaScript's NaN. */
module Options {

  datatype Option<+T> = None | Some(value: T) {

    /** The wrapped value, or `default` when there is none. */
    function GetOr(default: T): T {
      match this
      case Some(v) => v
      case None => default
    }
  }

  /** A field that may be left out of the JSON record, sent as an explicit
      `null`, or carry a value: three cases that a consumer can tell apart. */
  datatype Nullable<+T> = Missing | Null | Present(value: T)
}
