/** A request-body field that may be absent (`undefined` after destructuring
    `req.body`) or present with a value. */
module Optional {

  datatype Option<+T> = None | Some(value: T) {

    /** The present value, or `default` when the field is absent. */
    function GetOr(default: T): T {
      match this
      case Some(v) => v
      case None => default
    }
  }
}
