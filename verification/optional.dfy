/** Swift's optional values (`T?`), written out as a datatype. */
module Optional {

  datatype Option<T> = None | Some(value: T) {

    /** Swift's `x ?? default`. */
    function GetOr(default: T): T
    {
      match this
      case Some(v) => v
      case None => default
    }
  }
}
