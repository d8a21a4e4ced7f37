/** The optional value that Python expresses with None. */
module Options {

  datatype Option<+T> = None | Some(value: T) {

    /** Python's `x or default` for a value that is either None or truthy. */
    function GetOr(default: T): T {
      match this
      case Some(v) => v
      case None => default
    }
  }
}
