/** The optional values every other module shares. */
module Options {

  datatype Option<+T> = None | Some(value: T) {

    /** The `??` operator: the value when there is one, otherwise `other`. */
    function OrElse(other: Option<T>): Option<T> {
      if Some? then this else other
    }

    function GetOr(default: T): T {
      if Some? then value else default
    }
  }
}
