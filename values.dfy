/**
 * The dynamically typed values that flow from the command line into the
 * server's keyword arguments, and Python's notion of truthiness on them.
 */
module Values {

  /** A Python value as it appears in the parsed argument namespace. */
  datatype Value =
    | PyNone            // an option the user did not give
    | Str(s: string)    // a path or a username
    | Int(n: int)       // a port or a connection limit
    | Callable          // the sub-command handler stored by `set_defaults`

  /** Python's `bool(v)`: `None`, `''` and `0` are false, everything else is true. */
  predicate Truthy(v: Value)
  {
    match v
    case PyNone => false
    case Str(s) => s != ""
    case Int(n) => n != 0
    case Callable => true
  }
}
