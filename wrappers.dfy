/** Option and Result values, and the Python exceptions the scraper and the
    loaders can raise, as data. */
module Wrappers {

  datatype Option<+T> = None | Some(value: T)

  /** The exceptions that escape the modelled code. Each is raised by the
      Python runtime or a library call, never caught by the core (except the
      link-commit failure, which the loaders swallow). */
  datatype Error =
    | IndexError          // a list index or slice position is out of range
    | KeyError            // a dictionary has no entry for the key
    | TransportError      // an HTTP request failed
    | ValueError          // float() was given a string that is not a number
    | ZeroDivisionError   // a float was divided by 0.0
    | NoResultFound       // Query.one() found no row
    | IntegrityError      // a commit violated a UNIQUE or PRIMARY KEY constraint
    | AttributeError      // a module has no attribute of the name looked up

  datatype Result<+T> = Ok(value: T) | Err(error: Error)
}
