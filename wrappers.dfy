/** Failure values for the directory operations that throw in the samples. */
module Wrappers {

  datatype Option<T> = None | Some(value: T) {
    /** The value, or the default when there is none. */
    function GetOr(default: T): T {
      if Some? then value else default
    }
  }

  /** The exceptions the modelled code lets escape to its caller. */
  datatype Error =
    | NameNotFound          // no entry at that DN (NameNotFoundException)
    | NameAlreadyBound      // a bind onto a DN that is taken (NameAlreadyBoundException)
    | NullReference         // a finder returned null and the caller used it (NullPointerException)
    | NoSuchRdn             // LdapUtils.getStringValue found no component of that type
    | UnsupportedOperation  // UnsupportedOperationException

  datatype Result<T> = Ok(value: T) | Err(error: Error)
}
