/** Failure values of the persistence layer: the Python exceptions that the
    store and the attribute protocol raise, returned here as data. */
module Results {

  datatype Option<+T> = None | Some(value: T)

  /** The exceptions the modelled code lets escape. */
  datatype Error =
    | AttributeError(name: string)  // an underscore name that is not a local field
    | KeyError(key: string)         // the engine has no record for a key
    | DecodeError(text: string)     // a key suffix that does not decode to an attribute name

  datatype Result<+T> = Ok(value: T) | Err(error: Error)
}
