/** Small failure-carrying datatypes shared by the other modules. */
module Wrappers {

  datatype Option<+T> = None | Some(value: T)

  /** The Python exceptions the modelled code can raise and not catch. */
  datatype PyError =
    | TypeError       // an operation applied to None (`x in None`, `None + "\n"`, `enumerate(None)`)
    | AttributeError  // an attribute or method looked up by a name that does not exist
    | KeyError        // a dictionary indexed with a missing key

  datatype Result<+R> = Ok(value: R) | Err(error: PyError)
}
