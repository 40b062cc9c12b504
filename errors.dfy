/** The Python exceptions the core can raise, and a result type that carries them. */
module Errors {

  /** The built-in exceptions that escape the modelled functions. */
  datatype PyError =
    | IndexError  // indexing past the end of a string, a list or a file
    | KeyError    // a dictionary lookup of a missing key
    | ValueError  // list.remove of an absent element

  /** Either the value a call returns or the exception it raises. */
  datatype Result<+T> = Ok(value: T) | Err(error: PyError)
}
