/** Option and Result, and the Python exceptions the modelled code can raise. */
module Wrappers {

  datatype Option<+T> = None | Some(value: T)

  datatype Result<+T, +E> = Ok(value: T) | Err(error: E)

  /** The exception a Python statement raises; a raised exception ends the run. */
  datatype PyError =
    | KeyError        // dictionary lookup of a missing key
    | TypeError       // iterating over None, `os.path.isfile(None)`
    | AttributeError  // reading an attribute that was never assigned
    | IndexError      // indexing past the end of a string or list
    | ValueError      // unpacking a list of the wrong length
    | IOError         // opening a file that is not there
    | ZeroDivisionError
    | NameError       // reading a local variable that was never bound
}
