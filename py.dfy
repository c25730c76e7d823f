/** Python-level vocabulary shared by every producer model: optional values
    (None) and the exceptions a statement can raise. */
module Py {

  /** A value that may be Python's None. */
  datatype Option<+T> = None | Some(value: T)

  /** The exception a Python statement would raise at run time. */
  datatype Error =
    | KeyError(key: string)      // d[k] with k missing
    | IndexError                 // seq[i] out of range
    | TypeError                  // an operation on a value of the wrong type
    | AttributeError             // a method called on a value that lacks it
    | ValueError                 // tuple unpacking of the wrong arity, empty separator
    | ParserError(msg: string)   // raised explicitly by the producer
    | NameError(name: string)    // a name used that no module defines
    | IOError(path: string)      // open() of a file that is not there
    | Exit                       // sys.exit(1)
    | Unsupported                // a case this model leaves out (see README)

  /** The outcome of a Python call: a value, or the exception it raised. */
  datatype Result<+T> = Ok(value: T) | Err(error: Error) {
    predicate IsFailure() { Err? }
    function PropagateFailure<U>(): Result<U>
      requires Err?
    {
      Err(error)
    }
    function Extract(): T
      requires Ok?
    {
      value
    }
  }
}
