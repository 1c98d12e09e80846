/** Option and Result: the nullable values and the exceptions of the
    modelled code become ordinary values. */
module Wrappers {

  /** A value that may be missing (a C# `null` or a `TryGet` miss). */
  datatype Option<+T> = None | Some(value: T) {

    function GetOr(default: T): T {
      match this
      case Some(v) => v
      case None => default
    }
  }

  /** The outcome of an operation that throws in the modelled code. */
  datatype Result<+T, +E> = Ok(value: T) | Err(error: E) {

    predicate IsFailure() {
      Err?
    }

    function PropagateFailure<U>(): Result<U, E>
      requires Err?
    {
      Err(error)
    }

    function Extract(): T
      requires Ok?
    {
      value
    }
  }
}

/** The exceptions the modelled code throws, one variant per exception
    class. Messages are kept as the text the code builds. */
module Errors {

  datatype Error =
    /** `SyntaxException`: a malformed grammar text, at a 1-based line and column. */
    | SyntaxError(message: string, line: int, column: int)
    /** `ArgumentException`, also thrown by `ToDictionary` on a duplicate key. */
    | ArgumentError(message: string)
    /** `NotSupportedException`. */
    | NotSupported(message: string)
    /** `FormatException`: a digit string that is not a number of the base. */
    | FormatError(message: string)
    /** `OverflowException`: a number that does not fit a 32-bit `int`. */
    | OverflowError(message: string)
    /** `InvalidOperationException`: a decoder called on the wrong token kind. */
    | InvalidOperation(message: string)
    /** `IndexOutOfRangeException`: an array read before its first element. */
    | IndexOutOfRange(message: string)
}
