/** Failure-compatible wrappers and the exceptions the modelled Python code raises. */
module Wrappers {

  /** `None` or a value; stands for Python's `Optional`. */
  datatype Option<+T> = None | Some(value: T) {
    predicate IsFailure() { None? }

    function PropagateFailure<U>(): Option<U>
      requires None?
    {
      None
    }

    function Extract(): T
      requires Some?
    {
      value
    }

    function GetOr(default: T): T {
      match this
      case Some(v) => v
      case None => default
    }
  }

  /** The Python exception classes raised by the modelled code. The message is kept
      where the source builds one from its inputs. */
  datatype Error =
    | ValueError(msg: string)
    | RuntimeError(msg: string)
    | SystemExit(msg: string)
    | KeyError(msg: string)
    | IndexError(msg: string)
    | TypeError(msg: string)
    | AttributeError(msg: string)
    | ZeroDivisionError
    | ProviderError(msg: string)

  /** Either a result or the exception that interrupted the computation. */
  datatype Result<+T> = Success(value: T) | Failure(error: Error) {
    predicate IsFailure() { Failure? }

    function PropagateFailure<U>(): Result<U>
      requires Failure?
    {
      Failure(error)
    }

    function Extract(): T
      requires Success?
    {
      value
    }
  }

  /** `Need(c, e)` fails with `e` unless `c` holds; used with `:-`. */
  datatype Check = Pass | Fail(error: Error) {
    predicate IsFailure() { Fail? }

    function PropagateFailure<U>(): Result<U>
      requires Fail?
    {
      Failure(error)
    }
  }

  function Need(condition: bool, error: Error): Check {
    if condition then Pass else Fail(error)
  }
}
