/** The plain value types shared by the modules. */
module Types {

  type Byte = n: nat | n < 256

  /** The contents of a fresh byte buffer. */
  function ZeroBytes(n: nat): (s: seq<Byte>)
    ensures |s| == n && forall i :: 0 <= i < n ==> s[i] == 0
  {
    seq(n, _ => 0)
  }

  function Reversed<T>(s: seq<T>): (r: seq<T>)
    ensures |r| == |s| && forall i :: 0 <= i < |s| ==> r[i] == s[|s| - 1 - i]
  {
    seq(|s|, i requires 0 <= i < |s| => s[|s| - 1 - i])
  }

  datatype Option<+T> = None | Some(value: T)

  /** `error` names the exception class the program raises. */
  datatype Result<+T> = Ok(value: T) | Raised(error: Error) {
    predicate IsFailure() { Raised? }

    function PropagateFailure<U>(): Result<U>
      requires Raised?
    {
      Raised(error)
    }

    function Extract(): T
      requires Ok?
    {
      value
    }
  }

  datatype Error = InvalidArgument | LogicError | RuntimeError | OverflowError | BadOptionalAccess
}
