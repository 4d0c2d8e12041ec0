/** Byte strings and the error-carrying result type shared by every module. */
module Prelude {
  type Bytes = seq<bv8>

  datatype Option<+T> = None | Some(value: T)

  /** The errors the conversion pipeline can return, one per failing stage. */
  datatype Error =
    | UnknownKeyspace
    | UnknownEncodingType
    | UnknownContentType
    | UnknownEncryption
    | EntropyFailed
    | DecryptFailed
    | DecompressFailed
    | UnmarshalFailed
    | MarshalFailed

  /** A value or an error, usable with `:-`. */
  datatype Result<+T> = Ok(value: T) | Err(error: Error) {
    predicate IsFailure() {
      Err?
    }

    function PropagateFailure<U>(): Result<U>
      requires Err?
    {
      Err(error)
    }

    function Extract(): T
      requires Ok?
    {
      value
    }
  }

  function FromOption<T>(o: Option<T>, e: Error): Result<T> {
    match o
    case Some(v) => Ok(v)
    case None => Err(e)
  }
}
