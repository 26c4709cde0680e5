/** Vocabulary shared by the NITF reader model: octets, optional values, and the
    typed failures a parse can end with. */
module NitfBase {

  /** One octet of the input stream. */
  type byte = x: int | 0 <= x < 256

  /** A Java `byte`: the same eight bits read as a two's-complement number. */
  type int8 = x: int | -128 <= x < 128

  /** The Java `byte` holding the bits of octet `b`. */
  function AsInt8(b: byte): (r: int8)
    ensures (r + 256) % 256 == b
    ensures 0 <= r <==> b < 128
  {
    if b < 128 then b else b - 256
  }

  /** A value that may be absent; `None` plays the role of a Java `null`. */
  datatype Option<+T> = None | Some(value: T)

  /** The four ways a parse can end without producing a model. */
  datatype ErrorKind =
    | Malformed    // a field is short, or is not made of the characters it must hold
    | OutOfRange   // a decoded value violates a documented bound
    | NotSeekable  // the streaming-mode file length needs a seekable input
    | Unsupported  // a well-formed construct that the reader declines to interpret

  /** A failure together with the stream offset at which it was raised. */
  datatype Error = Error(kind: ErrorKind, offset: nat)

  /** The outcome of a decoding step; usable with `:-`. */
  datatype Result<+T> = Success(value: T) | Failure(error: Error) {

    predicate IsFailure() {
      Failure?
    }

    function PropagateFailure<U>(): Result<U>
      requires Failure?
    {
      Failure(error)
    }

    function Extract(): T
      requires Success?
    {
      value
    }
  }
}
