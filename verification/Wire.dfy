/** The messages that HardLight's two ends exchange for RPC calls, and the error
    values a call can end in (`src/wire.rs`). */
module Wire {

  type Byte = b: int | 0 <= b < 256
  type Bytes = seq<Byte>

  /** The number of RPC ids, and so the size of both tables. */
  const CAPACITY: nat := 256

  /** A `u8` RPC id. */
  type RpcId = i: int | 0 <= i < 256

  datatype Option<+T> = None | Some(value: T)

  datatype Result<+T, +E> = Ok(value: T) | Err(error: E)

  datatype RpcHandlerError =
    | ClientNotConnected
    | TooManyCallsInFlight
    | ClientEncodeError
    | ClientDecodeError
    | ServerEncodeError
    | ServerDecodeError
    | ClientCompressError
    | ClientDecompressError
    | ServerCompressError
    | ServerDecompressError
    | HandlerPanicked

  type Output = Result<Bytes, RpcHandlerError>

  /** `ClientMessage::RPCRequest`. The program sends only `id` and `internal`; `origin`
      records which application call the message stems from. Its type is a parameter that
      nothing is known about, so no code that handles a request can look inside it: the
      program itself is the instance at the unit type. */
  datatype Request<+T> = Request(id: RpcId, internal: Bytes, origin: T)

  /** `ServerMessage::RPCResponse`, with the origin of the request it answers. */
  datatype Response<+T> = Response(id: RpcId, output: Output, origin: T)

  /** Removes the element at index `k`. */
  function Without<T>(s: seq<T>, k: nat): (r: seq<T>)
    requires k < |s|
    ensures |r| == |s| - 1
    ensures forall x | x in r :: x in s
  {
    s[..k] + s[k + 1..]
  }
}
