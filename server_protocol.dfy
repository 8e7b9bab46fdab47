/** The server's codec and protocol (src/server/protocol.rs): it reads Requests and writes Responses. */
module ServerProtocol {
  import opened Ints
  import opened Io
  import opened Buffers
  import opened Messages
  import opened Json
  import opened Framing

  /** `Decoder for Codec`: `decode_message` at `Request`. */
  method Decode(buf: BytesMut) returns (r: Result<Option<Request>>)
    modifies buf
    ensures After(r, buf.data) == DecodeFrame(RequestSerde(), old(buf.data))
  {
    r := DecodeMessage(RequestSerde(), buf);
  }

  /** `Encoder for Codec`: `encode_message` at `Response`; `floats` is serde_json's `f64` text. */
  method Encode(floats: Serde<F64>, msg: Response, buf: BytesMut) returns (r: Result<Unit>)
    modifies buf
    ensures After(r, buf.data) == EncodeFrame(ResponseSerde(floats), msg, old(buf.data))
  {
    r := EncodeMessage(ResponseSerde(floats), msg, buf);
  }

  /** A connection framed with the server codec; tokio's `Framed` starts with empty buffers. */
  datatype Transport<S> = Framed(stream: S, readBuffer: seq<byte>, writeBuffer: seq<byte>)

  /** `bind_transport` never fails: it frames the accepted stream with the server codec. */
  function BindTransport<S>(stream: S): (r: Result<Transport<S>>)
    ensures r.Ok?
    ensures r.value.stream == stream && r.value.readBuffer == [] && r.value.writeBuffer == []
  {
    Ok(Framed(stream, [], []))
  }

  /** Until a whole request line has arrived, the server reads nothing and keeps the bytes. */
  lemma NoRequestBeforeNewline(b: seq<byte>)
    requires Newline !in b
    ensures DecodeFrame(RequestSerde(), b) == After(Ok(None), b)
  {
  }

  /** A malformed request line is consumed and fails with an `Other` error; it never reads as "nothing yet". */
  lemma MalformedRequestIsConsumed(line: seq<byte>, rest: seq<byte>)
    requires Newline !in line
    requires DecodeRequest(line).None?
    ensures DecodeFrame(RequestSerde(), line + [Newline] + rest) == After(Err(DeserializeError), rest)
  {
    var b := line + [Newline] + rest;
    assert b[..|line|] == line && b[|line| + 1..] == rest;
    DecodeAtFirstNewline(RequestSerde(), b, |line|);
  }
}
