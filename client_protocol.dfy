/** The client's codec (src/client/protocol.rs): it writes Requests and reads Responses. */
module ClientProtocol {
  import opened Ints
  import opened Io
  import opened Buffers
  import opened Messages
  import opened Json
  import opened Framing

  /** `Decoder for Codec`: `decode_message` at `Response`; `floats` is serde_json's `f64` text. */
  method Decode(floats: Serde<F64>, buf: BytesMut) returns (r: Result<Option<Response>>)
    modifies buf
    ensures After(r, buf.data) == DecodeFrame(ResponseSerde(floats), old(buf.data))
  {
    r := DecodeMessage(ResponseSerde(floats), buf);
  }

  /** `Encoder for Codec`: `encode_message` at `Request`. */
  method Encode(msg: Request, buf: BytesMut) returns (r: Result<Unit>)
    modifies buf
    ensures After(r, buf.data) == EncodeFrame(RequestSerde(), msg, old(buf.data))
  {
    r := EncodeMessage(RequestSerde(), msg, buf);
  }

  /** A partial response frame decodes as "nothing yet" and consumes nothing. */
  lemma NoResponseBeforeNewline(floats: Serde<F64>, b: seq<byte>)
    requires Newline !in b
    ensures DecodeFrame(ResponseSerde(floats), b) == After(Ok(None), b)
  {
  }

  /** Encoding a Request never fails: it appends `{"number":<decimal>}` and a newline. */
  lemma EncodeRequestAppends(msg: Request, b: seq<byte>)
    ensures EncodeFrame(RequestSerde(), msg, b) == After(Ok(Unit), b + EncodeRequest(msg) + [Newline])
  {
  }
}
