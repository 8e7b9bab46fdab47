/** The two codecs facing each other over one connection. */
module Wire {
  import opened Ints
  import opened Io
  import opened Buffers
  import opened Messages
  import opened Json
  import opened Framing
  import ServerProtocol
  import ClientProtocol

  /** A Request the client writes is read back by the server as the same Request (same `number`), and nothing is left over. */
  method SendRequest(req: Request) returns (received: Result<Option<Request>>, left: seq<byte>)
    ensures received == Ok(Some(req))
    ensures left == []
  {
    var buf := new BytesMut([]);
    var sent := ClientProtocol.Encode(req, buf);
    EncodeAppendsFrame(RequestSerde(), req, []);
    assert buf.data == Frame(RequestSerde(), req) + [];
    RequestRoundTrips(req);
    DecodeEncodedFrame(RequestSerde(), req, []);
    received := ServerProtocol.Decode(buf);
    left := buf.data;
  }

  /** A Response the server writes is read back by the client as the same variant and payload. */
  method SendResponse(floats: Serde<F64>, resp: Response) returns (received: Result<Option<Response>>, left: seq<byte>)
    requires resp.Success? ==> RoundTrips(floats, resp.elapsed)
    ensures received == Ok(Some(resp))
    ensures left == []
  {
    var buf := new BytesMut([]);
    ResponseRoundTrips(floats, resp);
    var sent := ServerProtocol.Encode(floats, resp, buf);
    EncodeAppendsFrame(ResponseSerde(floats), resp, []);
    assert buf.data == Frame(ResponseSerde(floats), resp) + [];
    DecodeEncodedFrame(ResponseSerde(floats), resp, []);
    received := ClientProtocol.Decode(floats, buf);
    left := buf.data;
  }

  /** A batch of Requests written back to back is read by the server one by one, in order. */
  lemma RequestBatchInOrder(reqs: seq<Request>, partial: seq<byte>)
    requires Newline !in partial
    ensures DecodeMany(RequestSerde(), Frames(RequestSerde(), reqs) + partial, |reqs| + 1)
         == After(Decoded(reqs) + [Ok(None)], partial)
  {
    forall i | 0 <= i < |reqs| ensures RoundTrips(RequestSerde(), reqs[i]) {
      RequestRoundTrips(reqs[i]);
    }
    FramesThenPartial(RequestSerde(), reqs, partial);
  }

  /** The Responses of a connection, written back to back, reach the client in the order written. */
  lemma ResponseBatchInOrder(floats: Serde<F64>, resps: seq<Response>)
    requires forall i :: 0 <= i < |resps| && resps[i].Success? ==> RoundTrips(floats, resps[i].elapsed)
    ensures DecodeMany(ResponseSerde(floats), Frames(ResponseSerde(floats), resps), |resps|)
         == After(Decoded(resps), [])
  {
    forall i | 0 <= i < |resps| ensures RoundTrips(ResponseSerde(floats), resps[i]) {
      ResponseRoundTrips(floats, resps[i]);
    }
    DecodeEncodedFrames(ResponseSerde(floats), resps, []);
    assert Frames(ResponseSerde(floats), resps) + [] == Frames(ResponseSerde(floats), resps);
  }
}
