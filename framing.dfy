/**
 * Newline-delimited framing (src/lib.rs): a frame is a value's JSON text followed by one `\n`.
 * `DecodeFrame` and `EncodeFrame` give the result and the new buffer of one call as functions of
 * the old buffer; the methods `DecodeMessage` and `EncodeMessage` do the same on a `BytesMut`.
 */
module Framing {
  import opened Ints
  import opened Io
  import opened Buffers
  import opened Json

  /** A call's result together with the buffer contents it leaves behind. */
  datatype After<R> = After(result: R, buffer: seq<byte>)

  const DeserializeError: IoError := IoError(Other, "Deserialize error")
  const SerializeError: IoError := IoError(Other, "Serialize error")

  /** `serde_json::from_slice(&line).map(Some)`, with a failure turned into a `Deserialize error`. */
  function Deserialize<T>(s: Serde<T>, line: seq<byte>): (r: Result<Option<T>>)
    ensures r.Ok? <==> s.decode(line).Some?
    ensures r.Ok? ==> r.value == s.decode(line)
    ensures r.Err? ==> r.error == DeserializeError && r.error.kind == Other
  {
    match s.decode(line)
    case Some(v) => Ok(Some(v))
    case None => Err(DeserializeError)
  }

  /** One `decode_message` call on a buffer holding `b`. */
  function DecodeFrame<T>(s: Serde<T>, b: seq<byte>): (r: After<Result<Option<T>>>)
    // no complete frame yet: nothing is consumed
    ensures Newline !in b ==> r == After(Ok(None), b)
    // `Ok(None)` means exactly "no newline yet"
    ensures r.result == Ok(None) <==> Newline !in b
    // a complete frame is always consumed, delimiter included
    ensures Newline in b ==> |r.buffer| < |b|
  {
    match FirstIndexOf(b, Newline)
    case None => After(Ok(None), b)
    case Some(i) => After(Deserialize(s, b[..i]), b[i + 1..])
  }

  /**
   * With the first newline at `i`, the line before it is deserialised and exactly `i + 1` bytes
   * are consumed, whether or not deserialisation succeeds.
   */
  lemma DecodeAtFirstNewline<T>(s: Serde<T>, b: seq<byte>, i: nat)
    requires i < |b| && b[i] == Newline && Newline !in b[..i]
    ensures DecodeFrame(s, b).result == Deserialize(s, b[..i])
    ensures DecodeFrame(s, b).buffer == b[i + 1..]
    ensures b == b[..i] + [Newline] + DecodeFrame(s, b).buffer
  {
  }

  /** One `encode_message` call on a buffer holding `b`. */
  function EncodeFrame<T>(s: Serde<T>, v: T, b: seq<byte>): (r: After<Result<Unit>>)
    ensures s.encode(v).None? ==> r == After(Err(SerializeError), b)
    ensures s.encode(v).Some? ==> r == After(Ok(Unit), b + s.encode(v).value + [Newline])
  {
    match s.encode(v)
    case None => After(Err(SerializeError), b)
    case Some(text) => After(Ok(Unit), b + text + [Newline])
  }

  /** The bytes one `encode_message` call appends: the JSON text and a newline, or nothing on failure. */
  function Frame<T>(s: Serde<T>, v: T): (f: seq<byte>)
    ensures s.encode(v).Some? ==> |f| >= 1 && f[|f| - 1] == Newline
  {
    match s.encode(v)
    case Some(text) => text + [Newline]
    case None => []
  }

  method DecodeMessage<T>(s: Serde<T>, bytes: BytesMut) returns (r: Result<Option<T>>)
    modifies bytes
    ensures After(r, bytes.data) == DecodeFrame(s, old(bytes.data))
  {
    var position := bytes.Position(Newline);
    if position.Some? {
      // remove the frame, then the newline, before deserialising
      var line := bytes.SplitTo(position.value);
      var _ := bytes.SplitTo(1);
      r := Deserialize(s, line);
    } else {
      r := Ok(None);
    }
  }

  method EncodeMessage<T>(s: Serde<T>, msg: T, bytes: BytesMut) returns (r: Result<Unit>)
    modifies bytes
    ensures After(r, bytes.data) == EncodeFrame(s, msg, old(bytes.data))
  {
    var text := s.encode(msg);
    if text.None? {
      return Err(SerializeError);
    }
    bytes.Extend(text.value);
    bytes.Extend([Newline]);
    r := Ok(Unit);
  }

  /** Encoding appends exactly the frame: the old contents stay as a prefix. */
  lemma EncodeAppendsFrame<T>(s: Serde<T>, v: T, b: seq<byte>)
    ensures EncodeFrame(s, v, b).buffer == b + Frame(s, v)
    ensures EncodeFrame(s, v, b).result.Ok? <==> s.encode(v).Some?
  {
  }

  /** Round trip: a frame at the front of the buffer decodes to its value and leaves what followed it. */
  lemma DecodeEncodedFrame<T>(s: Serde<T>, v: T, rest: seq<byte>)
    requires RoundTrips(s, v)
    ensures DecodeFrame(s, Frame(s, v) + rest) == After(Ok(Some(v)), rest)
  {
    var text := s.encode(v).value;
    var b := Frame(s, v) + rest;
    assert b[..|text|] == text;
    assert b[|text| + 1..] == rest;
    DecodeAtFirstNewline(s, b, |text|);
  }

  /** The frames of `vs`, back to back. */
  function Frames<T>(s: Serde<T>, vs: seq<T>): seq<byte>
  {
    if |vs| == 0 then [] else Frame(s, vs[0]) + Frames(s, vs[1..])
  }

  /** `n` successive `decode_message` calls: their results and the buffer left at the end. */
  function DecodeMany<T>(s: Serde<T>, b: seq<byte>, n: nat): After<seq<Result<Option<T>>>>
  {
    if n == 0 then After([], b)
    else
      var first := DecodeFrame(s, b);
      var more := DecodeMany(s, first.buffer, n - 1);
      After([first.result] + more.result, more.buffer)
  }

  function Decoded<T>(vs: seq<T>): (r: seq<Result<Option<T>>>)
    ensures |r| == |vs|
    ensures forall i :: 0 <= i < |vs| ==> r[i] == Ok(Some(vs[i]))
  {
    seq(|vs|, i requires 0 <= i < |vs| => Ok(Some(vs[i])))
  }

  /**
   * `N` back-to-back frames decode, in order, as the `N` values, each call consuming exactly its
   * own frame; what followed the frames is left in the buffer.
   */
  lemma {:induction false} DecodeEncodedFrames<T>(s: Serde<T>, vs: seq<T>, rest: seq<byte>)
    requires forall i :: 0 <= i < |vs| ==> RoundTrips(s, vs[i])
    ensures DecodeMany(s, Frames(s, vs) + rest, |vs|) == After(Decoded(vs), rest)
  {
    if |vs| > 0 {
      FirstFrameThenTail(s, vs, rest);
      DecodeEncodedFrames(s, vs[1..], rest);
      DecodedCons(vs);
    }
  }

  /** The first call on back-to-back frames yields the first value and leaves the other frames. */
  lemma FirstFrameThenTail<T>(s: Serde<T>, vs: seq<T>, rest: seq<byte>)
    requires |vs| > 0 && RoundTrips(s, vs[0])
    ensures DecodeFrame(s, Frames(s, vs) + rest) == After(Ok(Some(vs[0])), Frames(s, vs[1..]) + rest)
  {
    assert Frames(s, vs) + rest == Frame(s, vs[0]) + (Frames(s, vs[1..]) + rest);
    DecodeEncodedFrame(s, vs[0], Frames(s, vs[1..]) + rest);
  }

  lemma DecodedCons<T>(vs: seq<T>)
    requires |vs| > 0
    ensures Decoded(vs) == [Ok(Some(vs[0]))] + Decoded(vs[1..])
  {
  }

  /** After the complete frames, a trailing partial frame is reported as "nothing yet" and kept. */
  lemma {:induction false} FramesThenPartial<T>(s: Serde<T>, vs: seq<T>, partial: seq<byte>)
    requires forall i :: 0 <= i < |vs| ==> RoundTrips(s, vs[i])
    requires Newline !in partial
    ensures DecodeMany(s, Frames(s, vs) + partial, |vs| + 1) == After(Decoded(vs) + [Ok(None)], partial)
  {
    if |vs| == 0 {
      assert Frames(s, vs) + partial == partial;
      var first := DecodeFrame(s, partial);
      assert first == After(Ok(None), partial);
      assert DecodeMany(s, first.buffer, 0) == After([], partial);
      assert [first.result] + [] == [Ok(None)];
      assert DecodeMany(s, partial, 1) == After([Ok(None)], partial);
      assert |Decoded(vs)| == 0;
      assert Decoded(vs) + [Ok(None)] == [Ok(None)];
    } else {
      var b := Frames(s, vs) + partial;
      var tail := Frames(s, vs[1..]) + partial;
      FirstFrameThenTail(s, vs, partial);
      FramesThenPartial(s, vs[1..], partial);
      var more := DecodeMany(s, tail, |vs|);
      assert more == After(Decoded(vs[1..]) + [Ok(None)], partial);
      assert DecodeMany(s, b, |vs| + 1) == After([Ok(Some(vs[0]))] + more.result, more.buffer);
      DecodedCons(vs);
      assert [Ok(Some(vs[0]))] + (Decoded(vs[1..]) + [Ok(None)]) == Decoded(vs) + [Ok(None)];
    }
  }
}
