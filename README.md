# ancestor: newline-delimited JSON framing, in Dafny

This project models the core of `ancestor`, a small tokio request/response service. A client sends
`Request { number }` values. The server counts to `number` on a CPU pool, racing a timer, and
answers `Response::Success(elapsed)` or `Response::Failure`. Messages travel as JSON frames, and a
single `\n` ends each frame.

What is modelled, by source file:

- `src/lib.rs`
  - The `BytesMut` buffer is the class `Buffers.BytesMut`, whose field is the buffer's contents.
  - `decode_message` and `encode_message` are the methods `Framing.DecodeMessage` and
    `Framing.EncodeMessage`.
  - Each method is proved equal to a pure function of the old buffer: `Framing.DecodeFrame` or
    `Framing.EncodeFrame`. That function gives the result and the new buffer contents.
  - serde_json is a pair of functions, `Json.Serde`. The framing relies on two facts about a
    value's serialisation, bundled as `Json.RoundTrips`:
    - the output holds no raw newline, because compact JSON escapes control characters inside
      strings (section 7 of RFC 8259);
    - decoding the output gives the value back.
  - The `Request` form `{"number":<decimal>}` is concrete, and `Json.RequestRoundTrips` proves
    both facts for it.
  - The `Response` forms are serde's externally tagged enum: `{"Success":<float>}` and
    `"Failure"`. The float's text is a parameter `floats`. `Json.ResponseRoundTrips` proves both
    facts for a Response whenever its float text round-trips.
- `src/server/protocol.rs` and `src/client/protocol.rs`
  - These are the two codecs: the server reads Requests and writes Responses, and the client does
    the reverse.
  - `Wire` puts the two codecs on one connection and proves the cross-side round trips.
- `src/server/mod.rs`
  - Server construction, with 0 threads meaning the CPU count.
  - The per-connection worker.
  - The counting loop, as a method with a loop invariant.
  - The outcome of the timer/counter `select`, as pure functions of which side finished first.
- `src/client/mod.rs`
  - Request generation.
  - The `responses` countdown, kept in the `Tally` class: its decrement and the stop signal it
    raises as an `Other` error.
  - The `for_each` loop over the response stream, as `LoadClient.ForEach`, with the pure functions
    `Run` and `Printed` as its specification.
  - The top level, which swallows every `Other` error.

The round trip holds for a frame at the FRONT of the read buffer. There,
`DecodeFrame(s, Frame(s, v) + rest)` yields `Ok(Some(v))` and leaves exactly `rest`. It does not
hold when the frame sits behind a partial frame. Encoding onto a buffer that already holds
newline-free bytes glues those bytes to the new frame, and the decoder reads them as one line.

A timer error still answers `Failure`, because `.then(|_| Ok(Response::Failure))` ignores its
input (`ServerService.TimeoutFuture`).

## Model

| member | source | states |
|---|---|---|
| `Buffers.FirstIndexOf` | src/lib.rs:55 | `None` exactly when the byte is absent; otherwise an index holding the byte, with no earlier occurrence |
| `Buffers.BytesMut.Position` | src/lib.rs:55 | the front-to-back scan returns the index of the first newline, or `None` when there is none |
| `Buffers.BytesMut.SplitTo` | src/lib.rs:57-60 | returns the first `at` bytes and leaves the rest; the two pieces make up the old contents |
| `Buffers.BytesMut.Extend` | src/lib.rs:77-78 | the old contents stay as a prefix and the new bytes follow |
| `Json.Decimal` | src/lib.rs:45-49 | the decimal text of a `number` is canonical JSON digits (no leading zero) and holds no newline |
| `Json.DecimalValue` | src/lib.rs:45-49 | reading the decimal text of `n` gives `n` back |
| `Json.DecimalOfValue` | src/lib.rs:45-49 | a canonical digit string is the decimal text of its value, so a number's text is unique |
| `Json.ParseU64` | src/lib.rs:45-49 | a digit string is accepted as a `u64` only if it is the canonical text of that value |
| `Json.EncodeRequest` | src/lib.rs:45-49 | the `{"number":<decimal>}` form of a Request holds no raw newline |
| `Json.DecodeRequest` | src/lib.rs:45-49 | a line decodes to a Request only if it is exactly that Request's encoding |
| `Json.RequestRoundTrips` | src/lib.rs:45-49 | every Request serialises without a newline and decodes back to itself |
| `Json.EncodeResponse` | src/lib.rs:36-42 | `Failure` is written as `"Failure"`; writing `Success` fails exactly when its float cannot be written |
| `Json.DecodeResponse` | src/lib.rs:36-42 | the model's decoder reads `Failure` exactly from the line `"Failure"` |
| `Json.FiniteResponseRoundTrips` | src/lib.rs:36-42 | when serde_json's float text round-trips every finite float, every Response with a finite payload serialises without a newline and decodes back to itself |
| `Json.ResponseRoundTrips` | src/lib.rs:36-42 | a Response serialises without a newline and decodes back to itself whenever its float payload does |
| `Framing.Deserialize` | src/lib.rs:63-66 | `Ok(Some(v))` when the line deserialises to `v`; otherwise an error of kind `Other`, never `Ok(None)` |
| `Framing.DecodeFrame` | src/lib.rs:54-70 | no newline: `Ok(None)` and the buffer unchanged; `Ok(None)` exactly when there is no newline; a complete frame is always consumed |
| `Framing.DecodeAtFirstNewline` | src/lib.rs:55-63 | with the first newline at `i`, exactly the line `b[..i]` is deserialised and exactly `i + 1` bytes are consumed, also when deserialisation fails |
| `Framing.EncodeFrame` | src/lib.rs:72-80 | serialisation fails: `Err` with the buffer unchanged; otherwise `Ok` with the JSON text and exactly one newline appended |
| `Framing.Frame` | src/lib.rs:77-78 | a successfully encoded frame ends with the newline delimiter |
| `Framing.DecodeMessage` | src/lib.rs:54-70 | the in-place decoding gives the result and the buffer that `DecodeFrame` gives |
| `Framing.EncodeMessage` | src/lib.rs:72-80 | the in-place encoding gives the result and the buffer that `EncodeFrame` gives |
| `Framing.EncodeAppendsFrame` | src/lib.rs:73-79 | encoding appends exactly the value's frame, and it succeeds exactly when serialisation does |
| `Framing.DecodeEncodedFrame` | src/lib.rs:54-80 | round trip: a frame at the front decodes to its value and leaves exactly the bytes after it |
| `Framing.DecodeEncodedFrames` | src/lib.rs:54-80 | `N` frames back to back decode, in order, as the `N` values, each call consuming exactly its own frame |
| `Framing.FramesThenPartial` | src/lib.rs:54-69 | after the complete frames, a trailing partial frame decodes as "nothing yet" and stays in the buffer |
| `ServerProtocol.Decode` | src/server/protocol.rs:12-19 | the server's decoder is `decode_message` at `Request`: same result, same buffer effect |
| `ServerProtocol.Encode` | src/server/protocol.rs:21-28 | the server's encoder is `encode_message` at `Response`: same result, same buffer effect |
| `ServerProtocol.BindTransport` | src/server/protocol.rs:32-41 | binding a transport never fails and frames the given stream with empty buffers |
| `ServerProtocol.NoRequestBeforeNewline` | src/server/protocol.rs:16-18 | without a newline the server reads no Request and consumes nothing |
| `ServerProtocol.MalformedRequestIsConsumed` | src/server/protocol.rs:16-18 | a malformed request line and its newline are consumed and the result is the `Other` deserialise error |
| `ClientProtocol.Decode` | src/client/protocol.rs:10-17 | the client's decoder is `decode_message` at `Response` |
| `ClientProtocol.Encode` | src/client/protocol.rs:19-26 | the client's encoder is `encode_message` at `Request` |
| `ClientProtocol.NoResponseBeforeNewline` | src/client/protocol.rs:14-16 | a partial response frame decodes as `Ok(None)` and consumes nothing |
| `ClientProtocol.EncodeRequestAppends` | src/client/protocol.rs:23-25 | encoding a Request never fails and appends its JSON text and one newline |
| `Wire.SendRequest` | src/client/protocol.rs:19-26 | a Request the client encodes is decoded by the server's codec as a Request with the same `number`, and nothing is left over |
| `Wire.SendResponse` | src/server/protocol.rs:21-28 | a Response the server encodes is decoded by the client's codec as the same variant and payload |
| `Wire.RequestBatchInOrder` | src/server/protocol.rs:16-18 | a batch of client frames is read by the server one by one in order, then a partial frame reads as "nothing yet" |
| `Wire.ResponseBatchInOrder` | src/client/protocol.rs:14-16 | the Responses written on a connection reach the client in the order written |
| `ServerService.CpuPool.constructor` | src/server/mod.rs:38-42 | a pool of exactly the requested number of threads (at least one) |
| `ServerService.FromSecs` | src/server/mod.rs:43 | a duration of exactly the given whole seconds |
| `ServerService.PoolSize` | src/server/mod.rs:38-42 | 0 selects the CPU count, any other value exactly that many threads |
| `ServerService.Default` | src/server/mod.rs:25-32 | a CPU-count-sized pool and a 5-second timeout |
| `ServerService.New` | src/server/mod.rs:36-45 | `Server::new(0, t)` has a CPU-count pool and `Server::new(n, t)` with `n > 0` a pool of `n` threads (`PoolSize`); the timeout is `t` whole seconds |
| `ServerService.NewZeroIsDefault` | src/server/mod.rs:26-43 | `Server::new(0, 5)` and `Server::default()` build pools of the same size and the same timeout |
| `ServerService.NewWorker` | src/server/mod.rs:50-57 | each connection's worker holds the server's own pool object and its timeout |
| `ServerService.WorkersShareOnePool` | src/server/mod.rs:50-57 | all connections' workers share one pool and one timeout |
| `ServerService.Count` | src/server/mod.rs:100-103 | the loop runs `req.number` iterations and the counter ends equal to `req.number` |
| `ServerService.TimeoutFuture` | src/server/mod.rs:82-93 | the timeout side always yields `Ok(Failure)`, also when the timer itself fails |
| `ServerService.CounterFuture` | src/server/mod.rs:112-114 | the counter side never fails and yields `Success` with the measured elapsed value |
| `ServerService.Select` | src/server/mod.rs:119-122 | the first side to finish decides: its value, or `Timeout error` if it failed |
| `ServerService.Call` | src/server/mod.rs:76-125 | a call never fails; `Failure` when the timer finished first, `Success(elapsed)` when the counter did |
| `ServerService.CallNeverFails` | src/server/mod.rs:85-92 | the `Timeout error` branch is dead, and a timer error still answers `Failure` |
| `LoadClient.GenRange` | src/client/mod.rs:57 | a drawn number lies in `[lo, hi)` |
| `LoadClient.GenerateRequests` | src/client/mod.rs:55-59 | exactly `num_requests` requests, each `number` in `[range.0, range.1)` |
| `LoadClient.Tally.constructor` | src/client/mod.rs:45-46 | the counter starts at `num_requests` |
| `LoadClient.Tally.OnResponse` | src/client/mod.rs:67-85 | prints index `requests - responses` taken before the decrement, drops the counter by one, and raises the `Other` stop signal exactly when it reaches 0 |
| `LoadClient.PrintedIndices` | src/client/mod.rs:69-70 | responses are printed in arrival order and numbered consecutively from `requests - responses`, at most one per outstanding response |
| `LoadClient.StopsAfterLastResponse` | src/client/mod.rs:73-84 | after the `num_requests`-th response the loop stops with the stop signal, having printed exactly that many lines |
| `LoadClient.EndOfStreamBeforeLastResponse` | src/client/mod.rs:67-86 | a stream that ends before all responses arrive ends the loop with `Ok(())` |
| `LoadClient.RunFailsOnlyWithStreamErrors` | src/client/mod.rs:67-86 | the loop fails only with the stop signal or with an error the stream itself raised |
| `LoadClient.DecodeErrorReached` | src/client/mod.rs:67-86 | a stream error that arrives before the last response is what the loop returns |
| `LoadClient.Run` | src/client/mod.rs:67-86 | the loop returns `Ok(())` only when the stream ended before the last expected response and every item was a response |
| `LoadClient.ForEach` | src/client/mod.rs:67-86 | the loop's result and its printed lines are those of `Run` and `Printed`, and the counter drops by one per printed line |
| `LoadClient.Shadow` | src/client/mod.rs:90-95 | the top level ends normally exactly on `Ok` or an `Other` error, and otherwise panics with that error |
| `LoadClient.FinishesWhenStreamErrorsAreOther` | src/client/mod.rs:90-95 | when every stream error has kind `Other`, the client ends normally |
| `LoadClient.DecodeFailureEndsNormally` | src/client/mod.rs:90-95 | a malformed response frame ends the loop with the deserialise error, which the top level silently accepts |
| `LoadClient.OtherKindsPanic` | src/client/mod.rs:90-95 | an error of any other kind makes the top level panic with it |
| `LoadClient.Start` | src/client/mod.rs:40-96 | a failed connect draws no request; otherwise exactly `num_requests` in-range requests are drawn, and the exit follows the send result or the loop's result through the top-level filter |

## Left out

- The tokio event loop, the `TcpServer` accept loop, `TcpStream::connect`, `send_all` and the `for_each` streaming are not modelled. Connecting and sending are inputs (`connect`, `send`), and the response stream is a given sequence of decoded items.
- The scheduling of `select` is not modelled, and neither is how simultaneous completion is broken. `Call` takes the side that finished first as an input. `timeout.select(counter)` polls the timer first, so on a simultaneous finish the library picks the timer.
- The `CpuPool` threads, the `tokio_timer::Timer` (the worker's `timer` field) and the `Instant`-based elapsed time are not modelled. The elapsed value is an input.
- The `f64` arithmetic that turns the elapsed `Duration` into seconds is left out, because it is floating point. `F64` is only a bit pattern.
- serde_json's `f64` text is the parameter `floats`. serde_json writes a NaN or an infinity as `null` and cannot read it back. So the round trip is assumed per value (`RoundTrips(floats, x)`), and it holds only for finite floats (`F64.IsFinite`), which an elapsed time always is.
- Json.DecodeResponse: accepts only `"Failure"` and `{"Success":<float text>}` exactly. serde_json also reads these with surrounding or inner whitespace (` "Failure"`, `"Failure"\r`, `{ "Success": 1.0 }`) and the map form `{"Failure":null}` of the unit variant; the model rejects them, and `DecodeFrame` turns that into the deserialise error.
- Json.DecodeRequest: accepts only the compact form the encoder writes. serde_json also accepts whitespace, reordered or unknown fields and escaped key spellings, so the model rejects some lines that the source reads as valid Requests.
- LoadClient.GenRange: stands in for `rand`'s uniform sampler with `lo + raw % (hi - lo)`. It keeps only the `[lo, hi)` bound and none of the distribution. Its `requires lo < hi` excludes the panic `gen_range` raises on an empty range; that panic is reachable, since the command line passes the range through unchecked, and `Start` then excludes it too (`connect.Ok? && numRequests > 0 ==> range.0 < range.1`).
- LoadClient.Start: draws every request before `send` is consulted. `send_all` draws lazily and stops at the first write error, so after a failed send fewer requests may have been drawn or written; `generated` is what the model draws, not what reached the server.
- LoadClient.Tally.OnResponse: the `u32` decrement of a zero counter is excluded by `requires responses > 0`, the panic of a debug build. A release build would wrap it to `u32::MAX`. The case arises only when a response arrives with `num_requests = 0`, and `NoUnderflow` names it.
- tokio's `decode_eof` at end of stream is not modelled, and neither is the way `Framed` grows its buffers.
- `client/src/main.rs` and `server/src/main.rs` (command-line parsing, logger set-up) are not modelled.
- Logging (`info!`, `debug!`, `error!`) is not modelled. `println!` is modelled only as the returned list of printed lines.
