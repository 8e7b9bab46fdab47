/**
 * The load generator's control flow (src/client/mod.rs): it generates `num_requests` requests,
 * then counts the responses down and stops reading by raising an `Other` error, which the top
 * level then swallows. Connecting, sending and reading the socket are inputs here.
 */
module LoadClient {
  import opened Ints
  import opened Io
  import opened Messages
  import Framing

  /**
   * `rng.gen_range(lo, hi)`, which panics unless `lo < hi`. The random source is an input: its raw
   * output `raw` is reduced into the range.
   */
  function GenRange(raw: u64, lo: u64, hi: u64): (r: u64)
    requires lo < hi
    ensures lo <= r < hi
  {
    lo + raw % (hi - lo)
  }

  /** `(0 .. requests).map(|_| Request { number: rng.gen_range(range.0, range.1) })`, one draw per request. */
  method GenerateRequests(numRequests: u32, range: (usize, usize), raw: seq<u64>) returns (reqs: seq<Request>)
    requires |raw| == numRequests as nat
    requires numRequests > 0 ==> range.0 < range.1
    ensures |reqs| == numRequests as nat
    ensures forall i :: 0 <= i < |reqs| ==> range.0 <= reqs[i].number < range.1
    ensures forall i :: 0 <= i < |reqs| ==> reqs[i].number == GenRange(raw[i], range.0, range.1)
  {
    reqs := [];
    for k := 0 to numRequests as nat
      invariant |reqs| == k
      invariant forall i :: 0 <= i < k ==> reqs[i].number == GenRange(raw[i], range.0, range.1)
    {
      reqs := reqs + [Request(GenRange(raw[k], range.0, range.1))];
    }
  }

  const AllProcessed: IoError := IoError(Other, "All responses processed, it's not an error")

  /** One line the client prints: the response's index and the response. */
  datatype Line = Line(index: u32, response: Response)

  /** The state the `for_each` closure captures: the request count and the responses still expected. */
  class Tally {
    const requests: u32
    var responses: u32

    ghost predicate Valid()
      reads this
    {
      responses <= requests
    }

    constructor (numRequests: u32)
      ensures Valid()
      ensures requests == numRequests && responses == numRequests
    {
      requests := numRequests;
      responses := numRequests;
    }

    /**
     * The closure's body for one response: print its index `requests - responses`, count it, and
     * raise the stop signal once none is outstanding. `responses -= 1` on a `u32` overflows at 0,
     * which panics in a debug build.
     */
    method OnResponse(response: Response) returns (line: Line, r: Result<Unit>)
      requires Valid() && responses > 0
      modifies this
      ensures Valid()
      ensures line == Line(requests - old(responses), response)
      ensures responses == old(responses) - 1
      ensures r == if responses == 0 then Err(AllProcessed) else Ok(Unit)
    {
      line := Line(requests - responses, response);
      responses := responses - 1;
      if responses == 0 {
        r := Err(AllProcessed);
      } else {
        r := Ok(Unit);
      }
    }
  }

  /** No response arrives while none is outstanding (else the counter would underflow). */
  ghost predicate NoUnderflow(responses: nat, items: seq<Result<Response>>) {
    responses > 0 || items == [] || items[0].Err?
  }

  /**
   * What `for_each` returns on the stream `items` (decoded responses and decode errors) with
   * `responses` still expected: the first stream error, the stop signal, or `Ok` at end of stream.
   */
  function Run(responses: nat, items: seq<Result<Response>>): (r: Result<Unit>)
    requires NoUnderflow(responses, items)
    ensures r.Ok? ==> (items == [] || |items| < responses) && forall j :: 0 <= j < |items| ==> items[j].Ok?
  {
    if items == [] then Ok(Unit)
    else if items[0].Err? then Err(items[0].error)
    else if responses == 1 then Err(AllProcessed)
    else Run(responses - 1, items[1..])
  }

  /** The lines printed for `items`: one per response counted, numbered from `requests - responses`. */
  function Printed(requests: nat, responses: nat, items: seq<Result<Response>>): seq<Line>
    requires NoUnderflow(responses, items)
    requires responses <= requests < U32_LIMIT
    decreases |items|
  {
    if items == [] || items[0].Err? then []
    else
      var line := Line((requests - responses) as u32, items[0].value);
      if responses == 1 then [line] else [line] + Printed(requests, responses - 1, items[1..])
  }

  /** Responses are printed in arrival order with consecutive indices, at most one per outstanding response. */
  lemma {:induction false} PrintedIndices(requests: nat, responses: nat, items: seq<Result<Response>>)
    requires NoUnderflow(responses, items)
    requires responses <= requests < U32_LIMIT
    ensures var out := Printed(requests, responses, items);
            && |out| <= responses
            && |out| <= |items|
            && forall j :: 0 <= j < |out| ==>
                 out[j].index as nat == requests - responses + j && items[j] == Ok(out[j].response)
    decreases |items|
  {
    if items != [] && items[0].Ok? && responses > 1 {
      PrintedIndices(requests, responses - 1, items[1..]);
    }
  }

  /**
   * Once `n` responses have arrived the closure raises the stop signal, whatever follows: exactly
   * `n` lines are printed, numbered 0 to `n - 1`.
   */
  lemma {:induction false} StopsAfterLastResponse(requests: nat, responses: nat, items: seq<Result<Response>>)
    requires 1 <= responses <= requests < U32_LIMIT
    requires responses <= |items|
    requires forall j :: 0 <= j < responses ==> items[j].Ok?
    ensures Run(responses, items) == Err(AllProcessed)
    ensures |Printed(requests, responses, items)| == responses
    decreases responses
  {
    if responses > 1 {
      StopsAfterLastResponse(requests, responses - 1, items[1..]);
    }
  }

  /** A stream that ends, cleanly, before all responses arrived ends the loop with `Ok`. */
  lemma {:induction false} EndOfStreamBeforeLastResponse(responses: nat, items: seq<Result<Response>>)
    requires |items| < responses
    requires forall j :: 0 <= j < |items| ==> items[j].Ok?
    ensures Run(responses, items) == Ok(Unit)
    decreases |items|
  {
    if items != [] {
      EndOfStreamBeforeLastResponse(responses - 1, items[1..]);
    }
  }

  /**
   * The loop fails only with the stop signal or with an error the stream raised; so when every
   * stream error is of kind `Other` (as a decode failure is), the client ends normally.
   */
  lemma {:induction false} RunFailsOnlyWithStreamErrors(responses: nat, items: seq<Result<Response>>)
    requires NoUnderflow(responses, items)
    ensures Run(responses, items).Err? ==>
      Run(responses, items) == Err(AllProcessed)
      || exists j :: 0 <= j < |items| && items[j].Err? && items[j].error == Run(responses, items).error
    decreases |items|
  {
    if items != [] && items[0].Ok? && responses != 1 {
      RunFailsOnlyWithStreamErrors(responses - 1, items[1..]);
      if Run(responses - 1, items[1..]).Err? && Run(responses - 1, items[1..]) != Err(AllProcessed) {
        var j :| 0 <= j < |items[1..]| && items[1..][j].Err? && items[1..][j].error == Run(responses - 1, items[1..]).error;
        assert items[j + 1].Err? && items[j + 1].error == Run(responses, items).error;
      }
    }
  }

  lemma FinishesWhenStreamErrorsAreOther(responses: nat, items: seq<Result<Response>>)
    requires NoUnderflow(responses, items)
    requires forall j :: 0 <= j < |items| && items[j].Err? ==> items[j].error.kind == Other
    ensures Shadow(Run(responses, items)) == Finished
  {
    RunFailsOnlyWithStreamErrors(responses, items);
  }

  /** A malformed response frame is swallowed: the client ends as if all responses had arrived. */
  lemma DecodeFailureEndsNormally(responses: nat, before: seq<Result<Response>>, after: seq<Result<Response>>)
    requires |before| < responses
    requires forall j :: 0 <= j < |before| ==> before[j].Ok?
    ensures Run(responses, before + [Err(Framing.DeserializeError)] + after) == Err(Framing.DeserializeError)
    ensures Shadow(Run(responses, before + [Err(Framing.DeserializeError)] + after)) == Finished
  {
    DecodeErrorReached(responses, before, [Err(Framing.DeserializeError)] + after);
    assert before + [Err(Framing.DeserializeError)] + after == before + ([Err(Framing.DeserializeError)] + after);
  }

  /** An error after fewer than `responses` responses is what the loop returns. */
  lemma {:induction false} DecodeErrorReached(responses: nat, before: seq<Result<Response>>, rest: seq<Result<Response>>)
    requires |before| < responses
    requires forall j :: 0 <= j < |before| ==> before[j].Ok?
    requires rest != [] && rest[0].Err?
    ensures Run(responses, before + rest) == Err(rest[0].error)
    decreases |before|
  {
    if before != [] {
      assert (before + rest)[1..] == before[1..] + rest;
      DecodeErrorReached(responses - 1, before[1..], rest);
    }
  }

  /** Any error of another kind that the loop returns makes the top level panic. */
  lemma OtherKindsPanic(responses: nat, items: seq<Result<Response>>)
    requires items != [] && items[0].Err? && items[0].error.kind != Other
    ensures Shadow(Run(responses, items)) == Panicked(items[0].error)
  {
  }

  /** `socket.for_each(closure)`: feeds each item of the stream to the closure until one fails. */
  method ForEach(tally: Tally, items: seq<Result<Response>>) returns (r: Result<Unit>, out: seq<Line>)
    requires tally.Valid()
    requires NoUnderflow(tally.responses as nat, items)
    modifies tally
    ensures tally.Valid()
    ensures r == Run(old(tally.responses) as nat, items)
    ensures tally.responses as nat == old(tally.responses) as nat - |out|
    ensures out == Printed(tally.requests as nat, old(tally.responses) as nat, items)
  {
    out := [];
    var k := 0;
    while k < |items|
      invariant 0 <= k <= |items|
      invariant tally.Valid()
      invariant NoUnderflow(tally.responses as nat, items[k..])
      invariant tally.responses as nat == old(tally.responses) as nat - |out|
      invariant Run(old(tally.responses) as nat, items) == Run(tally.responses as nat, items[k..])
      invariant Printed(tally.requests as nat, old(tally.responses) as nat, items)
             == out + Printed(tally.requests as nat, tally.responses as nat, items[k..])
    {
      if items[k].Err? {
        return Err(items[k].error), out;
      }
      assert items[k..][1..] == items[k + 1..];
      var line, step := tally.OnResponse(items[k].value);
      out := out + [line];
      if step.Err? {
        return step, out;
      }
      k := k + 1;
    }
    r := Ok(Unit);
  }

  /** How the top level ends: `core.run(..)` with every `Other` error swallowed, then `unwrap`. */
  datatype Exit = Finished | Panicked(error: IoError)

  function Shadow(r: Result<Unit>): (e: Exit)
    ensures e == Finished <==> r.Ok? || r.error.kind == Other
    ensures e.Panicked? ==> e.error == r.error
  {
    match r
    case Ok(_) => Finished
    case Err(err) => if err.kind == Other then Finished else Panicked(err)
  }

  /** `Client::start`: connect, send the generated requests, count the responses, end. */
  method Start(numRequests: u32, range: (usize, usize), raw: seq<u64>,
               connect: Result<Unit>, send: Result<Unit>, items: seq<Result<Response>>)
    returns (generated: seq<Request>, out: seq<Line>, exit: Exit)
    requires |raw| == numRequests as nat
    requires connect.Ok? && numRequests > 0 ==> range.0 < range.1
    requires connect.Ok? && send.Ok? ==> NoUnderflow(numRequests as nat, items)
    ensures connect.Err? ==> generated == [] && out == [] && exit == Shadow(connect)
    ensures connect.Ok? ==> |generated| == numRequests as nat
    ensures forall i :: 0 <= i < |generated| ==> range.0 <= generated[i].number < range.1
    ensures connect.Ok? && send.Err? ==> out == [] && exit == Shadow(send)
    ensures connect.Ok? && send.Ok? ==>
      && out == Printed(numRequests as nat, numRequests as nat, items)
      && exit == Shadow(Run(numRequests as nat, items))
  {
    generated, out := [], [];
    if connect.Err? {
      return generated, out, Shadow(connect);
    }
    generated := GenerateRequests(numRequests, range, raw);
    if send.Err? {
      return generated, out, Shadow(send);
    }
    var tally := new Tally(numRequests);
    var r;
    r, out := ForEach(tally, items);
    exit := Shadow(r);
  }
}
