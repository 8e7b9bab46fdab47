/**
 * The JSON forms the service reads and writes. serde_json is modelled as a pair of functions:
 * `encode` (`serde_json::to_vec`, which may fail) and `decode` (`serde_json::from_slice`).
 * The Request form `{"number":<decimal>}` is concrete; in the Response forms `{"Success":<float>}`
 * and `"Failure"` the float's text is left to a float codec passed in.
 */
module Json {
  import opened Ints
  import opened Io
  import opened Buffers
  import opened Messages

  datatype Serde<!T> = Serde(encode: T -> Option<seq<byte>>, decode: seq<byte> -> Option<T>)

  /**
   * The two facts the framing needs about a value's serialisation: it succeeds and contains no raw
   * newline (compact JSON escapes control characters inside strings: section 7 of RFC 8259), and
   * decoding it gives the value back.
   */
  ghost predicate RoundTrips<T>(s: Serde<T>, v: T) {
    && s.encode(v).Some?
    && NoNewline(s.encode(v).value)
    && s.decode(s.encode(v).value) == Some(v)
  }

  /** The bytes of an ASCII string. */
  function Ascii(s: string): (r: seq<byte>)
    requires forall i :: 0 <= i < |s| ==> s[i] as int < 128
    ensures |r| == |s|
    ensures forall i :: 0 <= i < |s| ==> r[i] as int == s[i] as int
  {
    seq(|s|, i requires 0 <= i < |s| => s[i] as int as byte)
  }

  const OpenNumber: seq<byte> := Ascii("{\"number\":")
  const OpenSuccess: seq<byte> := Ascii("{\"Success\":")
  const FailureText: seq<byte> := Ascii("\"Failure\"")
  const CloseBrace: byte := 125

  lemma ConstantsHaveNoNewline()
    ensures NoNewline(OpenNumber) && NoNewline(OpenSuccess) && NoNewline(FailureText)
  {
  }

  // Decimal text of unsigned integers, the form serde_json gives a `u64`

  predicate IsDigit(b: byte) {
    48 <= b <= 57
  }

  predicate AllDigits(s: seq<byte>) {
    forall i :: 0 <= i < |s| ==> IsDigit(s[i])
  }

  /** JSON's number grammar: one or more digits, and no leading zero unless the number is 0. */
  predicate CanonicalDigits(s: seq<byte>) {
    |s| >= 1 && AllDigits(s) && (s[0] == 48 ==> |s| == 1)
  }

  /** The shortest decimal text of `n`. */
  function Decimal(n: nat): (r: seq<byte>)
    ensures CanonicalDigits(r)
    ensures NoNewline(r)
  {
    if n < 10 then [(48 + n) as byte]
    else Decimal(n / 10) + [(48 + n % 10) as byte]
  }

  /** The value of a digit string, most significant digit first. */
  function DigitsValue(s: seq<byte>): nat
    requires AllDigits(s)
  {
    if |s| == 0 then 0 else DigitsValue(s[..|s| - 1]) * 10 + (s[|s| - 1] - 48) as nat
  }

  lemma {:induction false} DecimalValue(n: nat)
    ensures DigitsValue(Decimal(n)) == n
  {
    if n >= 10 {
      var d := Decimal(n);
      assert d[..|d| - 1] == Decimal(n / 10);
      DecimalValue(n / 10);
    }
  }

  /** A canonical digit string only comes from `Decimal`: the text of a number is unique. */
  lemma {:induction false} DecimalOfValue(s: seq<byte>)
    requires CanonicalDigits(s)
    ensures Decimal(DigitsValue(s)) == s
  {
    if |s| > 1 {
      var init := s[..|s| - 1];
      assert CanonicalDigits(init);
      PositiveValue(init);
      DecimalOfValue(init);
    }
  }

  lemma {:induction false} PositiveValue(s: seq<byte>)
    requires CanonicalDigits(s) && s[0] != 48
    ensures DigitsValue(s) >= 1
  {
    if |s| > 1 {
      var init := s[..|s| - 1];
      PositiveValue(init);
    }
  }

  /** serde_json's reading of a `u64`: a JSON integer that fits in 64 bits. */
  function ParseU64(s: seq<byte>): (r: Option<u64>)
    ensures r.Some? ==> s == Decimal(r.value as nat)
  {
    if CanonicalDigits(s) && DigitsValue(s) < U64_LIMIT then
      DecimalOfValue(s);
      Some(DigitsValue(s) as u64)
    else None
  }

  // Request: `{"number":<decimal>}`

  function EncodeRequest(r: Request): (b: seq<byte>)
    ensures NoNewline(b)
  {
    ConstantsHaveNoNewline();
    OpenNumber + Decimal(r.number as nat) + [CloseBrace]
  }

  function DecodeRequest(line: seq<byte>): (r: Option<Request>)
    ensures r.Some? ==> line == EncodeRequest(r.value)
  {
    if |line| > |OpenNumber| && line[..|OpenNumber|] == OpenNumber && line[|line| - 1] == CloseBrace then
      match ParseU64(line[|OpenNumber|..|line| - 1])
      case Some(n) =>
        assert line == OpenNumber + line[|OpenNumber|..|line| - 1] + [CloseBrace];
        Some(Request(n))
      case None => None
    else None
  }

  /** The serde pair for `Request`; serialising a `Request` cannot fail. */
  function RequestSerde(): Serde<Request> {
    Serde(r => Some(EncodeRequest(r)), DecodeRequest)
  }

  lemma RequestRoundTrips(r: Request)
    ensures RoundTrips(RequestSerde(), r)
  {
    var line := EncodeRequest(r);
    var digits := Decimal(r.number as nat);
    assert line[..|OpenNumber|] == OpenNumber;
    assert line[|OpenNumber|..|line| - 1] == digits;
    DecimalValue(r.number as nat);
  }

  // Response: `{"Success":<float>}` or `"Failure"` (serde's externally tagged enum)

  function EncodeResponse(floats: Serde<F64>, r: Response): (b: Option<seq<byte>>)
    ensures r.Failure? ==> b == Some(FailureText)
    ensures r.Success? ==> (b.Some? <==> floats.encode(r.elapsed).Some?)
  {
    match r
    case Failure => Some(FailureText)
    case Success(x) =>
      match floats.encode(x)
      case None => None
      case Some(text) => Some(OpenSuccess + text + [CloseBrace])
  }

  function DecodeResponse(floats: Serde<F64>, line: seq<byte>): (r: Option<Response>)
    ensures r == Some(Failure) <==> line == FailureText
  {
    if line == FailureText then Some(Failure)
    else if |line| > |OpenSuccess| && line[..|OpenSuccess|] == OpenSuccess && line[|line| - 1] == CloseBrace then
      match floats.decode(line[|OpenSuccess|..|line| - 1])
      case Some(x) => Some(Success(x))
      case None => None
    else None
  }

  /** The serde pair for `Response`, given serde_json's float text as `floats`. */
  function ResponseSerde(floats: Serde<F64>): Serde<Response> {
    Serde(r => EncodeResponse(floats, r), line => DecodeResponse(floats, line))
  }

  /** A Response round-trips whenever its payload's float text does. */
  lemma ResponseRoundTrips(floats: Serde<F64>, r: Response)
    requires r.Success? ==> RoundTrips(floats, r.elapsed)
    ensures RoundTrips(ResponseSerde(floats), r)
  {
  }

  /** serde_json's float text reads back every finite float (it writes NaN and the infinities as `null`). */
  ghost predicate FloatsRoundTrip(floats: Serde<F64>) {
    forall x: F64 :: x.IsFinite() ==> RoundTrips(floats, x)
  }

  lemma FiniteResponseRoundTrips(floats: Serde<F64>, r: Response)
    requires FloatsRoundTrip(floats)
    requires r.Success? ==> r.elapsed.IsFinite()
    ensures RoundTrips(ResponseSerde(floats), r)
  {
    ResponseRoundTrips(floats, r);
  }
}
