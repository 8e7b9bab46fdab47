/** The two message types of the wire protocol (src/lib.rs). */
module Messages {
  import opened Ints

  /** The 64-bit pattern of an `f64`; the model never computes with floats. */
  datatype F64 = F64(bits: bv64) {
    /** Neither an infinity nor a NaN: the exponent field is not all ones. */
    predicate IsFinite() {
      (bits >> 52) & 0x7FF != 0x7FF
    }
  }

  /** A request: the size of the fake computation. */
  datatype Request = Request(number: u64)

  /** `Success` carries the elapsed seconds; `Failure` means the timeout fired first. */
  datatype Response = Success(elapsed: F64) | Failure
}
