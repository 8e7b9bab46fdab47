/** A growable byte buffer with the two operations of `bytes::BytesMut` the codec uses. */
module Buffers {
  import opened Ints
  import opened Io

  const Newline: byte := 10

  ghost predicate NoNewline(s: seq<byte>) {
    forall i :: 0 <= i < |s| ==> s[i] != Newline
  }

  /** Index of the first occurrence of `x` in `s`, if any. */
  function FirstIndexOf(s: seq<byte>, x: byte): (r: Option<nat>)
    ensures r.None? <==> x !in s
    ensures r.Some? ==> r.value < |s| && s[r.value] == x && x !in s[..r.value]
  {
    if |s| == 0 then None
    else if s[0] == x then Some(0)
    else match FirstIndexOf(s[1..], x)
      case None => None
      case Some(i) =>
        assert s[1..][..i] == s[1..i + 1];
        Some(i + 1)
  }

  class BytesMut {
    var data: seq<byte>

    constructor (init: seq<byte>)
      ensures data == init
    {
      data := init;
    }

    /** Cuts off and returns the first `at` bytes; `BytesMut::split_to` panics when `at` exceeds the length. */
    method SplitTo(at: nat) returns (head: seq<byte>)
      requires at <= |data|
      modifies this
      ensures head == old(data)[..at]
      ensures data == old(data)[at..]
      ensures old(data) == head + data
    {
      head := data[..at];
      data := data[at..];
    }

    /** Appends `more` at the end. */
    method Extend(more: seq<byte>)
      modifies this
      ensures data == old(data) + more
    {
      data := data + more;
    }

    /** `self.iter().position(|&b| b == x)`: a front-to-back scan for the first `x`. */
    method Position(x: byte) returns (i: Option<nat>)
      ensures i == FirstIndexOf(data, x)
      ensures i.None? ==> x !in data
      ensures i.Some? ==> i.value < |data| && data[i.value] == x && x !in data[..i.value]
    {
      var k := 0;
      while k < |data|
        invariant 0 <= k <= |data|
        invariant x !in data[..k]
      {
        if data[k] == x {
          return Some(k);
        }
        assert data[..k + 1] == data[..k] + [data[k]];
        k := k + 1;
      }
      assert data[..k] == data;
      i := None;
    }
  }
}
