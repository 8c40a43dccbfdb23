/**
 * The length-prefixed framing the client uses on its socket: `sendObject`
 * writes a 4-byte big-endian length followed by the serialized bytes, and
 * `getServerOutput` reads one answer into a 1024-byte buffer, takes the
 * length with `getInt` and then exactly that many bytes. Serialization
 * itself is left out: payloads are opaque byte sequences.
 */
module Framing {
  import opened Wrappers

  newtype byte = x: int | 0 <= x < 256

  /** `Integer.BYTES`: the width of the length prefix. */
  const IntegerBytes: nat := 4
  /** `BUFFER_SIZE`: the capacity of the client's receive buffer. */
  const BufferSize: nat := 1024

  const TwoTo31: int := 0x8000_0000
  const TwoTo32: int := 0x1_0000_0000

  /** A Java `int`. */
  predicate IsInt32(n: int)
  {
    -TwoTo31 <= n < TwoTo31
  }

  /** The exceptions `getServerOutput` can raise while unframing. */
  datatype FrameError =
    | BufferUnderflow     // fewer bytes in the buffer than `getInt` or `get` asks for
    | NegativeArraySize   // the length prefix is negative

  /**
   * `ByteBuffer.putInt` in the default big-endian order (two's
   * complement): the sign is in the high bit of the first byte and the
   * lowest digit comes last.
   */
  function PutInt(n: int): (bs: seq<byte>)
    requires IsInt32(n)
    ensures |bs| == IntegerBytes
    ensures n < 0 <==> bs[0] >= 0x80
    ensures bs[0] as int == n % TwoTo32 / 0x100_0000
    ensures bs[1] as int == n % TwoTo32 / 0x1_0000 % 0x100 && bs[2] as int == n % TwoTo32 / 0x100 % 0x100
    ensures bs[3] as int == n % 0x100
    ensures 0 <= n < 0x100 ==> bs == [0, 0, 0, n as byte]
  {
    var u := if n < 0 then n + TwoTo32 else n;
    var v := u / 0x100;
    var w := v / 0x100;
    NestedDivision(u);
    Wrap(n, u);
    SignDigit(u);
    [(w / 0x100) as byte, (w % 0x100) as byte, (v % 0x100) as byte, (u % 0x100) as byte]
  }

  /**
   * `ByteBuffer.getInt` in the default big-endian order (two's
   * complement): the first byte carries the sign and the last the lowest
   * digit.
   */
  function GetInt(bs: seq<byte>): (n: int)
    requires |bs| == IntegerBytes
    ensures IsInt32(n)
    ensures n < 0 <==> bs[0] >= 0x80
    ensures n % TwoTo32 / 0x100_0000 == bs[0] as int
    ensures n % TwoTo32 / 0x1_0000 % 0x100 == bs[1] as int && n % TwoTo32 / 0x100 % 0x100 == bs[2] as int
    ensures n % 0x100 == bs[3] as int
    ensures bs[0] == 0 && bs[1] == 0 && bs[2] == 0 ==> n == bs[3] as int
  {
    var w := bs[0] as int * 0x100 + bs[1] as int;
    var v := w * 0x100 + bs[2] as int;
    var u := v * 0x100 + bs[3] as int;
    DigitRoundTrip(v, bs[3] as int);
    DigitRoundTrip(w, bs[2] as int);
    DigitRoundTrip(bs[0] as int, bs[1] as int);
    NestedDivision(u);
    SignDigit(u);
    var n := if u < TwoTo31 then u else u - TwoTo32;
    Wrap(n, u);
    n
  }

  /** Appending a base-256 digit and taking it off again. */
  lemma DigitRoundTrip(q: int, d: int)
    requires 0 <= d < 0x100
    ensures (q * 0x100 + d) / 0x100 == q && (q * 0x100 + d) % 0x100 == d
  {
  }

  /** An `int` and its unsigned 32-bit reading agree modulo 2^32, and so in their lowest digit. */
  lemma Wrap(n: int, u: int)
    requires IsInt32(n) && 0 <= u < TwoTo32 && (u == n || u == n + TwoTo32)
    ensures n % TwoTo32 == u && n % 0x100 == u % 0x100
  {
    if u != n {
      assert n == u - 0x100_0000 * 0x100;
    }
  }

  /** The top digit of a 32-bit unsigned value is a byte, at least 0x80 exactly from 2^31 up. */
  lemma SignDigit(u: int)
    requires 0 <= u < TwoTo32
    ensures u / 0x100 / 0x100 / 0x100 < 0x100
    ensures u >= TwoTo31 <==> u / 0x100 / 0x100 / 0x100 >= 0x80
  {
  }

  /** Taking off two or three base-256 digits at once is taking them off one by one. */
  lemma NestedDivision(u: nat)
    ensures u / 0x1_0000 == u / 0x100 / 0x100
    ensures u / 0x100_0000 == u / 0x100 / 0x100 / 0x100
  {
    DigitSplit(u);
    DigitSplit(u / 0x100);
    DigitSplit(u / 0x100 / 0x100);
    var q := u / 0x100 / 0x100;
    var r := u % 0x100 + u / 0x100 % 0x100 * 0x100;
    assert u == q * 0x1_0000 + r && 0 <= r < 0x1_0000;
    var p := q / 0x100;
    var s := r + q % 0x100 * 0x1_0000;
    assert u == p * 0x100_0000 + s && 0 <= s < 0x100_0000;
  }

  /** Taking off the last base-256 digit and appending it again. */
  lemma DigitSplit(u: nat)
    ensures u == (u / 0x100) * 0x100 + u % 0x100 && 0 <= u % 0x100 < 0x100
  {
  }

  /** Writing an `int` and reading it back gives the same `int`. */
  lemma IntRoundTrip(n: int)
    requires IsInt32(n)
    ensures GetInt(PutInt(n)) == n
  {
    var u := if n < 0 then n + TwoTo32 else n;
    var v := u / 0x100;
    var w := v / 0x100;
    DigitSplit(u);
    DigitSplit(v);
    DigitSplit(w);
    assert w / 0x100 < 0x100;
    var bs := PutInt(n);
    assert bs[0] as int == w / 0x100 && bs[1] as int == w % 0x100;
    assert bs[2] as int == v % 0x100 && bs[3] as int == u % 0x100;
  }

  /** Reading four bytes as an `int` and writing it back gives the same bytes. */
  lemma BytesRoundTrip(bs: seq<byte>)
    requires |bs| == IntegerBytes
    ensures PutInt(GetInt(bs)) == bs
  {
    var w := bs[0] as int * 0x100 + bs[1] as int;
    var v := w * 0x100 + bs[2] as int;
    var u := v * 0x100 + bs[3] as int;
    DigitRoundTrip(v, bs[3] as int);
    DigitRoundTrip(w, bs[2] as int);
    DigitRoundTrip(bs[0] as int, bs[1] as int);
    var n := GetInt(bs);
    assert (if n < 0 then n + TwoTo32 else n) == u;
  }

  /**
   * `sendObject`: the length of the payload, then the payload. The
   * payload of a Java array holds at most `Integer.MAX_VALUE` bytes.
   */
  function Frame(payload: seq<byte>): (f: seq<byte>)
    requires |payload| < TwoTo31
    ensures |f| == IntegerBytes + |payload|
    ensures GetInt(f[..IntegerBytes]) == |payload| && f[IntegerBytes..] == payload
  {
    IntRoundTrip(|payload|);
    var f := PutInt(|payload|) + payload;
    assert f[..IntegerBytes] == PutInt(|payload|);
    f
  }

  /**
   * `getServerOutput`: one read delivers `received`, of which the buffer
   * keeps the first `BufferSize` bytes; the length prefix is read, then
   * exactly that many payload bytes.
   */
  function ReadFrame(received: seq<byte>): (r: Result<seq<byte>, FrameError>)
    ensures r.Success? ==>
              IntegerBytes + |r.value| <= BufferSize && IntegerBytes + |r.value| <= |received| &&
              received[..IntegerBytes + |r.value|] == Frame(r.value)
    ensures r == Failure(NegativeArraySize) <==>
              IntegerBytes <= |received| && GetInt(received[..IntegerBytes]) < 0
    ensures r == Failure(BufferUnderflow) <==>
              |received| < IntegerBytes ||
              (GetInt(received[..IntegerBytes]) >= 0 &&
               IntegerBytes + GetInt(received[..IntegerBytes]) > Min(|received|, BufferSize))
  {
    var buffered := received[..Min(|received|, BufferSize)];
    if |buffered| < IntegerBytes then Failure(BufferUnderflow)
    else
      assert buffered[..IntegerBytes] == received[..IntegerBytes];
      var length := GetInt(buffered[..IntegerBytes]);
      if length < 0 then Failure(NegativeArraySize)
      else if IntegerBytes + length > |buffered| then Failure(BufferUnderflow)
      else
        var payload := buffered[IntegerBytes..IntegerBytes + length];
        BytesRoundTrip(received[..IntegerBytes]);
        assert payload == received[IntegerBytes..IntegerBytes + length];
        assert received[..IntegerBytes + length] == received[..IntegerBytes] + payload;
        Success(payload)
  }

  function Min(a: int, b: int): int
  {
    if a < b then a else b
  }

  /**
   * Round trip: a frame that fits the buffer is read back as its payload,
   * whatever bytes arrive after it.
   */
  lemma FrameRoundTrip(payload: seq<byte>, rest: seq<byte>)
    requires IntegerBytes + |payload| <= BufferSize
    ensures ReadFrame(Frame(payload) + rest) == Success(payload)
  {
    var received := Frame(payload) + rest;
    assert received[..IntegerBytes] == Frame(payload)[..IntegerBytes];
    var r := ReadFrame(received);
    assert r.Success?;
    assert received[IntegerBytes..IntegerBytes + |payload|] == payload;
  }

  /** A frame larger than the buffer can never be read back. */
  lemma FrameTooLargeForBuffer(payload: seq<byte>, rest: seq<byte>)
    requires |payload| < TwoTo31
    requires IntegerBytes + |payload| > BufferSize
    ensures ReadFrame(Frame(payload) + rest) == Failure(BufferUnderflow)
  {
    var received := Frame(payload) + rest;
    assert received[..IntegerBytes] == Frame(payload)[..IntegerBytes];
  }
}
