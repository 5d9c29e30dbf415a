/** Machine integers, byte strings and byte order (types.hpp and utils.hpp). */
module Bytes {

  type byte = b: int | 0 <= b < 256

  const TWO_31 := 0x8000_0000
  const TWO_32 := 0x1_0000_0000
  const TWO_63 := 0x8000_0000_0000_0000
  const TWO_64 := 0x1_0000_0000_0000_0000

  type INT8 = n: int | -128 <= n < 128
  type INT16 = n: int | -0x8000 <= n < 0x8000
  type INT32 = n: int | -TWO_31 <= n < TWO_31
  type INT64 = n: int | -TWO_63 <= n < TWO_63
  type UINT32 = n: int | 0 <= n < TWO_32
  type UINT64 = n: int | 0 <= n < TWO_64

  /** The number of bytes of a machine integer. */
  type width = w: nat | 0 < w witness 1

  /** What a parser of the front of a byte string gives back: nothing, or a value and the bytes after it. */
  datatype Parsed<+T> = Err | Ok(value: T, rest: seq<byte>)
  {
    predicate IsFailure() {
      Err?
    }

    function PropagateFailure<U>(): Parsed<U>
      requires Err?
    {
      Err
    }

    function Extract(): (T, seq<byte>)
      requires Ok?
    {
      (value, rest)
    }
  }

  function Pow256(w: nat): (p: nat)
    ensures p > 0
  {
    if w == 0 then 1 else 256 * Pow256(w - 1)
  }

  /** The number written in network byte order (big-endian) in `bs`. */
  function BigValue(bs: seq<byte>): nat {
    if bs == [] then 0 else BigValue(bs[..|bs| - 1]) * 256 + bs[|bs| - 1]
  }

  /** The low `w` bytes of `n` in two's complement, in network byte order. */
  function BigBytes(w: nat, n: int): (bs: seq<byte>)
    ensures |bs| == w
  {
    if w == 0 then [] else BigBytes(w - 1, n / 256) + [n % 256]
  }

  function LittleValue(bs: seq<byte>): nat {
    if bs == [] then 0 else bs[0] + 256 * LittleValue(bs[1..])
  }

  function LittleBytes(w: nat, n: int): (bs: seq<byte>)
    ensures |bs| == w
  {
    if w == 0 then [] else [n % 256] + LittleBytes(w - 1, n / 256)
  }

  /** Reads the bit pattern `u` of a `w`-byte integer as a signed number: the cast to a signed type. */
  function ToSigned(w: width, u: nat): int {
    if u < 128 * Pow256(w - 1) then u else u - Pow256(w)
  }

  predicate InRange(w: width, signed: bool, n: int) {
    if signed then -128 * Pow256(w - 1) <= n < 128 * Pow256(w - 1) else 0 <= n < Pow256(w)
  }

  /** The integer that a `w`-byte network-order field holds. */
  function IntOf(signed: bool, bs: seq<byte>): int
    requires bs != []
  {
    if signed then ToSigned(|bs|, BigValue(bs)) else BigValue(bs)
  }

  function TakeBytes(n: nat, s: seq<byte>): Parsed<seq<byte>> {
    if |s| < n then Err else Ok(s[..n], s[n..])
  }

  function TakeInt(w: width, signed: bool, s: seq<byte>): Parsed<int> {
    if |s| < w then Err else Ok(IntOf(signed, s[..w]), s[w..])
  }

  // ---- Host byte order ----

  datatype Endian = Big | Little

  /** The byte order of the machine that runs the program.  It has no definition, so what is proved with it holds for
      both. */
  const NATIVE: Endian

  /** The number that memory holding `bs` means on a host of the given byte order. */
  function Load(host: Endian, bs: seq<byte>): nat {
    if host.Big? then BigValue(bs) else LittleValue(bs)
  }

  /** The memory that holds `n` on a host of the given byte order. */
  function Store(host: Endian, w: nat, n: int): (bs: seq<byte>)
    ensures |bs| == w
  {
    if host.Big? then BigBytes(w, n) else LittleBytes(w, n)
  }

  /** std::byteswap on the bit pattern of a `w`-byte integer. */
  function ByteSwap(w: nat, n: int): nat {
    LittleValue(BigBytes(w, n))
  }

  function ToHostByteOrder(host: Endian, w: nat, n: int): int {
    if host.Big? then n else ByteSwap(w, n)
  }

  function ToNetworkByteOrder(host: Endian, w: nat, n: int): int {
    if host.Big? then n else ByteSwap(w, n)
  }

  function Reverse(bs: seq<byte>): (r: seq<byte>)
    ensures |r| == |bs|
  {
    if bs == [] then [] else [bs[|bs| - 1]] + Reverse(bs[..|bs| - 1])
  }

  lemma {:induction false} LittleOfReverse(bs: seq<byte>)
    ensures LittleValue(Reverse(bs)) == BigValue(bs)
  {
    if bs != [] {
      LittleOfReverse(bs[..|bs| - 1]);
      assert Reverse(bs)[1..] == Reverse(bs[..|bs| - 1]);
    }
  }

  lemma {:induction false} ReverseOfBig(w: nat, n: int)
    ensures Reverse(BigBytes(w, n)) == LittleBytes(w, n)
  {
    if w > 0 {
      ReverseOfBig(w - 1, n / 256);
      assert BigBytes(w, n)[..w - 1] == BigBytes(w - 1, n / 256);
    }
  }

  lemma {:induction false} ReverseTwice(bs: seq<byte>)
    ensures Reverse(Reverse(bs)) == bs
  {
    if bs != [] {
      var init, last := bs[..|bs| - 1], bs[|bs| - 1];
      ReverseTwice(init);
      ReverseCons(last, Reverse(init));
      assert bs == init + [last];
    }
  }

  lemma {:induction false} ReverseCons(b: byte, bs: seq<byte>)
    ensures Reverse([b] + bs) == Reverse(bs) + [b]
  {
    if bs != [] {
      ReverseCons(b, bs[..|bs| - 1]);
      assert ([b] + bs)[..|bs|] == [b] + bs[..|bs| - 1];
    }
  }

  lemma {:induction false} LittleRoundTrip(bs: seq<byte>)
    ensures LittleBytes(|bs|, LittleValue(bs)) == bs
  {
    if bs != [] {
      assert LittleValue(bs) % 256 == bs[0] && LittleValue(bs) / 256 == LittleValue(bs[1..]);
      LittleRoundTrip(bs[1..]);
    }
  }

  /** Loading a field into a host integer and converting it gives the big-endian number, whatever the host. */
  lemma NetworkToHost(host: Endian, bs: seq<byte>)
    ensures ToHostByteOrder(host, |bs|, Load(host, bs)) == BigValue(bs)
  {
    var n := LittleValue(bs);
    LittleRoundTrip(bs);
    ReverseOfBig(|bs|, n);
    ReverseTwice(BigBytes(|bs|, n));
    LittleOfReverse(bs);
  }

  /** Converting a host integer and storing it puts the big-endian bytes in memory, whatever the host. */
  lemma HostToNetwork(host: Endian, w: nat, n: int)
    ensures Store(host, w, ToNetworkByteOrder(host, w, n)) == BigBytes(w, n)
  {
    LittleRoundTrip(BigBytes(w, n));
  }

  // ---- Fixed-width integers and their bytes ----

  lemma {:induction false} BigValueOfBytes(w: nat, n: int)
    requires 0 <= n + Pow256(w) && n < Pow256(w)
    ensures BigValue(BigBytes(w, n)) == if n >= 0 then n else n + Pow256(w)
  {
    if w > 0 {
      BigValueOfBytes(w - 1, n / 256);
      assert BigBytes(w, n)[..w - 1] == BigBytes(w - 1, n / 256);
    }
  }

  lemma {:induction false} BigBytesOfValue(bs: seq<byte>)
    ensures BigValue(bs) < Pow256(|bs|)
    ensures BigBytes(|bs|, BigValue(bs)) == bs
  {
    if bs != [] {
      BigBytesOfValue(bs[..|bs| - 1]);
    }
  }

  lemma {:induction false} BigBytesPeriodic(w: nat, n: int)
    ensures BigBytes(w, n - Pow256(w)) == BigBytes(w, n)
  {
    if w > 0 {
      var p := Pow256(w - 1);
      BigBytesPeriodic(w - 1, n / 256);
      DivideShifted(n, p);
      assert n - Pow256(w) == n - 256 * p;
    }
  }

  lemma DivideShifted(n: int, p: int)
    ensures (n - 256 * p) / 256 == n / 256 - p
    ensures (n - 256 * p) % 256 == n % 256
  {
  }

  lemma Ranges(n: int)
    ensures InRange(1, true, n) <==> -128 <= n < 128
    ensures InRange(2, true, n) <==> -0x8000 <= n < 0x8000
    ensures InRange(4, true, n) <==> -TWO_31 <= n < TWO_31
    ensures InRange(4, false, n) <==> 0 <= n < TWO_32
    ensures InRange(8, true, n) <==> -TWO_63 <= n < TWO_63
  {
    assert Pow256(0) == 1 && Pow256(1) == 0x100 && Pow256(3) == 0x100_0000;
    assert Pow256(4) == TWO_32 && Pow256(7) == 0x100_0000_0000_0000;
  }

  /** Reading what was written gives the number back exactly when the field's type can hold it. */
  lemma IntRoundTrip(w: width, signed: bool, n: int, t: seq<byte>)
    ensures TakeInt(w, signed, BigBytes(w, n) + t) == Ok(n, t) <==> InRange(w, signed, n)
  {
    var bs := BigBytes(w, n);
    assert (bs + t)[..w] == bs && (bs + t)[w..] == t;
    BigBytesOfValue(bs);
    if InRange(w, signed, n) {
      BigValueOfBytes(w, n);
    }
  }

  /** Every field value is in range and writes back the bytes it was read from. */
  lemma IntOfBytes(signed: bool, bs: seq<byte>)
    requires bs != []
    ensures InRange(|bs|, signed, IntOf(signed, bs))
    ensures BigBytes(|bs|, IntOf(signed, bs)) == bs
  {
    var w: width, u := |bs|, BigValue(bs);
    BigBytesOfValue(bs);
    BigBytesPeriodic(w, u);
    hide BigValue, BigBytes;
    SignedRange(w, u);
  }

  lemma SignedRange(w: width, u: nat)
    requires u < Pow256(w)
    ensures InRange(w, true, ToSigned(w, u)) && InRange(w, false, u)
    ensures ToSigned(w, u) == u || ToSigned(w, u) == u - Pow256(w)
  {
  }
}
