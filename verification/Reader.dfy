/** Reading primitive types from a byte stream (ireadable.cpp). */
module Reader {
  import opened Bytes
  import opened Varint
  import opened Wire
  import opened Streams

  // ---- Fixed-width integers ----

  function TakeInt8(s: seq<byte>): (p: Parsed<INT8>)
    ensures p == TakeInt(1, true, s)
  {
    match TakeInt(1, true, s)
    case Err => Err
    case Ok(n, rest) => IntOfBytes(true, s[..1]); Ranges(n); Ok(n, rest)
  }

  function TakeInt16(s: seq<byte>): (p: Parsed<INT16>)
    ensures p == TakeInt(2, true, s)
  {
    match TakeInt(2, true, s)
    case Err => Err
    case Ok(n, rest) => IntOfBytes(true, s[..2]); Ranges(n); Ok(n, rest)
  }

  function TakeInt32(s: seq<byte>): (p: Parsed<INT32>)
    ensures p == TakeInt(4, true, s)
  {
    match TakeInt(4, true, s)
    case Err => Err
    case Ok(n, rest) => IntOfBytes(true, s[..4]); Ranges(n); Ok(n, rest)
  }

  function TakeInt64(s: seq<byte>): (p: Parsed<INT64>)
    ensures p == TakeInt(8, true, s)
  {
    match TakeInt(8, true, s)
    case Err => Err
    case Ok(n, rest) => IntOfBytes(true, s[..8]); Ranges(n); Ok(n, rest)
  }

  function TakeUint32(s: seq<byte>): (p: Parsed<UINT32>)
    ensures p == TakeInt(4, false, s)
  {
    match TakeInt(4, false, s)
    case Err => Err
    case Ok(n, rest) => IntOfBytes(false, s[..4]); Ranges(n); Ok(n, rest)
  }

  /** The readers of primitive types read the fields of a layout. */
  lemma IntFields()
    ensures forall s :: Decode(Int(1, true), s) == LiftNum(TakeInt8(s))
    ensures forall s :: Decode(Int(2, true), s) == LiftNum(TakeInt16(s))
    ensures forall s :: Decode(Int(4, true), s) == LiftNum(TakeInt32(s))
    ensures forall s :: Decode(Int(4, false), s) == LiftNum(TakeUint32(s))
    ensures forall s :: Decode(Int(8, true), s) == LiftNum(TakeInt64(s))
  {
  }

  lemma OtherFields()
    ensures forall s :: Decode(SignedVarint, s) == LiftNum(TakeVarint(s))
    ensures forall s :: Decode(SignedVarlong, s) == LiftNum(TakeVarlong(s))
    ensures forall s :: Decode(CompactString, s) == LiftBlob(TakeCompactString(s))
    ensures forall s :: Decode(NullableString, s) == LiftBlob(TakeNullableString(s))
    ensures forall n, s :: Decode(Raw(n), s) == LiftBlob(TakeBytes(n, s))
    ensures forall b, s :: Decode(Byte(b), s) == match TakeByte(b, s) case Err => Err case Ok(_, rest) => Ok(Unit, rest)
    ensures forall s :: (Decode(RecordValue, s) ==
      match TakeRecordValue(s) case Err => Err case Ok(v, rest) => Ok(Counted(v.0, v.1), rest))
  {
  }

  /** Reads the memory of a host integer and brings it into host byte order. */
  method ReadInteger(src: IReadable, w: width, signed: bool) returns (r: Option<int>)
    requires src.Valid()
    modifies src.Repr()
    ensures src.Valid()
    ensures Reads(TakeInt(w, signed, old(src.Remaining())), r, src.Remaining(), src.IsQuiet())
    ensures r.Some? ==> InRange(w, signed, r.value)
  {
    var memory :- src.Read(w);
    var n := ToHostByteOrder(NATIVE, w, Load(NATIVE, memory));
    NetworkToHost(NATIVE, memory);
    IntOfBytes(signed, memory);
    r := Some(if signed then ToSigned(w, n) else n);
  }

  method ReadInt8(src: IReadable) returns (r: Option<INT8>)
    requires src.Valid()
    modifies src.Repr()
    ensures src.Valid()
    ensures Reads(TakeInt8(old(src.Remaining())), r, src.Remaining(), src.IsQuiet())
  {
    var n :- ReadInteger(src, 1, true);
    Ranges(n);
    r := Some(n);
  }

  method ReadInt16(src: IReadable) returns (r: Option<INT16>)
    requires src.Valid()
    modifies src.Repr()
    ensures src.Valid()
    ensures Reads(TakeInt16(old(src.Remaining())), r, src.Remaining(), src.IsQuiet())
  {
    var n :- ReadInteger(src, 2, true);
    Ranges(n);
    r := Some(n);
  }

  method ReadInt32(src: IReadable) returns (r: Option<INT32>)
    requires src.Valid()
    modifies src.Repr()
    ensures src.Valid()
    ensures Reads(TakeInt32(old(src.Remaining())), r, src.Remaining(), src.IsQuiet())
  {
    var n :- ReadInteger(src, 4, true);
    Ranges(n);
    r := Some(n);
  }

  method ReadInt64(src: IReadable) returns (r: Option<INT64>)
    requires src.Valid()
    modifies src.Repr()
    ensures src.Valid()
    ensures Reads(TakeInt64(old(src.Remaining())), r, src.Remaining(), src.IsQuiet())
  {
    var n :- ReadInteger(src, 8, true);
    Ranges(n);
    r := Some(n);
  }

  method ReadUint32(src: IReadable) returns (r: Option<UINT32>)
    requires src.Valid()
    modifies src.Repr()
    ensures src.Valid()
    ensures Reads(TakeUint32(old(src.Remaining())), r, src.Remaining(), src.IsQuiet())
  {
    var n :- ReadInteger(src, 4, false);
    Ranges(n);
    r := Some(n);
  }

  // ---- Variable-length integers ----

  /** `x << i` before it is cut to 64 bits. */
  function ShiftLeft(x: nat, i: nat): nat {
    if i == 0 then x else 2 * ShiftLeft(x, i - 1)
  }

  lemma {:induction false} ShiftIsScaled(x: nat, k: nat)
    ensures ShiftLeft(x, 7 * k) == Scaled(x, k)
  {
    if k > 0 {
      ShiftIsScaled(x, k - 1);
      var i := 7 * k;
      assert ShiftLeft(x, i) == 2 * ShiftLeft(x, i - 1) == 4 * ShiftLeft(x, i - 2) == 8 * ShiftLeft(x, i - 3);
      assert ShiftLeft(x, i - 3) == 2 * ShiftLeft(x, i - 4) == 4 * ShiftLeft(x, i - 5) == 8 * ShiftLeft(x, i - 6);
      assert ShiftLeft(x, i - 6) == 2 * ShiftLeft(x, i - 7);
    }
  }

  lemma {:induction false} ScaledSum(d: nat, high: nat, k: nat)
    ensures Scaled(d + 128 * high, k) == Scaled(d, k) + Scaled(high, k + 1)
  {
    if k > 0 {
      ScaledSum(d, high, k - 1);
    }
  }

  /** `n += static_cast<UNSIGNED_VARLONG>(c & 0x7F) << i` in 64 bits. */
  function AddGroup(n: UINT64, c: byte, i: nat): UINT64 {
    (n + ShiftLeft(c % 128, i) % TWO_64) % TWO_64
  }

  lemma AddGroupWraps(sum: nat, c: byte, k: nat)
    ensures AddGroup(Wrap64(sum), c, 7 * k) == Wrap64(sum + Scaled(c % 128, k))
  {
    ShiftIsScaled(c % 128, k);
    AddWrapped(sum, Scaled(c % 128, k));
  }

  lemma AddWrapped(a: nat, x: nat)
    ensures (a % TWO_64 + x % TWO_64) % TWO_64 == (a + x) % TWO_64
  {
    var y := a % TWO_64 + x % TWO_64;
    var carry := if y < TWO_64 then 0 else 1;
    Remainder(y, carry, y - carry * TWO_64);
    Remainder(a + x, a / TWO_64 + x / TWO_64 + carry, y - carry * TWO_64);
  }

  lemma Remainder(n: int, q: int, r: int)
    requires n == q * TWO_64 + r && 0 <= r < TWO_64
    ensures n % TWO_64 == r
  {
  }

  /** What the groups already added up to, followed by the groups still to be read. */
  ghost function Continue(sum: nat, k: nat, p: Parsed<nat>): Parsed<nat> {
    match p
    case Err => Err
    case Ok(high, rest) => Ok(sum + Scaled(high, k), rest)
  }

  /** `k` groups of `s` have been read and add up to `sum`; `rem` is left. */
  ghost predicate Summing(s: seq<byte>, rem: seq<byte>, n: UINT64, sum: nat, k: nat) {
    && k <= MAX_GROUPS && n == Wrap64(sum)
    && TakeGroups(s, MAX_GROUPS) == Continue(sum, k, TakeGroups(rem, MAX_GROUPS - k))
  }

  lemma NextGroup(rem: seq<byte>, sum: nat, k: nat)
    requires k < MAX_GROUPS && rem != []
    ensures var d := rem[0] % 128;
      Continue(sum, k, TakeGroups(rem, MAX_GROUPS - k)) ==
      if rem[0] < 128 then Ok(sum + Scaled(d, k), rem[1..])
      else Continue(sum + Scaled(d, k), k + 1, TakeGroups(rem[1..], MAX_GROUPS - k - 1))
  {
    var tail := TakeGroups(rem[1..], MAX_GROUPS - k - 1);
    if tail.Ok? {
      ScaledSum(rem[0] % 128, tail.value, k);
    }
  }

  lemma SumNothing(s: seq<byte>)
    ensures Summing(s, s, 0, 0, 0)
  {
  }

  /** Taking one more group into the sum. */
  lemma SumGroup(s: seq<byte>, rem: seq<byte>, n: UINT64, sum: nat, k: nat)
    requires Summing(s, rem, n, sum, k)
    ensures rem == [] || k == MAX_GROUPS ==> TakeUnsignedVarlong(s).Err?
    ensures rem != [] && k < MAX_GROUPS ==>
      var n', sum' := AddGroup(n, rem[0], 7 * k), sum + Scaled(rem[0] % 128, k);
      if rem[0] < 128 then TakeUnsignedVarlong(s) == Ok(n', rem[1..])
      else Summing(s, rem[1..], n', sum', k + 1)
  {
    if rem != [] && k < MAX_GROUPS {
      NextGroup(rem, sum, k);
      AddGroupWraps(sum, rem[0], k);
      hide TakeGroups, Continue, AddGroup, Wrap64, Scaled;
    }
  }

  method ReadUnsignedVarlong(src: IReadable) returns (r: Option<UINT64>)
    requires src.Valid()
    modifies src.Repr()
    ensures src.Valid()
    ensures Reads(TakeUnsignedVarlong(old(src.Remaining())), r, src.Remaining(), src.IsQuiet())
  {
    var n: UINT64, i := 0, 0;
    ghost var s := src.Remaining();
    ghost var sum: nat, k: nat := 0, 0;
    SumNothing(s);
    hide Summing, AddGroup, TakeUnsignedVarlong;
    while true
      invariant src.Valid()
      invariant k <= MAX_GROUPS && i == 7 * k && Summing(s, src.Remaining(), n, sum, k)
      decreases MAX_GROUPS - k
    {
      SumGroup(s, src.Remaining(), n, sum, k);
      var c := src.Read(1);
      if c.None? || i > 63 {
        return None;
      }
      sum, k := sum + Scaled(c.value[0] % 128, k), k + 1;
      n := AddGroup(n, c.value[0], i);
      if c.value[0] < 128 {
        return Some(n);
      }
      i := i + 7;
    }
  }

  method ReadUnsignedVarint(src: IReadable) returns (r: Option<UINT32>)
    requires src.Valid()
    modifies src.Repr()
    ensures src.Valid()
    ensures Reads(TakeUnsignedVarint(old(src.Remaining())), r, src.Remaining(), src.IsQuiet())
  {
    var n :- ReadUnsignedVarlong(src);
    r := Some(n % TWO_32);
  }

  method ReadVarlong(src: IReadable) returns (r: Option<INT64>)
    requires src.Valid()
    modifies src.Repr()
    ensures src.Valid()
    ensures Reads(TakeVarlong(old(src.Remaining())), r, src.Remaining(), src.IsQuiet())
  {
    var n :- ReadUnsignedVarlong(src);
    r := Some(UnZigZag(n));
  }

  method ReadVarint(src: IReadable) returns (r: Option<INT32>)
    requires src.Valid()
    modifies src.Repr()
    ensures src.Valid()
    ensures Reads(TakeVarint(old(src.Remaining())), r, src.Remaining(), src.IsQuiet())
  {
    var n :- ReadVarlong(src);
    r := Some(CastInt32(n));
  }

  // ---- Byte strings and markers ----

  method ReadCompactString(src: IReadable) returns (r: Option<seq<byte>>)
    requires src.Valid()
    modifies src.Repr()
    ensures src.Valid()
    ensures Reads(TakeCompactString(old(src.Remaining())), r, src.Remaining(), src.IsQuiet())
  {
    var n :- ReadUnsignedVarint(src);
    if n == 0 {
      return Some([]);
    }
    r := src.Read(n - 1);
  }

  method ReadNullableString(src: IReadable) returns (r: Option<seq<byte>>)
    requires src.Valid()
    modifies src.Repr()
    ensures src.Valid()
    ensures Reads(TakeNullableString(old(src.Remaining())), r, src.Remaining(), src.IsQuiet())
  {
    var n :- ReadInt16(src);
    if n < 0 {
      return Some([]);
    }
    r := src.Read(n);
  }

  /** A negative length asks for a vector too large to allocate. */
  method ReadBytes(src: IReadable) returns (r: Option<seq<byte>>)
    requires src.Valid()
    modifies src.Repr()
    ensures src.Valid()
    ensures Reads(TakeSizedBytes(old(src.Remaining())), r, src.Remaining(), src.IsQuiet())
  {
    var n :- ReadInt32(src);
    if n < 0 {
      return None;
    }
    r := src.Read(n);
  }

  /** One byte that must have the expected value: empty tagged fields, a null key, an absent cursor. */
  method ReadByte(src: IReadable, expected: byte) returns (r: Option<()>)
    requires src.Valid()
    modifies src.Repr()
    ensures src.Valid()
    ensures Reads(TakeByte(expected, old(src.Remaining())), r, src.Remaining(), src.IsQuiet())
  {
    var c := src.Read(1);
    if c.None? || c.value[0] != expected {
      return None;
    }
    r := Some(());
  }

  method ReadTaggedFields(src: IReadable) returns (r: Option<()>)
    requires src.Valid()
    modifies src.Repr()
    ensures src.Valid()
    ensures Reads(TakeByte(0, old(src.Remaining())), r, src.Remaining(), src.IsQuiet())
  {
    r := ReadByte(src, 0);
  }
}
