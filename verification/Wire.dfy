/**
 The layout of messages as data.  A `Schema` says what follows what on the wire, as the tables of the Kafka protocol
 guide do; a `Value` is what such a layout carries.  The readers and writers of the other modules are proved to follow
 schemas, so what is proved here of all schemas holds for every message.
 */
module Wire {
  import opened Bytes
  import opened Varint

  datatype Schema =
    | Int(w: width, signed: bool)
    | SignedVarint
    | SignedVarlong
    | Byte(expected: byte)
    | Raw(size: nat)
    | CompactString
    | NullableString
    | SizedBytes
    | RecordValue
    | Array(element: Schema)
    | CompactArray(element: Schema)
    | Then(first: Schema, second: Schema)
  {
    /** This layout followed by another field. */
    function And(next: Schema): Schema {
      Then(this, next)
    }
  }

  datatype Value =
    | Num(n: int)
    | Blob(data: seq<byte>)
    | Counted(len: int, bytes: seq<byte>)
    | Many(items: seq<Value>)
    | Pair(left: Value, right: Value)
    | Unit
  {
    function And(next: Value): Value {
      Pair(this, next)
    }
  }

  // ---- Readers of the primitive types ----

  function TakeByte(expected: byte, s: seq<byte>): Parsed<()> {
    if s != [] && s[0] == expected then Ok((), s[1..]) else Err
  }

  function TakeCompactString(s: seq<byte>): Parsed<seq<byte>> {
    match TakeUnsignedVarint(s)
    case Err => Err
    case Ok(n, rest) => if n == 0 then Ok([], rest) else TakeBytes(n - 1, rest)
  }

  function TakeNullableString(s: seq<byte>): Parsed<seq<byte>> {
    match TakeInt(2, true, s)
    case Err => Err
    case Ok(n, rest) => if n < 0 then Ok([], rest) else TakeBytes(n, rest)
  }

  function TakeSizedBytes(s: seq<byte>): Parsed<seq<byte>> {
    match TakeInt(4, true, s)
    case Err => Err
    case Ok(n, rest) => if n < 0 then Err else TakeBytes(n, rest)
  }

  /** The value of a record: its announced length and its bytes.  A negative length cannot be allocated. */
  function TakeRecordValue(s: seq<byte>): Parsed<(INT32, seq<byte>)> {
    match TakeVarint(s)
    case Err => Err
    case Ok(n, rest) =>
      if n < 0 then Err
      else match TakeBytes(n, rest)
        case Err => Err
        case Ok(bytes, rest') => Ok((n, bytes), rest')
  }

  /** The number of elements of an array whose announced length is `n`; a negative length means an absent array. */
  function ArrayCount(n: int): nat {
    if n < 0 then 0 else n
  }

  /** The number of elements of a compact array whose announced length is `n`; zero means an absent array. */
  function CompactCount(n: nat): nat {
    if n == 0 then 0 else n - 1
  }

  // ---- Meaning of a schema ----

  function LiftNum(p: Parsed<int>): Parsed<Value> {
    match p case Err => Err case Ok(n, rest) => Ok(Num(n), rest)
  }

  function LiftBlob(p: Parsed<seq<byte>>): Parsed<Value> {
    match p case Err => Err case Ok(data, rest) => Ok(Blob(data), rest)
  }

  function LiftMany(p: Parsed<seq<Value>>): Parsed<Value> {
    match p case Err => Err case Ok(items, rest) => Ok(Many(items), rest)
  }

  function Decode(c: Schema, s: seq<byte>): Parsed<Value>
    decreases c, 0, |s|
  {
    match c
    case Int(w, signed) => LiftNum(TakeInt(w, signed, s))
    case SignedVarint => LiftNum(TakeVarint(s))
    case SignedVarlong => LiftNum(TakeVarlong(s))
    case Byte(b) => (match TakeByte(b, s) case Err => Err case Ok(_, rest) => Ok(Unit, rest))
    case Raw(size) => LiftBlob(TakeBytes(size, s))
    case CompactString => LiftBlob(TakeCompactString(s))
    case NullableString => LiftBlob(TakeNullableString(s))
    case SizedBytes => LiftBlob(TakeSizedBytes(s))
    case RecordValue =>
      (match TakeRecordValue(s) case Err => Err case Ok(v, rest) => Ok(Counted(v.0, v.1), rest))
    case Array(e) =>
      (match TakeInt(4, true, s)
       case Err => Err
       case Ok(n, rest) => LiftMany(DecodeMany(e, ArrayCount(n), rest, [])))
    case CompactArray(e) =>
      (match TakeUnsignedVarint(s)
       case Err => Err
       case Ok(n, rest) => LiftMany(DecodeMany(e, CompactCount(n), rest, [])))
    case Then(a, b) =>
      match Decode(a, s)
      case Err => Err
      case Ok(x, rest) =>
        match Decode(b, rest)
        case Err => Err
        case Ok(y, rest') => Ok(Pair(x, y), rest')
  }

  /** The definition of `Decode` spelled out along all the fields of a message. */
  ghost predicate Fields(c: Schema, s: seq<byte>)
    decreases c
  {
    c.Then? ==>
      && Fields(c.first, s)
      && Decode(c, s) ==
         match Decode(c.first, s)
         case Err => Err
         case Ok(x, rest) =>
           match Decode(c.second, rest)
           case Err => Err
           case Ok(y, rest') => Ok(Pair(x, y), rest')
  }

  lemma {:induction false} DecodeFields(c: Schema, s: seq<byte>)
    ensures Fields(c, s)
    decreases c
  {
    if c.Then? {
      DecodeFields(c.first, s);
    }
  }

  /** Decodes `n` elements and appends them to `acc`. */
  function DecodeMany(e: Schema, n: nat, s: seq<byte>, acc: seq<Value>): Parsed<seq<Value>>
    decreases e, 1, n
  {
    if n == 0 then Ok(acc, s)
    else match Decode(e, s)
      case Err => Err
      case Ok(v, rest) => DecodeMany(e, n - 1, rest, acc + [v])
  }

  function EncodeVarint(n: int): seq<byte> {
    if -TWO_31 <= n < TWO_31 then EncodeUnsigned(ZigZag32(n)) else []
  }

  function EncodeVarlong(n: int): seq<byte> {
    if -TWO_63 <= n < TWO_63 then EncodeUnsigned(ZigZag64(n)) else []
  }

  /** The length prefix of a compact string or array of `n` items; the writer keeps 32 bits of it. */
  function CompactLength(n: nat): seq<byte> {
    EncodeUnsigned((n + 1) % TWO_32)
  }

  function Encode(c: Schema, v: Value): seq<byte>
    decreases c, 0
  {
    match (c, v)
    case (Int(w, _), Num(n)) => BigBytes(w, n)
    case (SignedVarint, Num(n)) => EncodeVarint(n)
    case (SignedVarlong, Num(n)) => EncodeVarlong(n)
    case (Byte(b), Unit) => [b]
    case (Raw(_), Blob(data)) => data
    case (CompactString, Blob(data)) => CompactLength(|data|) + data
    case (NullableString, Blob(data)) => BigBytes(2, |data|) + data
    case (SizedBytes, Blob(data)) => BigBytes(4, |data|) + data
    case (RecordValue, Counted(len, bytes)) => EncodeVarint(len) + bytes
    case (Array(e), Many(items)) => BigBytes(4, |items|) + EncodeMany(e, items)
    case (CompactArray(e), Many(items)) => CompactLength(|items|) + EncodeMany(e, items)
    case (Then(a, b), Pair(x, y)) => Encode(a, x) + Encode(b, y)
    case _ => []
  }

  function EncodeMany(e: Schema, items: seq<Value>): seq<byte>
    decreases e, |items| + 1
  {
    if items == [] then [] else Encode(e, items[0]) + EncodeMany(e, items[1..])
  }

  /** The values that a schema can carry without loss. */
  predicate Typed(c: Schema, v: Value)
    decreases c, 0
  {
    match (c, v)
    case (Int(w, signed), Num(n)) => InRange(w, signed, n)
    case (SignedVarint, Num(n)) => -TWO_31 <= n < TWO_31
    case (SignedVarlong, Num(n)) => -TWO_63 < n < TWO_63
    case (Byte(_), Unit) => true
    case (Raw(size), Blob(data)) => |data| == size
    case (CompactString, Blob(data)) => |data| + 1 < TWO_32
    case (NullableString, Blob(data)) => |data| < 0x8000
    case (SizedBytes, Blob(data)) => |data| < TWO_31
    case (RecordValue, Counted(len, bytes)) => len == |bytes| < TWO_31
    case (Array(e), Many(items)) => |items| < TWO_31 && TypedMany(e, items)
    case (CompactArray(e), Many(items)) => |items| + 1 < TWO_32 && TypedMany(e, items)
    case (Then(a, b), Pair(x, y)) => Typed(a, x) && Typed(b, y)
    case _ => false
  }

  predicate TypedMany(e: Schema, items: seq<Value>)
    decreases e, |items| + 1
  {
    forall i | 0 <= i < |items| :: Typed(e, items[i])
  }

  // ---- Writing as appending ----

  /** The stream `out` after writing `v`: what a chain of writes leaves behind. */
  function Put(c: Schema, v: Value, out: seq<byte>): seq<byte>
    decreases c, 0, |out|
  {
    match (c, v)
    case (Array(e), Many(items)) => PutMany(e, items, out + BigBytes(4, |items|))
    case (CompactArray(e), Many(items)) => PutMany(e, items, out + CompactLength(|items|))
    case (Then(a, b), Pair(x, y)) => Put(b, y, Put(a, x, out))
    case _ => out + Encode(c, v)
  }

  function PutMany(e: Schema, items: seq<Value>, out: seq<byte>): seq<byte>
    decreases e, 1, |items|
  {
    if items == [] then out else PutMany(e, items[1..], Put(e, items[0], out))
  }

  /** The definition of `Put` spelled out along all the fields of a message. */
  ghost predicate Writes(c: Schema, v: Value, out: seq<byte>)
    decreases c
  {
    c.Then? && v.Pair? ==>
      && Writes(c.first, v.left, out)
      && Put(c, v, out) == Put(c.second, v.right, Put(c.first, v.left, out))
  }

  lemma {:induction false} PutFields(c: Schema, v: Value, out: seq<byte>)
    ensures Writes(c, v, out)
    decreases c
  {
    if c.Then? && v.Pair? {
      PutFields(c.first, v.left, out);
    }
  }

  lemma {:induction false} PutAppends(c: Schema, v: Value, out: seq<byte>)
    ensures Put(c, v, out) == out + Encode(c, v)
    decreases c, 0
  {
    match (c, v)
    case (Array(e), Many(items)) => PutManyAppends(e, items, out + BigBytes(4, |items|));
    case (CompactArray(e), Many(items)) => PutManyAppends(e, items, out + CompactLength(|items|));
    case (Then(a, b), Pair(x, y)) =>
      PutAppends(a, x, out);
      PutAppends(b, y, out + Encode(a, x));
    case _ =>
  }

  lemma {:induction false} PutManyAppends(e: Schema, items: seq<Value>, out: seq<byte>)
    ensures PutMany(e, items, out) == out + EncodeMany(e, items)
    decreases e, |items| + 1
  {
    if items != [] {
      PutAppends(e, items[0], out);
      PutManyAppends(e, items[1..], out + Encode(e, items[0]));
    }
  }

  // ---- Reading consumes a front part of the input ----

  predicate IsSuffix(r: seq<byte>, s: seq<byte>) {
    |r| <= |s| && r == s[|s| - |r|..]
  }

  lemma IntSuffix(w: width, signed: bool, s: seq<byte>)
    ensures TakeInt(w, signed, s).Ok? ==> IsSuffix(TakeInt(w, signed, s).rest, s)
  {
  }

  lemma VarlongSuffix(s: seq<byte>)
    ensures TakeUnsignedVarlong(s).Ok? ==> IsSuffix(TakeUnsignedVarlong(s).rest, s)
  {
    if TakeUnsignedVarlong(s).Ok? {
      UnsignedVarlongRewrite(s);
    }
  }

  lemma SuffixOfSuffix(r: seq<byte>, m: seq<byte>, s: seq<byte>)
    requires IsSuffix(r, m) && IsSuffix(m, s)
    ensures IsSuffix(r, s)
  {
  }

  /** A length prefix and that many bytes. */
  lemma PrefixedSuffix(n: nat, m: seq<byte>, s: seq<byte>)
    requires IsSuffix(m, s)
    ensures TakeBytes(n, m).Ok? ==> IsSuffix(TakeBytes(n, m).rest, s)
  {
  }

  lemma CompactStringSuffix(s: seq<byte>)
    ensures TakeCompactString(s).Ok? ==> IsSuffix(TakeCompactString(s).rest, s)
  {
    VarlongSuffix(s);
    hide IsSuffix, TakeBytes, TakeUnsignedVarlong, TakeInt;
    var p := TakeUnsignedVarint(s);
    if p.Ok? {
      PrefixedSuffix(CompactCount(p.value), p.rest, s);
    }
  }

  lemma NullableStringSuffix(s: seq<byte>)
    ensures TakeNullableString(s).Ok? ==> IsSuffix(TakeNullableString(s).rest, s)
  {
    IntSuffix(2, true, s);
    hide IsSuffix, TakeBytes, TakeUnsignedVarlong, TakeInt;
    var p := TakeInt(2, true, s);
    if p.Ok? {
      PrefixedSuffix(ArrayCount(p.value), p.rest, s);
    }
  }

  lemma SizedBytesSuffix(s: seq<byte>)
    ensures TakeSizedBytes(s).Ok? ==> IsSuffix(TakeSizedBytes(s).rest, s)
  {
    IntSuffix(4, true, s);
    hide IsSuffix, TakeBytes, TakeUnsignedVarlong, TakeInt;
    var p := TakeInt(4, true, s);
    if p.Ok? {
      PrefixedSuffix(ArrayCount(p.value), p.rest, s);
    }
  }

  lemma RecordValueSuffix(s: seq<byte>)
    ensures TakeRecordValue(s).Ok? ==> IsSuffix(TakeRecordValue(s).rest, s)
  {
    VarlongSuffix(s);
    hide IsSuffix, TakeBytes, TakeUnsignedVarlong, TakeInt;
    var p := TakeVarint(s);
    if p.Ok? {
      PrefixedSuffix(ArrayCount(p.value), p.rest, s);
    }
  }

  lemma LeafSuffix(c: Schema, s: seq<byte>)
    requires !c.Array? && !c.CompactArray? && !c.Then?
    ensures Decode(c, s).Ok? ==> IsSuffix(Decode(c, s).rest, s)
  {
    hide IsSuffix, TakeInt, TakeUnsignedVarlong, TakeBytes, TakeByte;
    hide TakeCompactString, TakeNullableString, TakeSizedBytes, TakeRecordValue;
    match c
    case Int(w, signed) => IntSuffix(w, signed, s);
    case SignedVarint => VarlongSuffix(s);
    case SignedVarlong => VarlongSuffix(s);
    case Byte(b) => ByteSuffix(b, s);
    case Raw(size) => RawSuffix(size, s);
    case CompactString => CompactStringSuffix(s);
    case NullableString => NullableStringSuffix(s);
    case SizedBytes => SizedBytesSuffix(s);
    case RecordValue => RecordValueSuffix(s);
  }

  lemma ByteSuffix(b: byte, s: seq<byte>)
    ensures TakeByte(b, s).Ok? ==> IsSuffix(TakeByte(b, s).rest, s)
  {
  }

  lemma RawSuffix(n: nat, s: seq<byte>)
    ensures TakeBytes(n, s).Ok? ==> IsSuffix(TakeBytes(n, s).rest, s)
  {
  }

  lemma {:induction false} DecodeSuffix(c: Schema, s: seq<byte>)
    ensures Decode(c, s).Ok? ==> IsSuffix(Decode(c, s).rest, s)
    decreases c, 0
  {
    hide TakeInt, TakeUnsignedVarlong, IsSuffix;
    hide TakeByte, TakeBytes, TakeCompactString, TakeNullableString, TakeSizedBytes, TakeRecordValue;
    match c
    case Array(e) =>
      var p := TakeInt(4, true, s);
      if p.Ok? {
        IntSuffix(4, true, s);
        var q := DecodeMany(e, ArrayCount(p.value), p.rest, []);
        DecodeManySuffix(e, ArrayCount(p.value), p.rest, []);
        if q.Ok? {
          SuffixOfSuffix(q.rest, p.rest, s);
        }
      }
    case CompactArray(e) =>
      var p := TakeUnsignedVarint(s);
      if p.Ok? {
        VarlongSuffix(s);
        var q := DecodeMany(e, CompactCount(p.value), p.rest, []);
        DecodeManySuffix(e, CompactCount(p.value), p.rest, []);
        if q.Ok? {
          SuffixOfSuffix(q.rest, p.rest, s);
        }
      }
    case Then(a, b) =>
      DecodeSuffix(a, s);
      if Decode(a, s).Ok? {
        var m := Decode(a, s).rest;
        DecodeSuffix(b, m);
        if Decode(b, m).Ok? {
          SuffixOfSuffix(Decode(b, m).rest, m, s);
        }
      }
    case _ => LeafSuffix(c, s);
  }

  lemma {:induction false} DecodeManySuffix(e: Schema, n: nat, s: seq<byte>, acc: seq<Value>)
    ensures DecodeMany(e, n, s, acc).Ok? ==> IsSuffix(DecodeMany(e, n, s, acc).rest, s)
    decreases e, n + 1
  {
    if n > 0 {
      DecodeSuffix(e, s);
      hide Decode;
      if Decode(e, s).Ok? {
        DecodeManySuffix(e, n - 1, Decode(e, s).rest, acc + [Decode(e, s).value]);
      }
    }
  }

  // ---- Success depends only on the bytes consumed ----

  lemma VarlongLocal(c: seq<byte>, r: seq<byte>, t: seq<byte>)
    requires TakeUnsignedVarlong(c + r).Ok? && TakeUnsignedVarlong(c + r).rest == r
    ensures TakeUnsignedVarlong(c + t) == Ok(TakeUnsignedVarlong(c + r).value, t)
  {
    GroupsLocal(c, r, t, MAX_GROUPS);
  }

  lemma TakeBytesLocal(n: nat, c: seq<byte>, r: seq<byte>, t: seq<byte>)
    requires TakeBytes(n, c + r).Ok? && TakeBytes(n, c + r).rest == r
    ensures TakeBytes(n, c + t) == Ok(TakeBytes(n, c + r).value, t)
  {
    assert (c + r)[..n] == c && (c + t)[..n] == c && (c + t)[n..] == t by {
      assert |c| == n;
    }
  }

  lemma TakeIntLocal(w: width, signed: bool, c: seq<byte>, r: seq<byte>, t: seq<byte>)
    requires TakeInt(w, signed, c + r).Ok? && TakeInt(w, signed, c + r).rest == r
    ensures TakeInt(w, signed, c + t) == Ok(TakeInt(w, signed, c + r).value, t)
  {
    TakeBytesLocal(w, c, r, t);
  }

  /** Splits the consumed front `c` of `c + r` where the first of two readers stopped. */
  lemma SplitFront(c: seq<byte>, r: seq<byte>, m: seq<byte>) returns (c1: seq<byte>, c2: seq<byte>)
    requires IsSuffix(m, c + r) && IsSuffix(r, m)
    ensures c == c1 + c2 && m == c2 + r
    ensures forall t :: c + t == c1 + (c2 + t)
  {
    var k := |c| + |r| - |m|;
    c1, c2 := c[..k], c[k..];
    assert (c + r)[k..] == c2 + r;
    forall t ensures c + t == c1 + (c2 + t) {
      assert c + t == (c1 + c2) + t;
    }
  }

  lemma CompactStringLocal(c: seq<byte>, r: seq<byte>, t: seq<byte>)
    requires TakeCompactString(c + r).Ok? && TakeCompactString(c + r).rest == r
    ensures TakeCompactString(c + t) == Ok(TakeCompactString(c + r).value, t)
  {
    UnsignedVarlongRewrite(c + r);
    hide TakeUnsignedVarlong;
    var Ok(n, m) := TakeUnsignedVarint(c + r);
    var c1, c2 := SplitFront(c, r, m);
    VarlongLocal(c1, m, c2 + t);
    if n > 0 {
      TakeBytesLocal(n - 1, c2, r, t);
    } else {
      assert c2 == [];
    }
  }

  lemma NullableStringLocal(c: seq<byte>, r: seq<byte>, t: seq<byte>)
    requires TakeNullableString(c + r).Ok? && TakeNullableString(c + r).rest == r
    ensures TakeNullableString(c + t) == Ok(TakeNullableString(c + r).value, t)
  {
    var Ok(n, m) := TakeInt(2, true, c + r);
    var c1, c2 := SplitFront(c, r, m);
    TakeIntLocal(2, true, c1, m, c2 + t);
    hide IntOf;
    if n >= 0 {
      TakeBytesLocal(n, c2, r, t);
    } else {
      assert c2 == [];
    }
  }

  lemma SizedBytesLocal(c: seq<byte>, r: seq<byte>, t: seq<byte>)
    requires TakeSizedBytes(c + r).Ok? && TakeSizedBytes(c + r).rest == r
    ensures TakeSizedBytes(c + t) == Ok(TakeSizedBytes(c + r).value, t)
  {
    var Ok(n, m) := TakeInt(4, true, c + r);
    var c1, c2 := SplitFront(c, r, m);
    TakeIntLocal(4, true, c1, m, c2 + t);
    hide IntOf;
    TakeBytesLocal(n, c2, r, t);
  }

  lemma RecordValueLocal(c: seq<byte>, r: seq<byte>, t: seq<byte>)
    requires TakeRecordValue(c + r).Ok? && TakeRecordValue(c + r).rest == r
    ensures TakeRecordValue(c + t) == Ok(TakeRecordValue(c + r).value, t)
  {
    UnsignedVarlongRewrite(c + r);
    hide TakeUnsignedVarlong;
    var Ok(n, m) := TakeVarint(c + r);
    var c1, c2 := SplitFront(c, r, m);
    VarlongLocal(c1, m, c2 + t);
    TakeBytesLocal(n, c2, r, t);
  }

  lemma LeafLocal(c: Schema, used: seq<byte>, r: seq<byte>, t: seq<byte>)
    requires !c.Array? && !c.CompactArray? && !c.Then?
    requires Decode(c, used + r).Ok? && Decode(c, used + r).rest == r
    ensures Decode(c, used + t) == Ok(Decode(c, used + r).value, t)
  {
    hide TakeInt, TakeBytes, TakeUnsignedVarlong, TakeCompactString, TakeNullableString, TakeSizedBytes;
    hide TakeRecordValue;
    match c
    case Int(w, signed) => TakeIntLocal(w, signed, used, r, t);
    case SignedVarint => VarlongLocal(used, r, t);
    case SignedVarlong => VarlongLocal(used, r, t);
    case Byte(b) => assert used == [(used + r)[0]];
    case Raw(size) => TakeBytesLocal(size, used, r, t);
    case CompactString => CompactStringLocal(used, r, t);
    case NullableString => NullableStringLocal(used, r, t);
    case SizedBytes => SizedBytesLocal(used, r, t);
    case RecordValue => RecordValueLocal(used, r, t);
  }

  /** If a layout was read from `used` with `r` left over, it is read from `used` whatever comes next. */
  lemma {:induction false} DecodeLocal(c: Schema, used: seq<byte>, r: seq<byte>, t: seq<byte>)
    requires Decode(c, used + r).Ok? && Decode(c, used + r).rest == r
    ensures Decode(c, used + t) == Ok(Decode(c, used + r).value, t)
    decreases c, 0
  {
    hide TakeByte, TakeBytes, TakeCompactString, TakeNullableString, TakeSizedBytes, TakeRecordValue;
    hide IntOf, TakeUnsignedVarlong;
    var s := used + r;
    match c
    case Array(e) =>
      var Ok(n, m) := TakeInt(4, true, s);
      DecodeManySuffix(e, ArrayCount(n), m, []);
      var c1, c2 := SplitFront(used, r, m);
      TakeIntLocal(4, true, c1, m, c2 + t);
      DecodeManyLocal(e, ArrayCount(n), c2, r, t, []);
    case CompactArray(e) =>
      UnsignedVarlongRewrite(s);
      var Ok(n, m) := TakeUnsignedVarint(s);
      DecodeManySuffix(e, CompactCount(n), m, []);
      var c1, c2 := SplitFront(used, r, m);
      VarlongLocal(c1, m, c2 + t);
      DecodeManyLocal(e, CompactCount(n), c2, r, t, []);
    case Then(a, b) =>
      DecodeSuffix(a, s);
      var Ok(x, m) := Decode(a, s);
      DecodeSuffix(b, m);
      var c1, c2 := SplitFront(used, r, m);
      DecodeLocal(a, c1, m, c2 + t);
      DecodeLocal(b, c2, r, t);
    case _ => LeafLocal(c, used, r, t);
  }

  lemma {:induction false} DecodeManyLocal(e: Schema, n: nat, used: seq<byte>, r: seq<byte>, t: seq<byte>,
                                           acc: seq<Value>)
    requires DecodeMany(e, n, used + r, acc).Ok? && DecodeMany(e, n, used + r, acc).rest == r
    ensures DecodeMany(e, n, used + t, acc) == Ok(DecodeMany(e, n, used + r, acc).value, t)
    decreases e, n + 1
  {
    hide Decode;
    if n == 0 {
      assert used == [];
    } else {
      var s := used + r;
      DecodeSuffix(e, s);
      var Ok(v, m) := Decode(e, s);
      DecodeManySuffix(e, n - 1, m, acc + [v]);
      var c1, c2 := SplitFront(used, r, m);
      DecodeLocal(e, c1, m, c2 + t);
      DecodeManyLocal(e, n - 1, c2, r, t, acc + [v]);
    }
  }
}
