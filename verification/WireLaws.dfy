/** What holds of every layout: reading inverts writing, codes never overlap, and rewriting never grows. */
module WireLaws {
  import opened Bytes
  import opened Varint
  import opened Wire

  // ---- Round trip ----

  lemma TakeFront(n: nat, d: seq<byte>, t: seq<byte>)
    requires |d| == n
    ensures TakeBytes(n, d + t) == Ok(d, t)
  {
    assert (d + t)[..n] == d && (d + t)[n..] == t;
  }

  lemma Regroup(a: seq<byte>, b: seq<byte>, t: seq<byte>)
    ensures (a + b) + t == a + (b + t)
  {
  }

  lemma CompactStringRoundTrip(d: seq<byte>, t: seq<byte>)
    requires |d| + 1 < TWO_32
    ensures TakeCompactString((CompactLength(|d|) + d) + t) == Ok(d, t)
  {
    UnsignedVarlongRoundTrip(|d| + 1, d + t);
    TakeFront(|d|, d, t);
    hide TakeUnsignedVarint, EncodeUnsigned;
    Regroup(CompactLength(|d|), d, t);
  }

  lemma CountRoundTrip(w: width, n: nat, t: seq<byte>)
    requires (w == 2 && n < 0x8000) || (w == 4 && n < TWO_31)
    ensures TakeInt(w, true, BigBytes(w, n) + t) == Ok(n, t)
  {
    IntRoundTrip(w, true, n, t);
    Ranges(n);
  }

  lemma NullableStringRoundTrip(d: seq<byte>, t: seq<byte>)
    requires |d| < 0x8000
    ensures TakeNullableString((BigBytes(2, |d|) + d) + t) == Ok(d, t)
  {
    CountRoundTrip(2, |d|, d + t);
    TakeFront(|d|, d, t);
    hide TakeInt, BigBytes;
    Regroup(BigBytes(2, |d|), d, t);
  }

  lemma SizedBytesRoundTrip(d: seq<byte>, t: seq<byte>)
    requires |d| < TWO_31
    ensures TakeSizedBytes((BigBytes(4, |d|) + d) + t) == Ok(d, t)
  {
    CountRoundTrip(4, |d|, d + t);
    TakeFront(|d|, d, t);
    hide TakeInt, BigBytes, TakeBytes;
    Regroup(BigBytes(4, |d|), d, t);
  }

  lemma RecordValueRoundTrip(d: seq<byte>, t: seq<byte>)
    requires |d| < TWO_31
    ensures TakeRecordValue((EncodeVarint(|d|) + d) + t) == Ok((|d|, d), t)
  {
    SignedRoundTrip(|d|, d + t);
    TakeFront(|d|, d, t);
    hide TakeVarint, EncodeUnsigned;
    Regroup(EncodeVarint(|d|), d, t);
  }

  lemma LeafRoundTrip(c: Schema, v: Value, t: seq<byte>)
    requires !c.Array? && !c.CompactArray? && !c.Then?
    requires Typed(c, v)
    ensures Decode(c, Encode(c, v) + t) == Ok(v, t)
  {
    hide TakeInt, TakeBytes, TakeVarint, TakeVarlong, TakeCompactString, TakeNullableString, TakeSizedBytes;
    hide TakeRecordValue;
    hide EncodeUnsigned, BigBytes;
    match (c, v)
    case (Int(w, signed), Num(n)) => IntRoundTrip(w, signed, n, t);
    case (SignedVarint, Num(n)) => SignedRoundTrip(n, t);
    case (SignedVarlong, Num(n)) => SignedRoundTrip(n, t);
    case (Byte(b), Unit) => assert ([b] + t)[1..] == t;
    case (Raw(size), Blob(d)) => TakeFront(size, d, t);
    case (CompactString, Blob(d)) => CompactStringRoundTrip(d, t);
    case (NullableString, Blob(d)) => NullableStringRoundTrip(d, t);
    case (SizedBytes, Blob(d)) => SizedBytesRoundTrip(d, t);
    case (RecordValue, Counted(len, d)) => RecordValueRoundTrip(d, t);
  }

  lemma {:induction false} DecodeEncoded(c: Schema, v: Value, t: seq<byte>)
    requires Typed(c, v)
    ensures Decode(c, Encode(c, v) + t) == Ok(v, t)
    decreases c, 0
  {
    hide TakeInt, TakeUnsignedVarint, EncodeUnsigned, BigBytes;
    match (c, v)
    case (Array(e), Many(items)) =>
      DecodeManyEncoded(e, items, t, []);
      assert [] + items == items;
      ArrayEncoded(e, items, t);
    case (CompactArray(e), Many(items)) =>
      DecodeManyEncoded(e, items, t, []);
      assert [] + items == items;
      CompactArrayEncoded(e, items, t);
    case (Then(a, b), Pair(x, y)) =>
      DecodeEncoded(a, x, Encode(b, y) + t);
      DecodeEncoded(b, y, t);
      ThenEncoded(a, b, x, y, x, y, t);
    case _ => LeafRoundTrip(c, v, t);
  }

  lemma ArrayDecodes(e: Schema, s: seq<byte>, n: nat, m: seq<byte>, items: seq<Value>, t: seq<byte>)
    requires TakeInt(4, true, s) == Ok(n, m) && DecodeMany(e, n, m, []) == Ok(items, t)
    ensures Decode(Array(e), s) == Ok(Many(items), t)
  {
    hide TakeInt, DecodeMany;
  }

  lemma ArrayEncoded(e: Schema, items: seq<Value>, t: seq<byte>)
    requires |items| < TWO_31
    requires DecodeMany(e, |items|, EncodeMany(e, items) + t, []) == Ok(items, t)
    ensures Decode(Array(e), Encode(Array(e), Many(items)) + t) == Ok(Many(items), t)
  {
    hide TakeInt, BigBytes, Decode, DecodeMany, EncodeMany;
    var count, tail := BigBytes(4, |items|), EncodeMany(e, items);
    CountRoundTrip(4, |items|, tail + t);
    ArrayDecodes(e, count + (tail + t), |items|, tail + t, items, t);
    Regroup(count, tail, t);
  }

  lemma ThenEncoding(c: Schema, d: Schema, v: Value, w: Value)
    ensures Encode(Then(c, d), Pair(v, w)) == Encode(c, v) + Encode(d, w)
  {
    hide EncodeMany, BigBytes, EncodeVarint, EncodeVarlong, CompactLength;
  }

  lemma CompactArrayDecodes(e: Schema, s: seq<byte>, n: nat, m: seq<byte>, items: seq<Value>, t: seq<byte>)
    requires TakeUnsignedVarint(s) == Ok(n, m) && DecodeMany(e, CompactCount(n), m, []) == Ok(items, t)
    ensures Decode(CompactArray(e), s) == Ok(Many(items), t)
  {
    hide TakeUnsignedVarint, DecodeMany;
  }

  lemma CompactArrayEncoded(e: Schema, items: seq<Value>, t: seq<byte>)
    requires |items| + 1 < TWO_32
    requires DecodeMany(e, |items|, EncodeMany(e, items) + t, []) == Ok(items, t)
    ensures Decode(CompactArray(e), Encode(CompactArray(e), Many(items)) + t) == Ok(Many(items), t)
  {
    hide TakeUnsignedVarint, EncodeUnsigned, Decode, DecodeMany, EncodeMany;
    var length, tail := CompactLength(|items|), EncodeMany(e, items);
    UnsignedVarlongRoundTrip(|items| + 1, tail + t);
    CompactArrayDecodes(e, length + (tail + t), |items| + 1, tail + t, items, t);
    Regroup(length, tail, t);
  }

  lemma ThenEncoded(a: Schema, b: Schema, x: Value, y: Value, x': Value, y': Value, t: seq<byte>)
    requires Decode(a, Encode(a, x) + (Encode(b, y) + t)) == Ok(x', Encode(b, y) + t)
    requires Decode(b, Encode(b, y) + t) == Ok(y', t)
    ensures Decode(Then(a, b), Encode(Then(a, b), Pair(x, y)) + t) == Ok(Pair(x', y'), t)
  {
    hide TakeInt, TakeByte, TakeBytes, TakeUnsignedVarlong, TakeCompactString, TakeNullableString, TakeSizedBytes;
    hide TakeRecordValue;
    hide BigBytes, EncodeUnsigned, DecodeMany, EncodeMany;
    var e1, e2 := Encode(a, x), Encode(b, y);
    assert Encode(Then(a, b), Pair(x, y)) == e1 + e2;
    Regroup(e1, e2, t);
  }

  lemma {:induction false} DecodeManyEncoded(e: Schema, items: seq<Value>, t: seq<byte>, acc: seq<Value>)
    requires TypedMany(e, items)
    ensures DecodeMany(e, |items|, EncodeMany(e, items) + t, acc) == Ok(acc + items, t)
    decreases e, |items| + 1
  {
    hide Decode, Encode;
    if items == [] {
      assert acc + items == acc && EncodeMany(e, items) + t == t;
    } else {
      var rest := EncodeMany(e, items[1..]) + t;
      DecodeEncoded(e, items[0], rest);
      assert EncodeMany(e, items) + t == Encode(e, items[0]) + rest;
      DecodeManyEncoded(e, items[1..], t, acc + [items[0]]);
      assert (acc + [items[0]]) + items[1..] == acc + items;
    }
  }

  // ---- Rewriting what was read ----

  /** Whether the layout at the front of `s` is spelled as the writer spells it: minimal varints that were not
      truncated, and no "absent" marker where the writer puts an empty string or array. */
  predicate Canonical(c: Schema, s: seq<byte>)
    decreases c, 0
  {
    match c
    case SignedVarint => CanonicalVarint(s)
    case RecordValue => CanonicalVarint(s)
    case SignedVarlong => MinimalAt(s) && TakeUnsignedVarlong(s).value < TWO_64 - 1
    case CompactString => CanonicalLength(s)
    case NullableString => TakeInt(2, true, s).Ok? && TakeInt(2, true, s).value >= 0
    case Array(e) =>
      var p := TakeInt(4, true, s);
      p.Ok? && p.value >= 0 && CanonicalMany(e, ArrayCount(p.value), p.rest)
    case CompactArray(e) =>
      var p := TakeUnsignedVarint(s);
      CanonicalLength(s) && CanonicalMany(e, CompactCount(p.value), p.rest)
    case Then(a, b) =>
      var p := Decode(a, s);
      Canonical(a, s) && p.Ok? && Canonical(b, p.rest)
    case _ => true
  }

  predicate CanonicalMany(e: Schema, n: nat, s: seq<byte>)
    decreases e, n + 1
  {
    n == 0 || (Canonical(e, s) && Decode(e, s).Ok? && CanonicalMany(e, n - 1, Decode(e, s).rest))
  }

  predicate CanonicalVarint(s: seq<byte>) {
    MinimalAt(s) && TakeUnsignedVarlong(s).value < TWO_32
  }

  predicate CanonicalLength(s: seq<byte>) {
    MinimalAt(s) && 0 < TakeUnsignedVarlong(s).value < TWO_32
  }

  /** `w` was written for the front of `s` up to `r`: it is no longer than that front, and equal to it exactly when
      `exact`. */
  ghost predicate Rewrites(w: seq<byte>, r: seq<byte>, s: seq<byte>, exact: bool) {
    && IsSuffix(r, s)
    && |w| + |r| <= |s|
    && (w + r == s <==> exact)
  }

  lemma RewritesNothing(s: seq<byte>)
    ensures Rewrites([], s, s, true)
  {
  }

  lemma RewritesThen(w1: seq<byte>, w2: seq<byte>, s: seq<byte>, m: seq<byte>, r: seq<byte>, exact1: bool, exact2: bool)
    requires Rewrites(w1, m, s, exact1) && Rewrites(w2, r, m, exact2)
    ensures Rewrites(w1 + w2, r, s, exact1 && exact2)
  {
    assert (w1 + w2) + r == w1 + (w2 + r);
    if (w1 + w2) + r == s {
      assert |w1| + |m| == |s|;
      assert s[|w1|..] == w2 + r;
      assert s[..|w1|] == w1;
      assert w1 + m == s;
    }
    assert r == s[|s| - |r|..];
  }

  /** Writing `z` where the varint `u` was read. */
  lemma RewriteAs(s: seq<byte>, z: UINT64)
    requires TakeUnsignedVarlong(s).Ok?
    requires z <= TakeUnsignedVarlong(s).value || z < 128
    ensures var Ok(u, rest) := TakeUnsignedVarlong(s);
      Rewrites(EncodeUnsigned(z), rest, s, z == u && MinimalAt(s))
  {
    var Ok(u, rest) := TakeUnsignedVarlong(s);
    UnsignedVarlongRewrite(s);
    if z <= u {
      EncodedLengthMonotone(z, u);
    }
    UnsignedVarlongRoundTrip(z, rest);
  }

  lemma RewriteVarint(s: seq<byte>)
    requires TakeVarint(s).Ok?
    ensures Rewrites(EncodeVarint(TakeVarint(s).value), TakeVarint(s).rest, s, CanonicalVarint(s))
  {
    RewriteAs(s, ZigZag32(TakeVarint(s).value));
  }

  lemma RewriteLength(s: seq<byte>)
    requires TakeUnsignedVarint(s).Ok?
    ensures var Ok(n, rest) := TakeUnsignedVarint(s);
      Rewrites(CompactLength(CompactCount(n)), rest, s, CanonicalLength(s))
  {
    var n := TakeUnsignedVarint(s).value;
    hide EncodeUnsigned, MinimalAt;
    RewriteAs(s, if n == 0 then 1 else n);
  }

  lemma RewriteBytes(n: nat, s: seq<byte>)
    requires TakeBytes(n, s).Ok?
    ensures Rewrites(TakeBytes(n, s).value, TakeBytes(n, s).rest, s, true)
    ensures |TakeBytes(n, s).value| == n
  {
    assert s[..n] + s[n..] == s;
  }

  lemma RewriteInt(w: width, signed: bool, s: seq<byte>)
    requires TakeInt(w, signed, s).Ok?
    ensures Rewrites(BigBytes(w, TakeInt(w, signed, s).value), TakeInt(w, signed, s).rest, s, true)
    ensures InRange(w, signed, TakeInt(w, signed, s).value)
  {
    IntOfBytes(signed, s[..w]);
    assert s[..w] + s[w..] == s;
  }

  /** A length field read as negative is written back as zero, in as many bytes. */
  lemma RewriteCount(w: width, s: seq<byte>)
    requires TakeInt(w, true, s).Ok?
    ensures var Ok(n, rest) := TakeInt(w, true, s);
      Rewrites(BigBytes(w, ArrayCount(n)), rest, s, n >= 0)
  {
    var Ok(n, rest) := TakeInt(w, true, s);
    RewriteInt(w, true, s);
    if n < 0 && BigBytes(w, 0) + rest == s {
      IntRoundTrip(w, true, 0, rest);
    }
  }

  lemma LeafRewrite(c: Schema, s: seq<byte>)
    requires !c.Array? && !c.CompactArray? && !c.Then?
    requires Decode(c, s).Ok?
    ensures var Ok(v, rest) := Decode(c, s);
      Typed(c, v) && Rewrites(Encode(c, v), rest, s, Canonical(c, s))
  {
    hide TakeInt, TakeBytes, TakeUnsignedVarlong, EncodeUnsigned, MinimalAt, Rewrites, ZigZag32, CanonicalVarint;
    hide CanonicalLength;
    match c
    case Int(w, signed) => RewriteInt(w, signed, s);
    case SignedVarint => RewriteVarint(s);
    case SignedVarlong => RewriteVarlong(s);
    case Byte(b) => RewriteByte(b, s);
    case Raw(size) => RewriteBytes(size, s);
    case CompactString => RewriteCompactString(s);
    case NullableString => RewriteNullableString(s);
    case SizedBytes => RewriteSizedBytes(s);
    case RecordValue => RewriteRecordValue(s);
  }

  lemma RewriteByte(b: byte, s: seq<byte>)
    requires TakeByte(b, s).Ok?
    ensures Rewrites([b], TakeByte(b, s).rest, s, true)
  {
    assert [s[0]] + s[1..] == s;
  }

  lemma RewriteVarlong(s: seq<byte>)
    requires TakeVarlong(s).Ok?
    ensures var Ok(n, rest) := TakeVarlong(s);
      && n > -TWO_63
      && Rewrites(EncodeVarlong(n), rest, s, MinimalAt(s) && TakeUnsignedVarlong(s).value < TWO_64 - 1)
  {
    RewriteAs(s, ZigZag64(TakeVarlong(s).value));
  }

  lemma RewriteCompactString(s: seq<byte>)
    requires TakeCompactString(s).Ok?
    ensures var Ok(d, rest) := TakeCompactString(s);
      |d| + 1 < TWO_32 && Rewrites(CompactLength(|d|) + d, rest, s, CanonicalLength(s))
  {
    var Ok(n, m) := TakeUnsignedVarint(s);
    var Ok(d, rest) := TakeCompactString(s);
    RewriteLength(s);
    RewriteBytes(CompactCount(n), m);
    RewritesThen(CompactLength(|d|), d, s, m, rest, CanonicalLength(s), true);
  }

  lemma RewriteNullableString(s: seq<byte>)
    requires TakeNullableString(s).Ok?
    ensures var Ok(d, rest) := TakeNullableString(s);
      |d| < 0x8000 && Rewrites(BigBytes(2, |d|) + d, rest, s, TakeInt(2, true, s).value >= 0)
  {
    var Ok(n, m) := TakeInt(2, true, s);
    var Ok(d, rest) := TakeNullableString(s);
    RewriteInt(2, true, s);
    Ranges(n);
    RewriteCount(2, s);
    RewriteBytes(ArrayCount(n), m);
    hide TakeInt, BigBytes;
    RewritesThen(BigBytes(2, |d|), d, s, m, rest, n >= 0, true);
  }

  lemma RewriteSizedBytes(s: seq<byte>)
    requires TakeSizedBytes(s).Ok?
    ensures var Ok(d, rest) := TakeSizedBytes(s);
      |d| < TWO_31 && Rewrites(BigBytes(4, |d|) + d, rest, s, true)
  {
    var Ok(n, m) := TakeInt(4, true, s);
    var Ok(d, rest) := TakeSizedBytes(s);
    RewriteInt(4, true, s);
    Ranges(n);
    RewriteBytes(n, m);
    hide TakeInt, BigBytes;
    RewritesThen(BigBytes(4, |d|), d, s, m, rest, true, true);
  }

  lemma RewriteRecordValue(s: seq<byte>)
    requires TakeRecordValue(s).Ok?
    ensures var Ok(v, rest) := TakeRecordValue(s);
      v.0 == |v.1| < TWO_31 && Rewrites(EncodeVarint(v.0) + v.1, rest, s, CanonicalVarint(s))
  {
    var Ok(n, m) := TakeVarint(s);
    var Ok(v, rest) := TakeRecordValue(s);
    RewriteVarint(s);
    RewriteBytes(n, m);
    hide TakeVarint, EncodeVarint, CanonicalVarint;
    RewritesThen(EncodeVarint(n), v.1, s, m, rest, CanonicalVarint(s), true);
  }

  /** Writing back what was read carries it without loss, in no more bytes, and in the same bytes exactly when they
      were canonical. */
  lemma {:induction false} RewriteDecoded(c: Schema, s: seq<byte>)
    requires Decode(c, s).Ok?
    ensures var Ok(v, rest) := Decode(c, s);
      Typed(c, v) && Rewrites(Encode(c, v), rest, s, Canonical(c, s))
    decreases c, 0
  {
    hide TakeInt, TakeUnsignedVarint, BigBytes, EncodeUnsigned, CanonicalLength, Rewrites;
    var Ok(v, rest) := Decode(c, s);
    match c
    case Array(e) =>
      var Ok(n, m) := TakeInt(4, true, s);
      RewriteInt(4, true, s);
      Ranges(n);
      RewriteCount(4, s);
      RewriteManyDecoded(e, ArrayCount(n), m, []);
      assert v.items[0..] == v.items;
      RewritesThen(BigBytes(4, |v.items|), EncodeMany(e, v.items), s, m, rest, n >= 0,
                   CanonicalMany(e, ArrayCount(n), m));
    case CompactArray(e) =>
      var Ok(n, m) := TakeUnsignedVarint(s);
      RewriteLength(s);
      RewriteManyDecoded(e, CompactCount(n), m, []);
      assert v.items[0..] == v.items;
      RewritesThen(CompactLength(|v.items|), EncodeMany(e, v.items), s, m, rest,
                   CanonicalLength(s), CanonicalMany(e, CompactCount(n), m));
    case Then(a, b) =>
      var Ok(x, m) := Decode(a, s);
      RewriteDecoded(a, s);
      RewriteDecoded(b, m);
      RewritesThen(Encode(a, x), Encode(b, v.right), s, m, rest, Canonical(a, s), Canonical(b, m));
    case _ => LeafRewrite(c, s);
  }

  lemma OneMore<T>(acc: seq<T>, v: T, all: seq<T>)
    requires |acc| < |all| && acc + [v] == all[..|acc| + 1]
    ensures acc == all[..|acc|] && all[|acc|..] == [v] + all[|acc| + 1..]
  {
    assert all[..|acc| + 1][..|acc|] == (acc + [v])[..|acc|];
    assert all[..|acc| + 1][|acc|] == v;
  }

  lemma {:induction false} RewriteManyDecoded(e: Schema, n: nat, s: seq<byte>, acc: seq<Value>)
    requires DecodeMany(e, n, s, acc).Ok?
    ensures var Ok(all, rest) := DecodeMany(e, n, s, acc);
      && |all| == |acc| + n && acc == all[..|acc|]
      && TypedMany(e, all[|acc|..])
      && Rewrites(EncodeMany(e, all[|acc|..]), rest, s, CanonicalMany(e, n, s))
    decreases e, n + 1
  {
    hide Rewrites, Decode, Encode, Typed, Canonical;
    if n > 0 {
      var Ok(v, m) := Decode(e, s);
      var Ok(all, rest) := DecodeMany(e, n, s, acc);
      RewriteDecoded(e, s);
      RewriteManyDecoded(e, n - 1, m, acc + [v]);
      var tail := all[|acc| + 1..];
      OneMore(acc, v, all);
      RewritesThen(Encode(e, v), EncodeMany(e, tail), s, m, rest, Canonical(e, s), CanonicalMany(e, n - 1, m));
    } else {
      assert acc[|acc|..] == [];
      RewritesNothing(s);
    }
  }

  // ---- Consequences ----

  /** A value survives a write and a read, in any context, exactly when its layout can carry it. */
  lemma RoundTrip(c: Schema, v: Value, t: seq<byte>)
    ensures Decode(c, Encode(c, v) + t) == Ok(v, t) <==> Typed(c, v)
  {
    if Typed(c, v) {
      DecodeEncoded(c, v, t);
    } else if Decode(c, Encode(c, v) + t).Ok? {
      RewriteDecoded(c, Encode(c, v) + t);
    }
  }

  /** Whatever follows it, the encoding of `v` is read as `v'`. */
  ghost predicate ReadsAs(c: Schema, v: Value, v': Value) {
    forall t :: Decode(c, Encode(c, v) + t) == Ok(v', t)
  }

  lemma TypedReadsAs(c: Schema, v: Value)
    requires Typed(c, v)
    ensures ReadsAs(c, v, v)
  {
    forall t ensures Decode(c, Encode(c, v) + t) == Ok(v, t) {
      DecodeEncoded(c, v, t);
    }
  }

  lemma ThenReadsAs(a: Schema, b: Schema, x: Value, y: Value, x': Value, y': Value)
    requires ReadsAs(a, x, x') && ReadsAs(b, y, y')
    ensures ReadsAs(Then(a, b), Pair(x, y), Pair(x', y'))
  {
    forall t ensures Decode(Then(a, b), Encode(Then(a, b), Pair(x, y)) + t) == Ok(Pair(x', y'), t) {
      ThenEncoded(a, b, x, y, x', y', t);
    }
  }

  /** No encoding can be read from a part of itself that misses its end. */
  lemma StrictPrefixFails(c: Schema, s: seq<byte>, k: nat)
    requires Decode(c, s).Ok? && k < |s| - |Decode(c, s).rest|
    ensures Decode(c, s[..k]).Err?
  {
    DecodeSuffix(c, s[..k]);
    if Decode(c, s[..k]).Ok? {
      var rest := Decode(c, s[..k]).rest;
      var used := s[..k - |rest|];
      assert used + rest == s[..k];
      assert used + s[|used|..] == s;
      DecodeLocal(c, used, rest, s[|used|..]);
    }
  }

  /** Two values with different encodings cannot be confused, even when bytes follow them. */
  lemma UniquelyDecodable(c: Schema, v: Value, v': Value, t: seq<byte>, t': seq<byte>)
    requires Typed(c, v) && Typed(c, v')
    requires Encode(c, v) + t == Encode(c, v') + t'
    ensures v == v' && t == t'
  {
    DecodeEncoded(c, v, t);
    DecodeEncoded(c, v', t');
  }

  /** Decode, encode, decode gives the first result again. */
  lemma NormalForm(c: Schema, s: seq<byte>, t: seq<byte>)
    requires Decode(c, s).Ok?
    ensures Decode(c, Encode(c, Decode(c, s).value) + t) == Ok(Decode(c, s).value, t)
    ensures |Encode(c, Decode(c, s).value)| <= |s| - |Decode(c, s).rest|
  {
    RewriteDecoded(c, s);
    DecodeEncoded(c, Decode(c, s).value, t);
  }

  // ---- Sizes ----

  /** The fewest bytes any value of a layout takes. */
  function MinSize(c: Schema): nat
    decreases c
  {
    match c
    case Int(w, _) => w
    case Raw(size) => size
    case NullableString => 2
    case SizedBytes => 4
    case Array(_) => 4
    case Then(a, b) => MinSize(a) + MinSize(b)
    case _ => 1
  }

  lemma {:induction false} EncodedAtLeast(c: Schema, v: Value)
    requires Typed(c, v)
    ensures |Encode(c, v)| >= MinSize(c)
    decreases c
  {
    hide EncodeUnsigned, BigBytes;
    match (c, v)
    case (Then(a, b), Pair(x, y)) =>
      EncodedAtLeast(a, x);
      EncodedAtLeast(b, y);
    case (Int(w, _), Num(n)) => assert |BigBytes(w, n)| == w;
    case (NullableString, Blob(d)) => assert |BigBytes(2, |d|)| == 2;
    case (SizedBytes, Blob(d)) => assert |BigBytes(4, |d|)| == 4;
    case (Array(e), Many(items)) => assert |BigBytes(4, |items|)| == 4;
    case (SignedVarint, Num(n)) => assert EncodeUnsigned(ZigZag32(n)) != [];
    case (SignedVarlong, Num(n)) => assert EncodeUnsigned(ZigZag64(n)) != [];
    case (RecordValue, Counted(n, d)) => assert EncodeUnsigned(ZigZag32(n)) != [];
    case (CompactString, Blob(d)) => assert CompactLength(|d|) != [];
    case (CompactArray(e), Many(items)) => assert CompactLength(|items|) != [];
    case _ =>
  }

  lemma {:induction false} EncodedManyAtLeast(e: Schema, items: seq<Value>)
    requires TypedMany(e, items)
    ensures |EncodeMany(e, items)| >= |items| * MinSize(e)
    decreases |items|
  {
    if items != [] {
      EncodedAtLeast(e, items[0]);
      EncodedManyAtLeast(e, items[1..]);
      assert |items| * MinSize(e) == MinSize(e) + (|items| - 1) * MinSize(e);
    }
  }
}
