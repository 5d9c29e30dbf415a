/** The variable-length integers of the protocol: 7-bit groups, least significant first, and zig-zag signs. */
module Varint {
  import opened Bytes

  /** `d` moved up by `k` groups. */
  function Scaled(d: nat, k: nat): nat {
    if k == 0 then d else 128 * Scaled(d, k - 1)
  }

  /** The bytes of `n` in groups of seven bits, each but the last with its high bit set. */
  function EncodeUnsigned(n: nat): (s: seq<byte>)
    ensures s != []
    decreases n
  {
    if n < 128 then [n] else [128 + n % 128] + EncodeUnsigned(n / 128)
  }

  /** Adds up groups without any wrap-around.  At most `left` groups are taken. */
  function TakeGroups(s: seq<byte>, left: nat): Parsed<nat>
    decreases |s|
  {
    if s == [] || left == 0 then Err
    else if s[0] < 128 then Ok(s[0], s[1..])
    else match TakeGroups(s[1..], left - 1)
      case Err => Err
      case Ok(high, rest) => Ok(s[0] - 128 + 128 * high, rest)
  }

  /** The longest encoding of a 64-bit number.  From the eleventh group on the reader shifts by 70 bits or more. */
  const MAX_GROUPS: nat := 10

  /** What 64-bit arithmetic keeps of a sum of groups. */
  function Wrap64(n: nat): UINT64 {
    n % TWO_64
  }

  function TakeUnsignedVarlong(s: seq<byte>): Parsed<UINT64> {
    match TakeGroups(s, MAX_GROUPS)
    case Err => Err
    case Ok(n, rest) => Ok(Wrap64(n), rest)
  }

  function TakeUnsignedVarint(s: seq<byte>): Parsed<UINT32> {
    match TakeUnsignedVarlong(s)
    case Err => Err
    case Ok(n, rest) => Ok(n % TWO_32, rest)
  }

  function TakeVarlong(s: seq<byte>): Parsed<INT64> {
    match TakeUnsignedVarlong(s)
    case Err => Err
    case Ok(n, rest) => Ok(UnZigZag(n), rest)
  }

  function TakeVarint(s: seq<byte>): Parsed<INT32> {
    match TakeVarlong(s)
    case Err => Err
    case Ok(n, rest) => Ok(CastInt32(n), rest)
  }

  /** static_cast to a 32-bit signed integer. */
  function CastInt32(n: int): (r: INT32)
    ensures -TWO_31 <= n < TWO_31 ==> r == n
    ensures (n - r) % TWO_32 == 0
  {
    var u := n % TWO_32;
    if u < TWO_31 then u else u - TWO_32
  }

  // ---- Zig-zag ----

  /** `a ^ mask` on integers of modulus `m`, where `mask` is a sign-filling shift: all zeros or all ones. */
  function XorSign(a: nat, mask: int, m: nat): nat
    requires a < m && (mask == 0 || mask == -1)
  {
    if mask == 0 then a else m - 1 - a
  }

  /** `(n << 1) ^ (n >> 31)`, as the writer computes it in 32 bits. */
  function ZigZag32(n: INT32): (u: UINT32)
    ensures u == if n >= 0 then 2 * n else -2 * n - 1
  {
    XorSign(2 * n % TWO_32, n / TWO_31, TWO_32)
  }

  /** `(n << 1) ^ (n >> 63)`, as the writer computes it in 64 bits. */
  function ZigZag64(n: INT64): (u: UINT64)
    ensures u == if n >= 0 then 2 * n else -2 * n - 1
  {
    XorSign(2 * n % TWO_64, n / TWO_63, TWO_64)
  }

  /** `(n & 1) ? -((n + 1) >> 1) : (n >> 1)` in unsigned 64-bit arithmetic, then read as signed. */
  function UnZigZag(n: UINT64): (r: INT64)
    ensures r == if n % 2 == 0 then n / 2 else if n == TWO_64 - 1 then 0 else -((n + 1) / 2)
  {
    var half := (n + 1) % TWO_64 / 2;
    assert half == (if n == TWO_64 - 1 then 0 else (n + 1) / 2) <= TWO_63;
    assert (0 - half) % TWO_64 == if half == 0 then 0 else TWO_64 - half;
    var u := if n % 2 == 1 then (0 - half) % TWO_64 else n / 2;
    if u < TWO_63 then u else u - TWO_64
  }

  /** The two zig-zag formulas undo each other for every 64-bit number but the smallest, which comes back as 0. */
  lemma ZigZagInverse(n: INT64)
    ensures UnZigZag(ZigZag64(n)) == n <==> n != -TWO_63
    ensures n == -TWO_63 ==> UnZigZag(ZigZag64(n)) == 0
  {
  }

  /** The shift-and-xor formula of the writer on 64-bit words; `>>` of a signed word fills with its sign. */
  function ZigZagWord(n: bv64): bv64 {
    (n << 1) ^ (if n & 0x8000_0000_0000_0000 == 0 then 0 else 0xFFFF_FFFF_FFFF_FFFF)
  }

  function UnZigZagWord(n: bv64): bv64 {
    if n & 1 == 1 then 0 - ((n + 1) >> 1) else n >> 1
  }

  /** The same exception on machine words, bit by bit: only 1000...0 is lost, and it becomes 0. */
  lemma ZigZagWordInverse(n: bv64)
    ensures UnZigZagWord(ZigZagWord(n)) == n <==> n != 0x8000_0000_0000_0000
    ensures UnZigZagWord(ZigZagWord(0x8000_0000_0000_0000)) == 0
  {
    SmallestWord();
    hide ZigZagWord, UnZigZagWord;
    if n & 0x8000_0000_0000_0000 == 0 {
      NonNegativeWord(n);
    } else if n != 0x8000_0000_0000_0000 {
      NegativeWord(n);
    }
  }

  lemma SmallestWord()
    ensures UnZigZagWord(ZigZagWord(0x8000_0000_0000_0000)) == 0
  {
  }

  lemma NonNegativeWord(n: bv64)
    requires n & 0x8000_0000_0000_0000 == 0
    ensures UnZigZagWord(ZigZagWord(n)) == n
  {
  }

  lemma NegativeWord(n: bv64)
    requires n & 0x8000_0000_0000_0000 != 0 && n != 0x8000_0000_0000_0000
    ensures UnZigZagWord(ZigZagWord(n)) == n
  {
    NegativeWordIsOdd(n);
    NegativeWordNext(n);
    NegatedHalf(n);
    hide ZigZagWord;
  }

  lemma NegativeWordIsOdd(n: bv64)
    requires n & 0x8000_0000_0000_0000 != 0
    ensures ZigZagWord(n) & 1 == 1
  {
  }

  lemma NegativeWordNext(n: bv64)
    requires n & 0x8000_0000_0000_0000 != 0
    ensures ZigZagWord(n) + 1 == 0 - (n << 1)
  {
  }

  lemma NegatedHalf(n: bv64)
    requires n & 0x8000_0000_0000_0000 != 0 && n != 0x8000_0000_0000_0000
    ensures 0 - ((0 - (n << 1)) >> 1) == n
  {
  }

  // ---- The encoder and the reader ----

  lemma {:induction false} GroupsRoundTrip(n: nat, t: seq<byte>, left: nat)
    requires |EncodeUnsigned(n)| <= left
    ensures TakeGroups(EncodeUnsigned(n) + t, left) == Ok(n, t)
    decreases n
  {
    var s := EncodeUnsigned(n);
    if n < 128 {
      assert (s + t)[1..] == t;
    } else {
      GroupsRoundTrip(n / 128, t, left - 1);
      assert (s + t)[1..] == EncodeUnsigned(n / 128) + t;
    }
  }

  /** A number takes at most `k` groups exactly when it is below 128 to the power `k`. */
  lemma {:induction false} EncodedLength(n: nat, k: nat)
    requires k > 0
    ensures |EncodeUnsigned(n)| <= k <==> n < Scaled(1, k)
    decreases n
  {
    if n >= 128 {
      if k > 1 {
        EncodedLength(n / 128, k - 1);
      }
    } else {
      ScaledMonotone(1, 1, 1, k);
    }
  }

  lemma {:induction false} ScaledMonotone(d: nat, e: nat, j: nat, k: nat)
    requires d <= e && j <= k
    ensures Scaled(d, j) <= Scaled(e, k)
    decreases k
  {
    if k > 0 {
      ScaledMonotone(d, e, if j == k then j - 1 else j, k - 1);
    }
  }

  lemma {:induction false} EncodedLengthMonotone(m: nat, n: nat)
    requires m <= n
    ensures |EncodeUnsigned(m)| <= |EncodeUnsigned(n)|
    decreases n
  {
    if m >= 128 {
      EncodedLengthMonotone(m / 128, n / 128);
    }
  }

  /** Continuation bytes and then one byte without the high bit. */
  predicate Grouped(s: seq<byte>) {
    && s != []
    && (forall i | 0 <= i < |s| - 1 :: s[i] >= 128)
    && s[|s| - 1] < 128
  }

  /** The byte strings of section "Protocol Primitive Types" that spell a 64-bit number with no spare group. */
  predicate IsVarlong(s: seq<byte>) {
    && Grouped(s)
    && |s| <= MAX_GROUPS
    && (|s| > 1 ==> s[|s| - 1] > 0)
    && (|s| == MAX_GROUPS ==> s[|s| - 1] == 1)
  }

  lemma {:induction false} EncodedShape(n: nat)
    ensures var s := EncodeUnsigned(n);
      && Grouped(s)
      && (|s| > 1 ==> s[|s| - 1] > 0)
      && Scaled(s[|s| - 1], |s| - 1) <= n
    decreases n
  {
    if n >= 128 {
      var s, tail := EncodeUnsigned(n), EncodeUnsigned(n / 128);
      EncodedShape(n / 128);
      assert s[|s| - 1] == tail[|tail| - 1];
    }
  }

  lemma ScaledConstants()
    ensures Scaled(1, 5) >= TWO_32 && Scaled(1, 9) == TWO_63 && Scaled(2, 9) == TWO_64 && Scaled(128, 8) == TWO_63
  {
  }

  /** `used` is a way to spell `n` in groups, with or without spare groups at the end. */
  ghost predicate Spells(used: seq<byte>, n: nat) {
    && Grouped(used)
    && Scaled(used[|used| - 1], |used| - 1) <= n < Scaled(used[|used| - 1] + 1, |used| - 1)
    && |EncodeUnsigned(n)| <= |used|
    && (|used| == 1 || used[|used| - 1] > 0 ==> EncodeUnsigned(n) == used)
  }

  lemma PrependGroup(c: byte, used: seq<byte>, n: nat)
    requires Spells(used, n) && c >= 128
    ensures Spells([c] + used, c - 128 + 128 * n)
  {
    var whole := [c] + used;
    assert whole[|whole| - 1] == used[|used| - 1];
    assert whole[1..] == used;
    if n > 0 {
      assert EncodeUnsigned(c - 128 + 128 * n) == [c] + EncodeUnsigned(n);
    }
  }

  /** What an accepted varint consumed, and how it spells the number. */
  lemma {:induction false} GroupsUsed(s: seq<byte>, left: nat)
    requires TakeGroups(s, left).Ok?
    ensures var Ok(n, rest) := TakeGroups(s, left);
      && |rest| < |s| <= |rest| + left && rest == s[|s| - |rest|..]
      && Spells(s[..|s| - |rest|], n)
    decreases |s|
  {
    if s[0] >= 128 {
      var tail := s[1..];
      GroupsUsed(tail, left - 1);
      var Ok(high, rest) := TakeGroups(tail, left - 1);
      PrependGroup(s[0], tail[..|tail| - |rest|], high);
      assert s[..|s| - |rest|] == [s[0]] + tail[..|tail| - |rest|];
      hide Spells;
    }
  }

  /** The numbers an encoding of 64-bit length can hold without wrapping. */
  lemma FitsSixtyFourBits(s: seq<byte>)
    requires TakeGroups(s, MAX_GROUPS).Ok?
    ensures |TakeGroups(s, MAX_GROUPS).rest| < |s|
    ensures var Ok(n, rest) := TakeGroups(s, MAX_GROUPS);
      n < TWO_64 <==> |s| - |rest| < MAX_GROUPS || s[|s| - |rest| - 1] <= 1
  {
    GroupsUsed(s, MAX_GROUPS);
    hide TakeGroups, EncodeUnsigned;
    var Ok(n, rest) := TakeGroups(s, MAX_GROUPS);
    var k := |s| - |rest| - 1;
    assert s[..|s| - |rest|][k] == s[k];
    TopGroup(s[k], k, n);
  }

  lemma TopGroup(d: byte, k: nat, n: nat)
    requires d < 128 && k <= 9
    requires Scaled(d, k) <= n < Scaled(d + 1, k)
    ensures n < TWO_64 <==> k < 9 || d <= 1
  {
    ScaledConstants();
    hide Scaled;
    if k < 9 {
      ScaledMonotone(d + 1, 128, k, 8);
    } else if d <= 1 {
      ScaledMonotone(d + 1, 2, 9, 9);
    } else {
      ScaledMonotone(2, d, 9, 9);
    }
  }

  lemma ShortEnough(n: UINT64)
    ensures |EncodeUnsigned(n)| <= MAX_GROUPS
    ensures n < TWO_32 ==> |EncodeUnsigned(n)| <= 5
  {
    ScaledConstants();
    EncodedLength(n, MAX_GROUPS);
    EncodedLength(n, 5);
  }

  /** Reading inverts writing for every 64-bit number, whatever follows. */
  lemma UnsignedVarlongRoundTrip(n: UINT64, t: seq<byte>)
    ensures TakeUnsignedVarlong(EncodeUnsigned(n) + t) == Ok(n, t)
    ensures n < TWO_32 ==> TakeUnsignedVarint(EncodeUnsigned(n) + t) == Ok(n, t) && |EncodeUnsigned(n)| <= 5
  {
    ShortEnough(n);
    hide EncodeUnsigned, TakeGroups;
    GroupsRoundTrip(n, t, MAX_GROUPS);
  }

  lemma EncodedIsVarlong(n: UINT64)
    ensures IsVarlong(EncodeUnsigned(n))
  {
    var s := EncodeUnsigned(n);
    ShortEnough(n);
    EncodedShape(n);
    ScaledConstants();
    if |s| == MAX_GROUPS {
      ScaledMonotone(if s[9] < 2 then s[9] else 2, s[9], 9, 9);
    }
  }

  lemma {:induction false} VarlongIsAccepted(s: seq<byte>, left: nat)
    requires Grouped(s) && |s| <= left
    ensures TakeGroups(s, left).Ok? && TakeGroups(s, left).rest == []
    decreases |s|
  {
    if |s| > 1 {
      VarlongIsAccepted(s[1..], left - 1);
    }
  }

  lemma VarlongIsWritten(s: seq<byte>) returns (n: UINT64)
    requires IsVarlong(s)
    ensures EncodeUnsigned(n) == s
  {
    VarlongIsAccepted(s, MAX_GROUPS);
    GroupsUsed(s, MAX_GROUPS);
    FitsSixtyFourBits(s);
    assert s[..|s|] == s;
    n := TakeGroups(s, MAX_GROUPS).value;
  }

  /** The writer produces exactly the strings of `IsVarlong`. */
  lemma EncoderImage(s: seq<byte>)
    ensures IsVarlong(s) <==> exists n: UINT64 :: EncodeUnsigned(n) == s
  {
    hide EncodeUnsigned;
    if IsVarlong(s) {
      var n := VarlongIsWritten(s);
      assert EncodeUnsigned(n) == s;
    }
    forall n: UINT64 | EncodeUnsigned(n) == s
      ensures IsVarlong(s)
    {
      EncodedIsVarlong(n);
    }
  }

  /** Whether the varint at the front of `s` is spelled the way the writer would spell it. */
  predicate MinimalAt(s: seq<byte>) {
    match TakeGroups(s, MAX_GROUPS)
    case Err => false
    case Ok(_, rest) => |rest| <= |s| && IsVarlong(s[..|s| - |rest|])
  }

  /** Writing an accepted number again never takes more bytes, and takes the same bytes exactly when they were
      minimal. */
  lemma UnsignedVarlongRewrite(s: seq<byte>)
    requires TakeUnsignedVarlong(s).Ok?
    ensures var Ok(n, rest) := TakeUnsignedVarlong(s);
      && |rest| < |s| && rest == s[|s| - |rest|..]
      && |EncodeUnsigned(n)| + |rest| <= |s|
      && (EncodeUnsigned(n) + rest == s <==> MinimalAt(s))
  {
    GroupsUsed(s, MAX_GROUPS);
    FitsSixtyFourBits(s);
    hide TakeGroups, EncodeUnsigned, Grouped;
    var Ok(raw, rest) := TakeGroups(s, MAX_GROUPS);
    var used := s[..|s| - |rest|];
    RewriteUsed(used, raw, raw % TWO_64);
    hide IsVarlong;
    assert used + rest == s;
    var again := EncodeUnsigned(raw % TWO_64);
    if again + rest == s {
      assert again == (again + rest)[..|again|];
    }
  }

  lemma RewriteUsed(used: seq<byte>, raw: nat, n: UINT64)
    requires Grouped(used) && |used| <= MAX_GROUPS
    requires |EncodeUnsigned(raw)| <= |used|
    requires |used| == 1 || used[|used| - 1] > 0 ==> EncodeUnsigned(raw) == used
    requires raw < TWO_64 <==> |used| < MAX_GROUPS || used[|used| - 1] <= 1
    requires n <= raw && (raw < TWO_64 ==> n == raw)
    ensures |EncodeUnsigned(n)| <= |used|
    ensures EncodeUnsigned(n) == used <==> IsVarlong(used)
  {
    hide EncodeUnsigned, Grouped;
    EncodedLengthMonotone(n, raw);
    EncodedIsVarlong(n);
  }

  /** Success depends only on the bytes consumed. */
  lemma {:induction false} GroupsLocal(c: seq<byte>, r: seq<byte>, t: seq<byte>, left: nat)
    requires TakeGroups(c + r, left).Ok? && TakeGroups(c + r, left).rest == r
    ensures TakeGroups(c + t, left) == Ok(TakeGroups(c + r, left).value, t)
    decreases |c|
  {
    GroupsUsed(c + r, left);
    assert (c + r)[1..] == c[1..] + r && (c + t)[1..] == c[1..] + t;
    if c[0] < 128 {
      assert c[1..] == [];
    } else {
      GroupsLocal(c[1..], r, t, left - 1);
    }
  }

  /** Every 32-bit number survives a signed varint, and every 64-bit number but the smallest a signed varlong. */
  lemma SignedRoundTrip(n: INT64, t: seq<byte>)
    ensures TakeVarlong(EncodeUnsigned(ZigZag64(n)) + t) == Ok(n, t) <==> n != -TWO_63
    ensures n == -TWO_63 ==> TakeVarlong(EncodeUnsigned(ZigZag64(n)) + t) == Ok(0, t)
    ensures -TWO_31 <= n < TWO_31 ==> TakeVarint(EncodeUnsigned(ZigZag32(n)) + t) == Ok(n, t)
  {
    UnsignedVarlongRoundTrip(ZigZag64(n), t);
    hide EncodeUnsigned, TakeGroups, XorSign;
  }
}
