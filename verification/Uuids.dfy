/** Topic identifiers (uuid.hpp). */
module Uuids {
  import opened Bytes
  import opened Streams

  type Uuid = s: seq<byte> | |s| == 16 witness [0, 0, 0, 0, 0, 0, 0, 0, 0, 0, 0, 0, 0, 0, 0, 0]

  /** The identifier of a default-constructed object. */
  const NIL_UUID: Uuid := [0, 0, 0, 0, 0, 0, 0, 0, 0, 0, 0, 0, 0, 0, 0, 0]

  /** memcmp: negative, zero or positive as the first difference says. */
  function Memcmp(a: seq<byte>, b: seq<byte>): int
    requires |a| == |b|
  {
    if a == [] then 0 else if a[0] != b[0] then a[0] - b[0] else Memcmp(a[1..], b[1..])
  }

  /** The order of the keys of a std::map of UUIDs. */
  predicate UuidCompare(a: Uuid, b: Uuid) {
    Memcmp(a, b) < 0
  }

  lemma {:induction false} MemcmpSign(a: seq<byte>, b: seq<byte>)
    requires |a| == |b|
    ensures Memcmp(b, a) == -Memcmp(a, b)
    ensures Memcmp(a, b) == 0 <==> a == b
  {
    if a != [] {
      MemcmpSign(a[1..], b[1..]);
      assert a == [a[0]] + a[1..] && b == [b[0]] + b[1..];
    }
  }

  lemma {:induction false} MemcmpTransitive(a: seq<byte>, b: seq<byte>, c: seq<byte>)
    requires |a| == |b| == |c|
    requires Memcmp(a, b) < 0 && Memcmp(b, c) < 0
    ensures Memcmp(a, c) < 0
  {
    if a != [] && a[0] == b[0] == c[0] {
      MemcmpTransitive(a[1..], b[1..], c[1..]);
    }
  }

  /** The comparison orders identifiers strictly, and takes two of them for one key exactly when they are equal; so a
      std::map ordered by it is a map from identifiers. */
  lemma UuidKeys(a: Uuid, b: Uuid, c: Uuid)
    ensures !UuidCompare(a, b) && !UuidCompare(b, a) <==> a == b
    ensures !(UuidCompare(a, b) && UuidCompare(b, a))
    ensures UuidCompare(a, b) && UuidCompare(b, c) ==> UuidCompare(a, c)
  {
    MemcmpSign(a, b);
    if UuidCompare(a, b) && UuidCompare(b, c) {
      MemcmpTransitive(a, b, c);
    }
  }

  function TakeUuid(s: seq<byte>): (p: Parsed<Uuid>)
    ensures p == TakeBytes(16, s)
  {
    if |s| < 16 then Err else Ok(s[..16], s[16..])
  }

  method ReadUuid(src: IReadable) returns (r: Option<Uuid>)
    requires src.Valid()
    modifies src.Repr()
    ensures src.Valid()
    ensures Reads(TakeUuid(old(src.Remaining())), r, src.Remaining(), src.IsQuiet())
  {
    var data :- src.Read(16);
    r := Some(data);
  }
}
