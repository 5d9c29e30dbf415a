/**
 The bytes of numbers and messages spelled out, field after field, without reference to layouts.  What the other modules
 prove about layouts holds for the bytes given here; and what is read from bytes that no writer produces (absent
 strings and arrays, long varints) is given here too.
 */
module Spelling {
  import opened Bytes
  import opened Varint
  import opened Wire
  import opened WireLaws
  import opened Reader
  import opened Arrays
  import opened Uuids
  import opened Records
  import opened Log
  import opened Metadata
  import opened EventLaws
  import opened Requests
  import opened RequestLaws

  // ---- Numbers ----

  /** Network byte order puts the most significant byte first. */
  lemma NetworkOrder(a: byte, b: byte, c: byte, d: byte)
    ensures BigBytes(2, 0x100 * a + b) == [a, b] && BigValue([a, b]) == 0x100 * a + b
    ensures BigBytes(4, 0x100_0000 * a + 0x1_0000 * b + 0x100 * c + d) == [a, b, c, d]
    ensures BigValue([a, b, c, d]) == 0x100_0000 * a + 0x1_0000 * b + 0x100 * c + d
  {
    var ab, abc := 0x100 * a + b, 0x1_0000 * a + 0x100 * b + c;
    TwoBytes(a, b);
    hide BigBytes, BigValue;
    LastByte(3, ab, c);
    LastByte(4, abc, d);
    assert [a, b] + [c] == [a, b, c] && [a, b, c] + [d] == [a, b, c, d];
    ValueOfLast([a, b], c);
    ValueOfLast([a, b, c], d);
  }

  lemma TwoBytes(a: byte, b: byte)
    ensures BigBytes(2, 0x100 * a + b) == [a, b] && BigValue([a, b]) == 0x100 * a + b
  {
    assert BigBytes(0, 0) == [] && BigValue([]) == 0;
    hide BigBytes, BigValue;
    LastByte(1, 0, a);
    LastByte(2, a, b);
    assert [] + [a] == [a] && [a] + [b] == [a, b];
    ValueOfLast([], a);
    ValueOfLast([a], b);
  }

  /** A little-endian host puts it last. */
  lemma HostOrder(a: byte, b: byte, c: byte, d: byte)
    ensures LittleBytes(4, 0x100_0000 * a + 0x1_0000 * b + 0x100 * c + d) == [d, c, b, a]
    ensures LittleValue([d, c, b, a]) == 0x100_0000 * a + 0x1_0000 * b + 0x100 * c + d
  {
    assert LittleBytes(0, 0) == [] && LittleValue([]) == 0;
    hide LittleBytes, LittleValue;
    FirstLittle(4, 0x1_0000 * a + 0x100 * b + c, d);
    FirstLittle(3, 0x100 * a + b, c);
    FirstLittle(2, a, b);
    FirstLittle(1, 0, a);
    assert [a] + [] == [a] && [b] + [a] == [b, a] && [c] + [b, a] == [c, b, a] && [d] + [c, b, a] == [d, c, b, a];
    ValueOfFirst(a, []);
    ValueOfFirst(b, [a]);
    ValueOfFirst(c, [b, a]);
    ValueOfFirst(d, [c, b, a]);
  }

  lemma LastByte(w: nat, high: int, low: byte)
    requires w > 0
    ensures BigBytes(w, 256 * high + low) == BigBytes(w - 1, high) + [low]
  {
    Digit(high, low);
  }

  lemma ValueOfLast(bs: seq<byte>, low: byte)
    ensures BigValue(bs + [low]) == 256 * BigValue(bs) + low
  {
    assert (bs + [low])[..|bs|] == bs;
  }

  lemma FirstLittle(w: nat, high: int, low: byte)
    requires w > 0
    ensures LittleBytes(w, 256 * high + low) == [low] + LittleBytes(w - 1, high)
  {
    Digit(high, low);
  }

  lemma Digit(high: int, low: byte)
    ensures (256 * high + low) / 256 == high && (256 * high + low) % 256 == low
  {
  }

  lemma ValueOfFirst(low: byte, bs: seq<byte>)
    ensures LittleValue([low] + bs) == low + 256 * LittleValue(bs)
  {
    assert ([low] + bs)[1..] == bs;
  }

  /** A wider number is its high part and then its low part. */
  lemma {:induction false} HighThenLow(v: nat, w: nat, high: int, low: int)
    requires 0 <= low < Pow256(w)
    ensures BigBytes(v + w, high * Pow256(w) + low) == BigBytes(v, high) + BigBytes(w, low)
    decreases w
  {
    if w > 0 {
      var p, last := Pow256(w - 1), low % 256;
      Regrouped(high, low, p);
      hide BigBytes, Pow256;
      HighThenLow(v, w - 1, high, low / 256);
      LastByte(v + w, high * p + low / 256, last);
      LastByte(w, low / 256, last);
    } else {
      assert BigBytes(0, low) == [];
    }
  }

  lemma Regrouped(high: int, low: int, p: nat)
    requires 0 <= low < 256 * p
    ensures high * (256 * p) + low == 256 * (high * p + low / 256) + low % 256
    ensures 0 <= low / 256 < p && low == 256 * (low / 256) + low % 256
  {
    assert high * (256 * p) == 256 * (high * p);
  }

  lemma SmallNumbers(n: byte)
    ensures BigBytes(1, n) == [n] && BigBytes(2, n) == [0, n] && BigBytes(4, n) == [0, 0, 0, n]
  {
    NetworkOrder(0, 0, 0, n);
    NetworkOrder(0, n, 0, 0);
    LastByte(1, 0, n);
    assert BigBytes(0, 0) == [];
  }

  /** What a string of groups adds up to: the group at offset `i` counts 128 to the power `i`. */
  function GroupSum(s: seq<byte>): nat {
    if s == [] then 0 else GroupSum(s[..|s| - 1]) + Scaled(s[|s| - 1] % 128, |s| - 1)
  }

  lemma {:induction false} GroupSumOf(c: byte, s: seq<byte>)
    ensures GroupSum([c] + s) == c % 128 + 128 * GroupSum(s) && GroupSum([]) == 0
    decreases |s|
  {
    var whole := [c] + s;
    if s == [] {
      assert whole[..0] == [];
    } else {
      GroupSumOf(c, s[..|s| - 1]);
      assert whole[..|s|] == [c] + s[..|s| - 1];
    }
  }

  lemma {:induction false} GroupsAddUp(used: seq<byte>, t: seq<byte>, left: nat)
    requires Grouped(used) && |used| <= left
    ensures TakeGroups(used + t, left) == Ok(GroupSum(used), t)
    decreases |used|
  {
    hide GroupSum, Scaled;
    assert used == [used[0]] + used[1..];
    GroupSumOf(used[0], used[1..]);
    assert (used + t)[1..] == used[1..] + t;
    if |used| == 1 {
      assert used[1..] == [] && [] + t == t;
    } else {
      GroupsAddUp(used[1..], t, left - 1);
    }
  }

  /** Minimal or not, a varint of up to ten groups is read as their sum in 64 bits. */
  lemma VarlongValue(used: seq<byte>, t: seq<byte>)
    requires Grouped(used) && |used| <= 10
    ensures TakeUnsignedVarlong(used + t) == Ok(GroupSum(used) % TWO_64, t)
  {
    GroupsAddUp(used, t, 10);
    hide GroupSum, TakeGroups;
  }

  /** Without a byte below 128 among the first ten there is no varint. */
  lemma VarlongUnended(s: seq<byte>)
    requires forall i | 0 <= i < |s| && i < 10 :: s[i] >= 128
    ensures TakeUnsignedVarlong(s).Err?
  {
    GroupsUnended(s, 10);
  }

  lemma {:induction false} GroupsUnended(s: seq<byte>, left: nat)
    requires forall i | 0 <= i < |s| && i < left :: s[i] >= 128
    ensures TakeGroups(s, left).Err?
    decreases |s|
  {
    if s != [] && left > 0 {
      GroupsUnended(s[1..], left - 1);
    }
  }

  /** A 64-bit varint read where a 32-bit one is expected is cut to its low 32 bits. */
  lemma VarintCut(n: UINT64, t: seq<byte>)
    ensures TakeUnsignedVarint(EncodeUnsigned(n) + t) == Ok(n % TWO_32, t)
  {
    UnsignedVarlongRoundTrip(n, t);
    hide EncodeUnsigned, TakeUnsignedVarlong;
  }

  lemma SignedVarintCut(n: INT64, t: seq<byte>)
    requires n != -TWO_63
    ensures var p := TakeVarint(EncodeUnsigned(if n >= 0 then 2 * n else -2 * n - 1) + t);
      p.Ok? && p.rest == t && (n - p.value) % TWO_32 == 0
  {
    SignedRoundTrip(n, t);
    assert ZigZag64(n) == if n >= 0 then 2 * n else -2 * n - 1;
    hide EncodeUnsigned, TakeVarlong, ZigZag64;
  }

  lemma SignedVarintBytes(n: INT64)
    ensures EncodeVarlong(n) == EncodeUnsigned(if n >= 0 then 2 * n else -2 * n - 1)
    ensures -TWO_31 <= n < TWO_31 ==> EncodeVarint(n) == EncodeUnsigned(if n >= 0 then 2 * n else -2 * n - 1)
  {
    hide EncodeUnsigned;
  }

  /** A length prefix is one more than the length, and starts again at 0 when that does not fit in 32 bits. */
  lemma CompactLengthBytes(n: nat)
    ensures n < TWO_32 - 1 ==> CompactLength(n) == EncodeUnsigned(n + 1)
    ensures n == TWO_32 - 1 ==> CompactLength(n) == [0]
  {
    assert EncodeUnsigned(0) == [0];
    hide EncodeUnsigned;
  }

  // ---- Markers, and too few bytes ----

  /** A marker byte, such as the 0 of empty tagged fields, must be there and be the one expected. */
  lemma MarkerByte(expected: byte, b: byte, t: seq<byte>)
    ensures TakeByte(expected, [b] + t) == if b == expected then Ok((), t) else Err
    ensures TakeByte(expected, []).Err?
  {
    assert ([b] + t)[1..] == t;
  }

  /** A string of bytes is refused exactly when fewer bytes are there than its length. */
  lemma TooFewBytes(n: nat, s: seq<byte>)
    ensures TakeBytes(n, s).Err? <==> |s| < n
    ensures |s| + 1 < TWO_32 && n < |s| ==> TakeCompactString(CompactLength(|s|) + s[..n]).Err?
  {
    if |s| + 1 < TWO_32 {
      UnsignedVarlongRoundTrip(|s| + 1, if n < |s| then s[..n] else []);
    }
    hide EncodeUnsigned, TakeUnsignedVarint;
  }

  // ---- Absent strings and arrays ----

  lemma NegativeCount(w: width, n: int, t: seq<byte>)
    requires InRange(w, true, n)
    ensures TakeInt(w, true, BigBytes(w, n) + t) == Ok(n, t)
  {
    IntRoundTrip(w, true, n, t);
  }

  /** A negative length is an absent string, which is read as an empty one; bytes of negative length are refused. */
  lemma AbsentString(n: int, t: seq<byte>)
    requires n < 0
    ensures n >= -0x8000 ==> TakeNullableString(BigBytes(2, n) + t) == Ok([], t)
    ensures n >= -TWO_31 ==> TakeSizedBytes(BigBytes(4, n) + t).Err?
    ensures n >= -TWO_31 ==> TakeRecordValue(EncodeVarint(n) + t).Err?
  {
    Ranges(n);
    if n >= -0x8000 {
      NegativeCount(2, n, t);
    }
    if n >= -TWO_31 {
      NegativeCount(4, n, t);
      SignedRoundTrip(n, t);
    }
    hide TakeInt, BigBytes, TakeVarint, EncodeUnsigned, InRange;
  }

  lemma ZeroVarint(t: seq<byte>)
    ensures TakeUnsignedVarint([0] + t) == Ok(0, t)
  {
    assert ([0] + t)[1..] == t;
  }

  /** A compact length of 0 is an absent string, read as an empty one. */
  lemma AbsentCompactString(t: seq<byte>)
    ensures TakeCompactString([0] + t) == Ok([], t)
  {
    ZeroVarint(t);
    hide TakeUnsignedVarint;
  }

  /** An array of negative length is absent, and so is a compact array of length 0; both are read as empty ones. */
  lemma AbsentArray<T>(parse: seq<byte> -> Parsed<T>, e: Schema, n: INT32, t: seq<byte>)
    requires n < 0
    ensures ParseArray(parse, BigBytes(4, n) + t) == Ok([], t)
    ensures Decode(Array(e), BigBytes(4, n) + t) == Ok(Many([]), t)
    ensures ParseCompactArray(parse, [0] + t) == Ok([], t)
    ensures Decode(CompactArray(e), [0] + t) == Ok(Many([]), t)
  {
    Ranges(n);
    NegativeCount(4, n, t);
    ZeroVarint(t);
    hide TakeInt, BigBytes, TakeUnsignedVarint, InRange;
  }

  /** A request without a client id is read with an empty one. */
  lemma HeaderWithoutClient(key: INT16, version: INT16, id: INT32, n: INT16, t: seq<byte>)
    requires n < 0
    ensures ParseHeader(BigBytes(2, key) + (BigBytes(2, version) + (BigBytes(4, id) + (BigBytes(2, n) + ([0] + t))))) ==
      Ok(RequestHeader(key, version, id, []), t)
  {
    var rest := [0] + t;
    Ranges(key);
    Ranges(version);
    Ranges(id);
    NegativeCount(2, key, BigBytes(2, version) + (BigBytes(4, id) + (BigBytes(2, n) + rest)));
    NegativeCount(2, version, BigBytes(4, id) + (BigBytes(2, n) + rest));
    NegativeCount(4, id, BigBytes(2, n) + rest);
    AbsentString(n, rest);
    assert rest[1..] == t;
    hide TakeInt, BigBytes, TakeNullableString, InRange;
  }

  /** A batch with a negative number of records, and a fetch without topics. */
  lemma WithoutElements(n: INT32, t: seq<byte>)
    requires n < 0
    ensures ParseRecords(BigBytes(4, n) + t) == Ok([], t)
    ensures ParseFetchTopics([0] + t) == Ok([], t) && ParseForgottenTopics([0] + t) == Ok([], t)
    ensures ParseTopicRequests([0] + t) == Ok([], t) && ParseFetchPartitions([0] + t) == Ok([], t)
    ensures ParseNums([0] + t) == Ok([], t)
  {
    AbsentArray(ParseRecord, RecordLayout(), n, t);
    AbsentArray(ParseFetchTopic, RecordLayout(), n, t);
    AbsentArray(ParseForgottenTopic, RecordLayout(), n, t);
    AbsentArray(ParseTopicRequest, RecordLayout(), n, t);
    AbsentArray(ParseFetchPartition, RecordLayout(), n, t);
    AbsentArray(TakeInt32, RecordLayout(), n, t);
    hide ParseArray, ParseCompactArray;
  }

  // ---- Arrays and messages, field by field ----

  /** Elements are written in order. */
  lemma {:induction false} ElementsInOrder(e: Schema, items: seq<Value>, item: Value)
    ensures EncodeMany(e, items + [item]) == EncodeMany(e, items) + Encode(e, item)
    decreases |items|
  {
    hide Encode;
    if items == [] {
      assert EncodeMany(e, []) == [] && [item][1..] == [];
      assert EncodeMany(e, [item]) == Encode(e, item) + EncodeMany(e, []);
    } else {
      ElementsInOrder(e, items[1..], item);
      assert (items + [item])[1..] == items[1..] + [item];
    }
  }

  /** The same for the elements of a message. */
  lemma NextElement<T>(e: Schema, wire: T -> Value, xs: seq<T>, x: T)
    ensures EncodeMany(e, Wires(wire, xs + [x])) == EncodeMany(e, Wires(wire, xs)) + Encode(e, wire(x))
    ensures EncodeMany(e, Wires(wire, [])) == []
  {
    hide Encode;
    ElementsInOrder(e, Wires(wire, xs), wire(x));
    assert Wires(wire, xs + [x]) == Wires(wire, xs) + [wire(x)];
  }

  /** The definition of `Encode` spelled out along all the fields of a message. */
  ghost predicate Spelled(c: Schema, v: Value)
    decreases c
  {
    c.Then? && v.Pair? ==>
      && Spelled(c.first, v.left)
      && Encode(c, v) == Encode(c.first, v.left) + Encode(c.second, v.right)
  }

  lemma {:induction false} EncodeFields(c: Schema, v: Value)
    ensures Spelled(c, v)
    decreases c
  {
    if c.Then? && v.Pair? {
      EncodeFields(c.first, v.left);
      ThenEncoding(c.first, c.second, v.left, v.right);
      hide Encode;
    }
  }

  /** The bytes of each kind of field. */
  lemma PlainFields()
    ensures forall w: width, signed, n :: Encode(Int(w, signed), Num(n)) == BigBytes(w, n)
    ensures forall b: byte :: Encode(Byte(b), Unit) == [b]
    ensures forall k: nat, d: seq<byte> :: Encode(Raw(k), Blob(d)) == d
  {
    hide BigBytes, CompactLength, EncodeVarint, EncodeVarlong, EncodeMany;
  }

  lemma StringField(d: seq<byte>)
    ensures Encode(CompactString, Blob(d)) == CompactLength(|d|) + d
    ensures Encode(NullableString, Blob(d)) == BigBytes(2, |d|) + d
  {
    hide Encode, CompactLength, BigBytes;
    StringFieldOf(CompactString, d);
    StringFieldOf(NullableString, d);
  }

  lemma StringFieldOf(c: Schema, d: seq<byte>)
    ensures c == CompactString ==> Encode(c, Blob(d)) == CompactLength(|d|) + d
    ensures c == NullableString ==> Encode(c, Blob(d)) == BigBytes(2, |d|) + d
  {
    hide CompactLength, BigBytes, EncodeMany;
  }

  lemma VarintFields()
    ensures forall n :: Encode(SignedVarint, Num(n)) == EncodeVarint(n)
    ensures forall n :: Encode(SignedVarlong, Num(n)) == EncodeVarlong(n)
    ensures forall n, d: seq<byte> :: Encode(RecordValue, Counted(n, d)) == EncodeVarint(n) + d
  {
    hide BigBytes, CompactLength, EncodeVarint, EncodeVarlong, EncodeMany;
  }

  lemma ArrayFields()
    ensures forall e, items :: Encode(Array(e), Many(items)) == BigBytes(4, |items|) + EncodeMany(e, items)
    ensures forall e, items :: Encode(CompactArray(e), Many(items)) == CompactLength(|items|) + EncodeMany(e, items)
  {
    hide BigBytes, CompactLength, EncodeVarint, EncodeVarlong, EncodeMany;
  }

  lemma RecordBytes(r: Record)
    ensures Encode(RecordLayout(), WireRecord(r)) ==
      EncodeVarint(r.length_)
      + BigBytes(1, r.attributes_)
      + EncodeVarlong(r.timestamp_delta_)
      + EncodeVarint(r.offset_delta_)
      + [1]
      + (EncodeVarint(r.value_len_) + r.value_)
      + [0]
  {
    EncodeFields(RecordLayout(), WireRecord(r));
    PlainFields();
    VarintFields();
    hide Encode, EncodeVarint, EncodeVarlong, BigBytes;
  }

  lemma BatchBytes(b: RecordBatch)
    ensures EncodeBatch(b) ==
      BigBytes(8, b.base_offset_)
      + BigBytes(4, b.batch_length_)
      + BigBytes(4, b.partition_leader_epoch_)
      + BigBytes(1, b.magic_)
      + BigBytes(4, b.crc_)
      + BigBytes(2, b.attributes_)
      + BigBytes(4, b.last_offset_delta_)
      + BigBytes(8, b.base_timestamp_)
      + BigBytes(8, b.max_timestamp_)
      + BigBytes(8, b.producer_id_)
      + BigBytes(2, b.producer_epoch_)
      + BigBytes(4, b.base_sequence_)
      + (BigBytes(4, |b.records_|) + EncodeMany(RecordLayout(), Wires(WireRecord, b.records_)))
  {
    EncodeFields(RecordBatchLayout(), WireBatch(b));
    PlainFields();
    ArrayFields();
    hide Encode, EncodeMany, BigBytes, RecordLayout, WireRecord;
  }

  lemma HeaderBytes(h: RequestHeader)
    ensures Encode(RequestHeaderLayout(), WireHeader(h)) ==
      BigBytes(2, h.request_api_key_)
      + BigBytes(2, h.request_api_version_)
      + BigBytes(4, h.correlation_id_)
      + (BigBytes(2, |h.client_id_|) + h.client_id_)
      + [0]
  {
    EncodeFields(RequestHeaderLayout(), WireHeader(h));
    PlainFields();
    StringField(h.client_id_);
    hide Encode, BigBytes;
  }

  lemma ApiVersionsRequestBytes(r: ApiVersionsRequest)
    ensures EncodeBody(ApiVersions(r)) ==
      (CompactLength(|r.client_software_name_|) + r.client_software_name_)
      + (CompactLength(|r.client_software_version_|) + r.client_software_version_)
      + [0]
  {
    EncodeFields(ApiVersionsRequestLayout(), WireApiVersionsRequest(r));
    PlainFields();
    StringField(r.client_software_name_);
    StringField(r.client_software_version_);
    hide Encode, CompactLength;
  }

  lemma TopicRequestBytes(t: TopicRequest)
    ensures Encode(TopicRequestLayout(), WireTopicRequest(t)) == (CompactLength(|t.name_|) + t.name_) + [0]
  {
    EncodeFields(TopicRequestLayout(), WireTopicRequest(t));
    PlainFields();
    StringField(t.name_);
    hide Encode, CompactLength;
  }

  /** The cursor is absent. */
  lemma DescribeRequestBytes(r: DescribeTopicPartitionsRequest)
    ensures EncodeBody(Describe(r)) ==
      (CompactLength(|r.topics_|) + EncodeMany(TopicRequestLayout(), Wires(WireTopicRequest, r.topics_)))
      + BigBytes(4, r.response_partition_limit_)
      + [0xFF]
      + [0]
  {
    EncodeFields(DescribeRequestLayout(), WireDescribeRequest(r));
    PlainFields();
    ArrayFields();
    hide Encode, EncodeMany, CompactLength, BigBytes, TopicRequestLayout, WireTopicRequest;
  }

  lemma FetchPartitionBytes(p: FetchPartition)
    ensures Encode(FetchPartitionLayout(), WireFetchPartition(p)) ==
      BigBytes(4, p.partition_)
      + BigBytes(4, p.current_leader_epoch_)
      + BigBytes(8, p.fetch_offset_)
      + BigBytes(4, p.last_fetched_epoch_)
      + BigBytes(8, p.log_start_offset_)
      + BigBytes(4, p.partition_max_bytes_)
      + [0]
  {
    EncodeFields(FetchPartitionLayout(), WireFetchPartition(p));
    PlainFields();
    hide Encode, BigBytes;
  }

  lemma FetchTopicBytes(t: FetchTopic)
    ensures Encode(FetchTopicLayout(), WireFetchTopic(t)) ==
      t.topic_id_
      + (CompactLength(|t.partitions_|) + EncodeMany(FetchPartitionLayout(), Wires(WireFetchPartition, t.partitions_)))
      + [0]
  {
    EncodeFields(FetchTopicLayout(), WireFetchTopic(t));
    PlainFields();
    ArrayFields();
    hide Encode, EncodeMany, CompactLength, FetchPartitionLayout, WireFetchPartition;
  }

  lemma ForgottenTopicBytes(t: ForgottenTopic)
    ensures Encode(ForgottenTopicLayout(), WireForgottenTopic(t)) ==
      t.topic_id_ + (CompactLength(|t.partitions_|) + EncodeMany(Int(4, true), Wires(WireNum, t.partitions_))) + [0]
  {
    EncodeFields(ForgottenTopicLayout(), WireForgottenTopic(t));
    PlainFields();
    ArrayFields();
    hide Encode, EncodeMany, CompactLength, WireNum;
  }

  lemma FetchRequestBytes(r: FetchRequest)
    ensures EncodeBody(Fetch(r)) ==
      BigBytes(4, r.max_wait_ms_)
      + BigBytes(4, r.min_bytes_)
      + BigBytes(4, r.max_bytes_)
      + BigBytes(1, r.isolation_level_)
      + BigBytes(4, r.session_id_)
      + BigBytes(4, r.session_epoch_)
      + (CompactLength(|r.topics_|) + EncodeMany(FetchTopicLayout(), Wires(WireFetchTopic, r.topics_)))
      + (CompactLength(|r.forgotten_topics_data_|)
         + EncodeMany(ForgottenTopicLayout(), Wires(WireForgottenTopic, r.forgotten_topics_data_)))
      + (CompactLength(|r.rack_id_|) + r.rack_id_)
      + [0]
  {
    EncodeFields(FetchRequestLayout(), WireFetchRequest(r));
    PlainFields();
    StringField(r.rack_id_);
    ArrayFields();
    hide Encode, EncodeMany, CompactLength, BigBytes;
    hide FetchTopicLayout, WireFetchTopic, ForgottenTopicLayout, WireForgottenTopic;
  }

  /** The API key comes first in a payload: 1 is Fetch, 18 ApiVersions and 75 DescribeTopicPartitions. */
  lemma RequestKeyBytes(h: RequestHeader, r: Request, extra: seq<byte>)
    requires Matches(h.request_api_key_, r)
    ensures |EncodePayload(h, r, extra)| >= 2
    ensures EncodePayload(h, r, extra)[..2] ==
      match r case Fetch(_) => [0, 1] case ApiVersions(_) => [0, 18] case Describe(_) => [0, 75]
  {
    HeaderBytes(h);
    SmallNumbers(1);
    SmallNumbers(18);
    SmallNumbers(75);
    hide Encode, BigBytes, EncodeBody, RequestHeaderLayout, WireHeader;
  }

  /** The key decides what is read, and no other key is answered. */
  lemma KeyDecides(key: INT16, s: seq<byte>)
    ensures key != 1 && key != 18 && key != 75 ==> ParseBody(key, s).Err?
    ensures ParseBody(key, s).Ok? ==>
      match ParseBody(key, s).value
      case Fetch(_) => key == 1
      case ApiVersions(_) => key == 18
      case Describe(_) => key == 75
  {
    hide ParseFetchRequest, ParseApiVersionsRequest, ParseDescribeRequest;
  }

  /** A payload has its size in front, in four bytes. */
  lemma FrameBytes(payload: seq<byte>)
    ensures EncodeFrame(payload) == BigBytes(4, |payload|) + payload
  {
    FrameIsSized(payload);
    hide EncodeFrame, BigBytes;
  }

  /** The values of metadata records. */
  lemma EventBytes(frame: INT8, version: INT8, e: Event)
    ensures EventValue(frame, version, e) ==
      match e
      case TopicRecord(name, id) =>
        [frame % 256, 2, version % 256] + ((CompactLength(|name|) + name) + id)
      case PartitionRecord(partition, id) =>
        [frame % 256, 3, version % 256] + (BigBytes(4, partition) + id)
      case OtherRecord =>
        [frame % 256, 12, version % 256]
  {
    SignedByte(frame);
    SignedByte(version);
    PlainFields();
    hide Encode, BigBytes, CompactLength;
    match e
    case TopicRecord(name, id) =>
      StringField(name);
      LayoutParts(2, CompactString, Raw(16), frame, version, Blob(name), Blob(id));
    case PartitionRecord(partition, id) =>
      LayoutParts(3, Int(4, true), Raw(16), frame, version, Num(partition), Blob(id));
    case OtherRecord =>
  }

  /** The metadata log is partition 0 of "__cluster_metadata". */
  lemma MetadataLogName()
    ensures METADATA_LOG.partition_index == 0
    ensures |METADATA_LOG.topic_name| == |"__cluster_metadata"|
    ensures forall i | 0 <= i < |METADATA_LOG.topic_name| ::
      METADATA_LOG.topic_name[i] == "__cluster_metadata"[i] as int
  {
  }

  /** Identifiers are ordered by the first byte in which they differ. */
  lemma UuidOrder(a: Uuid, b: Uuid, i: nat)
    requires i < 16 && a[..i] == b[..i] && a[i] != b[i]
    ensures UuidCompare(a, b) <==> a[i] < b[i]
  {
    FirstDifference(a, b, i);
  }

  lemma {:induction false} FirstDifference(a: seq<byte>, b: seq<byte>, i: nat)
    requires |a| == |b| && i < |a| && a[..i] == b[..i] && a[i] != b[i]
    ensures Memcmp(a, b) < 0 <==> a[i] < b[i]
    decreases i
  {
    if i > 0 {
      assert a[0] == a[..i][0] == b[..i][0] == b[0];
      assert a[1..][..i - 1] == a[..i][1..] && b[1..][..i - 1] == b[..i][1..];
      FirstDifference(a[1..], b[1..], i - 1);
    }
  }
}
