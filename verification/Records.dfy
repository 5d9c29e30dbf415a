/** Records and record batches of a partition log (cluster_metadata.hpp). */
module Records {
  import opened Bytes
  import opened Varint
  import opened Wire
  import opened Arrays
  import opened Streams
  import opened Reader
  import opened Writer

  datatype Record = Record(
    length_: INT32,
    attributes_: INT8,
    timestamp_delta_: INT64,
    offset_delta_: INT32,
    value_len_: INT32,
    value_: seq<byte>)

  datatype RecordBatch = RecordBatch(
    base_offset_: INT64,
    batch_length_: INT32,
    partition_leader_epoch_: INT32,
    magic_: INT8,
    crc_: UINT32,
    attributes_: INT16,
    last_offset_delta_: INT32,
    base_timestamp_: INT64,
    max_timestamp_: INT64,
    producer_id_: INT64,
    producer_epoch_: INT16,
    base_sequence_: INT32,
    records_: seq<Record>)

  // ---- Layouts: sections 5.3.2 and 5.3.1 of the Apache Kafka documentation ----

  /** A record with a null key and no headers. */
  function RecordLayout(): Schema {
    SignedVarint              // length
      .And(Int(1, true))      // attributes
      .And(SignedVarlong)     // timestampDelta
      .And(SignedVarint)      // offsetDelta
      .And(Byte(1))           // keyLength: -1 in zig-zag
      .And(RecordValue)       // valueLength, value
      .And(Byte(0))           // headersCount
  }

  function RecordBatchLayout(): Schema {
    Int(8, true)              // baseOffset
      .And(Int(4, true))      // batchLength
      .And(Int(4, true))      // partitionLeaderEpoch
      .And(Int(1, true))      // magic
      .And(Int(4, false))     // crc
      .And(Int(2, true))      // attributes
      .And(Int(4, true))      // lastOffsetDelta
      .And(Int(8, true))      // baseTimestamp
      .And(Int(8, true))      // maxTimestamp
      .And(Int(8, true))      // producerId
      .And(Int(2, true))      // producerEpoch
      .And(Int(4, true))      // baseSequence
      .And(Array(RecordLayout()))
  }

  function WireRecord(r: Record): Value {
    Num(r.length_)
      .And(Num(r.attributes_))
      .And(Num(r.timestamp_delta_))
      .And(Num(r.offset_delta_))
      .And(Unit)
      .And(Counted(r.value_len_, r.value_))
      .And(Unit)
  }

  function WireBatch(b: RecordBatch): Value {
    Num(b.base_offset_)
      .And(Num(b.batch_length_))
      .And(Num(b.partition_leader_epoch_))
      .And(Num(b.magic_))
      .And(Num(b.crc_))
      .And(Num(b.attributes_))
      .And(Num(b.last_offset_delta_))
      .And(Num(b.base_timestamp_))
      .And(Num(b.max_timestamp_))
      .And(Num(b.producer_id_))
      .And(Num(b.producer_epoch_))
      .And(Num(b.base_sequence_))
      .And(WireRecords(b.records_))
  }

  function WireRecords(rs: seq<Record>): Value {
    Many(Wires(WireRecord, rs))
  }

  // ---- Reading ----

  function ParseRecord(s: seq<byte>): Parsed<Record> {
    var (length, s) :- TakeVarint(s);
    var (attributes, s) :- TakeInt8(s);
    var (timestampDelta, s) :- TakeVarlong(s);
    var (offsetDelta, s) :- TakeVarint(s);
    var (_, s) :- TakeByte(1, s);
    var (value, s) :- TakeRecordValue(s);
    var (_, s) :- TakeByte(0, s);
    Ok(Record(length, attributes, timestampDelta, offsetDelta, value.0, value.1), s)
  }

  function ParseRecords(s: seq<byte>): Parsed<seq<Record>> {
    ParseArray(ParseRecord, s)
  }

  function ParseBatch(s: seq<byte>): Parsed<RecordBatch> {
    var (baseOffset, s) :- TakeInt64(s);
    var (batchLength, s) :- TakeInt32(s);
    var (partitionLeaderEpoch, s) :- TakeInt32(s);
    var (magic, s) :- TakeInt8(s);
    var (crc, s) :- TakeUint32(s);
    var (attributes, s) :- TakeInt16(s);
    var (lastOffsetDelta, s) :- TakeInt32(s);
    var (baseTimestamp, s) :- TakeInt64(s);
    var (maxTimestamp, s) :- TakeInt64(s);
    var (producerId, s) :- TakeInt64(s);
    var (producerEpoch, s) :- TakeInt16(s);
    var (baseSequence, s) :- TakeInt32(s);
    var (records, s) :- ParseRecords(s);
    Ok(RecordBatch(baseOffset, batchLength, partitionLeaderEpoch, magic, crc, attributes, lastOffsetDelta,
                   baseTimestamp, maxTimestamp, producerId, producerEpoch, baseSequence, records), s)
  }

  lemma RecordFollowsAt(s: seq<byte>)
    ensures Decode(RecordLayout(), s) == Lift(ParseRecord(s), WireRecord)
  {
    DecodeFields(RecordLayout(), s);
    IntFields();
    OtherFields();
    hide Decode, TakeInt, TakeInt8, TakeUnsignedVarlong, TakeVarint, TakeVarlong, TakeByte, TakeRecordValue;
  }

  /** Reading a record follows its layout field by field. */
  lemma RecordFollows()
    ensures Follows(RecordLayout(), ParseRecord, WireRecord)
  {
    forall s ensures Decode(RecordLayout(), s) == Lift(ParseRecord(s), WireRecord) {
      RecordFollowsAt(s);
    }
  }

  lemma RecordsFollow()
    ensures forall s :: Decode(Array(RecordLayout()), s) == Lift(ParseRecords(s), WireRecords)
  {
    RecordFollows();
    forall s ensures Decode(Array(RecordLayout()), s) == Lift(ParseRecords(s), WireRecords) {
      ArrayFollows(RecordLayout(), ParseRecord, WireRecord, s);
    }
  }

  lemma BatchFollowsAt(s: seq<byte>)
    ensures Decode(RecordBatchLayout(), s) == Lift(ParseBatch(s), WireBatch)
  {
    DecodeFields(RecordBatchLayout(), s);
    IntFields();
    RecordsFollow();
    hide Decode, TakeInt, TakeInt8, TakeInt16, TakeInt32, TakeInt64, TakeUint32, ParseRecords, WireRecords;
  }

  /** Reading a batch follows its layout field by field. */
  lemma BatchFollows()
    ensures Follows(RecordBatchLayout(), ParseBatch, WireBatch)
  {
    forall s ensures Decode(RecordBatchLayout(), s) == Lift(ParseBatch(s), WireBatch) {
      BatchFollowsAt(s);
    }
  }

  method ReadRecord(src: IReadable) returns (r: Option<Record>)
    requires src.Valid()
    modifies src.Repr()
    ensures src.Valid()
    ensures Reads(ParseRecord(old(src.Remaining())), r, src.Remaining(), src.IsQuiet())
  {
    hide TakeInt, TakeInt8, TakeUnsignedVarlong, TakeVarint, TakeVarlong, TakeByte, TakeBytes;
    var length :- ReadVarint(src);
    var attributes :- ReadInt8(src);
    var timestampDelta :- ReadVarlong(src);
    var offsetDelta :- ReadVarint(src);

    var _ :- ReadByte(src, 1);

    var valueLen :- ReadVarint(src);
    if valueLen < 0 { return None; }
    var value :- src.Read(valueLen);

    var _ :- ReadByte(src, 0);
    r := Some(Record(length, attributes, timestampDelta, offsetDelta, valueLen, value));
  }

  method ReadRecords(src: IReadable) returns (r: Option<seq<Record>>)
    requires src.Valid()
    modifies src.Repr()
    ensures src.Valid()
    ensures Reads(ParseRecords(old(src.Remaining())), r, src.Remaining(), src.IsQuiet())
  {
    hide TakeInt, TakeInt32, ParseRecord;
    var n :- ReadInt32(src);
    if n < 0 {
      return Some([]);
    }
    var arr: seq<Record> := [];
    ghost var s := src.Remaining();
    for i := 0 to n
      invariant src.Valid() && |arr| == i
      invariant ParseMany(ParseRecord, n, s, []) == ParseMany(ParseRecord, n - i, src.Remaining(), arr)
    {
      var element :- ReadRecord(src);
      arr := arr + [element];
    }
    r := Some(arr);
  }

  method ReadBatch(src: IReadable) returns (r: Option<RecordBatch>)
    requires src.Valid()
    modifies src.Repr()
    ensures src.Valid()
    ensures Reads(ParseBatch(old(src.Remaining())), r, src.Remaining(), src.IsQuiet())
  {
    hide TakeInt, TakeInt8, TakeInt16, TakeInt32, TakeInt64, TakeUint32, ParseRecords;
    var baseOffset :- ReadInt64(src);
    var batchLength :- ReadInt32(src);
    var partitionLeaderEpoch :- ReadInt32(src);
    var magic :- ReadInt8(src);
    var crc :- ReadUint32(src);
    var attributes :- ReadInt16(src);
    var lastOffsetDelta :- ReadInt32(src);
    var baseTimestamp :- ReadInt64(src);
    var maxTimestamp :- ReadInt64(src);
    var producerId :- ReadInt64(src);
    var producerEpoch :- ReadInt16(src);
    var baseSequence :- ReadInt32(src);
    var records :- ReadRecords(src);
    r := Some(RecordBatch(baseOffset, batchLength, partitionLeaderEpoch, magic, crc, attributes, lastOffsetDelta,
                          baseTimestamp, maxTimestamp, producerId, producerEpoch, baseSequence, records));
  }

  // ---- Writing ----

  method WriteRecord(dst: WritableBuffer, r: Record)
    modifies dst
    ensures dst.bytes_ == Put(RecordLayout(), WireRecord(r), old(dst.bytes_))
  {
    PutFields(RecordLayout(), WireRecord(r), dst.bytes_);
    hide Put, Encode;
    WriteVarint(dst, r.length_);
    WriteInt8(dst, r.attributes_);
    WriteVarlong(dst, r.timestamp_delta_);
    WriteVarint(dst, r.offset_delta_);
    WriteByte(dst, 1);
    WriteRecordValue(dst, r.value_len_, r.value_);
    WriteByte(dst, 0);
  }

  /** The announced length of the value is a field of its own; it is written whether or not it is the value's length. */
  method WriteRecordValue(dst: WritableBuffer, valueLen: INT32, value: seq<byte>)
    modifies dst
    ensures dst.bytes_ == Put(RecordValue, Counted(valueLen, value), old(dst.bytes_))
  {
    WriteVarint(dst, valueLen);
    dst.Write(value);
    assert (old(dst.bytes_) + EncodeVarint(valueLen)) + value == old(dst.bytes_) + (EncodeVarint(valueLen) + value);
  }

  method WriteRecords(dst: WritableBuffer, arr: seq<Record>)
    modifies dst
    ensures dst.bytes_ == Put(Array(RecordLayout()), WireRecords(arr), old(dst.bytes_))
  {
    hide Encode;
    WriteCount(dst, |arr|);
    ghost var items := Wires(WireRecord, arr);
    ghost var out := dst.bytes_;
    for i := 0 to |arr|
      invariant PutMany(RecordLayout(), items, out) == PutMany(RecordLayout(), items[i..], dst.bytes_)
    {
      assert items[i..][1..] == items[i + 1..];
      WriteRecord(dst, arr[i]);
    }
  }

  lemma BatchWrites(b: RecordBatch, out: seq<byte>)
    ensures Put(RecordBatchLayout(), WireBatch(b), out) ==
      Put(Array(RecordLayout()), WireRecords(b.records_),
      Put(Int(4, true), Num(b.base_sequence_),
      Put(Int(2, true), Num(b.producer_epoch_),
      Put(Int(8, true), Num(b.producer_id_),
      Put(Int(8, true), Num(b.max_timestamp_),
      Put(Int(8, true), Num(b.base_timestamp_),
      Put(Int(4, true), Num(b.last_offset_delta_),
      Put(Int(2, true), Num(b.attributes_),
      Put(Int(4, false), Num(b.crc_),
      Put(Int(1, true), Num(b.magic_),
      Put(Int(4, true), Num(b.partition_leader_epoch_),
      Put(Int(4, true), Num(b.batch_length_),
      Put(Int(8, true), Num(b.base_offset_), out)))))))))))))
  {
    PutFields(RecordBatchLayout(), WireBatch(b), out);
    hide Put;
  }

  method WriteBatch(dst: WritableBuffer, b: RecordBatch)
    modifies dst
    ensures dst.bytes_ == Put(RecordBatchLayout(), WireBatch(b), old(dst.bytes_))
  {
    BatchWrites(b, dst.bytes_);
    hide Put, Encode, WireRecords, WireBatch, RecordBatchLayout;
    WriteInt64(dst, b.base_offset_);
    WriteInt32(dst, b.batch_length_);
    WriteInt32(dst, b.partition_leader_epoch_);
    WriteInt8(dst, b.magic_);
    WriteUint32(dst, b.crc_);
    WriteInt16(dst, b.attributes_);
    WriteInt32(dst, b.last_offset_delta_);
    WriteInt64(dst, b.base_timestamp_);
    WriteInt64(dst, b.max_timestamp_);
    WriteInt64(dst, b.producer_id_);
    WriteInt16(dst, b.producer_epoch_);
    WriteInt32(dst, b.base_sequence_);
    WriteRecords(dst, b.records_);
  }
}
