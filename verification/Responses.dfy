/** Responses and how they are written (api_versions.hpp, describe_topic_partitions.hpp, fetch.hpp, messages.hpp). */
module Responses {
  import opened Bytes
  import opened Wire
  import opened Arrays
  import opened Streams
  import opened Writer
  import opened Uuids
  import opened Records
  import opened Requests

  datatype ErrorCode = NONE | UNKNOWN_TOPIC_OR_PARTITION | UNSUPPORTED_VERSION | UNKNOWN_TOPIC_ID

  function Code(e: ErrorCode): INT16 {
    match e
    case NONE => 0
    case UNKNOWN_TOPIC_OR_PARTITION => 3
    case UNSUPPORTED_VERSION => 35
    case UNKNOWN_TOPIC_ID => 100
  }

  datatype ApiVersion = ApiVersion(api_key_: INT16, min_version_: INT16, max_version_: INT16)

  datatype ApiVersionsResponse = ApiVersionsResponse(
    error_code_: ErrorCode,
    api_keys_: seq<ApiVersion>,
    throttle_time_ms_: INT32)

  datatype AbortedTransaction = AbortedTransaction(producer_id_: INT64, first_offset_: INT64)

  datatype PartitionData = PartitionData(
    partition_index_: INT32,
    error_code_: ErrorCode,
    high_watermark_: INT64,
    last_stable_offset_: INT64,
    log_start_offset_: INT64,
    aborted_transactions_: seq<AbortedTransaction>,
    preferred_read_replica_: INT32,
    records_: seq<RecordBatch>)

  datatype FetchableTopicResponse = FetchableTopicResponse(topic_id_: Uuid, partitions_: seq<PartitionData>)

  datatype FetchResponse = FetchResponse(
    throttle_time_ms_: INT32,
    error_code_: ErrorCode,
    session_id_: INT32,
    responses_: seq<FetchableTopicResponse>)

  datatype ResponsePartition = ResponsePartition(
    error_code_: ErrorCode,
    partition_index_: INT32,
    leader_id_: INT32,
    leader_epoch_: INT32,
    replica_nodes_: seq<INT32>,
    isr_nodes_: seq<INT32>,
    eligible_leader_replicas_: seq<INT32>,
    last_known_elr_: seq<INT32>,
    offline_replicas_: seq<INT32>)

  datatype ResponseTopic = ResponseTopic(
    error_code_: ErrorCode,
    name_: seq<byte>,
    topic_id_: Uuid,
    is_internal_: bool,
    partitions_: seq<ResponsePartition>,
    topic_authorized_operations_: INT32)

  datatype DescribeTopicPartitionsResponse = DescribeTopicPartitionsResponse(
    throttle_time_ms_: INT32,
    topics_: seq<ResponseTopic>)

  datatype Response =
    | FetchReply(fetch: FetchResponse)
    | ApiVersionsReply(versions: ApiVersionsResponse)
    | DescribeReply(describe: DescribeTopicPartitionsResponse)

  // ---- Layouts ----

  function ApiVersionLayout(): Schema {
    Int(2, true)              // api_key
      .And(Int(2, true))      // min_version
      .And(Int(2, true))      // max_version
      .And(Byte(0))
  }

  /** ApiVersions Response v4. */
  function ApiVersionsResponseLayout(): Schema {
    Int(2, true)                              // error_code
      .And(CompactArray(ApiVersionLayout()))  // api_keys
      .And(Int(4, true))                      // throttle_time_ms
      .And(Byte(0))
  }

  function AbortedTransactionLayout(): Schema {
    Int(8, true)              // producer_id
      .And(Int(8, true))      // first_offset
      .And(Byte(0))
  }

  /** A partition of Fetch Response v16, but with its batches as a compact array: their number comes first, where the
      protocol guide has the number of their bytes. */
  function PartitionDataLayout(): Schema {
    Int(4, true)                                      // partition_index
      .And(Int(2, true))                              // error_code
      .And(Int(8, true))                              // high_watermark
      .And(Int(8, true))                              // last_stable_offset
      .And(Int(8, true))                              // log_start_offset
      .And(CompactArray(AbortedTransactionLayout()))  // aborted_transactions
      .And(Int(4, true))                              // preferred_read_replica
      .And(CompactArray(RecordBatchLayout()))         // records
      .And(Byte(0))
  }

  function FetchableTopicLayout(): Schema {
    Raw(16)                                      // topic_id
      .And(CompactArray(PartitionDataLayout()))  // partitions
      .And(Byte(0))
  }

  function FetchResponseLayout(): Schema {
    Int(4, true)                                  // throttle_time_ms
      .And(Int(2, true))                          // error_code
      .And(Int(4, true))                          // session_id
      .And(CompactArray(FetchableTopicLayout()))  // responses
      .And(Byte(0))
  }

  function ResponsePartitionLayout(): Schema {
    Int(2, true)                            // error_code
      .And(Int(4, true))                    // partition_index
      .And(Int(4, true))                    // leader_id
      .And(Int(4, true))                    // leader_epoch
      .And(CompactArray(Int(4, true)))      // replica_nodes
      .And(CompactArray(Int(4, true)))      // isr_nodes
      .And(CompactArray(Int(4, true)))      // eligible_leader_replicas
      .And(CompactArray(Int(4, true)))      // last_known_elr
      .And(CompactArray(Int(4, true)))      // offline_replicas
      .And(Byte(0))
  }

  function ResponseTopicLayout(): Schema {
    Int(2, true)                                     // error_code
      .And(CompactString)                            // name
      .And(Raw(16))                                  // topic_id
      .And(Int(1, false))                            // is_internal
      .And(CompactArray(ResponsePartitionLayout()))  // partitions
      .And(Int(4, true))                             // topic_authorized_operations
      .And(Byte(0))
  }

  /** DescribeTopicPartitions Response v0 with a null next cursor. */
  function DescribeResponseLayout(): Schema {
    Int(4, true)                                 // throttle_time_ms
      .And(CompactArray(ResponseTopicLayout()))  // topics
      .And(Byte(0xFF))                           // next_cursor
      .And(Byte(0))
  }

  function WireApiVersion(v: ApiVersion): Value {
    Num(v.api_key_).And(Num(v.min_version_)).And(Num(v.max_version_)).And(Unit)
  }

  function WireApiVersions(vs: seq<ApiVersion>): Value {
    Many(Wires(WireApiVersion, vs))
  }

  function WireApiVersionsResponse(r: ApiVersionsResponse): Value {
    Num(Code(r.error_code_)).And(WireApiVersions(r.api_keys_)).And(Num(r.throttle_time_ms_)).And(Unit)
  }

  function WireAbortedTransaction(t: AbortedTransaction): Value {
    Num(t.producer_id_).And(Num(t.first_offset_)).And(Unit)
  }

  function WireAbortedTransactions(ts: seq<AbortedTransaction>): Value {
    Many(Wires(WireAbortedTransaction, ts))
  }

  function WireBatches(bs: seq<RecordBatch>): Value {
    Many(Wires(WireBatch, bs))
  }

  function WirePartitionData(p: PartitionData): Value {
    Num(p.partition_index_)
      .And(Num(Code(p.error_code_)))
      .And(Num(p.high_watermark_))
      .And(Num(p.last_stable_offset_))
      .And(Num(p.log_start_offset_))
      .And(WireAbortedTransactions(p.aborted_transactions_))
      .And(Num(p.preferred_read_replica_))
      .And(WireBatches(p.records_))
      .And(Unit)
  }

  function WirePartitionDatas(ps: seq<PartitionData>): Value {
    Many(Wires(WirePartitionData, ps))
  }

  function WireFetchableTopic(t: FetchableTopicResponse): Value {
    Blob(t.topic_id_).And(WirePartitionDatas(t.partitions_)).And(Unit)
  }

  function WireFetchableTopics(ts: seq<FetchableTopicResponse>): Value {
    Many(Wires(WireFetchableTopic, ts))
  }

  function WireFetchResponse(r: FetchResponse): Value {
    Num(r.throttle_time_ms_)
      .And(Num(Code(r.error_code_)))
      .And(Num(r.session_id_))
      .And(WireFetchableTopics(r.responses_))
      .And(Unit)
  }

  function WireResponsePartition(p: ResponsePartition): Value {
    Num(Code(p.error_code_))
      .And(Num(p.partition_index_))
      .And(Num(p.leader_id_))
      .And(Num(p.leader_epoch_))
      .And(WireNums(p.replica_nodes_))
      .And(WireNums(p.isr_nodes_))
      .And(WireNums(p.eligible_leader_replicas_))
      .And(WireNums(p.last_known_elr_))
      .And(WireNums(p.offline_replicas_))
      .And(Unit)
  }

  function WireResponsePartitions(ps: seq<ResponsePartition>): Value {
    Many(Wires(WireResponsePartition, ps))
  }

  function WireResponseTopic(t: ResponseTopic): Value {
    Num(Code(t.error_code_))
      .And(Blob(t.name_))
      .And(Blob(t.topic_id_))
      .And(Num(if t.is_internal_ then 1 else 0))
      .And(WireResponsePartitions(t.partitions_))
      .And(Num(t.topic_authorized_operations_))
      .And(Unit)
  }

  function WireResponseTopics(ts: seq<ResponseTopic>): Value {
    Many(Wires(WireResponseTopic, ts))
  }

  function WireDescribeResponse(r: DescribeTopicPartitionsResponse): Value {
    Num(r.throttle_time_ms_).And(WireResponseTopics(r.topics_)).And(Unit).And(Unit)
  }

  // ---- Writing ----

  method WriteApiVersion(dst: WritableBuffer, v: ApiVersion)
    modifies dst
    ensures dst.bytes_ == Put(ApiVersionLayout(), WireApiVersion(v), old(dst.bytes_))
  {
    PutFields(ApiVersionLayout(), WireApiVersion(v), dst.bytes_);
    hide Put, Encode;
    WriteInt16(dst, v.api_key_);
    WriteInt16(dst, v.min_version_);
    WriteInt16(dst, v.max_version_);
    WriteTaggedFields(dst);
  }

  method WriteApiVersions(dst: WritableBuffer, arr: seq<ApiVersion>)
    modifies dst
    ensures dst.bytes_ == Put(CompactArray(ApiVersionLayout()), WireApiVersions(arr), old(dst.bytes_))
  {
    hide Encode, CompactLength;
    WriteCompactCount(dst, |arr|);
    ghost var items := Wires(WireApiVersion, arr);
    ghost var out := dst.bytes_;
    for i := 0 to |arr|
      invariant PutMany(ApiVersionLayout(), items, out) == PutMany(ApiVersionLayout(), items[i..], dst.bytes_)
    {
      assert items[i..][1..] == items[i + 1..];
      WriteApiVersion(dst, arr[i]);
    }
  }

  method WriteApiVersionsResponse(dst: WritableBuffer, r: ApiVersionsResponse)
    modifies dst
    ensures dst.bytes_ == Put(ApiVersionsResponseLayout(), WireApiVersionsResponse(r), old(dst.bytes_))
  {
    PutFields(ApiVersionsResponseLayout(), WireApiVersionsResponse(r), dst.bytes_);
    hide Put, Encode;
    WriteInt16(dst, Code(r.error_code_));
    WriteApiVersions(dst, r.api_keys_);
    WriteInt32(dst, r.throttle_time_ms_);
    WriteTaggedFields(dst);
  }

  method WriteAbortedTransaction(dst: WritableBuffer, t: AbortedTransaction)
    modifies dst
    ensures dst.bytes_ == Put(AbortedTransactionLayout(), WireAbortedTransaction(t), old(dst.bytes_))
  {
    PutFields(AbortedTransactionLayout(), WireAbortedTransaction(t), dst.bytes_);
    hide Put, Encode;
    WriteInt64(dst, t.producer_id_);
    WriteInt64(dst, t.first_offset_);
    WriteTaggedFields(dst);
  }

  method WriteAbortedTransactions(dst: WritableBuffer, arr: seq<AbortedTransaction>)
    modifies dst
    ensures dst.bytes_ == Put(CompactArray(AbortedTransactionLayout()), WireAbortedTransactions(arr), old(dst.bytes_))
  {
    hide Encode, CompactLength;
    WriteCompactCount(dst, |arr|);
    ghost var items := Wires(WireAbortedTransaction, arr);
    ghost var out := dst.bytes_;
    for i := 0 to |arr|
      invariant PutMany(AbortedTransactionLayout(), items, out) ==
        PutMany(AbortedTransactionLayout(), items[i..], dst.bytes_)
    {
      assert items[i..][1..] == items[i + 1..];
      WriteAbortedTransaction(dst, arr[i]);
    }
  }

  method WriteBatches(dst: WritableBuffer, arr: seq<RecordBatch>)
    modifies dst
    ensures dst.bytes_ == Put(CompactArray(RecordBatchLayout()), WireBatches(arr), old(dst.bytes_))
  {
    hide Encode, CompactLength;
    WriteCompactCount(dst, |arr|);
    ghost var items := Wires(WireBatch, arr);
    ghost var out := dst.bytes_;
    for i := 0 to |arr|
      invariant PutMany(RecordBatchLayout(), items, out) == PutMany(RecordBatchLayout(), items[i..], dst.bytes_)
    {
      assert items[i..][1..] == items[i + 1..];
      WriteBatch(dst, arr[i]);
    }
  }

  lemma PartitionDataWrites(p: PartitionData, out: seq<byte>)
    ensures Put(PartitionDataLayout(), WirePartitionData(p), out) ==
      Put(Byte(0), Unit,
      Put(CompactArray(RecordBatchLayout()), WireBatches(p.records_),
      Put(Int(4, true), Num(p.preferred_read_replica_),
      Put(CompactArray(AbortedTransactionLayout()), WireAbortedTransactions(p.aborted_transactions_),
      Put(Int(8, true), Num(p.log_start_offset_),
      Put(Int(8, true), Num(p.last_stable_offset_),
      Put(Int(8, true), Num(p.high_watermark_),
      Put(Int(2, true), Num(Code(p.error_code_)),
      Put(Int(4, true), Num(p.partition_index_), out)))))))))
  {
    PutFields(PartitionDataLayout(), WirePartitionData(p), out);
    hide Put, Code, WireBatches, WireAbortedTransactions, RecordBatchLayout, AbortedTransactionLayout;
  }

  method WritePartitionData(dst: WritableBuffer, p: PartitionData)
    modifies dst
    ensures dst.bytes_ == Put(PartitionDataLayout(), WirePartitionData(p), old(dst.bytes_))
  {
    PartitionDataWrites(p, dst.bytes_);
    hide Put, Encode, WirePartitionData, PartitionDataLayout, WireBatches, WireAbortedTransactions;
    hide RecordBatchLayout, AbortedTransactionLayout;
    WriteInt32(dst, p.partition_index_);
    WriteInt16(dst, Code(p.error_code_));
    WriteInt64(dst, p.high_watermark_);
    WriteInt64(dst, p.last_stable_offset_);
    WriteInt64(dst, p.log_start_offset_);
    WriteAbortedTransactions(dst, p.aborted_transactions_);
    WriteInt32(dst, p.preferred_read_replica_);
    WriteBatches(dst, p.records_);
    WriteTaggedFields(dst);
  }

  method WritePartitionDatas(dst: WritableBuffer, arr: seq<PartitionData>)
    modifies dst
    ensures dst.bytes_ == Put(CompactArray(PartitionDataLayout()), WirePartitionDatas(arr), old(dst.bytes_))
  {
    hide Encode, CompactLength;
    WriteCompactCount(dst, |arr|);
    ghost var items := Wires(WirePartitionData, arr);
    ghost var out := dst.bytes_;
    for i := 0 to |arr|
      invariant PutMany(PartitionDataLayout(), items, out) == PutMany(PartitionDataLayout(), items[i..], dst.bytes_)
    {
      assert items[i..][1..] == items[i + 1..];
      WritePartitionData(dst, arr[i]);
    }
  }

  method WriteFetchableTopic(dst: WritableBuffer, t: FetchableTopicResponse)
    modifies dst
    ensures dst.bytes_ == Put(FetchableTopicLayout(), WireFetchableTopic(t), old(dst.bytes_))
  {
    PutFields(FetchableTopicLayout(), WireFetchableTopic(t), dst.bytes_);
    hide Put, Encode;
    WriteRaw(dst, t.topic_id_);
    WritePartitionDatas(dst, t.partitions_);
    WriteTaggedFields(dst);
  }

  method WriteFetchableTopics(dst: WritableBuffer, arr: seq<FetchableTopicResponse>)
    modifies dst
    ensures dst.bytes_ == Put(CompactArray(FetchableTopicLayout()), WireFetchableTopics(arr), old(dst.bytes_))
  {
    hide Encode, CompactLength;
    WriteCompactCount(dst, |arr|);
    ghost var items := Wires(WireFetchableTopic, arr);
    ghost var out := dst.bytes_;
    for i := 0 to |arr|
      invariant PutMany(FetchableTopicLayout(), items, out) == PutMany(FetchableTopicLayout(), items[i..], dst.bytes_)
    {
      assert items[i..][1..] == items[i + 1..];
      WriteFetchableTopic(dst, arr[i]);
    }
  }

  method WriteFetchResponse(dst: WritableBuffer, r: FetchResponse)
    modifies dst
    ensures dst.bytes_ == Put(FetchResponseLayout(), WireFetchResponse(r), old(dst.bytes_))
  {
    PutFields(FetchResponseLayout(), WireFetchResponse(r), dst.bytes_);
    hide Put, Encode;
    WriteInt32(dst, r.throttle_time_ms_);
    WriteInt16(dst, Code(r.error_code_));
    WriteInt32(dst, r.session_id_);
    WriteFetchableTopics(dst, r.responses_);
    WriteTaggedFields(dst);
  }

  method WriteNums(dst: WritableBuffer, arr: seq<INT32>)
    modifies dst
    ensures dst.bytes_ == Put(CompactArray(Int(4, true)), WireNums(arr), old(dst.bytes_))
  {
    hide Encode, CompactLength;
    WriteCompactCount(dst, |arr|);
    ghost var items := Wires(WireNum, arr);
    ghost var out := dst.bytes_;
    for i := 0 to |arr|
      invariant PutMany(Int(4, true), items, out) == PutMany(Int(4, true), items[i..], dst.bytes_)
    {
      assert items[i..][1..] == items[i + 1..];
      WriteInt32(dst, arr[i]);
    }
  }

  lemma ResponsePartitionWrites(p: ResponsePartition, out: seq<byte>)
    ensures Put(ResponsePartitionLayout(), WireResponsePartition(p), out) ==
      Put(Byte(0), Unit,
      Put(CompactArray(Int(4, true)), WireNums(p.offline_replicas_),
      Put(CompactArray(Int(4, true)), WireNums(p.last_known_elr_),
      Put(CompactArray(Int(4, true)), WireNums(p.eligible_leader_replicas_),
      Put(CompactArray(Int(4, true)), WireNums(p.isr_nodes_),
      Put(CompactArray(Int(4, true)), WireNums(p.replica_nodes_),
      Put(Int(4, true), Num(p.leader_epoch_),
      Put(Int(4, true), Num(p.leader_id_),
      Put(Int(4, true), Num(p.partition_index_),
      Put(Int(2, true), Num(Code(p.error_code_)), out))))))))))
  {
    PutFields(ResponsePartitionLayout(), WireResponsePartition(p), out);
    hide Put, Code, WireNums;
  }

  method WriteResponsePartition(dst: WritableBuffer, p: ResponsePartition)
    modifies dst
    ensures dst.bytes_ == Put(ResponsePartitionLayout(), WireResponsePartition(p), old(dst.bytes_))
  {
    ResponsePartitionWrites(p, dst.bytes_);
    hide Put, Encode, WireResponsePartition, ResponsePartitionLayout, WireNums;
    WriteInt16(dst, Code(p.error_code_));
    WriteInt32(dst, p.partition_index_);
    WriteInt32(dst, p.leader_id_);
    WriteInt32(dst, p.leader_epoch_);
    WriteNums(dst, p.replica_nodes_);
    WriteNums(dst, p.isr_nodes_);
    WriteNums(dst, p.eligible_leader_replicas_);
    WriteNums(dst, p.last_known_elr_);
    WriteNums(dst, p.offline_replicas_);
    WriteTaggedFields(dst);
  }

  method WriteResponsePartitions(dst: WritableBuffer, arr: seq<ResponsePartition>)
    modifies dst
    ensures dst.bytes_ == Put(CompactArray(ResponsePartitionLayout()), WireResponsePartitions(arr), old(dst.bytes_))
  {
    hide Encode, CompactLength;
    WriteCompactCount(dst, |arr|);
    ghost var items := Wires(WireResponsePartition, arr);
    ghost var out := dst.bytes_;
    for i := 0 to |arr|
      invariant PutMany(ResponsePartitionLayout(), items, out) ==
        PutMany(ResponsePartitionLayout(), items[i..], dst.bytes_)
    {
      assert items[i..][1..] == items[i + 1..];
      WriteResponsePartition(dst, arr[i]);
    }
  }

  method WriteResponseTopic(dst: WritableBuffer, t: ResponseTopic)
    modifies dst
    ensures dst.bytes_ == Put(ResponseTopicLayout(), WireResponseTopic(t), old(dst.bytes_))
  {
    PutFields(ResponseTopicLayout(), WireResponseTopic(t), dst.bytes_);
    hide Put, Encode;
    WriteInt16(dst, Code(t.error_code_));
    WriteCompactNullableString(dst, t.name_);
    WriteRaw(dst, t.topic_id_);
    WriteBoolean(dst, t.is_internal_);
    WriteResponsePartitions(dst, t.partitions_);
    WriteInt32(dst, t.topic_authorized_operations_);
    WriteTaggedFields(dst);
  }

  method WriteResponseTopics(dst: WritableBuffer, arr: seq<ResponseTopic>)
    modifies dst
    ensures dst.bytes_ == Put(CompactArray(ResponseTopicLayout()), WireResponseTopics(arr), old(dst.bytes_))
  {
    hide Encode, CompactLength;
    WriteCompactCount(dst, |arr|);
    ghost var items := Wires(WireResponseTopic, arr);
    ghost var out := dst.bytes_;
    for i := 0 to |arr|
      invariant PutMany(ResponseTopicLayout(), items, out) == PutMany(ResponseTopicLayout(), items[i..], dst.bytes_)
    {
      assert items[i..][1..] == items[i + 1..];
      WriteResponseTopic(dst, arr[i]);
    }
  }

  method WriteDescribeResponse(dst: WritableBuffer, r: DescribeTopicPartitionsResponse)
    modifies dst
    ensures dst.bytes_ == Put(DescribeResponseLayout(), WireDescribeResponse(r), old(dst.bytes_))
  {
    PutFields(DescribeResponseLayout(), WireDescribeResponse(r), dst.bytes_);
    hide Put, Encode;
    WriteInt32(dst, r.throttle_time_ms_);
    WriteResponseTopics(dst, r.topics_);
    WriteByte(dst, 0xFF);
    WriteTaggedFields(dst);
  }

  // ---- Framing ----

  function EncodeResponse(r: Response): seq<byte> {
    match r
    case FetchReply(f) => Encode(FetchResponseLayout(), WireFetchResponse(f))
    case ApiVersionsReply(v) => Encode(ApiVersionsResponseLayout(), WireApiVersionsResponse(v))
    case DescribeReply(d) => Encode(DescribeResponseLayout(), WireDescribeResponse(d))
  }

  /** The tagged fields of a response header; version 0 of the header, which ApiVersions uses, has none. */
  function HeaderTags(r: Response): seq<byte> {
    if r.ApiVersionsReply? then [] else [0]
  }

  /** What the frame of a response carries. */
  function ResponsePayload(correlationId: INT32, r: Response): seq<byte> {
    BigBytes(4, correlationId) + HeaderTags(r) + EncodeResponse(r)
  }

  /** The bytes that a response puts on the wire: its size and its payload. */
  function ResponseFrame(correlationId: INT32, r: Response): seq<byte> {
    Encode(SizedBytes, Blob(ResponsePayload(correlationId, r)))
  }

  method WriteResponseBody(dst: WritableBuffer, r: Response)
    modifies dst
    ensures dst.bytes_ == old(dst.bytes_) + EncodeResponse(r)
  {
    ghost var out := dst.bytes_;
    hide Put, Encode, WireFetchResponse, WireApiVersionsResponse, WireDescribeResponse;
    hide FetchResponseLayout, ApiVersionsResponseLayout, DescribeResponseLayout;
    match r
    case FetchReply(f) =>
      PutAppends(FetchResponseLayout(), WireFetchResponse(f), out);
      WriteFetchResponse(dst, f);
    case ApiVersionsReply(v) =>
      PutAppends(ApiVersionsResponseLayout(), WireApiVersionsResponse(v), out);
      WriteApiVersionsResponse(dst, v);
    case DescribeReply(d) =>
      PutAppends(DescribeResponseLayout(), WireDescribeResponse(d), out);
      WriteDescribeResponse(dst, d);
  }

  method WriteResponseHeader(dst: WritableBuffer, correlationId: INT32, version: nat)
    modifies dst
    ensures dst.bytes_ == old(dst.bytes_) + BigBytes(4, correlationId) + (if version != 0 then [0] else [])
  {
    WriteInteger(dst, 4, correlationId);
    if version != 0 {
      WriteTaggedFields(dst);
    }
  }

  /** Builds the payload in memory, then sends it with its size. */
  method WriteResponseMessage(fd: FileDescriptor, correlationId: INT32, r: Response) returns (ok: bool)
    modifies fd.writeEnd
    ensures ok ==> fd.writeEnd.accepted == old(fd.writeEnd.accepted) + ResponseFrame(correlationId, r)
    ensures !ok ==> !Quiet(fd.writeEnd.schedule)
    ensures WrotePart(old(fd.writeEnd.accepted), ResponseFrame(correlationId, r), fd.writeEnd.accepted)
  {
    hide EncodeResponse, BigBytes, WrotePart;
    var wb := new WritableBuffer();
    var headerVersion := if r.ApiVersionsReply? then 0 else 1;
    WriteResponseHeader(wb, correlationId, headerVersion);
    WriteResponseBody(wb, r);
    assert [] + BigBytes(4, correlationId) + HeaderTags(r) == BigBytes(4, correlationId) + HeaderTags(r);
    assert BigBytes(4, correlationId) + [] == BigBytes(4, correlationId);
    assert wb.bytes_ == ResponsePayload(correlationId, r);
    PutAppends(SizedBytes, Blob(wb.bytes_), fd.writeEnd.accepted);
    ok := WriteBytes(fd, wb.bytes_);
  }
}
