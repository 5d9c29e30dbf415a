/** The bytes of responses spelled out, and what the bytes of an answer are for what the server finds. */
module AnswerBytes {
  import opened Bytes
  import opened Wire
  import opened Arrays
  import opened Streams
  import opened Records
  import opened Log
  import opened Metadata
  import opened Requests
  import opened Responses
  import opened ResponseLaws
  import opened Server
  import opened Spelling

  // ---- Responses, field by field ----

  lemma ApiVersionBytes(v: ApiVersion)
    ensures Encode(ApiVersionLayout(), WireApiVersion(v)) ==
      BigBytes(2, v.api_key_) + BigBytes(2, v.min_version_) + BigBytes(2, v.max_version_) + [0]
  {
    EncodeFields(ApiVersionLayout(), WireApiVersion(v));
    PlainFields();
    hide Encode, BigBytes;
  }

  lemma ApiVersionsResponseBytes(r: ApiVersionsResponse)
    ensures EncodeResponse(ApiVersionsReply(r)) ==
      BigBytes(2, Code(r.error_code_))
      + (CompactLength(|r.api_keys_|) + EncodeMany(ApiVersionLayout(), Wires(WireApiVersion, r.api_keys_)))
      + BigBytes(4, r.throttle_time_ms_)
      + [0]
  {
    EncodeFields(ApiVersionsResponseLayout(), WireApiVersionsResponse(r));
    PlainFields();
    ArrayFields();
    hide Encode, EncodeMany, BigBytes, CompactLength, ApiVersionLayout, WireApiVersion, Code;
  }

  lemma AbortedTransactionBytes(t: AbortedTransaction)
    ensures Encode(AbortedTransactionLayout(), WireAbortedTransaction(t)) ==
      BigBytes(8, t.producer_id_) + BigBytes(8, t.first_offset_) + [0]
  {
    EncodeFields(AbortedTransactionLayout(), WireAbortedTransaction(t));
    PlainFields();
    hide Encode, BigBytes;
  }

  /** The batches are preceded by their number plus one. */
  lemma PartitionDataBytes(p: PartitionData)
    ensures Encode(PartitionDataLayout(), WirePartitionData(p)) ==
      BigBytes(4, p.partition_index_)
      + BigBytes(2, Code(p.error_code_))
      + BigBytes(8, p.high_watermark_)
      + BigBytes(8, p.last_stable_offset_)
      + BigBytes(8, p.log_start_offset_)
      + (CompactLength(|p.aborted_transactions_|)
         + EncodeMany(AbortedTransactionLayout(), Wires(WireAbortedTransaction, p.aborted_transactions_)))
      + BigBytes(4, p.preferred_read_replica_)
      + (CompactLength(|p.records_|) + EncodeLog(p.records_))
      + [0]
  {
    EncodeLogIsMany(p.records_);
    EncodeFields(PartitionDataLayout(), WirePartitionData(p));
    PlainFields();
    ArrayFields();
    hide Encode, EncodeMany, EncodeLog, BigBytes, CompactLength, Code;
    hide AbortedTransactionLayout, WireAbortedTransaction, RecordBatchLayout, WireBatch;
  }

  lemma FetchableTopicBytes(t: FetchableTopicResponse)
    ensures Encode(FetchableTopicLayout(), WireFetchableTopic(t)) ==
      t.topic_id_
      + (CompactLength(|t.partitions_|) + EncodeMany(PartitionDataLayout(), Wires(WirePartitionData, t.partitions_)))
      + [0]
  {
    EncodeFields(FetchableTopicLayout(), WireFetchableTopic(t));
    PlainFields();
    ArrayFields();
    hide Encode, EncodeMany, CompactLength, PartitionDataLayout, WirePartitionData;
  }

  lemma FetchResponseBytes(r: FetchResponse)
    ensures EncodeResponse(FetchReply(r)) ==
      BigBytes(4, r.throttle_time_ms_)
      + BigBytes(2, Code(r.error_code_))
      + BigBytes(4, r.session_id_)
      + (CompactLength(|r.responses_|) + EncodeMany(FetchableTopicLayout(), Wires(WireFetchableTopic, r.responses_)))
      + [0]
  {
    EncodeFields(FetchResponseLayout(), WireFetchResponse(r));
    PlainFields();
    ArrayFields();
    hide Encode, EncodeMany, BigBytes, CompactLength, FetchableTopicLayout, WireFetchableTopic, Code;
  }

  function NumsBytes(ns: seq<INT32>): seq<byte> {
    CompactLength(|ns|) + EncodeMany(Int(4, true), Wires(WireNum, ns))
  }

  lemma ResponsePartitionBytes(p: ResponsePartition)
    ensures Encode(ResponsePartitionLayout(), WireResponsePartition(p)) ==
      BigBytes(2, Code(p.error_code_))
      + BigBytes(4, p.partition_index_)
      + BigBytes(4, p.leader_id_)
      + BigBytes(4, p.leader_epoch_)
      + NumsBytes(p.replica_nodes_)
      + NumsBytes(p.isr_nodes_)
      + NumsBytes(p.eligible_leader_replicas_)
      + NumsBytes(p.last_known_elr_)
      + NumsBytes(p.offline_replicas_)
      + [0]
  {
    EncodeFields(ResponsePartitionLayout(), WireResponsePartition(p));
    PlainFields();
    ArrayFields();
    hide Encode, EncodeMany, BigBytes, CompactLength, WireNum, Code;
  }

  lemma ResponseTopicBytes(t: ResponseTopic)
    ensures Encode(ResponseTopicLayout(), WireResponseTopic(t)) ==
      BigBytes(2, Code(t.error_code_))
      + (CompactLength(|t.name_|) + t.name_)
      + t.topic_id_
      + [if t.is_internal_ then 1 else 0]
      + (CompactLength(|t.partitions_|)
         + EncodeMany(ResponsePartitionLayout(), Wires(WireResponsePartition, t.partitions_)))
      + BigBytes(4, t.topic_authorized_operations_)
      + [0]
  {
    EncodeFields(ResponseTopicLayout(), WireResponseTopic(t));
    PlainFields();
    ArrayFields();
    StringField(t.name_);
    SmallNumbers(0);
    SmallNumbers(1);
    hide Encode, EncodeMany, BigBytes, CompactLength, ResponsePartitionLayout, WireResponsePartition, Code;
  }

  /** The next cursor is absent. */
  lemma DescribeResponseBytes(r: DescribeTopicPartitionsResponse)
    ensures EncodeResponse(DescribeReply(r)) ==
      BigBytes(4, r.throttle_time_ms_)
      + (CompactLength(|r.topics_|) + EncodeMany(ResponseTopicLayout(), Wires(WireResponseTopic, r.topics_)))
      + [0xFF]
      + [0]
  {
    EncodeFields(DescribeResponseLayout(), WireDescribeResponse(r));
    PlainFields();
    ArrayFields();
    hide Encode, EncodeMany, BigBytes, CompactLength, ResponseTopicLayout, WireResponseTopic;
  }

  /** The error codes on the wire. */
  lemma CodeBytes()
    ensures BigBytes(2, Code(NONE)) == [0, 0]
    ensures BigBytes(2, Code(UNKNOWN_TOPIC_OR_PARTITION)) == [0, 3]
    ensures BigBytes(2, Code(UNSUPPORTED_VERSION)) == [0, 35]
    ensures BigBytes(2, Code(UNKNOWN_TOPIC_ID)) == [0, 100]
  {
    SmallNumbers(0);
    SmallNumbers(3);
    SmallNumbers(35);
    SmallNumbers(100);
    hide BigBytes;
  }

  // ---- ApiVersions ----

  lemma ThreeElements<T>(e: Schema, wire: T -> Value, x: T, y: T, z: T)
    ensures EncodeMany(e, Wires(wire, [x, y, z])) == Encode(e, wire(x)) + Encode(e, wire(y)) + Encode(e, wire(z))
  {
    hide Encode, EncodeMany;
    NextElement(e, wire, [], x);
    NextElement(e, wire, [x], y);
    NextElement(e, wire, [x, y], z);
    assert [] + [x] == [x] && [x] + [y] == [x, y] && [x, y] + [z] == [x, y, z];
    assert [] + Encode(e, wire(x)) == Encode(e, wire(x));
  }

  lemma SmallApiVersion(key: byte, low: byte, high: byte)
    ensures Encode(ApiVersionLayout(), WireApiVersion(ApiVersion(key, low, high))) == [0, key, 0, low, 0, high, 0]
  {
    ApiVersionBytes(ApiVersion(key, low, high));
    SmallNumbers(key);
    SmallNumbers(low);
    SmallNumbers(high);
    hide Encode, BigBytes;
  }

  lemma SupportedBytes()
    ensures EncodeMany(ApiVersionLayout(), Wires(WireApiVersion,
              [ApiVersion(1, 0, 16), ApiVersion(18, 0, 4), ApiVersion(75, 0, 0)])) ==
      [0, 1, 0, 0, 0, 16, 0] + [0, 18, 0, 0, 0, 4, 0] + [0, 75, 0, 0, 0, 0, 0]
  {
    hide *;
    ThreeElements(ApiVersionLayout(), WireApiVersion, ApiVersion(1, 0, 16), ApiVersion(18, 0, 4), ApiVersion(75, 0, 0));
    SmallApiVersion(1, 0, 16);
    SmallApiVersion(18, 0, 4);
    SmallApiVersion(75, 0, 0);
  }

  /** The whole body that answers ApiVersions.  In version 4: no error, and three keys, Fetch (1) from 0 to 16,
      ApiVersions (18) from 0 to 4, DescribeTopicPartitions (75) from 0 to 0; in any other version: error 35 and no
      keys. */
  lemma ApiVersionsBytes(version: INT16, r: ApiVersionsResponse)
    requires ApiVersionsAnswer(version, r)
    ensures EncodeResponse(ApiVersionsReply(r)) ==
      if version == 4 then
        [0, 0]
        + ([4] + ([0, 1, 0, 0, 0, 16, 0] + [0, 18, 0, 0, 0, 4, 0] + [0, 75, 0, 0, 0, 0, 0]))
        + [0, 0, 0, 0]
        + [0]
      else
        [0, 35] + ([1] + []) + [0, 0, 0, 0] + [0]
  {
    ApiVersionsResponseBytes(r);
    CodeBytes();
    SmallNumbers(0);
    SupportedBytes();
    assert CompactLength(3) == [4] && CompactLength(0) == [1];
    assert EncodeMany(ApiVersionLayout(), Wires(WireApiVersion, [])) == [];
    hide EncodeResponse, Encode, EncodeMany, BigBytes, CompactLength, Wires;
  }

  /** The version is the one in the header of the request. */
  lemma AnsweredVersions(st: Index, disk: Disk, header: RequestHeader, q: ApiVersionsRequest, response: Response)
    requires Answers(st, disk, header, ApiVersions(q), response)
    ensures EncodeResponse(response) ==
      if header.request_api_version_ == 4 then
        [0, 0]
        + ([4] + ([0, 1, 0, 0, 0, 16, 0] + [0, 18, 0, 0, 0, 4, 0] + [0, 75, 0, 0, 0, 0, 0]))
        + [0, 0, 0, 0]
        + [0]
      else
        [0, 35] + ([1] + []) + [0, 0, 0, 0] + [0]
  {
    hide ApiVersionsAnswer, EncodeResponse;
    ApiVersionsBytes(header.request_api_version_, response.versions);
  }

  // ---- Fetch ----

  /** A fetch is answered without an error, delay or session, and with one entry per topic. */
  lemma FetchBytes(st: Index, disk: Disk, request: FetchRequest, r: FetchResponse)
    requires FetchAnswer(st, disk, request, r)
    ensures EncodeResponse(FetchReply(r)) ==
      [0, 0, 0, 0]
      + [0, 0]
      + [0, 0, 0, 0]
      + (CompactLength(|request.topics_|)
         + EncodeMany(FetchableTopicLayout(), Wires(WireFetchableTopic, r.responses_)))
      + [0]
  {
    FetchResponseBytes(r);
    CodeBytes();
    SmallNumbers(0);
    hide EncodeResponse, Encode, EncodeMany, BigBytes, CompactLength, FetchTopicAnswer;
  }

  lemma NothingAborted()
    ensures CompactLength(0) + EncodeMany(AbortedTransactionLayout(), Wires(WireAbortedTransaction, [])) == [1]
    ensures CompactLength(0) + EncodeLog([]) == [1]
  {
    assert CompactLength(0) == [1];
  }

  /** An entry for an error: partition 0, code 100 and no batches; only the watermarks and the replica are not fixed. */
  lemma UnknownEntryBytes(p: PartitionData)
    requires ReportsUnknown(p)
    ensures Encode(PartitionDataLayout(), WirePartitionData(p)) ==
      [0, 0, 0, 0]
      + [0, 100]
      + BigBytes(8, p.high_watermark_)
      + BigBytes(8, p.last_stable_offset_)
      + BigBytes(8, p.log_start_offset_)
      + [1]
      + BigBytes(4, p.preferred_read_replica_)
      + [1]
      + [0]
  {
    PartitionDataBytes(p);
    CodeBytes();
    SmallNumbers(0);
    NothingAborted();
    hide Encode, EncodeMany, EncodeLog, BigBytes, CompactLength;
  }

  /** The entry for a partition whose log could be opened: its index, no error, and the batches. */
  lemma DeliveredBytes(disk: Disk, topicName: seq<byte>, partitionIndex: INT32, p: PartitionData)
    requires Delivers(disk, topicName, partitionIndex, p)
    ensures Encode(PartitionDataLayout(), WirePartitionData(p)) ==
      BigBytes(4, partitionIndex)
      + [0, 0]
      + BigBytes(8, p.high_watermark_)
      + BigBytes(8, p.last_stable_offset_)
      + BigBytes(8, p.log_start_offset_)
      + [1]
      + BigBytes(4, p.preferred_read_replica_)
      + (CompactLength(|p.records_|) + EncodeLog(p.records_))
      + [0]
  {
    PartitionDataBytes(p);
    CodeBytes();
    NothingAborted();
    hide Encode, EncodeMany, EncodeLog, BigBytes, CompactLength, Scanned;
  }

  /** The answer for an identifier that the metadata does not know: the identifier, and one entry for the error. */
  lemma UnknownTopicBytes(st: Index, disk: Disk, t: FetchTopic, r: FetchableTopicResponse)
    requires FetchTopicAnswer(st, disk, t, r) && t.topic_id_ !in st.names
    ensures |r.partitions_| == 1 && ReportsUnknown(r.partitions_[0])
    ensures Encode(FetchableTopicLayout(), WireFetchableTopic(r)) ==
      t.topic_id_ + ([2] + Encode(PartitionDataLayout(), WirePartitionData(r.partitions_[0]))) + [0]
  {
    FetchableTopicBytes(r);
    hide Encode, EncodeMany, ReportsUnknown, DeliversFirst, OpenCount;
    var p := r.partitions_[0];
    NextElement(PartitionDataLayout(), WirePartitionData, [], p);
    assert r.partitions_ == [] + [p];
    assert CompactLength(1) == [2];
    hide CompactLength;
    var entry := Encode(PartitionDataLayout(), WirePartitionData(p));
    assert [] + entry == entry;
  }

  // ---- DescribeTopicPartitions ----

  lemma DescribeBytes(st: Index, request: DescribeTopicPartitionsRequest, r: DescribeTopicPartitionsResponse)
    requires DescribeAnswer(st, request, r)
    ensures EncodeResponse(DescribeReply(r)) ==
      [0, 0, 0, 0]
      + (CompactLength(|request.topics_|) + EncodeMany(ResponseTopicLayout(), Wires(WireResponseTopic, r.topics_)))
      + [0xFF]
      + [0]
  {
    DescribeResponseBytes(r);
    SmallNumbers(0);
    hide EncodeResponse, Encode, EncodeMany, BigBytes, CompactLength, DescribeTopicAnswer;
  }

  /** The answer for a name that the metadata does not know: code 3, the name, sixteen zeros, and no partitions. */
  lemma UnknownNameBytes(st: Index, t: TopicRequest, r: ResponseTopic)
    requires DescribeTopicAnswer(st, t, r) && t.name_ !in st.ids
    ensures Encode(ResponseTopicLayout(), WireResponseTopic(r)) ==
      [0, 3]
      + (CompactLength(|t.name_|) + t.name_)
      + [0, 0, 0, 0, 0, 0, 0, 0, 0, 0, 0, 0, 0, 0, 0, 0]
      + [if r.is_internal_ then 1 else 0]
      + [1]
      + BigBytes(4, r.topic_authorized_operations_)
      + [0]
  {
    ResponseTopicBytes(r);
    CodeBytes();
    assert CompactLength(0) == [1];
    hide Encode, BigBytes, CompactLength, DescribesAll;
    assert EncodeMany(ResponsePartitionLayout(), Wires(WireResponsePartition, [])) == [];
    assert [1] + [] == [1];
  }

  /** The answer for a name it knows: no error, the name, its identifier, and as many partitions as are listed for
      it. */
  lemma KnownNameBytes(st: Index, t: TopicRequest, r: ResponseTopic)
    requires DescribeTopicAnswer(st, t, r) && t.name_ in st.ids
    ensures st.ids[t.name_] in st.partitions
    ensures Encode(ResponseTopicLayout(), WireResponseTopic(r)) ==
      [0, 0]
      + (CompactLength(|t.name_|) + t.name_)
      + st.ids[t.name_]
      + [if r.is_internal_ then 1 else 0]
      + (CompactLength(|st.partitions[st.ids[t.name_]]|)
         + EncodeMany(ResponsePartitionLayout(), Wires(WireResponsePartition, r.partitions_)))
      + BigBytes(4, r.topic_authorized_operations_)
      + [0]
  {
    ResponseTopicBytes(r);
    CodeBytes();
    hide Encode, EncodeMany, BigBytes, CompactLength, Describes;
  }

  /** The entry for a partition: no error, its number, and five empty lists of nodes. */
  lemma DescribedBytes(p: ResponsePartition, partitionId: INT32)
    requires Describes(p, partitionId)
    ensures Encode(ResponsePartitionLayout(), WireResponsePartition(p)) ==
      [0, 0]
      + BigBytes(4, partitionId)
      + BigBytes(4, p.leader_id_)
      + BigBytes(4, p.leader_epoch_)
      + [1] + [1] + [1] + [1] + [1]
      + [0]
  {
    ResponsePartitionBytes(p);
    CodeBytes();
    assert CompactLength(0) == [1];
    assert NumsBytes([]) == [1] by {
      assert EncodeMany(Int(4, true), Wires(WireNum, [])) == [];
    }
    hide Encode, BigBytes, CompactLength, NumsBytes;
  }

  /** The entries come in the order in which the partitions were logged. */
  lemma DescribedInOrder(es: seq<Event>, t: TopicRequest, r: ResponseTopic, i: nat)
    requires DescribeTopicAnswer(Replay(EMPTY, es), t, r) && t.name_ in Replay(EMPTY, es).ids
    requires i < |r.partitions_|
    ensures var logged := PartitionsOf(es, Replay(EMPTY, es).ids[t.name_]);
      |r.partitions_| == |logged| && r.partitions_[i].partition_index_ == logged[i]
  {
    ListsAreTold(es, Replay(EMPTY, es).ids[t.name_]);
    hide Replay;
  }

  /** Describe fails exactly for the names whose last topic record has an identifier without any partition record. */
  lemma UndescribableExactly(es: seq<Event>, t: TopicRequest)
    ensures Undescribable(Replay(EMPTY, es), t) <==>
      exists i :: 0 <= i < |es| && LastOfName(es, i) && es[i].name == t.name_ && PartitionsOf(es, es[i].id) == []
  {
    var st := Replay(EMPTY, es);
    if t.name_ in st.ids {
      var id := st.ids[t.name_];
      IdsAreLast(es, t.name_, id);
      ListsAreTold(es, id);
      hide Replay, PartitionsOf;
      assert LastIdOf(es, t.name_, id);
    }
    forall i | 0 <= i < |es| && LastOfName(es, i) && es[i].name == t.name_
      ensures Get(st.ids, t.name_) == Some(es[i].id)
    {
      IdsAreLast(es, t.name_, es[i].id);
    }
  }
}
