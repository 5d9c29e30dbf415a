/** What a client can recover from the bytes of a response. */
module ResponseLaws {
  import opened Bytes
  import opened Varint
  import opened Wire
  import opened WireLaws
  import opened Arrays
  import opened Records
  import opened Scanning
  import opened Log
  import opened Requests
  import opened RequestLaws
  import opened Responses

  // ---- Which responses fit their length fields ----

  predicate PartitionDataFits(p: PartitionData) {
    CompactSize(|p.aborted_transactions_|) && CompactSize(|p.records_|) && AllWellFormed(p.records_)
  }

  predicate FetchableTopicFits(t: FetchableTopicResponse) {
    CompactSize(|t.partitions_|) && forall i | 0 <= i < |t.partitions_| :: PartitionDataFits(t.partitions_[i])
  }

  predicate FetchResponseFits(r: FetchResponse) {
    CompactSize(|r.responses_|) && forall i | 0 <= i < |r.responses_| :: FetchableTopicFits(r.responses_[i])
  }

  predicate ResponsePartitionFits(p: ResponsePartition) {
    && CompactSize(|p.replica_nodes_|)
    && CompactSize(|p.isr_nodes_|)
    && CompactSize(|p.eligible_leader_replicas_|)
    && CompactSize(|p.last_known_elr_|)
    && CompactSize(|p.offline_replicas_|)
  }

  predicate ResponseTopicFits(t: ResponseTopic) {
    && CompactSize(|t.name_|) && CompactSize(|t.partitions_|)
    && forall i | 0 <= i < |t.partitions_| :: ResponsePartitionFits(t.partitions_[i])
  }

  predicate DescribeResponseFits(r: DescribeTopicPartitionsResponse) {
    CompactSize(|r.topics_|) && forall i | 0 <= i < |r.topics_| :: ResponseTopicFits(r.topics_[i])
  }

  predicate ApiVersionsResponseFits(r: ApiVersionsResponse) {
    CompactSize(|r.api_keys_|)
  }

  lemma NumsAreTyped(ns: seq<INT32>)
    ensures Typed(CompactArray(Int(4, true)), WireNums(ns)) <==> CompactSize(|ns|)
  {
    var items := Wires(WireNum, ns);
    forall i | 0 <= i < |items| ensures Typed(Int(4, true), items[i]) {
      Ranges(ns[i]);
    }
    assert TypedMany(Int(4, true), items);
  }

  lemma BatchesAreTyped(bs: seq<RecordBatch>)
    ensures Typed(CompactArray(RecordBatchLayout()), WireBatches(bs)) <==> CompactSize(|bs|) && AllWellFormed(bs)
  {
    var items := Wires(WireBatch, bs);
    forall i | 0 <= i < |items| ensures Typed(RecordBatchLayout(), items[i]) <==> WellFormed(bs[i]) {
      BatchIsTyped(bs[i]);
    }
    assert TypedMany(RecordBatchLayout(), items) <==> AllWellFormed(bs);
    hide RecordBatchLayout, WireBatch, WellFormed, TypedMany;
  }

  lemma AbortedTransactionIsTyped(t: AbortedTransaction)
    ensures Typed(AbortedTransactionLayout(), WireAbortedTransaction(t))
  {
    Ranges(t.producer_id_);
    Ranges(t.first_offset_);
    hide InRange;
  }

  lemma AbortedTransactionsAreTyped(ts: seq<AbortedTransaction>)
    ensures Typed(CompactArray(AbortedTransactionLayout()), WireAbortedTransactions(ts)) <==> CompactSize(|ts|)
  {
    var items := Wires(WireAbortedTransaction, ts);
    forall i | 0 <= i < |items| ensures Typed(AbortedTransactionLayout(), items[i]) {
      AbortedTransactionIsTyped(ts[i]);
    }
    assert TypedMany(AbortedTransactionLayout(), items);
    hide AbortedTransactionLayout, WireAbortedTransaction, TypedMany;
  }

  lemma PartitionDataIsTyped(p: PartitionData)
    ensures Typed(PartitionDataLayout(), WirePartitionData(p)) <==> PartitionDataFits(p)
  {
    Ranges(p.partition_index_);
    Ranges(Code(p.error_code_));
    Ranges(p.high_watermark_);
    Ranges(p.last_stable_offset_);
    Ranges(p.log_start_offset_);
    Ranges(p.preferred_read_replica_);
    AbortedTransactionsAreTyped(p.aborted_transactions_);
    BatchesAreTyped(p.records_);
    hide InRange, Code, WireBatches, WireAbortedTransactions, RecordBatchLayout, AbortedTransactionLayout;
    hide TypedMany, WellFormed;
  }

  lemma PartitionDatasAreTyped(ps: seq<PartitionData>)
    ensures Typed(CompactArray(PartitionDataLayout()), WirePartitionDatas(ps)) <==>
      CompactSize(|ps|) && forall i | 0 <= i < |ps| :: PartitionDataFits(ps[i])
  {
    var items := Wires(WirePartitionData, ps);
    forall i | 0 <= i < |items| ensures Typed(PartitionDataLayout(), items[i]) <==> PartitionDataFits(ps[i]) {
      PartitionDataIsTyped(ps[i]);
    }
    assert TypedMany(PartitionDataLayout(), items) <==> forall i | 0 <= i < |ps| :: PartitionDataFits(ps[i]);
    hide PartitionDataLayout, WirePartitionData, PartitionDataFits, TypedMany;
  }

  lemma FetchableTopicIsTyped(t: FetchableTopicResponse)
    ensures Typed(FetchableTopicLayout(), WireFetchableTopic(t)) <==> FetchableTopicFits(t)
  {
    PartitionDatasAreTyped(t.partitions_);
    hide PartitionDataLayout, WirePartitionDatas, PartitionDataFits, TypedMany;
  }

  lemma FetchableTopicsAreTyped(ts: seq<FetchableTopicResponse>)
    ensures Typed(CompactArray(FetchableTopicLayout()), WireFetchableTopics(ts)) <==>
      CompactSize(|ts|) && forall i | 0 <= i < |ts| :: FetchableTopicFits(ts[i])
  {
    var items := Wires(WireFetchableTopic, ts);
    forall i | 0 <= i < |items| ensures Typed(FetchableTopicLayout(), items[i]) <==> FetchableTopicFits(ts[i]) {
      FetchableTopicIsTyped(ts[i]);
    }
    assert TypedMany(FetchableTopicLayout(), items) <==> forall i | 0 <= i < |ts| :: FetchableTopicFits(ts[i]);
    hide FetchableTopicLayout, WireFetchableTopic, FetchableTopicFits, TypedMany;
  }

  lemma FetchResponseIsTyped(r: FetchResponse)
    ensures Typed(FetchResponseLayout(), WireFetchResponse(r)) <==> FetchResponseFits(r)
  {
    Ranges(r.throttle_time_ms_);
    Ranges(Code(r.error_code_));
    Ranges(r.session_id_);
    FetchableTopicsAreTyped(r.responses_);
    hide InRange, Code, WireFetchableTopics, FetchableTopicLayout, FetchableTopicFits, TypedMany;
  }

  lemma ResponsePartitionIsTyped(p: ResponsePartition)
    ensures Typed(ResponsePartitionLayout(), WireResponsePartition(p)) <==> ResponsePartitionFits(p)
  {
    Ranges(Code(p.error_code_));
    Ranges(p.partition_index_);
    Ranges(p.leader_id_);
    Ranges(p.leader_epoch_);
    NumsAreTyped(p.replica_nodes_);
    NumsAreTyped(p.isr_nodes_);
    NumsAreTyped(p.eligible_leader_replicas_);
    NumsAreTyped(p.last_known_elr_);
    NumsAreTyped(p.offline_replicas_);
    hide InRange, Code, WireNums, TypedMany;
  }

  lemma ResponsePartitionsAreTyped(ps: seq<ResponsePartition>)
    ensures Typed(CompactArray(ResponsePartitionLayout()), WireResponsePartitions(ps)) <==>
      CompactSize(|ps|) && forall i | 0 <= i < |ps| :: ResponsePartitionFits(ps[i])
  {
    var items := Wires(WireResponsePartition, ps);
    forall i | 0 <= i < |items| ensures Typed(ResponsePartitionLayout(), items[i]) <==> ResponsePartitionFits(ps[i]) {
      ResponsePartitionIsTyped(ps[i]);
    }
    assert TypedMany(ResponsePartitionLayout(), items) <==> forall i | 0 <= i < |ps| :: ResponsePartitionFits(ps[i]);
    hide ResponsePartitionLayout, WireResponsePartition, ResponsePartitionFits, TypedMany;
  }

  lemma ResponseTopicIsTyped(t: ResponseTopic)
    ensures Typed(ResponseTopicLayout(), WireResponseTopic(t)) <==> ResponseTopicFits(t)
  {
    Ranges(Code(t.error_code_));
    Ranges(t.topic_authorized_operations_);
    assert InRange(1, false, 0) && InRange(1, false, 1);
    ResponsePartitionsAreTyped(t.partitions_);
    hide InRange, Code, WireResponsePartitions, ResponsePartitionLayout, ResponsePartitionFits, TypedMany;
  }

  lemma ResponseTopicsAreTyped(ts: seq<ResponseTopic>)
    ensures Typed(CompactArray(ResponseTopicLayout()), WireResponseTopics(ts)) <==>
      CompactSize(|ts|) && forall i | 0 <= i < |ts| :: ResponseTopicFits(ts[i])
  {
    var items := Wires(WireResponseTopic, ts);
    forall i | 0 <= i < |items| ensures Typed(ResponseTopicLayout(), items[i]) <==> ResponseTopicFits(ts[i]) {
      ResponseTopicIsTyped(ts[i]);
    }
    assert TypedMany(ResponseTopicLayout(), items) <==> forall i | 0 <= i < |ts| :: ResponseTopicFits(ts[i]);
    hide ResponseTopicLayout, WireResponseTopic, ResponseTopicFits, TypedMany;
  }

  lemma DescribeResponseIsTyped(r: DescribeTopicPartitionsResponse)
    ensures Typed(DescribeResponseLayout(), WireDescribeResponse(r)) <==> DescribeResponseFits(r)
  {
    Ranges(r.throttle_time_ms_);
    ResponseTopicsAreTyped(r.topics_);
    hide InRange, WireResponseTopics, ResponseTopicLayout, ResponseTopicFits, TypedMany;
  }

  lemma ApiVersionIsTyped(v: ApiVersion)
    ensures Typed(ApiVersionLayout(), WireApiVersion(v))
  {
    Ranges(v.api_key_);
    Ranges(v.min_version_);
    Ranges(v.max_version_);
    hide InRange;
  }

  lemma ApiVersionsResponseIsTyped(r: ApiVersionsResponse)
    ensures Typed(ApiVersionsResponseLayout(), WireApiVersionsResponse(r)) <==> ApiVersionsResponseFits(r)
  {
    var items := Wires(WireApiVersion, r.api_keys_);
    forall i | 0 <= i < |items| ensures Typed(ApiVersionLayout(), items[i]) {
      ApiVersionIsTyped(r.api_keys_[i]);
    }
    assert TypedMany(ApiVersionLayout(), items);
    Ranges(Code(r.error_code_));
    Ranges(r.throttle_time_ms_);
    hide InRange, Code, ApiVersionLayout, WireApiVersion, TypedMany;
  }

  // ---- Values determine responses ----

  lemma CodeInjective(a: ErrorCode, b: ErrorCode)
    ensures Code(a) == Code(b) ==> a == b
  {
  }

  lemma PartitionDataInjective()
    ensures Injective(WirePartitionData)
  {
    forall a, b | WirePartitionData(a) == WirePartitionData(b) ensures a == b {
      hide WireBatch, WireAbortedTransaction, Code;
      CodeInjective(a.error_code_, b.error_code_);
      AbortedTransactionsInjective();
      WiresInjective(WireAbortedTransaction, a.aborted_transactions_, b.aborted_transactions_);
      WireBatchInjective();
      WiresInjective(WireBatch, a.records_, b.records_);
    }
  }

  lemma AbortedTransactionsInjective()
    ensures Injective(WireAbortedTransaction)
  {
  }

  lemma FetchResponseInjective()
    ensures Injective(WireFetchResponse)
  {
    PartitionDataInjective();
    forall a, b | WireFetchableTopic(a) == WireFetchableTopic(b) ensures a == b {
      hide WirePartitionData;
      WiresInjective(WirePartitionData, a.partitions_, b.partitions_);
    }
    forall a, b | WireFetchResponse(a) == WireFetchResponse(b) ensures a == b {
      hide WireFetchableTopic, Code;
      CodeInjective(a.error_code_, b.error_code_);
      WiresInjective(WireFetchableTopic, a.responses_, b.responses_);
    }
  }

  lemma NumsInjective(xs: seq<INT32>, ys: seq<INT32>)
    requires WireNums(xs) == WireNums(ys)
    ensures xs == ys
  {
    assert Injective(WireNum);
    WiresInjective(WireNum, xs, ys);
  }

  lemma ResponsePartitionInjective()
    ensures Injective(WireResponsePartition)
  {
    forall a, b | WireResponsePartition(a) == WireResponsePartition(b) ensures a == b {
      hide WireNums, Code;
      CodeInjective(a.error_code_, b.error_code_);
      NumsInjective(a.replica_nodes_, b.replica_nodes_);
      NumsInjective(a.isr_nodes_, b.isr_nodes_);
      NumsInjective(a.eligible_leader_replicas_, b.eligible_leader_replicas_);
      NumsInjective(a.last_known_elr_, b.last_known_elr_);
      NumsInjective(a.offline_replicas_, b.offline_replicas_);
    }
  }

  lemma DescribeResponseInjective()
    ensures Injective(WireDescribeResponse)
  {
    ResponsePartitionInjective();
    forall a, b | WireResponseTopic(a) == WireResponseTopic(b) ensures a == b {
      hide WireResponsePartition, Code;
      CodeInjective(a.error_code_, b.error_code_);
      WiresInjective(WireResponsePartition, a.partitions_, b.partitions_);
    }
    forall a, b | WireDescribeResponse(a) == WireDescribeResponse(b) ensures a == b {
      hide WireResponseTopic;
      WiresInjective(WireResponseTopic, a.topics_, b.topics_);
    }
  }

  lemma ApiVersionsResponseInjective()
    ensures Injective(WireApiVersionsResponse)
  {
    assert Injective(WireApiVersion);
    forall a, b | WireApiVersionsResponse(a) == WireApiVersionsResponse(b) ensures a == b {
      hide WireApiVersion, Code;
      CodeInjective(a.error_code_, b.error_code_);
      WiresInjective(WireApiVersion, a.api_keys_, b.api_keys_);
    }
  }

  // ---- Main results ----

  /** A decoder of the layout recovers a Fetch response from its bytes, in any context, exactly when its lists fit their
      length fields and its batches are well formed. */
  lemma FetchResponseRoundTrip(r: FetchResponse, t: seq<byte>)
    ensures Decode(FetchResponseLayout(), Encode(FetchResponseLayout(), WireFetchResponse(r)) + t) ==
      Ok(WireFetchResponse(r), t)
      <==> FetchResponseFits(r)
  {
    RoundTrip(FetchResponseLayout(), WireFetchResponse(r), t);
    FetchResponseIsTyped(r);
    hide Decode, Encode, Typed, WireFetchResponse, FetchResponseFits;
  }

  lemma DescribeResponseRoundTrip(r: DescribeTopicPartitionsResponse, t: seq<byte>)
    ensures Decode(DescribeResponseLayout(), Encode(DescribeResponseLayout(), WireDescribeResponse(r)) + t) ==
      Ok(WireDescribeResponse(r), t)
      <==> DescribeResponseFits(r)
  {
    RoundTrip(DescribeResponseLayout(), WireDescribeResponse(r), t);
    DescribeResponseIsTyped(r);
    hide Decode, Encode, Typed, WireDescribeResponse, DescribeResponseFits;
  }

  predicate ResponseFits(r: Response) {
    match r
    case FetchReply(f) => FetchResponseFits(f)
    case ApiVersionsReply(v) => ApiVersionsResponseFits(v)
    case DescribeReply(d) => DescribeResponseFits(d)
  }

  predicate SameKind(r: Response, r': Response) {
    r.FetchReply? == r'.FetchReply? && r.ApiVersionsReply? == r'.ApiVersionsReply?
  }

  /** Two different responses of one kind never share an encoding, nor is one the beginning of the other's. */
  lemma ResponsesDistinct(r: Response, r': Response, t: seq<byte>, t': seq<byte>)
    requires SameKind(r, r') && ResponseFits(r) && ResponseFits(r')
    requires EncodeResponse(r) + t == EncodeResponse(r') + t'
    ensures r == r' && t == t'
  {
    hide Encode, Typed, WireFetchResponse, WireApiVersionsResponse, WireDescribeResponse;
    hide FetchResponseLayout, ApiVersionsResponseLayout, DescribeResponseLayout;
    hide FetchResponseFits, ApiVersionsResponseFits, DescribeResponseFits;
    match r
    case FetchReply(f) =>
      FetchResponseIsTyped(f);
      FetchResponseIsTyped(r'.fetch);
      UniquelyDecodable(FetchResponseLayout(), WireFetchResponse(f), WireFetchResponse(r'.fetch), t, t');
      FetchResponseInjective();
    case ApiVersionsReply(v) =>
      ApiVersionsResponseIsTyped(v);
      ApiVersionsResponseIsTyped(r'.versions);
      UniquelyDecodable(ApiVersionsResponseLayout(), WireApiVersionsResponse(v),
                        WireApiVersionsResponse(r'.versions), t, t');
      ApiVersionsResponseInjective();
    case DescribeReply(d) =>
      DescribeResponseIsTyped(d);
      DescribeResponseIsTyped(r'.describe);
      UniquelyDecodable(DescribeResponseLayout(), WireDescribeResponse(d), WireDescribeResponse(r'.describe), t, t');
      DescribeResponseInjective();
  }

  // ---- Fetched batches and the log they came from ----

  lemma {:induction false} EncodeLogIsMany(bs: seq<RecordBatch>)
    ensures EncodeMany(RecordBatchLayout(), Wires(WireBatch, bs)) == EncodeLog(bs)
    decreases |bs|
  {
    hide Encode, RecordBatchLayout, WireBatch;
    if bs != [] {
      EncodeLogIsMany(bs[1..]);
      assert Wires(WireBatch, bs)[1..] == Wires(WireBatch, bs[1..]);
    }
  }

  lemma CompactArrayEncoding(e: Schema, items: seq<Value>)
    ensures Encode(CompactArray(e), Many(items)) == CompactLength(|items|) + EncodeMany(e, items)
  {
    hide CompactLength, EncodeMany;
  }

  /** The fields of a partition before its batches. */
  function PartitionHead(p: PartitionData): seq<byte> {
    Encode(PartitionDataLayout().first.first, WirePartitionData(p).left.left)
  }

  lemma PartitionParts(p: PartitionData)
    ensures var c, v := PartitionDataLayout(), WirePartitionData(p);
      && c == Then(Then(c.first.first, CompactArray(RecordBatchLayout())), Byte(0))
      && v == Pair(Pair(v.left.left, WireBatches(p.records_)), Unit)
  {
    hide RecordBatchLayout, WireBatches;
  }

  /** A partition's bytes are its fixed fields, one more than its number of batches, the batches, and a tag byte. */
  lemma CodePartition(p: PartitionData)
    ensures Encode(PartitionDataLayout(), WirePartitionData(p)) ==
      PartitionHead(p) + (CompactLength(|p.records_|) + EncodeLog(p.records_)) + [0]
  {
    var c, v := PartitionDataLayout(), WirePartitionData(p);
    PartitionParts(p);
    assert Encode(Byte(0), Unit) == [0];
    hide Encode, EncodeMany, CompactLength, PartitionDataLayout, WirePartitionData, EncodeLog;
    ThenEncoding(c.first, Byte(0), v.left, Unit);
    ThenEncoding(c.first.first, CompactArray(RecordBatchLayout()), v.left.left, WireBatches(p.records_));
    CompactArrayEncoding(RecordBatchLayout(), Wires(WireBatch, p.records_));
    EncodeLogIsMany(p.records_);
  }

  /** The batches of a scanned log are sent as the very bytes they were found in exactly when the log was canonical. */
  lemma PartitionCarriesLog(p: PartitionData, log: seq<byte>)
    requires p.records_ == Scan(log)
    ensures Encode(PartitionDataLayout(), WirePartitionData(p)) ==
      PartitionHead(p) + (CompactLength(|Scan(log)|) + Accepted(log)) + [0]
      <==> CanonicalLog(log)
  {
    CodePartition(p);
    AcceptedExact(log);
    hide Encode, CompactLength, PartitionDataLayout, WirePartitionData, PartitionHead, Scan, Accepted, CanonicalLog;
    hide EncodeLog;
    var length := CompactLength(|Scan(log)|);
    SameMiddle(PartitionHead(p), length + EncodeLog(Scan(log)), length + Accepted(log), [0]);
    SameMiddle(length, EncodeLog(Scan(log)), Accepted(log), []);
  }

  lemma SameMiddle(a: seq<byte>, x: seq<byte>, y: seq<byte>, b: seq<byte>)
    ensures a + x + b == a + y + b <==> x == y
  {
    if a + x + b == a + y + b {
      assert |x| == |y|;
      assert x == (a + x + b)[|a|..|a| + |x|];
      assert y == (a + y + b)[|a|..|a| + |y|];
    }
  }

  // ---- The protocol guide's layout of a fetched partition ----

  /** A partition of Fetch Response v16 as the protocol guide has it: its batches are one string of bytes, in front of
      which stands one more than the number of the bytes. */
  function GuidePartitionLayout(): Schema {
    PartitionDataLayout().first.first   // partition_index to preferred_read_replica
      .And(CompactString)               // records
      .And(Byte(0))
  }

  function WireGuidePartition(p: PartitionData): Value {
    WirePartitionData(p).left.left.And(Blob(EncodeLog(p.records_))).And(Unit)
  }

  lemma GuidePartition(p: PartitionData)
    ensures Encode(GuidePartitionLayout(), WireGuidePartition(p)) ==
      PartitionHead(p) + (CompactLength(|EncodeLog(p.records_)|) + EncodeLog(p.records_)) + [0]
  {
    var c, v := PartitionDataLayout().first.first, WirePartitionData(p).left.left;
    var log := EncodeLog(p.records_);
    assert Encode(Byte(0), Unit) == [0];
    assert Encode(CompactString, Blob(log)) == CompactLength(|log|) + log;
    hide Encode, CompactLength, PartitionDataLayout, WirePartitionData, EncodeLog;
    ThenEncoding(c.And(CompactString), Byte(0), v.And(Blob(log)), Unit);
    ThenEncoding(c, CompactString, v, Blob(log));
  }

  lemma PrefixesDiffer(m: nat, n: nat, t: seq<byte>)
    requires CompactSize(m) && CompactSize(n)
    ensures CompactLength(m) + t == CompactLength(n) + t <==> m == n
  {
    UnsignedVarlongRoundTrip(m + 1, t);
    UnsignedVarlongRoundTrip(n + 1, t);
    hide EncodeUnsigned, TakeUnsignedVarlong;
  }

  /** Counting batches and counting bytes give the same prefix exactly when there is nothing to count. */
  lemma CountsDiffer(bs: seq<RecordBatch>)
    requires CompactSize(|EncodeLog(bs)|)
    ensures CompactLength(|bs|) + EncodeLog(bs) == CompactLength(|EncodeLog(bs)|) + EncodeLog(bs) <==> bs == []
  {
    var log := EncodeLog(bs);
    LogIsLong(bs);
    assert bs == [] ==> log == [];
    hide EncodeLog, CompactLength;
    PrefixesDiffer(|bs|, |log|, log);
  }

  /** A fetched partition is what the protocol guide says exactly when it holds no batch. */
  lemma MatchesGuide(p: PartitionData)
    requires CompactSize(|EncodeLog(p.records_)|)
    ensures Encode(PartitionDataLayout(), WirePartitionData(p)) == Encode(GuidePartitionLayout(), WireGuidePartition(p))
      <==> p.records_ == []
  {
    CodePartition(p);
    GuidePartition(p);
    CountsDiffer(p.records_);
    hide Encode, EncodeLog, CompactLength, PartitionDataLayout, WirePartitionData, GuidePartitionLayout;
    hide WireGuidePartition, PartitionHead;
    var log := EncodeLog(p.records_);
    SameMiddle(PartitionHead(p), CompactLength(|p.records_|) + log, CompactLength(|log|) + log, [0]);
  }

  /** A client that follows the guide reads the partition as it was meant exactly when it holds no batch. */
  lemma GuideClientReads(p: PartitionData, t: seq<byte>)
    requires CompactSize(|p.aborted_transactions_|) && CompactSize(|EncodeLog(p.records_)|)
    ensures Decode(GuidePartitionLayout(), Encode(PartitionDataLayout(), WirePartitionData(p)) + t) ==
      Ok(WireGuidePartition(p), t)
      <==> p.records_ == []
  {
    HeadIsTyped(p);
    MatchesGuide(p);
    GuideIsTyped(p);
    RoundTrip(GuidePartitionLayout(), WireGuidePartition(p), t);
    if p.records_ != [] {
      GuideClientMisreads(p, t);
    }
    hide Decode, Encode, EncodeLog, PartitionDataLayout, WirePartitionData, GuidePartitionLayout, WireGuidePartition;
  }

  lemma HeadIsTyped(p: PartitionData)
    requires CompactSize(|p.aborted_transactions_|)
    ensures Typed(PartitionDataLayout().first.first, WirePartitionData(p).left.left)
  {
    var empty := p.(records_ := []);
    PartitionDataIsTyped(empty);
    assert WirePartitionData(empty).left.left == WirePartitionData(p).left.left;
    PartitionParts(empty);
    hide WirePartitionData, PartitionDataLayout;
  }

  lemma GuideIsTyped(p: PartitionData)
    requires CompactSize(|p.aborted_transactions_|) && CompactSize(|EncodeLog(p.records_)|)
    ensures Typed(GuidePartitionLayout(), WireGuidePartition(p))
  {
    HeadIsTyped(p);
    StringThenTag(PartitionDataLayout().first.first, WirePartitionData(p).left.left, EncodeLog(p.records_));
    hide Typed, WirePartitionData, PartitionDataLayout, EncodeLog;
  }

  lemma StringThenTag(c: Schema, v: Value, data: seq<byte>)
    requires Typed(c, v) && CompactSize(|data|)
    ensures Typed(c.And(CompactString).And(Byte(0)), v.And(Blob(data)).And(Unit))
  {
  }

  lemma CountAsSize(n: nat, s: seq<byte>)
    requires CompactSize(n) && n <= |s|
    ensures TakeCompactString(CompactLength(n) + s) == Ok(s[..n], s[n..])
  {
    UnsignedVarlongRoundTrip(n + 1, s);
    hide TakeUnsignedVarint, EncodeUnsigned;
  }

  lemma ThenDecoding(c: Schema, d: Schema, s: seq<byte>)
    ensures Decode(Then(c, d), s) ==
      match Decode(c, s)
      case Err => Err
      case Ok(x, rest) =>
        match Decode(d, rest)
        case Err => Err
        case Ok(y, rest') => Ok(Pair(x, y), rest')
  {
  }

  lemma TagDecoding(s: seq<byte>)
    requires s != []
    ensures Decode(Byte(0), s) == if s[0] == 0 then Ok(Unit, s[1..]) else Err
  {
  }

  /** Whatever stands before it, of a string of bytes with too small a size in front only that many bytes are read. */
  lemma ShortStringRead(c: Schema, v: Value, n: nat, data: seq<byte>, more: seq<byte>)
    requires Typed(c, v) && CompactSize(n) && n < |data|
    ensures Decode(Then(Then(c, CompactString), Byte(0)), Encode(c, v) + (CompactLength(n) + (data + more))) ==
      if data[n] == 0 then Ok(Pair(Pair(v, Blob(data[..n])), Unit), data[n + 1..] + more) else Err
  {
    var body := CompactLength(n) + (data + more);
    var s := Encode(c, v) + body;
    DecodeEncoded(c, v, body);
    CountAsSize(n, data + more);
    CompactStringField(body);
    hide Decode, Encode, CompactLength, TakeCompactString, Typed;
    ThenDecoding(Then(c, CompactString), Byte(0), s);
    ThenDecoding(c, CompactString, s);
    CutInside(data, n, more);
    TagDecoding(data[n..] + more);
  }

  lemma CutInside(data: seq<byte>, n: nat, more: seq<byte>)
    requires n < |data|
    ensures (data + more)[..n] == data[..n] && (data + more)[n..] == data[n..] + more
    ensures (data[n..] + more)[0] == data[n] && (data[n..] + more)[1..] == data[n + 1..] + more
  {
  }

  /** A client that follows the guide takes the number of batches for a number of bytes: of the first batch it reads as
      many bytes as there are batches, takes the next for the tagged fields and goes on in the middle of the batch, or
      gives up there. */
  lemma GuideClientMisreads(p: PartitionData, t: seq<byte>)
    requires CompactSize(|p.aborted_transactions_|) && CompactSize(|EncodeLog(p.records_)|) && p.records_ != []
    ensures var n, log := |p.records_|, EncodeLog(p.records_);
      && n < |log|
      && Decode(GuidePartitionLayout(), Encode(PartitionDataLayout(), WirePartitionData(p)) + t) ==
         if log[n] == 0 then
           Ok(WirePartitionData(p).left.left.And(Blob(log[..n])).And(Unit), log[n + 1..] + ([0] + t))
         else
           Err
  {
    var c, v := PartitionDataLayout().first.first, WirePartitionData(p).left.left;
    var log, length := EncodeLog(p.records_), CompactLength(|p.records_|);
    LogIsLong(p.records_);
    HeadIsTyped(p);
    CodePartition(p);
    hide Decode, Encode, EncodeLog, CompactLength, PartitionDataLayout, WirePartitionData, Typed;
    ShortStringRead(c, v, |p.records_|, log, [0] + t);
    Regroup4(PartitionHead(p), length, log, [0], t);
  }

  lemma Regroup4(a: seq<byte>, b: seq<byte>, c: seq<byte>, d: seq<byte>, e: seq<byte>)
    ensures a + (b + c) + d + e == a + (b + (c + (d + e)))
  {
  }

  lemma CompactStringField(s: seq<byte>)
    ensures Decode(CompactString, s) == LiftBlob(TakeCompactString(s))
  {
  }

  /** Such a partition is served: the log of one empty batch, as bytes, is scanned to one batch, and the prefix it is
      sent with says 1 where the guide has its 61 bytes. */
  lemma OneBatchOffGuide(p: PartitionData, t: seq<byte>)
    requires CompactSize(|p.aborted_transactions_|)
    ensures var log := EncodeLog([EMPTY_BATCH]);
      && Scan(log) == [EMPTY_BATCH] && |log| == 61
      && (p.records_ == Scan(log) ==>
          Decode(GuidePartitionLayout(), Encode(PartitionDataLayout(), WirePartitionData(p)) + t)
          != Ok(WireGuidePartition(p), t))
  {
    var bs := [EMPTY_BATCH];
    WrittenLog(bs, []);
    BatchesConsume();
    NothingToScan(ParseBatch);
    LogIsLong(bs);
    EmptyBatchSize();
    hide Decode, Encode, EncodeLog, ParseBatch, PartitionDataLayout, WirePartitionData, GuidePartitionLayout;
    hide WireGuidePartition;
    assert EncodeLog(bs) + [] == EncodeLog(bs) && bs + [] == bs;
    if p.records_ == Scan(EncodeLog(bs)) {
      GuideClientReads(p, t);
    }
  }

  const EMPTY_BATCH := RecordBatch(0, 49, 0, 2, 0, 0, 0, 0, 0, 0, 0, 0, [])

  lemma OneBatchLog(b: RecordBatch)
    ensures EncodeLog([b]) == EncodeBatch(b)
  {
    hide EncodeBatch;
    EncodeAllAppend(EncodeBatch, [], b);
    assert [] + [b] == [b];
  }

  lemma PutSizes()
    ensures forall w, signed, n, out :: |Put(Int(w, signed), Num(n), out)| == |out| + w
    ensures forall e, out :: |Put(Array(e), Many([]), out)| == |out| + 4
  {
  }

  lemma EmptyBatchSize()
    ensures |EncodeLog([EMPTY_BATCH])| == 61
  {
    BatchWrites(EMPTY_BATCH, []);
    PutAppends(RecordBatchLayout(), WireBatch(EMPTY_BATCH), []);
    PutSizes();
    OneBatchLog(EMPTY_BATCH);
    assert WireRecords([]) == Many([]);
    hide Put, Encode, RecordBatchLayout, WireBatch, WireRecords;
  }

  // ---- Splitting a stream of responses ----

  lemma FramesConsume()
    ensures Consumes(TakeSizedBytes)
  {
    forall s | TakeSizedBytes(s).Ok?
      ensures |TakeSizedBytes(s).rest| < |s| && IsSuffix(TakeSizedBytes(s).rest, s)
    {
      SizedBytesSuffix(s);
      RewriteSizedBytes(s);
    }
  }

  /** The payloads of the frames at the front of a stream, as any client splits them. */
  function SplitFrames(s: seq<byte>): seq<seq<byte>> {
    FramesConsume();
    ScanWith(TakeSizedBytes, s)
  }

  lemma FrameSurvives(payload: seq<byte>)
    requires |payload| < TWO_31
    ensures Survives(TakeSizedBytes, EncodeFrame, payload)
  {
    FrameIsSized(payload);
    forall t ensures TakeSizedBytes(EncodeFrame(payload) + t) == Ok(payload, t) {
      SizedBytesRoundTrip(payload, t);
    }
  }

  /** Whether the size of every payload fits in the signed 32 bits that a frame has for it. */
  predicate AllSized(payloads: seq<seq<byte>>) {
    forall i | 0 <= i < |payloads| :: |payloads[i]| < TWO_31
  }

  lemma SizedSplit(payloads: seq<seq<byte>>, t: seq<byte>)
    requires AllSized(payloads)
    ensures SplitFrames(EncodeAll(EncodeFrame, payloads) + t) == payloads + SplitFrames(t)
  {
    FramesConsume();
    forall i | 0 <= i < |payloads| ensures Survives(TakeSizedBytes, EncodeFrame, payloads[i]) {
      FrameSurvives(payloads[i]);
    }
    hide TakeSizedBytes, EncodeFrame, Survives;
    WrittenScan(TakeSizedBytes, EncodeFrame, payloads, t);
  }

  /** The first payload that is split off is one whose size fits. */
  lemma FirstSplit(s: seq<byte>)
    ensures TakeSizedBytes(s).Err? ==> SplitFrames(s) == []
    ensures TakeSizedBytes(s).Ok? ==>
      && SplitFrames(s) == [TakeSizedBytes(s).value] + SplitFrames(TakeSizedBytes(s).rest)
      && |TakeSizedBytes(s).value| < TWO_31
  {
    FramesConsume();
    if TakeSizedBytes(s).Ok? {
      RewriteSizedBytes(s);
    }
    hide TakeSizedBytes;
  }

  lemma {:induction false} SplitIsSized(payloads: seq<seq<byte>>, t: seq<byte>)
    requires SplitFrames(EncodeAll(EncodeFrame, payloads) + t) == payloads + SplitFrames(t)
    ensures AllSized(payloads)
    decreases |payloads|
  {
    hide SplitFrames, TakeSizedBytes, EncodeFrame;
    if payloads != [] {
      var s := EncodeAll(EncodeFrame, payloads) + t;
      var first, rest := payloads[0], EncodeAll(EncodeFrame, payloads[1..]) + t;
      FirstSplit(s);
      assert first == SplitFrames(s)[0];
      FrameSurvives(first);
      SurvivesBefore(TakeSizedBytes, EncodeFrame, first, rest);
      assert s == EncodeFrame(first) + rest;
      assert SplitFrames(rest) == SplitFrames(s)[1..] == payloads[1..] + SplitFrames(t);
      SplitIsSized(payloads[1..], t);
    }
  }

  /** A stream of frames splits into the payloads that were framed exactly when every size fits its prefix. */
  lemma FramesSplit(payloads: seq<seq<byte>>, t: seq<byte>)
    ensures SplitFrames(EncodeAll(EncodeFrame, payloads) + t) == payloads + SplitFrames(t) <==> AllSized(payloads)
  {
    if AllSized(payloads) {
      SizedSplit(payloads, t);
    } else if SplitFrames(EncodeAll(EncodeFrame, payloads) + t) == payloads + SplitFrames(t) {
      SplitIsSized(payloads, t);
    }
  }

  /** The size of a payload of two to four gigabytes is sent as a negative number. */
  lemma LargeFrameFails(payload: seq<byte>, t: seq<byte>)
    requires TWO_31 <= |payload| < TWO_32
    ensures TakeSizedBytes(EncodeFrame(payload) + t).Err?
  {
    var n := |payload|;
    FrameIsSized(payload);
    assert Pow256(4) == TWO_32;
    BigBytesPeriodic(4, n);
    Ranges(n - TWO_32);
    IntRoundTrip(4, true, n - TWO_32, payload + t);
    hide TakeInt, BigBytes, EncodeFrame, InRange;
    Regroup(BigBytes(4, n), payload, t);
  }

  /** After such a payload the client finds nothing more. */
  lemma FramesLost(payloads: seq<seq<byte>>, i: nat, t: seq<byte>)
    requires i < |payloads| && AllSized(payloads[..i]) && TWO_31 <= |payloads[i]| < TWO_32
    ensures SplitFrames(EncodeAll(EncodeFrame, payloads) + t) == payloads[..i]
  {
    var before, big := EncodeAll(EncodeFrame, payloads[..i]), EncodeFrame(payloads[i]);
    var after := EncodeAll(EncodeFrame, payloads[i + 1..]);
    EncodeAllAround(EncodeFrame, payloads, i);
    LargeFrameFails(payloads[i], after + t);
    hide SplitFrames, TakeSizedBytes, EncodeFrame, EncodeAll;
    FirstSplit(big + (after + t));
    SizedSplit(payloads[..i], big + (after + t));
    Regroup(before, big + after, t);
    Regroup(big, after, t);
    assert payloads[..i] + [] == payloads[..i];
  }
}
