/** How many bytes an answer takes: what a request asks for decides it, before the answer is built. */
module AnswerSizes {
  import opened Bytes
  import opened Varint
  import opened Wire
  import opened Arrays
  import opened Streams
  import opened Uuids
  import opened Records
  import opened Scanning
  import opened Log
  import opened Metadata
  import opened Requests
  import opened RequestLaws
  import opened Responses
  import opened ResponseLaws
  import opened Server

  /** No log can hold more batches than a length field can count. */
  predicate LogsCountable(disk: Disk) {
    forall k | k in disk :: |disk[k].bytes| < 61 * (TWO_32 - 1)
  }

  /** Reading the logs meets no errors. */
  ghost predicate LogsQuiet(disk: Disk) {
    forall k | k in disk :: Quiet(disk[k].schedule)
  }

  // ---- Sizes of encodings ----

  /** What each kind of field adds to a stream. */
  lemma FieldSizes()
    ensures forall w: width, signed, n, out: seq<byte> :: |Put(Int(w, signed), Num(n), out)| == |out| + w
    ensures forall b: byte, out: seq<byte> :: |Put(Byte(b), Unit, out)| == |out| + 1
    ensures forall k: nat, d: seq<byte>, out: seq<byte> :: |Put(Raw(k), Blob(d), out)| == |out| + |d|
    ensures forall d: seq<byte>, out: seq<byte> ::
      |Put(CompactString, Blob(d), out)| == |out| + |CompactLength(|d|)| + |d|
    ensures forall e, items, out: seq<byte> ::
      |Put(CompactArray(e), Many(items), out)| == |out| + |CompactLength(|items|)| + |EncodeMany(e, items)|
  {
    forall e, items, out: seq<byte>
      ensures |Put(CompactArray(e), Many(items), out)| == |out| + |CompactLength(|items|)| + |EncodeMany(e, items)|
    {
      PutAppends(CompactArray(e), Many(items), out);
      CompactArrayEncoding(e, items);
      hide Put, Encode;
    }
    hide CompactLength;
  }

  lemma SizeOfPut(c: Schema, v: Value)
    ensures |Encode(c, v)| == |Put(c, v, [])|
  {
    PutAppends(c, v, []);
    hide Put, Encode;
  }

  lemma {:induction false} FixedItems(e: Schema, items: seq<Value>, size: nat)
    requires forall i | 0 <= i < |items| :: |Encode(e, items[i])| == size
    ensures |EncodeMany(e, items)| == |items| * size
    decreases |items|
  {
    hide Encode;
    if items != [] {
      FixedItems(e, items[1..], size);
      assert |items| * size == size + (|items| - 1) * size;
    }
  }

  /** A partition without aborted transactions: 36 bytes, the number of its batches, and the batches. */
  function DeliveredSize(bs: seq<RecordBatch>): nat {
    36 + |CompactLength(|bs|)| + |EncodeLog(bs)|
  }

  lemma PartitionDataSize(p: PartitionData)
    requires p.aborted_transactions_ == []
    ensures |Encode(PartitionDataLayout(), WirePartitionData(p))| == DeliveredSize(p.records_)
  {
    EncodeLogIsMany(p.records_);
    SizeOfPut(PartitionDataLayout(), WirePartitionData(p));
    PartitionDataWrites(p, []);
    FieldSizes();
    NoneAborted();
    hide Put, Encode, EncodeMany, EncodeLog, CompactLength, RecordBatchLayout, WireBatch, AbortedTransactionLayout;
    hide WirePartitionData, PartitionDataLayout, Code;
    assert WireBatches(p.records_) == Many(Wires(WireBatch, p.records_));
  }

  lemma NoneAborted()
    ensures WireAbortedTransactions([]) == Many([])
    ensures |CompactLength(0)| == 1 && EncodeMany(AbortedTransactionLayout(), []) == []
  {
  }

  lemma FetchableTopicSize(t: FetchableTopicResponse)
    ensures |Encode(FetchableTopicLayout(), WireFetchableTopic(t))| ==
      17 + |CompactLength(|t.partitions_|)|
      + |EncodeMany(PartitionDataLayout(), Wires(WirePartitionData, t.partitions_))|
  {
    var c, v := FetchableTopicLayout(), WireFetchableTopic(t);
    SizeOfPut(c, v);
    PutFields(c, v, []);
    FieldSizes();
    hide Put, Encode, EncodeMany, CompactLength, WirePartitionData, PartitionDataLayout;
  }

  lemma FetchResponseSize(r: FetchResponse)
    ensures |Encode(FetchResponseLayout(), WireFetchResponse(r))| ==
      11 + |CompactLength(|r.responses_|)|
      + |EncodeMany(FetchableTopicLayout(), Wires(WireFetchableTopic, r.responses_))|
  {
    var c, v := FetchResponseLayout(), WireFetchResponse(r);
    SizeOfPut(c, v);
    PutFields(c, v, []);
    FieldSizes();
    hide Put, Encode, EncodeMany, CompactLength, WireFetchableTopic, FetchableTopicLayout, Code;
  }

  lemma ResponsePartitionSize(p: ResponsePartition, id: INT32)
    requires Describes(p, id)
    ensures |Encode(ResponsePartitionLayout(), WireResponsePartition(p))| == 20
  {
    SizeOfPut(ResponsePartitionLayout(), WireResponsePartition(p));
    ResponsePartitionWrites(p, []);
    FieldSizes();
    assert WireNums([]) == Many([]) && |CompactLength(0)| == 1 && EncodeMany(Int(4, true), []) == [];
    hide Put, Encode, EncodeMany, CompactLength, WireNums, WireResponsePartition, ResponsePartitionLayout, Code;
  }

  lemma ResponseTopicSize(t: ResponseTopic, partitionIds: seq<INT32>)
    requires DescribesAll(t.partitions_, partitionIds)
    ensures |Encode(ResponseTopicLayout(), WireResponseTopic(t))| ==
      24 + |CompactLength(|t.name_|)| + |t.name_| + |CompactLength(|t.partitions_|)| + 20 * |t.partitions_|
  {
    var c, v := ResponseTopicLayout(), WireResponseTopic(t);
    var items := Wires(WireResponsePartition, t.partitions_);
    forall i | 0 <= i < |items| ensures |Encode(ResponsePartitionLayout(), items[i])| == 20 {
      ResponsePartitionSize(t.partitions_[i], partitionIds[i]);
    }
    FixedItems(ResponsePartitionLayout(), items, 20);
    SizeOfPut(c, v);
    PutFields(c, v, []);
    FieldSizes();
    hide Put, Encode, EncodeMany, CompactLength, WireResponsePartition, ResponsePartitionLayout, Code, Describes;
  }

  lemma DescribeResponseSize(r: DescribeTopicPartitionsResponse)
    ensures |Encode(DescribeResponseLayout(), WireDescribeResponse(r))| ==
      6 + |CompactLength(|r.topics_|)| + |EncodeMany(ResponseTopicLayout(), Wires(WireResponseTopic, r.topics_))|
  {
    var c, v := DescribeResponseLayout(), WireDescribeResponse(r);
    SizeOfPut(c, v);
    PutFields(c, v, []);
    FieldSizes();
    hide Put, Encode, EncodeMany, CompactLength, WireResponseTopic, ResponseTopicLayout;
  }

  lemma ApiVersionsResponseSize(r: ApiVersionsResponse)
    ensures |Encode(ApiVersionsResponseLayout(), WireApiVersionsResponse(r))| ==
      7 + |CompactLength(|r.api_keys_|)| + 7 * |r.api_keys_|
  {
    var c, v := ApiVersionsResponseLayout(), WireApiVersionsResponse(r);
    var items := Wires(WireApiVersion, r.api_keys_);
    forall i | 0 <= i < |items| ensures |Encode(ApiVersionLayout(), items[i])| == 7 {
      ApiVersionSize(r.api_keys_[i]);
    }
    FixedItems(ApiVersionLayout(), items, 7);
    SizeOfPut(c, v);
    PutFields(c, v, []);
    FieldSizes();
    hide Put, Encode, EncodeMany, CompactLength, WireApiVersion, ApiVersionLayout, Code;
  }

  lemma ApiVersionSize(a: ApiVersion)
    ensures |Encode(ApiVersionLayout(), WireApiVersion(a))| == 7
  {
    SizeOfPut(ApiVersionLayout(), WireApiVersion(a));
    PutFields(ApiVersionLayout(), WireApiVersion(a), []);
    FieldSizes();
    hide Put, Encode;
  }

  // ---- The size that a request asks for ----

  /** The entries for the requested partitions of a known topic, up to the first whose log cannot be opened; its entry
      takes 37 bytes. */
  function EntriesSize(disk: Disk, topicName: seq<byte>, ps: seq<FetchPartition>): nat {
    if ps == [] then 0
    else if LogKey(topicName, ps[0].partition_) !in disk then 37
    else DeliveredSize(Scan(disk[LogKey(topicName, ps[0].partition_)].bytes)) + EntriesSize(disk, topicName, ps[1..])
  }

  function EntryCount(disk: Disk, topicName: seq<byte>, ps: seq<FetchPartition>): nat {
    var k := OpenCount(disk, topicName, ps);
    if k < |ps| then k + 1 else k
  }

  function FetchTopicSize(st: Index, disk: Disk, t: FetchTopic): nat {
    match Get(st.names, t.topic_id_)
    case None => 55
    case Some(name) =>
      17 + |CompactLength(EntryCount(disk, name, t.partitions_))| + EntriesSize(disk, name, t.partitions_)
  }

  function FetchTopicsSize(st: Index, disk: Disk, ts: seq<FetchTopic>): nat {
    if ts == [] then 0 else FetchTopicSize(st, disk, ts[0]) + FetchTopicsSize(st, disk, ts[1..])
  }

  function DescribeTopicSize(st: Index, t: TopicRequest): nat {
    var n := match Get(st.ids, t.name_) case None => 0 case Some(id) => |PartitionList(st, id)|;
    24 + |CompactLength(|t.name_|)| + |t.name_| + |CompactLength(n)| + 20 * n
  }

  function DescribeTopicsSize(st: Index, ts: seq<TopicRequest>): nat {
    if ts == [] then 0 else DescribeTopicSize(st, ts[0]) + DescribeTopicsSize(st, ts[1..])
  }

  /** The size of the payload that answers a request: what the metadata, the logs and the request decide. */
  function AnswerSize(st: Index, disk: Disk, header: RequestHeader, request: Request): nat {
    match request
    case Fetch(q) => 16 + |CompactLength(|q.topics_|)| + FetchTopicsSize(st, disk, q.topics_)
    case ApiVersions(_) => if header.request_api_version_ == 4 then 33 else 12
    case Describe(q) => 11 + |CompactLength(|q.topics_|)| + DescribeTopicsSize(st, q.topics_)
  }

  /** `n` is at most `size`, and `size` itself if `exact`. */
  predicate Sized(n: nat, size: nat, exact: bool) {
    n <= size && (exact ==> n == size)
  }

  lemma CompactLengthGrows(m: nat, n: nat)
    requires m <= n && CompactSize(n)
    ensures |CompactLength(m)| <= |CompactLength(n)| <= 5
  {
    EncodedLengthMonotone(m + 1, n + 1);
    UnsignedVarlongRoundTrip(n + 1, []);
    hide EncodeUnsigned, TakeUnsignedVarint, TakeUnsignedVarlong;
  }

  lemma {:induction false} LogGrows(bs: seq<RecordBatch>, cs: seq<RecordBatch>)
    requires bs <= cs
    ensures |EncodeLog(bs)| <= |EncodeLog(cs)|
    decreases |bs|
  {
    hide EncodeBatch;
    if bs != [] {
      LogGrows(bs[1..], cs[1..]);
    }
  }

  lemma EntrySize(disk: Disk, topicName: seq<byte>, partitionIndex: INT32, p: PartitionData)
    requires LogsCountable(disk) && Delivers(disk, topicName, partitionIndex, p)
    ensures Sized(|Encode(PartitionDataLayout(), WirePartitionData(p))|,
                  DeliveredSize(Scan(disk[LogKey(topicName, partitionIndex)].bytes)), LogsQuiet(disk))
  {
    var file := disk[LogKey(topicName, partitionIndex)];
    PartitionDataSize(p);
    ScanBound(file.bytes);
    hide Encode, EncodeLog, CompactLength, Scan, PartitionDataLayout, WirePartitionData;
    LogGrows(p.records_, Scan(file.bytes));
    CompactLengthGrows(|p.records_|, |Scan(file.bytes)|);
  }

  lemma ErrorEntrySize(p: PartitionData)
    requires ReportsUnknown(p)
    ensures |Encode(PartitionDataLayout(), WirePartitionData(p))| == 37
  {
    PartitionDataSize(p);
    assert EncodeLog([]) == [] && |CompactLength(0)| == 1;
    hide Encode, PartitionDataLayout, WirePartitionData;
  }

  lemma ManySizeStep<T>(e: Schema, wire: T -> Value, xs: seq<T>)
    requires xs != []
    ensures |EncodeMany(e, Wires(wire, xs))| == |Encode(e, wire(xs[0]))| + |EncodeMany(e, Wires(wire, xs[1..]))|
  {
    hide Encode;
    assert Wires(wire, xs)[1..] == Wires(wire, xs[1..]);
  }

  lemma OneLess(disk: Disk, topicName: seq<byte>, ps: seq<FetchPartition>, res: seq<PartitionData>)
    requires ps != [] && DeliversFirst(disk, topicName, ps, OpenCount(disk, topicName, ps), res)
    requires LogKey(topicName, ps[0].partition_) in disk
    ensures res != [] && Delivers(disk, topicName, ps[0].partition_, res[0])
    ensures DeliversFirst(disk, topicName, ps[1..], OpenCount(disk, topicName, ps[1..]), res[1..])
  {
    hide Delivers, ReportsUnknown;
    var k := OpenCount(disk, topicName, ps);
    assert k == 1 + OpenCount(disk, topicName, ps[1..]);
  }

  lemma {:induction false} EntriesSized(disk: Disk, topicName: seq<byte>, ps: seq<FetchPartition>,
                                        res: seq<PartitionData>)
    requires LogsCountable(disk) && DeliversFirst(disk, topicName, ps, OpenCount(disk, topicName, ps), res)
    ensures Sized(|EncodeMany(PartitionDataLayout(), Wires(WirePartitionData, res))|, EntriesSize(disk, topicName, ps),
                  LogsQuiet(disk))
    decreases |ps|
  {
    hide Encode, PartitionDataLayout, WirePartitionData, DeliveredSize, Scan, LogsCountable, LogsQuiet, Delivers;
    hide ReportsUnknown;
    if ps == [] {
    } else if LogKey(topicName, ps[0].partition_) in disk {
      hide DeliversFirst, OpenCount;
      OneLess(disk, topicName, ps, res);
      EntrySize(disk, topicName, ps[0].partition_, res[0]);
      EntriesSized(disk, topicName, ps[1..], res[1..]);
      ManySizeStep(PartitionDataLayout(), WirePartitionData, res);
    } else {
      ErrorEntrySize(res[0]);
      ManySizeStep(PartitionDataLayout(), WirePartitionData, res);
      assert res[1..] == [];
    }
  }

  lemma FetchTopicSized(st: Index, disk: Disk, t: FetchTopic, res: FetchableTopicResponse)
    requires LogsCountable(disk) && FetchTopicAnswer(st, disk, t, res)
    ensures Sized(|Encode(FetchableTopicLayout(), WireFetchableTopic(res))|, FetchTopicSize(st, disk, t),
                  LogsQuiet(disk))
  {
    FetchableTopicSize(res);
    hide Encode, PartitionDataLayout, WirePartitionData, FetchableTopicLayout, WireFetchableTopic;
    hide LogsCountable, LogsQuiet, OpenCount, Delivers, EntriesSize;
    if t.topic_id_ in st.names {
      hide CompactLength, EncodeMany, ReportsUnknown;
      EntriesSized(disk, st.names[t.topic_id_], t.partitions_, res.partitions_);
    } else {
      ErrorEntrySize(res.partitions_[0]);
      ManySizeStep(PartitionDataLayout(), WirePartitionData, res.partitions_);
      assert |CompactLength(1)| == 1;
      hide CompactLength;
      assert res.partitions_[1..] == [];
    }
  }

  lemma {:induction false} FetchTopicsSized(st: Index, disk: Disk, ts: seq<FetchTopic>,
                                            res: seq<FetchableTopicResponse>)
    requires LogsCountable(disk) && |res| == |ts|
    requires forall i | 0 <= i < |ts| :: FetchTopicAnswer(st, disk, ts[i], res[i])
    ensures Sized(|EncodeMany(FetchableTopicLayout(), Wires(WireFetchableTopic, res))|, FetchTopicsSize(st, disk, ts),
                  LogsQuiet(disk))
    decreases |ts|
  {
    hide Encode, FetchableTopicLayout, WireFetchableTopic, FetchTopicSize, LogsCountable, LogsQuiet, FetchTopicAnswer;
    if ts != [] {
      FetchTopicSized(st, disk, ts[0], res[0]);
      FetchTopicsSized(st, disk, ts[1..], res[1..]);
      ManySizeStep(FetchableTopicLayout(), WireFetchableTopic, res);
    }
  }

  lemma DescribeTopicSized(st: Index, t: TopicRequest, r: ResponseTopic)
    requires DescribeTopicAnswer(st, t, r)
    ensures |Encode(ResponseTopicLayout(), WireResponseTopic(r))| == DescribeTopicSize(st, t)
  {
    hide Describes, Encode, CompactLength, ResponseTopicLayout, WireResponseTopic;
    ResponseTopicSize(r, if t.name_ in st.ids then st.partitions[st.ids[t.name_]] else []);
  }

  lemma {:induction false} DescribeTopicsSized(st: Index, ts: seq<TopicRequest>, res: seq<ResponseTopic>)
    requires |res| == |ts| && forall i | 0 <= i < |ts| :: DescribeTopicAnswer(st, ts[i], res[i])
    ensures |EncodeMany(ResponseTopicLayout(), Wires(WireResponseTopic, res))| == DescribeTopicsSize(st, ts)
    decreases |ts|
  {
    hide Encode, ResponseTopicLayout, WireResponseTopic, DescribeTopicSize, DescribeTopicAnswer;
    if ts != [] {
      DescribeTopicSized(st, ts[0], res[0]);
      DescribeTopicsSized(st, ts[1..], res[1..]);
      ManySizeStep(ResponseTopicLayout(), WireResponseTopic, res);
    }
  }

  lemma ApiVersionsSized(version: INT16, r: ApiVersionsResponse)
    requires ApiVersionsAnswer(version, r)
    ensures |Encode(ApiVersionsResponseLayout(), WireApiVersionsResponse(r))| == if version == 4 then 29 else 8
  {
    ApiVersionsResponseSize(r);
    assert |CompactLength(0)| == 1 && |CompactLength(3)| == 1;
    hide Encode, CompactLength, ApiVersionsResponseLayout, WireApiVersionsResponse;
  }

  /** The size of an answer is known before the answer is: no payload is longer than its request asks for, and when the
      logs are read without errors it is exactly that long. */
  lemma AnswerSized(st: Index, disk: Disk, header: RequestHeader, request: Request, response: Response)
    requires LogsCountable(disk) && Answers(st, disk, header, request, response)
    ensures Sized(|ResponsePayload(header.correlation_id_, response)|, AnswerSize(st, disk, header, request),
                  LogsQuiet(disk))
  {
    hide Encode, BigBytes, CompactLength, LogsCountable, LogsQuiet, FetchTopicAnswer, DescribeTopicAnswer, EncodeMany;
    hide FetchResponseLayout, WireFetchResponse, DescribeResponseLayout, WireDescribeResponse;
    hide ApiVersionsResponseLayout, WireApiVersionsResponse, ApiVersionsAnswer, WireFetchableTopic, WireResponseTopic;
    match (request, response)
    case (Fetch(q), FetchReply(r)) =>
      FetchResponseSize(r);
      FetchTopicsSized(st, disk, q.topics_, r.responses_);
    case (ApiVersions(_), ApiVersionsReply(r)) =>
      ApiVersionsSized(header.request_api_version_, r);
    case (Describe(q), DescribeReply(r)) =>
      DescribeResponseSize(r);
      DescribeTopicsSized(st, q.topics_, r.topics_);
  }

  // ---- Bounds from the lengths of the log files ----

  /** The lengths of the log files that a topic is fetched from, and what comes with each. */
  function FilesSize(disk: Disk, topicName: seq<byte>, ps: seq<FetchPartition>): nat {
    if ps == [] then 0
    else
      var key := LogKey(topicName, ps[0].partition_);
      41 + (if key in disk then |disk[key].bytes| else 0) + FilesSize(disk, topicName, ps[1..])
  }

  /** What is sent for a partition is at most 41 bytes longer than its log file. */
  lemma DeliveredBound(s: seq<byte>)
    requires |s| < 61 * (TWO_32 - 1)
    ensures DeliveredSize(Scan(s)) <= 41 + |s|
  {
    ByteExact(s);
    ScanBound(s);
    hide EncodeLog, CompactLength, Scan, Tail, CanonicalLog;
    CompactLengthGrows(|Scan(s)|, |Scan(s)|);
  }

  lemma {:induction false} EntriesBound(disk: Disk, topicName: seq<byte>, ps: seq<FetchPartition>)
    requires LogsCountable(disk)
    ensures EntriesSize(disk, topicName, ps) <= FilesSize(disk, topicName, ps)
    decreases |ps|
  {
    hide DeliveredSize, Scan;
    if ps != [] && LogKey(topicName, ps[0].partition_) in disk {
      DeliveredBound(disk[LogKey(topicName, ps[0].partition_)].bytes);
      EntriesBound(disk, topicName, ps[1..]);
    }
  }

  function TopicFilesSize(st: Index, disk: Disk, ts: seq<FetchTopic>): nat {
    if ts == [] then 0
    else
      var files := match Get(st.names, ts[0].topic_id_)
                   case None => 0
                   case Some(name) => FilesSize(disk, name, ts[0].partitions_);
      55 + files + TopicFilesSize(st, disk, ts[1..])
  }

  lemma FetchTopicBound(st: Index, disk: Disk, t: FetchTopic)
    requires LogsCountable(disk) && FetchTopicFits(t)
    ensures match Get(st.names, t.topic_id_)
      case None => FetchTopicSize(st, disk, t) <= 55
      case Some(name) => FetchTopicSize(st, disk, t) <= 55 + FilesSize(disk, name, t.partitions_)
  {
    hide LogsCountable, EntriesSize, FilesSize, CompactLength;
    if t.topic_id_ in st.names {
      var name := st.names[t.topic_id_];
      EntriesBound(disk, name, t.partitions_);
      CompactLengthGrows(EntryCount(disk, name, t.partitions_), |t.partitions_|);
    }
  }

  lemma {:induction false} FetchTopicsBound(st: Index, disk: Disk, ts: seq<FetchTopic>)
    requires LogsCountable(disk) && forall i | 0 <= i < |ts| :: FetchTopicFits(ts[i])
    ensures FetchTopicsSize(st, disk, ts) <= TopicFilesSize(st, disk, ts)
    decreases |ts|
  {
    hide LogsCountable, FetchTopicSize, FetchTopicFits, FilesSize;
    if ts != [] {
      FetchTopicBound(st, disk, ts[0]);
      FetchTopicsBound(st, disk, ts[1..]);
    }
  }

  /** A fetch is answered with no more than the lengths of the log files it asks for, and 55 bytes a topic, 41 bytes a
      partition and 21 bytes on top. */
  lemma FetchBound(st: Index, disk: Disk, header: RequestHeader, request: FetchRequest)
    requires LogsCountable(disk) && FetchRequestFits(request)
    ensures AnswerSize(st, disk, header, Fetch(request)) <= 21 + TopicFilesSize(st, disk, request.topics_)
  {
    hide LogsCountable, FetchTopicFits, CompactLength;
    FetchTopicsBound(st, disk, request.topics_);
    CompactLengthGrows(|request.topics_|, |request.topics_|);
  }

  // ---- An answer that is too large ----

  function EmptyBatches(n: nat): (bs: seq<RecordBatch>)
    ensures |bs| == n
  {
    seq(n, i => EMPTY_BATCH)
  }

  lemma {:induction false} EmptyBatchesSize(n: nat)
    ensures |EncodeLog(EmptyBatches(n))| == 61 * n
    ensures AllWellFormed(EmptyBatches(n))
    decreases n
  {
    hide EncodeBatch;
    if n > 0 {
      EmptyBatchesSize(n - 1);
      EmptyBatchSize();
      OneBatchLog(EMPTY_BATCH);
      assert EmptyBatches(n)[1..] == EmptyBatches(n - 1);
    }
  }

  lemma EmptyBatchesScan(n: nat)
    ensures Scan(EncodeLog(EmptyBatches(n))) == EmptyBatches(n)
  {
    EmptyBatchesSize(n);
    WrittenLog(EmptyBatches(n), []);
    BatchesConsume();
    NothingToScan(ParseBatch);
    hide ParseBatch, EncodeLog, EmptyBatches;
    assert EncodeLog(EmptyBatches(n)) + [] == EncodeLog(EmptyBatches(n)) && EmptyBatches(n) + [] == EmptyBatches(n);
  }

  /** The request for one partition of one topic. */
  predicate AsksFor(request: FetchRequest, id: Uuid, partitionIndex: INT32) {
    && |request.topics_| == 1 && request.topics_[0].topic_id_ == id
    && |request.topics_[0].partitions_| == 1 && request.topics_[0].partitions_[0].partition_ == partitionIndex
  }

  lemma EmptyBatchesDelivered(n: nat)
    requires CompactSize(n)
    ensures 61 * n <= DeliveredSize(Scan(EncodeLog(EmptyBatches(n)))) <= 61 * n + 41
  {
    EmptyBatchesSize(n);
    EmptyBatchesScan(n);
    CompactLengthGrows(n, n);
    hide EncodeLog, EmptyBatches, Scan, CompactLength;
  }

  lemma OneEntry(disk: Disk, topicName: seq<byte>, ps: seq<FetchPartition>)
    requires |ps| == 1 && LogKey(topicName, ps[0].partition_) in disk
    ensures EntryCount(disk, topicName, ps) == 1
    ensures EntriesSize(disk, topicName, ps) ==
      DeliveredSize(Scan(disk[LogKey(topicName, ps[0].partition_)].bytes))
  {
    hide DeliveredSize, Scan;
    assert ps[1..] == [];
  }

  lemma OneTopic(st: Index, disk: Disk, ts: seq<FetchTopic>)
    requires |ts| == 1
    ensures FetchTopicsSize(st, disk, ts) == FetchTopicSize(st, disk, ts[0])
  {
    hide FetchTopicSize;
    assert ts[1..] == [];
  }

  /** Fetching a log of `n` empty batches takes a few bytes more than the log has. */
  lemma LargeAnswerSize(st: Index, disk: Disk, header: RequestHeader, request: FetchRequest, name: seq<byte>, id: Uuid,
                        partitionIndex: INT32, n: nat)
    requires Get(st.names, id) == Some(name) && AsksFor(request, id, partitionIndex) && CompactSize(n)
    requires LogKey(name, partitionIndex) in disk
    requires disk[LogKey(name, partitionIndex)].bytes == EncodeLog(EmptyBatches(n))
    ensures 61 * n <= AnswerSize(st, disk, header, Fetch(request)) <= 61 * n + 76
  {
    EmptyBatchesDelivered(n);
    OneTopic(st, disk, request.topics_);
    OneEntry(disk, name, request.topics_[0].partitions_);
    assert |CompactLength(1)| == 1;
    hide CompactLength, EncodeLog, EmptyBatches, Scan, DeliveredSize, EntriesSize, EntryCount, FetchTopicsSize;
  }
}
