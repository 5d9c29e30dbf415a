/** Handling requests and serving a client (server.cpp). */
module Server {
  import opened Bytes
  import opened Wire
  import opened Streams
  import opened Reader
  import opened Uuids
  import opened Scanning
  import opened Log
  import opened Metadata
  import opened EventLaws
  import opened Requests
  import opened RequestReader
  import opened RequestLaws
  import opened Responses
  import opened ResponseLaws

  // ---- Fetch ----

  /** A partition whose log could be opened: no error, and the batches that scanning the log gives. */
  ghost predicate Delivers(disk: Disk, topicName: seq<byte>, partitionIndex: INT32, p: PartitionData) {
    && p.partition_index_ == partitionIndex && p.error_code_ == NONE && p.aborted_transactions_ == []
    && LogKey(topicName, partitionIndex) in disk
    && Scanned(disk[LogKey(topicName, partitionIndex)], p.records_)
  }

  predicate ReportsUnknown(p: PartitionData) {
    p.partition_index_ == 0 && p.error_code_ == UNKNOWN_TOPIC_ID && p.aborted_transactions_ == [] && p.records_ == []
  }

  /** How many of the requested partitions come before the first whose log cannot be opened. */
  function OpenCount(disk: Disk, topicName: seq<byte>, ps: seq<FetchPartition>): (k: nat)
    ensures k <= |ps|
    ensures forall i | 0 <= i < k :: LogKey(topicName, ps[i].partition_) in disk
    ensures k < |ps| ==> LogKey(topicName, ps[k].partition_) !in disk
  {
    if ps == [] || LogKey(topicName, ps[0].partition_) !in disk then 0
    else 1 + OpenCount(disk, topicName, ps[1..])
  }

  /** The first `k` of the requested partitions are delivered; if more were requested, one error entry follows. */
  ghost predicate DeliversFirst(disk: Disk, topicName: seq<byte>, ps: seq<FetchPartition>, k: nat,
                                res: seq<PartitionData>)
    requires k <= |ps|
  {
    && |res| == (if k < |ps| then k + 1 else k)
    && (forall i | 0 <= i < k :: Delivers(disk, topicName, ps[i].partition_, res[i]))
    && (k < |ps| ==> ReportsUnknown(res[k]))
  }

  /** The answer to the request for one topic. */
  ghost predicate FetchTopicAnswer(st: Index, disk: Disk, t: FetchTopic, res: FetchableTopicResponse) {
    && res.topic_id_ == t.topic_id_
    && match Get(st.names, t.topic_id_)
       case None => |res.partitions_| == 1 && ReportsUnknown(res.partitions_[0])
       case Some(name) =>
         DeliversFirst(disk, name, t.partitions_, OpenCount(disk, name, t.partitions_), res.partitions_)
  }

  /** Fails, like opening the log, when there is no log.  The fields that the server never assigns may hold anything. */
  method MakePartitionData(disk: Disk, topicName: seq<byte>, partitionIndex: INT32) returns (r: Option<PartitionData>)
    ensures r.Some? <==> LogKey(topicName, partitionIndex) in disk
    ensures r.Some? ==> Delivers(disk, topicName, partitionIndex, r.value)
  {
    var highWatermark: INT64, lastStableOffset: INT64, logStartOffset: INT64 := *, *, *;
    var preferredReadReplica: INT32 := *;
    var records :- ReadRecordBatches(disk, topicName, partitionIndex);
    r := Some(PartitionData(partitionIndex, NONE, highWatermark, lastStableOffset, logStartOffset, [],
                            preferredReadReplica, records));
  }

  method MakeUnknownPartition() returns (p: PartitionData)
    ensures ReportsUnknown(p)
  {
    var highWatermark: INT64, lastStableOffset: INT64, logStartOffset: INT64 := *, *, *;
    var preferredReadReplica: INT32 := *;
    p := PartitionData(0, UNKNOWN_TOPIC_ID, highWatermark, lastStableOffset, logStartOffset, [],
                       preferredReadReplica, []);
  }

  /** The body of the try block: partition after partition, until opening a log throws. */
  method MakePartitions(disk: Disk, topicName: seq<byte>, ps: seq<FetchPartition>)
    returns (partitions: seq<PartitionData>, thrown: bool)
    ensures |partitions| == OpenCount(disk, topicName, ps) && (thrown <==> |partitions| < |ps|)
    ensures forall i | 0 <= i < |partitions| :: Delivers(disk, topicName, ps[i].partition_, partitions[i])
  {
    hide Delivers;
    partitions := [];
    for i := 0 to |ps|
      invariant |partitions| == i
      invariant forall j | 0 <= j < i ::
        LogKey(topicName, ps[j].partition_) in disk && Delivers(disk, topicName, ps[j].partition_, partitions[j])
    {
      var partitionData := MakePartitionData(disk, topicName, ps[i].partition_);
      if partitionData.None? {
        return partitions, true;
      }
      partitions := partitions + [partitionData.value];
    }
    thrown := false;
  }

  method MakeFetchableTopicResponse(meta: ClusterMetadata, disk: Disk, fetchTopic: FetchTopic)
    returns (res: FetchableTopicResponse)
    ensures FetchTopicAnswer(meta.State(), disk, fetchTopic, res)
  {
    hide Delivers, ReportsUnknown, OpenCount;
    var partitions: seq<PartitionData>, thrown := [], true;
    var topicName := meta.GetTopicName(fetchTopic.topic_id_);
    if topicName.Some? {
      partitions, thrown := MakePartitions(disk, topicName.value, fetchTopic.partitions_);
    }
    if thrown {
      var unknown := MakeUnknownPartition();
      partitions := partitions + [unknown];
    }
    res := FetchableTopicResponse(fetchTopic.topic_id_, partitions);
  }

  ghost predicate FetchAnswer(st: Index, disk: Disk, request: FetchRequest, response: FetchResponse) {
    && response.error_code_ == NONE && response.throttle_time_ms_ == 0 && response.session_id_ == 0
    && |response.responses_| == |request.topics_|
    && forall i | 0 <= i < |request.topics_| :: FetchTopicAnswer(st, disk, request.topics_[i], response.responses_[i])
  }

  method HandleFetch(meta: ClusterMetadata, disk: Disk, request: FetchRequest) returns (response: FetchResponse)
    ensures FetchAnswer(meta.State(), disk, request, response)
  {
    var responses: seq<FetchableTopicResponse> := [];
    for i := 0 to |request.topics_|
      invariant |responses| == i
      invariant forall j | 0 <= j < i :: FetchTopicAnswer(meta.State(), disk, request.topics_[j], responses[j])
    {
      var topic := MakeFetchableTopicResponse(meta, disk, request.topics_[i]);
      responses := responses + [topic];
    }
    response := FetchResponse(0, NONE, 0, responses);
  }

  // ---- ApiVersions ----

  /** Version 4 is told what the server supports; any other version only that it is not supported. */
  predicate ApiVersionsAnswer(requestApiVersion: INT16, response: ApiVersionsResponse) {
    && response.throttle_time_ms_ == 0
    && if requestApiVersion == 4 then
         && response.error_code_ == NONE
         && response.api_keys_ ==
            [ApiVersion(FETCH, 0, 16), ApiVersion(API_VERSIONS, 0, 4), ApiVersion(DESCRIBE_TOPIC_PARTITIONS, 0, 0)]
       else
         response.error_code_ == UNSUPPORTED_VERSION && response.api_keys_ == []
  }

  method HandleApiVersions(header: RequestHeader) returns (response: ApiVersionsResponse)
    ensures ApiVersionsAnswer(header.request_api_version_, response)
  {
    if header.request_api_version_ != 4 {
      response := ApiVersionsResponse(UNSUPPORTED_VERSION, [], 0);
    } else {
      response := ApiVersionsResponse(
        NONE,
        [ApiVersion(FETCH, 0, 16), ApiVersion(API_VERSIONS, 0, 4), ApiVersion(DESCRIBE_TOPIC_PARTITIONS, 0, 0)],
        0);
    }
  }

  // ---- DescribeTopicPartitions ----

  predicate Describes(p: ResponsePartition, partitionId: INT32) {
    && p.error_code_ == NONE && p.partition_index_ == partitionId
    && p.replica_nodes_ == p.isr_nodes_ == p.eligible_leader_replicas_ == p.last_known_elr_ == p.offline_replicas_ == []
  }

  predicate DescribesAll(ps: seq<ResponsePartition>, partitionIds: seq<INT32>) {
    |ps| == |partitionIds| && forall i | 0 <= i < |ps| :: Describes(ps[i], partitionIds[i])
  }

  /** A topic that has an id but no partition record: looking its partitions up throws where nothing catches. */
  predicate Undescribable(st: Index, t: TopicRequest) {
    t.name_ in st.ids && st.ids[t.name_] !in st.partitions
  }

  predicate DescribeTopicAnswer(st: Index, t: TopicRequest, r: ResponseTopic) {
    && r.name_ == t.name_
    && match Get(st.ids, t.name_)
       case None => r.error_code_ == UNKNOWN_TOPIC_OR_PARTITION && r.topic_id_ == NIL_UUID && r.partitions_ == []
       case Some(id) =>
         && r.error_code_ == NONE && r.topic_id_ == id && id in st.partitions
         && DescribesAll(r.partitions_, st.partitions[id])
  }

  method MakeResponseTopic(meta: ClusterMetadata, topicRequest: TopicRequest) returns (r: Option<ResponseTopic>)
    ensures r.None? <==> Undescribable(meta.State(), topicRequest)
    ensures r.Some? ==> DescribeTopicAnswer(meta.State(), topicRequest, r.value)
  {
    var isInternal: bool, topicAuthorizedOperations: INT32 := *, *;
    var topicId := meta.GetTopicId(topicRequest.name_);
    if topicId.None? {
      return Some(ResponseTopic(UNKNOWN_TOPIC_OR_PARTITION, topicRequest.name_, NIL_UUID, isInternal, [],
                                topicAuthorizedOperations));
    }
    var partitionIds :- meta.GetPartitionIds(topicId.value);
    var partitions: seq<ResponsePartition> := [];
    for i := 0 to |partitionIds|
      invariant |partitions| == i
      invariant forall j | 0 <= j < i :: Describes(partitions[j], partitionIds[j])
    {
      var leaderId: INT32, leaderEpoch: INT32 := *, *;
      partitions := partitions + [ResponsePartition(NONE, partitionIds[i], leaderId, leaderEpoch, [], [], [], [], [])];
    }
    r := Some(ResponseTopic(NONE, topicRequest.name_, topicId.value, isInternal, partitions,
                            topicAuthorizedOperations));
  }

  predicate DescribeAnswer(st: Index, request: DescribeTopicPartitionsRequest,
                           response: DescribeTopicPartitionsResponse) {
    && response.throttle_time_ms_ == 0
    && |response.topics_| == |request.topics_|
    && forall i | 0 <= i < |request.topics_| :: DescribeTopicAnswer(st, request.topics_[i], response.topics_[i])
  }

  method HandleDescribe(meta: ClusterMetadata, request: DescribeTopicPartitionsRequest)
    returns (r: Option<DescribeTopicPartitionsResponse>)
    ensures r.None? <==> exists i :: 0 <= i < |request.topics_| && Undescribable(meta.State(), request.topics_[i])
    ensures r.Some? ==> DescribeAnswer(meta.State(), request, r.value)
  {
    var topics: seq<ResponseTopic> := [];
    for i := 0 to |request.topics_|
      invariant |topics| == i
      invariant forall j | 0 <= j < i ::
        && !Undescribable(meta.State(), request.topics_[j])
        && DescribeTopicAnswer(meta.State(), request.topics_[j], topics[j])
    {
      var topic :- MakeResponseTopic(meta, request.topics_[i]);
      topics := topics + [topic];
    }
    r := Some(DescribeTopicPartitionsResponse(0, topics));
  }

  // ---- Serving a client ----

  ghost predicate Answers(st: Index, disk: Disk, h: RequestHeader, request: Request, response: Response) {
    match (request, response)
    case (Fetch(q), FetchReply(r)) => FetchAnswer(st, disk, q, r)
    case (ApiVersions(_), ApiVersionsReply(r)) => ApiVersionsAnswer(h.request_api_version_, r)
    case (Describe(q), DescribeReply(r)) => DescribeAnswer(st, q, r)
    case _ => false
  }

  predicate Unanswerable(st: Index, request: Request) {
    && request.Describe?
    && exists i :: 0 <= i < |request.describe.topics_| && Undescribable(st, request.describe.topics_[i])
  }

  method HandleRequest(meta: ClusterMetadata, disk: Disk, header: RequestHeader, request: Request)
    returns (r: Option<Response>)
    ensures r.None? <==> Unanswerable(meta.State(), request)
    ensures r.Some? ==> Answers(meta.State(), disk, header, request, r.value)
  {
    match request
    case Fetch(q) =>
      var response := HandleFetch(meta, disk, q);
      r := Some(FetchReply(response));
    case ApiVersions(_) =>
      var response := HandleApiVersions(header);
      r := Some(ApiVersionsReply(response));
    case Describe(q) =>
      var response := HandleDescribe(meta, q);
      r := if response.None? then None else Some(DescribeReply(response.value));
  }

  lemma MessagesConsume()
    ensures Consumes(ParseMessage)
  {
    FramesConsume();
    forall s | ParseMessage(s).Ok?
      ensures |ParseMessage(s).rest| < |s| && IsSuffix(ParseMessage(s).rest, s)
    {
      hide TakeSizedBytes, ParsePayload;
      assert TakeSizedBytes(s).Ok?;
    }
  }

  lemma MessagesAreLocal()
    ensures Local(ParseMessage)
  {
    hide TakeSizedBytes, ParsePayload;
    forall used, r, t | ParseMessage(used + r).Ok? && ParseMessage(used + r).rest == r
      ensures ParseMessage(used + t) == Ok(ParseMessage(used + r).value, t)
    {
      SizedBytesLocal(used, r, t);
    }
  }

  /** The requests at the front of a stream, up to the first that is not a whole request with a known key. */
  function AllRequests(s: seq<byte>): seq<(RequestHeader, Request)> {
    MessagesConsume();
    ScanWith(ParseMessage, s)
  }

  /** The offset in `s` at which its first `i` requests end. */
  function RequestEnd(s: seq<byte>, i: nat): nat
    requires i <= |AllRequests(s)|
  {
    MessagesConsume();
    EndOf(ParseMessage, s, i)
  }

  lemma NoRequests()
    ensures AllRequests([]) == []
  {
    MessagesConsume();
    NothingToScan(ParseMessage);
  }

  lemma NoFrames()
    ensures SplitFrames([]) == []
  {
    FramesConsume();
    NothingToScan(TakeSizedBytes);
  }

  /** One request and what was sent back for it. */
  datatype Exchange = Exchange(header: RequestHeader, request: Request, response: Response)

  function Payloads(trace: seq<Exchange>): seq<seq<byte>> {
    seq(|trace|, i requires 0 <= i < |trace| => ResponsePayload(trace[i].header.correlation_id_, trace[i].response))
  }

  /** Everything sent in a run: one frame per exchange, in order. */
  function Frames(trace: seq<Exchange>): seq<byte> {
    EncodeAll(EncodeFrame, Payloads(trace))
  }

  lemma FramesAppend(trace: seq<Exchange>, e: Exchange)
    ensures Frames(trace + [e]) == Frames(trace) + ResponseFrame(e.header.correlation_id_, e.response)
  {
    var payload := ResponsePayload(e.header.correlation_id_, e.response);
    EncodeAllAppend(EncodeFrame, Payloads(trace), payload);
    hide ResponsePayload, Encode;
    assert Payloads(trace + [e]) == Payloads(trace) + [payload];
  }

  /** The exchanges answer the first requests of the stream, one by one. */
  ghost predicate Conversation(st: Index, disk: Disk, requests: seq<(RequestHeader, Request)>, trace: seq<Exchange>) {
    && |trace| <= |requests|
    && forall i | 0 <= i < |trace| ::
      && (trace[i].header, trace[i].request) == requests[i]
      && Answers(st, disk, trace[i].header, trace[i].request, trace[i].response)
  }

  /** Why a connection ended: no further request could be read, none could be answered, or its answer not be written. */
  datatype Stop = NoRequest | NoAnswer | NoWrite

  /** The loop ends as the C++ loop does, by an exception.  `trace` lists the exchanges that were completed before. */
  method ServeClient(fd: FileDescriptor, disk: Disk, meta: ClusterMetadata) returns (trace: seq<Exchange>, stop: Stop)
    modifies fd.readEnd, fd.writeEnd
    ensures Conversation(meta.State(), disk, AllRequests(old(fd.readEnd.pending)), trace)
    ensures stop != NoWrite ==> fd.writeEnd.accepted == old(fd.writeEnd.accepted) + Frames(trace)
    ensures stop == NoWrite ==> !Quiet(fd.writeEnd.schedule) && exists next ::
      && Conversation(meta.State(), disk, AllRequests(old(fd.readEnd.pending)), trace + [next])
      && WrotePart(old(fd.writeEnd.accepted) + Frames(trace),
                   ResponseFrame(next.header.correlation_id_, next.response), fd.writeEnd.accepted)
    ensures stop == NoRequest && Quiet(fd.readEnd.schedule) ==> |trace| == |AllRequests(old(fd.readEnd.pending))|
    ensures stop == NoAnswer ==>
      && |trace| < |AllRequests(old(fd.readEnd.pending))|
      && Unanswerable(meta.State(), AllRequests(old(fd.readEnd.pending))[|trace|].1)
  {
    hide ParseMessage, AllRequests, Answers, Unanswerable, ResponseFrame, WrotePart, Quiet, Frames, Conversation;
    trace := [];
    ghost var requests := AllRequests(fd.readEnd.pending);
    ghost var before := fd.writeEnd.accepted;
    assert before + [] == before;
    NothingYet(meta.State(), disk, requests);
    while true
      invariant |trace| <= |requests| && Conversation(meta.State(), disk, requests, trace)
      invariant AllRequests(fd.readEnd.pending) == requests[|trace|..]
      invariant fd.writeEnd.accepted == before + Frames(trace)
      decreases |fd.readEnd.pending|
    {
      NextRequest(fd.readEnd.pending, requests, |trace|);
      var requestMessage := new RequestMessage();
      var ok := requestMessage.Read(Descriptor(fd));
      if !ok {
        return trace, NoRequest;
      }
      var header, request := requestMessage.header_, requestMessage.request_.value;
      var response := HandleRequest(meta, disk, header, request);
      if response.None? {
        return trace, NoAnswer;
      }
      var next := Exchange(header, request, response.value);
      ok := WriteResponseMessage(fd, header.correlation_id_, response.value);
      if !ok {
        ConversationStep(meta.State(), disk, requests, trace, next);
        return trace, NoWrite;
      }
      FramesAppend(trace, next);
      ConversationStep(meta.State(), disk, requests, trace, next);
      trace := trace + [next];
    }
  }

  lemma NothingYet(st: Index, disk: Disk, requests: seq<(RequestHeader, Request)>)
    ensures Conversation(st, disk, requests, []) && Frames([]) == []
  {
  }

  lemma ConversationStep(st: Index, disk: Disk, requests: seq<(RequestHeader, Request)>, trace: seq<Exchange>,
                         next: Exchange)
    requires Conversation(st, disk, requests, trace)
    requires |trace| < |requests| && (next.header, next.request) == requests[|trace|]
    requires Answers(st, disk, next.header, next.request, next.response)
    ensures Conversation(st, disk, requests, trace + [next])
  {
    hide Answers;
  }

  lemma NextRequest(s: seq<byte>, requests: seq<(RequestHeader, Request)>, n: nat)
    requires n <= |requests| && AllRequests(s) == requests[n..]
    ensures ParseMessage(s).Err? ==> n == |requests|
    ensures ParseMessage(s).Ok? ==>
      && n < |requests| && requests[n] == ParseMessage(s).value
      && AllRequests(ParseMessage(s).rest) == requests[n + 1..]
      && |ParseMessage(s).rest| < |s|
  {
    hide ParseMessage;
    MessagesConsume();
    if ParseMessage(s).Ok? {
      assert requests[n..][1..] == requests[n + 1..];
      assert ([ParseMessage(s).value] + AllRequests(ParseMessage(s).rest))[1..] == AllRequests(ParseMessage(s).rest);
    }
  }

  // ---- Whole connections ----

  /** A request as a client sends it, with bytes at the end of its payload that the server does not read. */
  datatype Sent = Sent(header: RequestHeader, request: Request, extra: seq<byte>)

  predicate Sendable(m: Sent) {
    && Matches(m.header.request_api_key_, m.request) && Fits(m.request) && |m.header.client_id_| < 0x8000
    && |EncodePayload(m.header, m.request, m.extra)| < TWO_31
  }

  function EncodeSent(ms: seq<Sent>): seq<byte> {
    if ms == [] then []
    else EncodeFrame(EncodePayload(ms[0].header, ms[0].request, ms[0].extra)) + EncodeSent(ms[1..])
  }

  /** Unread bytes in one frame never shift the next: a stream of frames holds exactly the requests that were sent. */
  lemma {:induction false} RequestsAligned(ms: seq<Sent>, t: seq<byte>)
    requires forall i | 0 <= i < |ms| :: Sendable(ms[i])
    ensures AllRequests(EncodeSent(ms) + t) ==
      seq(|ms|, i requires 0 <= i < |ms| => (ms[i].header, ms[i].request)) + AllRequests(t)
    decreases |ms|
  {
    hide ParseMessage, EncodeFrame, EncodePayload, Fits;
    MessagesConsume();
    if ms == [] {
      assert EncodeSent(ms) + t == t;
    } else {
      var m, rest := ms[0], EncodeSent(ms[1..]) + t;
      var frame := EncodeFrame(EncodePayload(m.header, m.request, m.extra));
      FrameRoundTrip(m.header, m.request, m.extra, rest);
      assert EncodeSent(ms) + t == frame + rest;
      RequestsAligned(ms[1..], t);
    }
  }

  /** A client that splits what it receives by the size prefixes finds one payload per exchange, in order, exactly when
      the size of every payload fits its prefix. */
  lemma ResponsesAligned(trace: seq<Exchange>, t: seq<byte>)
    ensures SplitFrames(Frames(trace) + t) == Payloads(trace) + SplitFrames(t) <==> AllSized(Payloads(trace))
  {
    FramesSplit(Payloads(trace), t);
  }

  /** Cutting a stream of requests anywhere keeps exactly the requests whose frames end at or before the cut. */
  lemma RequestsCut(s: seq<byte>, k: nat)
    requires k <= |s|
    ensures var m := |AllRequests(s[..k])|;
      && m <= |AllRequests(s)| && AllRequests(s[..k]) == AllRequests(s)[..m]
      && forall i :: 0 <= i <= |AllRequests(s)| ==> (RequestEnd(s, i) <= k <==> i <= m)
  {
    hide ParseMessage;
    MessagesConsume();
    MessagesAreLocal();
    CutScan(ParseMessage, s, k);
  }

  /** Every payload starts with the correlation id of its request, then a tag byte unless it answers ApiVersions,
      then the body. */
  lemma PayloadStart(e: Exchange)
    ensures var payload := ResponsePayload(e.header.correlation_id_, e.response);
      TakeInt32(payload) == Ok(e.header.correlation_id_, HeaderTags(e.response) + EncodeResponse(e.response))
    ensures HeaderTags(e.response) == if e.response.ApiVersionsReply? then [] else [0]
  {
    var id, body := e.header.correlation_id_, HeaderTags(e.response) + EncodeResponse(e.response);
    hide EncodeResponse;
    IntRoundTrip(4, true, id, body);
    Ranges(id);
    hide BigBytes;
    assert BigBytes(4, id) + HeaderTags(e.response) + EncodeResponse(e.response) == BigBytes(4, id) + body;
  }

  /** End to end, when every request sent was answered: the client finds exactly the payloads that were written if
      and only if their sizes fit the prefixes; and then there is one per request, in the order sent, each starting
      with that request's correlation id. */
  lemma ConnectionAligned(st: Index, disk: Disk, ms: seq<Sent>, trace: seq<Exchange>)
    requires forall i | 0 <= i < |ms| :: Sendable(ms[i])
    requires Conversation(st, disk, AllRequests(EncodeSent(ms)), trace) && |trace| == |AllRequests(EncodeSent(ms))|
    ensures SplitFrames(Frames(trace)) == Payloads(trace) <==> AllSized(Payloads(trace))
    ensures |Payloads(trace)| == |ms|
    ensures forall i | 0 <= i < |ms| ::
      var p := TakeInt32(Payloads(trace)[i]);
      p.Ok? && p.value == ms[i].header.correlation_id_
  {
    hide Sendable, SplitFrames, Frames, ResponsePayload, Answers, TakeInt32, TakeInt;
    RequestsAligned(ms, []);
    NoRequests();
    assert EncodeSent(ms) + [] == EncodeSent(ms);
    ResponsesAligned(trace, []);
    NoFrames();
    assert Frames(trace) + [] == Frames(trace) && Payloads(trace) + [] == Payloads(trace);
    forall i | 0 <= i < |ms|
      ensures var p := TakeInt32(Payloads(trace)[i]); p.Ok? && p.value == ms[i].header.correlation_id_
    {
      assert (trace[i].header, trace[i].request) == AllRequests(EncodeSent(ms))[i] == (ms[i].header, ms[i].request);
      PayloadStart(trace[i]);
    }
  }

  // ---- A log, fetched ----

  /** What a fetch delivers of a partition whose log could be opened and read: all batches of the log, in the bytes that
      the file has for them exactly when the file was canonical. */
  lemma FetchedLog(st: Index, disk: Disk, request: FetchRequest, response: FetchResponse, i: nat, j: nat,
                   name: seq<byte>, partitionIndex: INT32)
    requires FetchAnswer(st, disk, request, response)
    requires i < |request.topics_| && Get(st.names, request.topics_[i].topic_id_) == Some(name)
    requires j < OpenCount(disk, name, request.topics_[i].partitions_)
    requires request.topics_[i].partitions_[j].partition_ == partitionIndex
    requires Quiet(disk[LogKey(name, partitionIndex)].schedule)
    ensures j < |response.responses_[i].partitions_|
    ensures var p, log := response.responses_[i].partitions_[j], disk[LogKey(name, partitionIndex)].bytes;
      && p.partition_index_ == partitionIndex && p.error_code_ == NONE
      && p.records_ == Scan(log)
      && (Encode(PartitionDataLayout(), WirePartitionData(p)) ==
            PartitionHead(p) + (CompactLength(|Scan(log)|) + Accepted(log)) + [0]
          <==> CanonicalLog(log))
  {
    hide Encode, PartitionDataLayout, WirePartitionData, PartitionHead, CompactLength, Scan, Accepted, CanonicalLog;
    assert FetchTopicAnswer(st, disk, request.topics_[i], response.responses_[i]);
    var p := response.responses_[i].partitions_[j];
    assert Delivers(disk, name, request.topics_[i].partitions_[j].partition_, p);
    PartitionCarriesLog(p, disk[LogKey(name, partitionIndex)].bytes);
  }

  /** The entries for a known topic: the requested partitions in order, up to the first whose log cannot be opened, and
      then one entry for the error. */
  lemma FetchedShape(st: Index, disk: Disk, t: FetchTopic, res: FetchableTopicResponse, name: seq<byte>, k: nat)
    requires FetchTopicAnswer(st, disk, t, res) && Get(st.names, t.topic_id_) == Some(name)
    requires k <= |t.partitions_|
    requires forall j | 0 <= j < k :: LogKey(name, t.partitions_[j].partition_) in disk
    requires k < |t.partitions_| ==> LogKey(name, t.partitions_[k].partition_) !in disk
    ensures res.topic_id_ == t.topic_id_
    ensures |res.partitions_| == if k < |t.partitions_| then k + 1 else k
    ensures forall j | 0 <= j < k ::
      && res.partitions_[j].partition_index_ == t.partitions_[j].partition_ && res.partitions_[j].error_code_ == NONE
      && res.partitions_[j].records_ <= Scan(disk[LogKey(name, t.partitions_[j].partition_)].bytes)
    ensures k < |t.partitions_| ==>
      && res.partitions_[k].partition_index_ == 0 && res.partitions_[k].error_code_ == UNKNOWN_TOPIC_ID
      && res.partitions_[k].records_ == []
  {
    hide Scan;
    assert OpenCount(disk, name, t.partitions_) == k;
  }

  // ---- Describe, then Fetch ----

  /** A client that looks a topic up with Describe and fetches by the id it is given gets the partitions of the name
      that the last topic record gave that id to; and this is the name it looked up exactly when no later topic
      record gave the id to another. */
  lemma DescribeThenFetch(es: seq<Event>, disk: Disk, i: nat, d: ResponseTopic, ps: seq<FetchPartition>,
                          f: FetchableTopicResponse)
    requires i < |es| && LastOfName(es, i)
    requires DescribeTopicAnswer(Replay(EMPTY, es), TopicRequest(es[i].name), d)
    requires FetchTopicAnswer(Replay(EMPTY, es), disk, FetchTopic(d.topic_id_, ps), f)
    ensures d.error_code_ == NONE && d.topic_id_ == es[i].id
    ensures exists k ::
      && i <= k < |es| && LastOfId(es, k) && es[k].id == es[i].id
      && DeliversFirst(disk, es[k].name, ps, OpenCount(disk, es[k].name, ps), f.partitions_)
    ensures Get(Replay(EMPTY, es).names, d.topic_id_) == Some(es[i].name) <==>
      forall j | i < j < |es| :: es[j].TopicRecord? ==> es[j].id != es[i].id
  {
    var st := Replay(EMPTY, es);
    IdResolvesBack(es, i);
    var id, name := es[i].id, st.names[es[i].id];
    NamesAreLast(es, id, name);
    hide Replay, OpenCount, DeliversFirst, DescribesAll;
    var k :| 0 <= k < |es| && LastOfId(es, k) && es[k] == TopicRecord(name, id);
    assert i <= k;
  }

  function Renaming(a: seq<byte>, b: seq<byte>, id: Uuid, partition: INT32): seq<Event> {
    [TopicRecord(a, id), PartitionRecord(partition, id), TopicRecord(b, id)]
  }

  lemma RenamingIsLogged(a: seq<byte>, b: seq<byte>, id: Uuid, partition: INT32)
    requires |a| + 24 < TWO_31 && |b| + 24 < TWO_31
    ensures var es := Renaming(a, b, id, partition);
      AllStorable(es) && EventsOf(AllRecords(Scan(EncodeLog([BatchOf(es)])))) == Some(es)
  {
    NameFits(a, id);
    NameFits(b, id);
    PartitionFits(partition, id);
    hide Storable, EncodeLog, Scan, EventsOf, BatchOf;
    EveryHistoryHappens(Renaming(a, b, id, partition));
  }

  lemma RenamedIsDescribed(a: seq<byte>, b: seq<byte>, id: Uuid, partition: INT32)
    ensures !Undescribable(Replay(EMPTY, Renaming(a, b, id, partition)), TopicRequest(a))
  {
    var es := Renaming(a, b, id, partition);
    var st := Replay(EMPTY, es);
    assert es[..2] == [es[0], es[1]] && es[..2][..1] == [es[0]];
    assert id in st.partitions by {
      ListsAreTold(es, id);
      assert PartitionsOf(es[..2], id) == PartitionsOf(es[..2][..1], id) + [partition];
      hide Replay;
    }
    ReplayKeepsAllToOneId(EMPTY, es, id);
    hide Replay;
  }

  lemma {:induction false} ReplayKeepsAllToOneId(st: Index, es: seq<Event>, id: Uuid)
    requires forall i | 0 <= i < |es| :: es[i].TopicRecord? ==> es[i].id == id
    requires forall n | n in st.ids :: st.ids[n] == id
    ensures forall n | n in Replay(st, es).ids :: Replay(st, es).ids[n] == id
    decreases |es|
  {
    if es != [] {
      ReplayKeepsAllToOneId(Apply(st, es[0]), es[1..], id);
    }
  }

  lemma RenamedIsFetched(a: seq<byte>, b: seq<byte>, id: Uuid, partition: INT32, disk: Disk, d: ResponseTopic,
                         ps: seq<FetchPartition>, f: FetchableTopicResponse)
    requires a != b
    requires DescribeTopicAnswer(Replay(EMPTY, Renaming(a, b, id, partition)), TopicRequest(a), d)
    requires FetchTopicAnswer(Replay(EMPTY, Renaming(a, b, id, partition)), disk, FetchTopic(d.topic_id_, ps), f)
    ensures d.error_code_ == NONE && d.topic_id_ == id
    ensures DeliversFirst(disk, b, ps, OpenCount(disk, b, ps), f.partitions_)
  {
    var es := Renaming(a, b, id, partition);
    hide DescribeTopicAnswer, FetchTopicAnswer, DeliversFirst, OpenCount, Replay;
    DescribeThenFetch(es, disk, 0, d, ps, f);
    var k :| 0 <= k < 3 && LastOfId(es, k) &&
      DeliversFirst(disk, es[k].name, ps, OpenCount(disk, es[k].name, ps), f.partitions_);
    assert es[k] == es[2];
  }

  /** If `d` is what Describe answers for `a`, and `f` what Fetch answers for the id in it, `f` holds the logs of
      `b`. */
  ghost predicate MisleadsAt(st: Index, a: seq<byte>, b: seq<byte>, disk: Disk, d: ResponseTopic,
                             ps: seq<FetchPartition>, f: FetchableTopicResponse)
  {
    DescribeTopicAnswer(st, TopicRequest(a), d) && FetchTopicAnswer(st, disk, FetchTopic(d.topic_id_, ps), f) ==>
      d.error_code_ == NONE && DeliversFirst(disk, b, ps, OpenCount(disk, b, ps), f.partitions_)
  }

  ghost predicate Misleads(st: Index, a: seq<byte>, b: seq<byte>) {
    forall disk, d, ps, f :: MisleadsAt(st, a, b, disk, d, ps, f)
  }

  lemma RenamingMisleads(a: seq<byte>, b: seq<byte>, id: Uuid, partition: INT32)
    requires a != b
    ensures Misleads(Replay(EMPTY, Renaming(a, b, id, partition)), a, b)
  {
    var st := Replay(EMPTY, Renaming(a, b, id, partition));
    forall disk, d, ps, f ensures MisleadsAt(st, a, b, disk, d, ps, f) {
      hide DeliversFirst, OpenCount, DescribeTopicAnswer, FetchTopicAnswer, Replay, Renaming;
      if DescribeTopicAnswer(st, TopicRequest(a), d) && FetchTopicAnswer(st, disk, FetchTopic(d.topic_id_, ps), f) {
        RenamedIsFetched(a, b, id, partition, disk, d, ps, f);
      }
    }
    hide MisleadsAt;
  }

  /** Describe and Fetch can disagree: a log, as bytes, that gives an id and a partition to one name and then the id to
      another.  Describe still answers for the first name, with the id; and whoever fetches by that id gets the logs of
      the second. */
  lemma RenamedTopic(a: seq<byte>, b: seq<byte>, id: Uuid, partition: INT32)
    requires a != b && |a| + 24 < TWO_31 && |b| + 24 < TWO_31
    ensures var es := Renaming(a, b, id, partition);
      && AllStorable(es) && EventsOf(AllRecords(Scan(EncodeLog([BatchOf(es)])))) == Some(es)
      && !Undescribable(Replay(EMPTY, es), TopicRequest(a))
      && Get(Replay(EMPTY, es).ids, a) == Some(id)
      && Misleads(Replay(EMPTY, es), a, b)
  {
    RenamingIsLogged(a, b, id, partition);
    RenamedIsDescribed(a, b, id, partition);
    RenamingMisleads(a, b, id, partition);
    var es := Renaming(a, b, id, partition);
    assert LastOfName(es, 0);
    IdsAreLast(es, a, id);
    hide Misleads, Replay, Undescribable, EncodeLog, Scan, EventsOf, BatchOf, AllStorable, AllRecords;
  }
}
