/** What a client gets for its requests, from the bytes it sends to the answers it decodes. */
module Clients {
  import opened Bytes
  import opened Wire
  import opened WireLaws
  import opened Streams
  import opened Reader
  import opened Uuids
  import opened Records
  import opened Log
  import opened Metadata
  import opened Requests
  import opened RequestLaws
  import opened Responses
  import opened ResponseLaws
  import opened Server
  import opened AnswerSizes

  // ---- The answers fit their length fields ----

  predicate ListsCountable(st: Index) {
    forall id | id in st.partitions :: CompactSize(|st.partitions[id]|)
  }

  lemma DeliveredFits(disk: Disk, topicName: seq<byte>, partitionIndex: INT32, p: PartitionData)
    requires LogsCountable(disk) && Delivers(disk, topicName, partitionIndex, p)
    ensures PartitionDataFits(p)
  {
    var s := disk[LogKey(topicName, partitionIndex)].bytes;
    ScanBound(s);
    ScannedAreWellFormed(s);
    hide Scan, WellFormed;
    forall i | 0 <= i < |p.records_| ensures WellFormed(p.records_[i]) {
      assert p.records_[i] == Scan(s)[i];
    }
  }

  lemma FetchTopicAnswerFits(st: Index, disk: Disk, t: FetchTopic, res: FetchableTopicResponse)
    requires LogsCountable(disk) && FetchTopicFits(t) && FetchTopicAnswer(st, disk, t, res)
    ensures FetchableTopicFits(res)
  {
    hide Delivers, LogsCountable, OpenCount;
    if t.topic_id_ in st.names {
      var name := st.names[t.topic_id_];
      var k := OpenCount(disk, name, t.partitions_);
      forall i | 0 <= i < k ensures PartitionDataFits(res.partitions_[i]) {
        DeliveredFits(disk, name, t.partitions_[i].partition_, res.partitions_[i]);
      }
    }
  }

  lemma FetchAnswerFits(st: Index, disk: Disk, request: FetchRequest, response: FetchResponse)
    requires LogsCountable(disk) && FetchRequestFits(request) && FetchAnswer(st, disk, request, response)
    ensures FetchResponseFits(response)
  {
    hide LogsCountable, FetchTopicAnswer, FetchTopicFits, FetchableTopicFits;
    forall i | 0 <= i < |response.responses_| ensures FetchableTopicFits(response.responses_[i]) {
      FetchTopicAnswerFits(st, disk, request.topics_[i], response.responses_[i]);
    }
  }

  lemma DescribeTopicAnswerFits(st: Index, t: TopicRequest, r: ResponseTopic)
    requires ListsCountable(st) && CompactSize(|t.name_|) && DescribeTopicAnswer(st, t, r)
    ensures ResponseTopicFits(r)
  {
  }

  lemma DescribeAnswerFits(st: Index, request: DescribeTopicPartitionsRequest,
                           response: DescribeTopicPartitionsResponse)
    requires ListsCountable(st) && DescribeRequestFits(request) && DescribeAnswer(st, request, response)
    ensures DescribeResponseFits(response)
  {
    hide ListsCountable, DescribeTopicAnswer, ResponseTopicFits;
    forall i | 0 <= i < |response.topics_| ensures ResponseTopicFits(response.topics_[i]) {
      DescribeTopicAnswerFits(st, request.topics_[i], response.topics_[i]);
    }
  }

  /** Every answer to a request that fits fits. */
  lemma AnswersFit(st: Index, disk: Disk, h: RequestHeader, request: Request, response: Response)
    requires LogsCountable(disk) && ListsCountable(st) && Fits(request) && Answers(st, disk, h, request, response)
    ensures ResponseFits(response)
  {
    hide LogsCountable, ListsCountable, FetchRequestFits, FetchAnswer, FetchResponseFits;
    hide DescribeRequestFits, DescribeAnswer, DescribeResponseFits;
    match (request, response)
    case (Fetch(q), FetchReply(r)) => FetchAnswerFits(st, disk, q, r);
    case (ApiVersions(_), ApiVersionsReply(r)) =>
    case (Describe(q), DescribeReply(r)) => DescribeAnswerFits(st, q, r);
  }

  lemma {:induction false} RecordsCounted(bs: seq<RecordBatch>)
    ensures |AllRecords(bs)| == RecordCount(bs)
    decreases |bs|
  {
    if bs != [] {
      RecordsCounted(bs[1..]);
    }
  }

  lemma {:induction false} EventsCounted(rs: seq<Record>)
    ensures EventsOf(rs).Some? ==> |EventsOf(rs).value| == |rs|
    decreases |rs|
  {
    hide ParseEvent;
    if rs != [] {
      EventsCounted(rs[1..]);
    }
  }

  lemma {:induction false} AtMostAllPartitions(es: seq<Event>, id: Uuid)
    ensures |PartitionsOf(es, id)| <= |es|
    decreases |es|
  {
    if es != [] {
      AtMostAllPartitions(es[..|es| - 1], id);
    }
  }

  /** The partition lists that a metadata log builds are no longer than the log has room for. */
  lemma ReplayedListsCountable(log: LogFile, bs: seq<RecordBatch>, es: seq<Event>)
    requires |log.bytes| < 7 * (TWO_32 - 1)
    requires Scanned(log, bs) && EventsOf(AllRecords(bs)) == Some(es)
    ensures ListsCountable(Replay(EMPTY, es))
  {
    hide Scan, Replay, EventsOf, PartitionsOf;
    var all := Scan(log.bytes);
    ScanBound(log.bytes);
    RecordsOfPrefix(bs, all);
    RecordsCounted(all);
    EventsCounted(AllRecords(bs));
    forall id | id in Replay(EMPTY, es).partitions
      ensures CompactSize(|Replay(EMPTY, es).partitions[id]|)
    {
      ListsAreTold(es, id);
      AtMostAllPartitions(es, id);
    }
  }

  // ---- Decoding what the server sent ----

  /** The layout in which a client expects the answer to its request. */
  function AnswerLayout(request: Request): Schema {
    match request
    case Fetch(_) => FetchResponseLayout()
    case ApiVersions(_) => ApiVersionsResponseLayout()
    case Describe(_) => DescribeResponseLayout()
  }

  function WireResponse(r: Response): Value {
    match r
    case FetchReply(f) => WireFetchResponse(f)
    case ApiVersionsReply(v) => WireApiVersionsResponse(v)
    case DescribeReply(d) => WireDescribeResponse(d)
  }

  /** How a client reads the answer to its request: a correlation id, tagged fields unless it asked for ApiVersions, and
      the fields of the answer. */
  function ClientReads(request: Request, payload: seq<byte>): Parsed<(INT32, Value)> {
    var (id, s) :- TakeInt32(payload);
    var (_, s) :- if request.ApiVersions? then Ok((), s) else TakeByte(0, s);
    var (body, s) :- Decode(AnswerLayout(request), s);
    Ok((id, body), s)
  }

  lemma BodyIsRead(st: Index, disk: Disk, h: RequestHeader, request: Request, response: Response)
    requires ResponseFits(response) && Answers(st, disk, h, request, response)
    ensures Decode(AnswerLayout(request), EncodeResponse(response)) == Ok(WireResponse(response), [])
  {
    hide Decode, Encode, FetchResponseFits, DescribeResponseFits, FetchAnswer, DescribeAnswer, ApiVersionsAnswer;
    hide WireFetchResponse, WireDescribeResponse, WireApiVersionsResponse;
    hide FetchResponseLayout, DescribeResponseLayout, ApiVersionsResponseLayout;
    assert EncodeResponse(response) + [] == EncodeResponse(response);
    match (request, response)
    case (Fetch(_), FetchReply(r)) => FetchResponseRoundTrip(r, []);
    case (ApiVersions(_), ApiVersionsReply(r)) =>
      ApiVersionsResponseIsTyped(r);
      RoundTrip(ApiVersionsResponseLayout(), WireApiVersionsResponse(r), []);
    case (Describe(_), DescribeReply(r)) => DescribeResponseRoundTrip(r, []);
  }

  /** A client reads from a payload the correlation id of its request and every field of the answer, and nothing is
      left. */
  lemma PayloadIsRead(st: Index, disk: Disk, e: Exchange)
    requires LogsCountable(disk) && ListsCountable(st)
    requires Fits(e.request) && Answers(st, disk, e.header, e.request, e.response)
    ensures ClientReads(e.request, ResponsePayload(e.header.correlation_id_, e.response)) ==
      Ok((e.header.correlation_id_, WireResponse(e.response)), [])
  {
    hide LogsCountable, ListsCountable, Fits, Decode, EncodeResponse, WireResponse, AnswerLayout, TakeInt32;
    hide TakeInt, ResponsePayload;
    hide FetchAnswer, DescribeAnswer, ApiVersionsAnswer;
    AnswersFit(st, disk, e.header, e.request, e.response);
    BodyIsRead(st, disk, e.header, e.request, e.response);
    PayloadStart(e);
    var body := EncodeResponse(e.response);
    assert [0] + body != [] && ([0] + body)[1..] == body && [] + body == body;
  }

  /** Whether the payloads that the requests ask for have sizes that a frame can announce. */
  predicate AllAskedSized(st: Index, disk: Disk, ms: seq<Sent>) {
    forall i | 0 <= i < |ms| :: AnswerSize(st, disk, ms[i].header, ms[i].request) < TWO_31
  }

  /** The exchanges are those of the requests that were sent. */
  predicate Exchanges(ms: seq<Sent>, trace: seq<Exchange>) {
    && |trace| == |ms|
    && forall i | 0 <= i < |ms| :: trace[i].header == ms[i].header && trace[i].request == ms[i].request
  }

  lemma AllAnswered(st: Index, disk: Disk, ms: seq<Sent>, trace: seq<Exchange>)
    requires forall i | 0 <= i < |ms| :: Sendable(ms[i])
    requires Conversation(st, disk, AllRequests(EncodeSent(ms)), trace)
    requires |trace| == |AllRequests(EncodeSent(ms))|
    ensures Exchanges(ms, trace)
    ensures forall i | 0 <= i < |ms| :: Answers(st, disk, ms[i].header, ms[i].request, trace[i].response)
  {
    RequestsAligned(ms, []);
    NoRequests();
    assert EncodeSent(ms) + [] == EncodeSent(ms);
    hide Answers, Sendable, EncodeSent;
    forall i | 0 <= i < |ms|
      ensures trace[i].header == ms[i].header && trace[i].request == ms[i].request
    {
      assert (trace[i].header, trace[i].request) == AllRequests(EncodeSent(ms))[i] == (ms[i].header, ms[i].request);
    }
  }

  /** The requests decide whether all payloads can be framed: if every size asked for fits, every size sent does, and
      when the logs are read without errors also the other way round. */
  lemma SizesDecide(st: Index, disk: Disk, ms: seq<Sent>, trace: seq<Exchange>)
    requires LogsCountable(disk) && Exchanges(ms, trace)
    requires forall i | 0 <= i < |ms| :: Answers(st, disk, ms[i].header, ms[i].request, trace[i].response)
    ensures AllAskedSized(st, disk, ms) ==> AllSized(Payloads(trace))
    ensures LogsQuiet(disk) ==> (AllAskedSized(st, disk, ms) <==> AllSized(Payloads(trace)))
  {
    hide LogsCountable, LogsQuiet, Answers, AnswerSize, ResponsePayload;
    forall i | 0 <= i < |ms|
      ensures Sized(|Payloads(trace)[i]|, AnswerSize(st, disk, ms[i].header, ms[i].request), LogsQuiet(disk))
    {
      AnswerSized(st, disk, ms[i].header, ms[i].request, trace[i].response);
    }
  }

  /** End to end: with metadata replayed from a log, when every request sent was answered and no answer asked for is too
      large to frame, the client finds one payload per request in the order sent, and decodes from it the correlation id
      of that request and, field by field, the answer that the server's maps and logs give to it. */
  lemma EveryAnswerIsRead(disk: Disk, bs: seq<RecordBatch>, es: seq<Event>, ms: seq<Sent>, trace: seq<Exchange>)
    requires LogsCountable(disk)
    requires METADATA_LOG in disk && |disk[METADATA_LOG].bytes| < 7 * (TWO_32 - 1)
    requires Scanned(disk[METADATA_LOG], bs) && EventsOf(AllRecords(bs)) == Some(es)
    requires forall i | 0 <= i < |ms| :: Sendable(ms[i])
    requires Conversation(Replay(EMPTY, es), disk, AllRequests(EncodeSent(ms)), trace)
    requires |trace| == |AllRequests(EncodeSent(ms))|
    requires AllAskedSized(Replay(EMPTY, es), disk, ms)
    ensures |trace| == |ms| && Received(Replay(EMPTY, es), disk, ms, trace, Frames(trace))
  {
    hide LogsCountable, Scanned, EventsOf, Replay, SplitFrames, Frames, Answers, ClientReads, WireResponse;
    hide Conversation;
    hide AllRequests, AllAskedSized, ResponsePayload, AllSized;
    var st := Replay(EMPTY, es);
    ReplayedListsCountable(disk[METADATA_LOG], bs, es);
    AllAnswered(st, disk, ms, trace);
    SizesDecide(st, disk, ms, trace);
    ResponsesAligned(trace, []);
    NoFrames();
    assert Frames(trace) + [] == Frames(trace) && Payloads(trace) + [] == Payloads(trace);
    forall i | 0 <= i < |ms|
      ensures ReadsAs(ms[i], Payloads(trace)[i], trace[i].response)
    {
      PayloadIsRead(st, disk, trace[i]);
    }
  }

  /** The client that sent `m` decodes `payload` to its correlation id and the response, and nothing is left. */
  predicate ReadsAs(m: Sent, payload: seq<byte>, response: Response) {
    ClientReads(m.request, payload) == Ok((m.header.correlation_id_, WireResponse(response)), [])
  }

  /** From the bytes `sent` a client splits off one payload per request, in order, and decodes from each an answer that
      the metadata and the logs give to its request. */
  ghost predicate Received(st: Index, disk: Disk, ms: seq<Sent>, trace: seq<Exchange>, sent: seq<byte>)
    requires |trace| == |ms|
  {
    && |SplitFrames(sent)| == |ms|
    && forall i | 0 <= i < |ms| ::
      && Answers(st, disk, ms[i].header, ms[i].request, trace[i].response)
      && ReadsAs(ms[i], SplitFrames(sent)[i], trace[i].response)
  }

  /** The exact condition: with logs that are read without errors, the client finds the payloads that were written if
      and only if no answer asked for takes 2 GiB or more. */
  lemma FramedExactly(st: Index, disk: Disk, ms: seq<Sent>, trace: seq<Exchange>)
    requires LogsCountable(disk) && LogsQuiet(disk)
    requires forall i | 0 <= i < |ms| :: Sendable(ms[i])
    requires Conversation(st, disk, AllRequests(EncodeSent(ms)), trace)
    requires |trace| == |AllRequests(EncodeSent(ms))|
    ensures SplitFrames(Frames(trace)) == Payloads(trace) <==> AllAskedSized(st, disk, ms)
  {
    hide LogsCountable, LogsQuiet, SplitFrames, Frames, Conversation, AllRequests, AllAskedSized, Answers, Payloads;
    AllAnswered(st, disk, ms, trace);
    SizesDecide(st, disk, ms, trace);
    ResponsesAligned(trace, []);
    NoFrames();
    assert Frames(trace) + [] == Frames(trace) && Payloads(trace) + [] == Payloads(trace);
  }

  /** What fails otherwise: after the first answer of two to four gigabytes the client finds nothing, neither that
      answer nor any later one. */
  lemma StreamLost(st: Index, disk: Disk, ms: seq<Sent>, trace: seq<Exchange>, i: nat)
    requires LogsCountable(disk) && LogsQuiet(disk) && Exchanges(ms, trace) && i < |ms|
    requires forall j | 0 <= j < |ms| :: Answers(st, disk, ms[j].header, ms[j].request, trace[j].response)
    requires AllAskedSized(st, disk, ms[..i])
    requires TWO_31 <= AnswerSize(st, disk, ms[i].header, ms[i].request) < TWO_32
    ensures SplitFrames(Frames(trace)) == Payloads(trace)[..i]
  {
    hide LogsCountable, LogsQuiet, SplitFrames, Answers, AnswerSize, ResponsePayload;
    AnswerSized(st, disk, ms[i].header, ms[i].request, trace[i].response);
    SizesDecide(st, disk, ms[..i], trace[..i]);
    assert Payloads(trace[..i]) == Payloads(trace)[..i];
    FramesLost(Payloads(trace), i, []);
    assert Frames(trace) + [] == Frames(trace);
  }

  /** Such an answer is asked for: a log of `n` empty batches that has between 2 and not quite 4 GiB, fetched alone. */
  lemma LargeLogLost(st: Index, disk: Disk, m: Sent, name: seq<byte>, id: Uuid, partitionIndex: INT32, n: nat,
                     e: Exchange)
    requires LogsCountable(disk) && LogsQuiet(disk) && TWO_31 <= 61 * n < TWO_32 - 76
    requires LogKey(name, partitionIndex) in disk
    requires disk[LogKey(name, partitionIndex)].bytes == EncodeLog(EmptyBatches(n))
    requires m.request.Fetch? && Get(st.names, id) == Some(name) && AsksFor(m.request.fetch, id, partitionIndex)
    requires e.header == m.header && e.request == m.request && Answers(st, disk, e.header, e.request, e.response)
    ensures SplitFrames(Frames([e])) == []
  {
    LargeAnswerSize(st, disk, m.header, m.request.fetch, name, id, partitionIndex, n);
    hide LogsCountable, LogsQuiet, SplitFrames, Answers, AnswerSize, Frames, EncodeLog, EmptyBatches, AsksFor;
    StreamLost(st, disk, [m], [e], 0);
  }

  // ---- A server, run ----

  /** The metadata that a log on disk is replayed to, if it can be. */
  function MetadataOf(disk: Disk): Option<Index> {
    if METADATA_LOG !in disk then None
    else
      match EventsOf(AllRecords(Scan(disk[METADATA_LOG].bytes)))
      case None => None
      case Some(es) => Some(Replay(EMPTY, es))
  }

  /** A server from its start to the end of a connection: it loads the metadata and serves a client that sends `ms`.
      The metadata is loaded exactly when its log can be replayed.  When nothing reports an error, every request can
      be answered and no answer is too large, the client reads the answer to every one of its requests. */
  method ServeConnection(fd: FileDescriptor, disk: Disk, ghost ms: seq<Sent>)
    returns (loaded: bool, trace: seq<Exchange>)
    requires fd.readEnd.pending == EncodeSent(ms) && fd.writeEnd.accepted == []
    requires forall i | 0 <= i < |ms| :: Sendable(ms[i])
    requires Quiet(fd.readEnd.schedule) && Quiet(fd.writeEnd.schedule) && LogsQuiet(disk) && LogsCountable(disk)
    requires METADATA_LOG in disk ==> |disk[METADATA_LOG].bytes| < 7 * (TWO_32 - 1)
    modifies fd.readEnd, fd.writeEnd
    ensures loaded <==> MetadataOf(disk).Some?
    ensures loaded && AllServable(MetadataOf(disk).value, disk, ms) ==>
      |trace| == |ms| && Received(MetadataOf(disk).value, disk, ms, trace, fd.writeEnd.accepted)
  {
    hide *;
    var meta := new ClusterMetadata();
    loaded := meta.Load(disk);
    trace := [];
    if loaded {
      ghost var bs, es :| Scanned(disk[METADATA_LOG], bs) && EventsOf(AllRecords(bs)) == Some(es) &&
        meta.State() == Replay(EMPTY, es);
      MetadataIs(disk, bs);
      var stop: Stop;
      trace, stop := ServeClient(fd, disk, meta);
      if AllServable(meta.State(), disk, ms) {
        Served(disk, bs, es, ms, trace, stop);
        assert [] + Frames(trace) == Frames(trace);
      }
    } else if METADATA_LOG in disk {
      ghost var bs :| Scanned(disk[METADATA_LOG], bs) && EventsOf(AllRecords(bs)) == None;
      MetadataIs(disk, bs);
    } else {
      NoMetadata(disk);
    }
  }

  /** Every request can be answered, and in a payload that can be framed. */
  predicate AllServable(st: Index, disk: Disk, ms: seq<Sent>) {
    && (forall i | 0 <= i < |ms| :: !Unanswerable(st, ms[i].request))
    && AllAskedSized(st, disk, ms)
  }

  lemma NoMetadata(disk: Disk)
    requires METADATA_LOG !in disk
    ensures MetadataOf(disk) == None
  {
  }

  lemma MetadataIs(disk: Disk, bs: seq<RecordBatch>)
    requires METADATA_LOG in disk && LogsQuiet(disk) && Scanned(disk[METADATA_LOG], bs)
    ensures MetadataOf(disk) == match EventsOf(AllRecords(bs))
                                case None => None
                                case Some(es) => Some(Replay(EMPTY, es))
  {
    hide Scan, EventsOf, Replay;
  }

  lemma Served(disk: Disk, bs: seq<RecordBatch>, es: seq<Event>, ms: seq<Sent>, trace: seq<Exchange>, stop: Stop)
    requires LogsCountable(disk)
    requires METADATA_LOG in disk && |disk[METADATA_LOG].bytes| < 7 * (TWO_32 - 1)
    requires Scanned(disk[METADATA_LOG], bs) && EventsOf(AllRecords(bs)) == Some(es)
    requires forall i | 0 <= i < |ms| :: Sendable(ms[i])
    requires AllServable(Replay(EMPTY, es), disk, ms)
    requires Conversation(Replay(EMPTY, es), disk, AllRequests(EncodeSent(ms)), trace)
    requires stop == NoRequest ==> |trace| == |AllRequests(EncodeSent(ms))|
    requires stop == NoAnswer ==>
      && |trace| < |AllRequests(EncodeSent(ms))|
      && Unanswerable(Replay(EMPTY, es), AllRequests(EncodeSent(ms))[|trace|].1)
    requires stop != NoWrite
    ensures |trace| == |ms| && Received(Replay(EMPTY, es), disk, ms, trace, Frames(trace))
  {
    hide LogsCountable, Scanned, EventsOf, Replay, Frames, Conversation, Received, AllAskedSized, Unanswerable;
    hide Sendable;
    RequestsAligned(ms, []);
    NoRequests();
    hide AllRequests, EncodeSent;
    assert EncodeSent(ms) + [] == EncodeSent(ms);
    EveryAnswerIsRead(disk, bs, es, ms, trace);
  }
}
