/** Requests as they arrive (headers.hpp, api_versions.hpp, describe_topic_partitions.hpp, fetch.hpp, messages.hpp). */
module Requests {
  import opened Bytes
  import opened Wire
  import opened Arrays
  import opened Reader
  import opened Uuids

  const FETCH: INT16 := 1
  const API_VERSIONS: INT16 := 18
  const DESCRIBE_TOPIC_PARTITIONS: INT16 := 75

  datatype RequestHeader = RequestHeader(
    request_api_key_: INT16,
    request_api_version_: INT16,
    correlation_id_: INT32,
    client_id_: seq<byte>)

  datatype ApiVersionsRequest = ApiVersionsRequest(
    client_software_name_: seq<byte>,
    client_software_version_: seq<byte>)

  datatype TopicRequest = TopicRequest(name_: seq<byte>)

  datatype DescribeTopicPartitionsRequest = DescribeTopicPartitionsRequest(
    topics_: seq<TopicRequest>,
    response_partition_limit_: INT32)

  datatype FetchPartition = FetchPartition(
    partition_: INT32,
    current_leader_epoch_: INT32,
    fetch_offset_: INT64,
    last_fetched_epoch_: INT32,
    log_start_offset_: INT64,
    partition_max_bytes_: INT32)

  datatype FetchTopic = FetchTopic(topic_id_: Uuid, partitions_: seq<FetchPartition>)

  datatype ForgottenTopic = ForgottenTopic(topic_id_: Uuid, partitions_: seq<INT32>)

  datatype FetchRequest = FetchRequest(
    max_wait_ms_: INT32,
    min_bytes_: INT32,
    max_bytes_: INT32,
    isolation_level_: INT8,
    session_id_: INT32,
    session_epoch_: INT32,
    topics_: seq<FetchTopic>,
    forgotten_topics_data_: seq<ForgottenTopic>,
    rack_id_: seq<byte>)

  datatype Request =
    | Fetch(fetch: FetchRequest)
    | ApiVersions(versions: ApiVersionsRequest)
    | Describe(describe: DescribeTopicPartitionsRequest)

  // ---- Layouts of the Kafka protocol guide ----

  /** Request Header v2. */
  function RequestHeaderLayout(): Schema {
    Int(2, true)              // request_api_key
      .And(Int(2, true))      // request_api_version
      .And(Int(4, true))      // correlation_id
      .And(NullableString)    // client_id
      .And(Byte(0))           // no tagged fields
  }

  /** ApiVersions Request v4. */
  function ApiVersionsRequestLayout(): Schema {
    CompactString             // client_software_name
      .And(CompactString)     // client_software_version
      .And(Byte(0))
  }

  function TopicRequestLayout(): Schema {
    CompactString             // name
      .And(Byte(0))
  }

  /** DescribeTopicPartitions Request v0 with a null cursor. */
  function DescribeRequestLayout(): Schema {
    CompactArray(TopicRequestLayout())  // topics
      .And(Int(4, true))                // response_partition_limit
      .And(Byte(0xFF))                  // cursor
      .And(Byte(0))
  }

  function FetchPartitionLayout(): Schema {
    Int(4, true)              // partition
      .And(Int(4, true))      // current_leader_epoch
      .And(Int(8, true))      // fetch_offset
      .And(Int(4, true))      // last_fetched_epoch
      .And(Int(8, true))      // log_start_offset
      .And(Int(4, true))      // partition_max_bytes
      .And(Byte(0))
  }

  function FetchTopicLayout(): Schema {
    Raw(16)                                     // topic_id
      .And(CompactArray(FetchPartitionLayout())) // partitions
      .And(Byte(0))
  }

  function ForgottenTopicLayout(): Schema {
    Raw(16)                                     // topic_id
      .And(CompactArray(Int(4, true)))          // partitions
      .And(Byte(0))
  }

  /** Fetch Request v16. */
  function FetchRequestLayout(): Schema {
    Int(4, true)                                   // max_wait_ms
      .And(Int(4, true))                           // min_bytes
      .And(Int(4, true))                           // max_bytes
      .And(Int(1, true))                           // isolation_level
      .And(Int(4, true))                           // session_id
      .And(Int(4, true))                           // session_epoch
      .And(CompactArray(FetchTopicLayout()))       // topics
      .And(CompactArray(ForgottenTopicLayout()))   // forgotten_topics_data
      .And(CompactString)                          // rack_id
      .And(Byte(0))
  }

  function WireNum(n: INT32): Value {
    Num(n)
  }

  function WireHeader(h: RequestHeader): Value {
    Num(h.request_api_key_)
      .And(Num(h.request_api_version_))
      .And(Num(h.correlation_id_))
      .And(Blob(h.client_id_))
      .And(Unit)
  }

  function WireApiVersionsRequest(r: ApiVersionsRequest): Value {
    Blob(r.client_software_name_).And(Blob(r.client_software_version_)).And(Unit)
  }

  function WireTopicRequest(t: TopicRequest): Value {
    Blob(t.name_).And(Unit)
  }

  function WireTopicRequests(ts: seq<TopicRequest>): Value {
    Many(Wires(WireTopicRequest, ts))
  }

  function WireDescribeRequest(r: DescribeTopicPartitionsRequest): Value {
    WireTopicRequests(r.topics_).And(Num(r.response_partition_limit_)).And(Unit).And(Unit)
  }

  function WireFetchPartition(p: FetchPartition): Value {
    Num(p.partition_)
      .And(Num(p.current_leader_epoch_))
      .And(Num(p.fetch_offset_))
      .And(Num(p.last_fetched_epoch_))
      .And(Num(p.log_start_offset_))
      .And(Num(p.partition_max_bytes_))
      .And(Unit)
  }

  function WireFetchPartitions(ps: seq<FetchPartition>): Value {
    Many(Wires(WireFetchPartition, ps))
  }

  function WireFetchTopic(t: FetchTopic): Value {
    Blob(t.topic_id_).And(WireFetchPartitions(t.partitions_)).And(Unit)
  }

  function WireFetchTopics(ts: seq<FetchTopic>): Value {
    Many(Wires(WireFetchTopic, ts))
  }

  function WireNums(ns: seq<INT32>): Value {
    Many(Wires(WireNum, ns))
  }

  function WireForgottenTopic(t: ForgottenTopic): Value {
    Blob(t.topic_id_).And(WireNums(t.partitions_)).And(Unit)
  }

  function WireForgottenTopics(ts: seq<ForgottenTopic>): Value {
    Many(Wires(WireForgottenTopic, ts))
  }

  function WireFetchRequest(r: FetchRequest): Value {
    Num(r.max_wait_ms_)
      .And(Num(r.min_bytes_))
      .And(Num(r.max_bytes_))
      .And(Num(r.isolation_level_))
      .And(Num(r.session_id_))
      .And(Num(r.session_epoch_))
      .And(WireFetchTopics(r.topics_))
      .And(WireForgottenTopics(r.forgotten_topics_data_))
      .And(Blob(r.rack_id_))
      .And(Unit)
  }

  // ---- Parsing ----

  function ParseHeader(s: seq<byte>): Parsed<RequestHeader> {
    var (apiKey, s) :- TakeInt16(s);
    var (apiVersion, s) :- TakeInt16(s);
    var (correlationId, s) :- TakeInt32(s);
    var (clientId, s) :- TakeNullableString(s);
    var (_, s) :- TakeByte(0, s);
    Ok(RequestHeader(apiKey, apiVersion, correlationId, clientId), s)
  }

  function ParseApiVersionsRequest(s: seq<byte>): Parsed<ApiVersionsRequest> {
    var (name, s) :- TakeCompactString(s);
    var (version, s) :- TakeCompactString(s);
    var (_, s) :- TakeByte(0, s);
    Ok(ApiVersionsRequest(name, version), s)
  }

  function ParseTopicRequest(s: seq<byte>): Parsed<TopicRequest> {
    var (name, s) :- TakeCompactString(s);
    var (_, s) :- TakeByte(0, s);
    Ok(TopicRequest(name), s)
  }

  function ParseTopicRequests(s: seq<byte>): Parsed<seq<TopicRequest>> {
    ParseCompactArray(ParseTopicRequest, s)
  }

  function ParseDescribeRequest(s: seq<byte>): Parsed<DescribeTopicPartitionsRequest> {
    var (topics, s) :- ParseTopicRequests(s);
    var (limit, s) :- TakeInt32(s);
    var (_, s) :- TakeByte(0xFF, s);
    var (_, s) :- TakeByte(0, s);
    Ok(DescribeTopicPartitionsRequest(topics, limit), s)
  }

  function ParseFetchPartition(s: seq<byte>): Parsed<FetchPartition> {
    var (partition, s) :- TakeInt32(s);
    var (currentLeaderEpoch, s) :- TakeInt32(s);
    var (fetchOffset, s) :- TakeInt64(s);
    var (lastFetchedEpoch, s) :- TakeInt32(s);
    var (logStartOffset, s) :- TakeInt64(s);
    var (partitionMaxBytes, s) :- TakeInt32(s);
    var (_, s) :- TakeByte(0, s);
    Ok(FetchPartition(partition, currentLeaderEpoch, fetchOffset, lastFetchedEpoch, logStartOffset,
                      partitionMaxBytes), s)
  }

  function ParseFetchPartitions(s: seq<byte>): Parsed<seq<FetchPartition>> {
    ParseCompactArray(ParseFetchPartition, s)
  }

  function ParseFetchTopic(s: seq<byte>): Parsed<FetchTopic> {
    var (topicId, s) :- TakeUuid(s);
    var (partitions, s) :- ParseFetchPartitions(s);
    var (_, s) :- TakeByte(0, s);
    Ok(FetchTopic(topicId, partitions), s)
  }

  function ParseFetchTopics(s: seq<byte>): Parsed<seq<FetchTopic>> {
    ParseCompactArray(ParseFetchTopic, s)
  }

  function ParseNums(s: seq<byte>): Parsed<seq<INT32>> {
    ParseCompactArray(TakeInt32, s)
  }

  function ParseForgottenTopic(s: seq<byte>): Parsed<ForgottenTopic> {
    var (topicId, s) :- TakeUuid(s);
    var (partitions, s) :- ParseNums(s);
    var (_, s) :- TakeByte(0, s);
    Ok(ForgottenTopic(topicId, partitions), s)
  }

  function ParseForgottenTopics(s: seq<byte>): Parsed<seq<ForgottenTopic>> {
    ParseCompactArray(ParseForgottenTopic, s)
  }

  function ParseFetchRequest(s: seq<byte>): Parsed<FetchRequest> {
    var (maxWaitMs, s) :- TakeInt32(s);
    var (minBytes, s) :- TakeInt32(s);
    var (maxBytes, s) :- TakeInt32(s);
    var (isolationLevel, s) :- TakeInt8(s);
    var (sessionId, s) :- TakeInt32(s);
    var (sessionEpoch, s) :- TakeInt32(s);
    var (topics, s) :- ParseFetchTopics(s);
    var (forgottenTopics, s) :- ParseForgottenTopics(s);
    var (rackId, s) :- TakeCompactString(s);
    var (_, s) :- TakeByte(0, s);
    Ok(FetchRequest(maxWaitMs, minBytes, maxBytes, isolationLevel, sessionId, sessionEpoch, topics, forgottenTopics,
                    rackId), s)
  }

  /** The body of a request with the given API key.  The server creates no request object for any other key. */
  function ParseBody(apiKey: INT16, s: seq<byte>): Parsed<Request> {
    if apiKey == FETCH then
      var (r, s) :- ParseFetchRequest(s); Ok(Fetch(r), s)
    else if apiKey == API_VERSIONS then
      var (r, s) :- ParseApiVersionsRequest(s); Ok(ApiVersions(r), s)
    else if apiKey == DESCRIBE_TOPIC_PARTITIONS then
      var (r, s) :- ParseDescribeRequest(s); Ok(Describe(r), s)
    else Err
  }

  /** The payload of a frame: a header, a body, and bytes that nobody looks at. */
  function ParsePayload(payload: seq<byte>): Parsed<(RequestHeader, Request)> {
    var (header, s) :- ParseHeader(payload);
    var (request, s) :- ParseBody(header.request_api_key_, s);
    Ok((header, request), s)
  }

  /** A request with its size prefix; what follows the frame is left, whatever the payload left unread. */
  function ParseMessage(s: seq<byte>): Parsed<(RequestHeader, Request)> {
    var (payload, s) :- TakeSizedBytes(s);
    var (message, _) :- ParsePayload(payload);
    Ok(message, s)
  }

  // ---- The parsers follow the layouts ----

  lemma HeaderFollows()
    ensures Follows(RequestHeaderLayout(), ParseHeader, WireHeader)
  {
    forall s ensures Decode(RequestHeaderLayout(), s) == Lift(ParseHeader(s), WireHeader) {
      DecodeFields(RequestHeaderLayout(), s);
      IntFields();
      OtherFields();
      hide Decode, TakeInt, TakeInt16, TakeInt32, TakeNullableString, TakeByte;
    }
  }

  lemma ApiVersionsRequestFollows()
    ensures Follows(ApiVersionsRequestLayout(), ParseApiVersionsRequest, WireApiVersionsRequest)
  {
    forall s ensures Decode(ApiVersionsRequestLayout(), s) == Lift(ParseApiVersionsRequest(s), WireApiVersionsRequest) {
      DecodeFields(ApiVersionsRequestLayout(), s);
      OtherFields();
      hide Decode, TakeCompactString, TakeByte;
    }
  }

  lemma TopicRequestFollows()
    ensures Follows(TopicRequestLayout(), ParseTopicRequest, WireTopicRequest)
  {
    forall s ensures Decode(TopicRequestLayout(), s) == Lift(ParseTopicRequest(s), WireTopicRequest) {
      DecodeFields(TopicRequestLayout(), s);
      OtherFields();
      hide Decode, TakeCompactString, TakeByte;
    }
  }

  lemma TopicRequestsFollow()
    ensures forall s :: Decode(CompactArray(TopicRequestLayout()), s) == Lift(ParseTopicRequests(s), WireTopicRequests)
  {
    TopicRequestFollows();
    forall s ensures Decode(CompactArray(TopicRequestLayout()), s) == Lift(ParseTopicRequests(s), WireTopicRequests) {
      CompactArrayFollows(TopicRequestLayout(), ParseTopicRequest, WireTopicRequest, s);
    }
  }

  lemma DescribeRequestFollows()
    ensures Follows(DescribeRequestLayout(), ParseDescribeRequest, WireDescribeRequest)
  {
    TopicRequestsFollow();
    forall s ensures Decode(DescribeRequestLayout(), s) == Lift(ParseDescribeRequest(s), WireDescribeRequest) {
      DecodeFields(DescribeRequestLayout(), s);
      IntFields();
      OtherFields();
      hide Decode, TakeInt, TakeInt32, TakeByte, ParseTopicRequests, WireTopicRequests;
    }
  }

  lemma FetchPartitionFollowsAt(s: seq<byte>)
    ensures Decode(FetchPartitionLayout(), s) == Lift(ParseFetchPartition(s), WireFetchPartition)
  {
    DecodeFields(FetchPartitionLayout(), s);
    IntFields();
    OtherFields();
    hide Decode, TakeInt, TakeInt32, TakeInt64, TakeByte;
  }

  lemma FetchPartitionFollows()
    ensures Follows(FetchPartitionLayout(), ParseFetchPartition, WireFetchPartition)
  {
    forall s ensures Decode(FetchPartitionLayout(), s) == Lift(ParseFetchPartition(s), WireFetchPartition) {
      FetchPartitionFollowsAt(s);
    }
  }

  lemma FetchPartitionsFollow()
    ensures forall s ::
      Decode(CompactArray(FetchPartitionLayout()), s) == Lift(ParseFetchPartitions(s), WireFetchPartitions)
  {
    FetchPartitionFollows();
    forall s
      ensures Decode(CompactArray(FetchPartitionLayout()), s) == Lift(ParseFetchPartitions(s), WireFetchPartitions)
    {
      CompactArrayFollows(FetchPartitionLayout(), ParseFetchPartition, WireFetchPartition, s);
    }
  }

  lemma FetchTopicFollows()
    ensures Follows(FetchTopicLayout(), ParseFetchTopic, WireFetchTopic)
  {
    FetchPartitionsFollow();
    forall s ensures Decode(FetchTopicLayout(), s) == Lift(ParseFetchTopic(s), WireFetchTopic) {
      DecodeFields(FetchTopicLayout(), s);
      OtherFields();
      hide Decode, TakeUuid, TakeBytes, TakeByte, ParseFetchPartitions, WireFetchPartitions;
    }
  }

  lemma FetchTopicsFollow()
    ensures forall s :: Decode(CompactArray(FetchTopicLayout()), s) == Lift(ParseFetchTopics(s), WireFetchTopics)
  {
    FetchTopicFollows();
    forall s ensures Decode(CompactArray(FetchTopicLayout()), s) == Lift(ParseFetchTopics(s), WireFetchTopics) {
      CompactArrayFollows(FetchTopicLayout(), ParseFetchTopic, WireFetchTopic, s);
    }
  }

  lemma NumsFollow()
    ensures forall s :: Decode(CompactArray(Int(4, true)), s) == Lift(ParseNums(s), WireNums)
  {
    IntFields();
    assert Follows(Int(4, true), TakeInt32, WireNum);
    forall s ensures Decode(CompactArray(Int(4, true)), s) == Lift(ParseNums(s), WireNums) {
      CompactArrayFollows(Int(4, true), TakeInt32, WireNum, s);
    }
  }

  lemma ForgottenTopicFollows()
    ensures Follows(ForgottenTopicLayout(), ParseForgottenTopic, WireForgottenTopic)
  {
    NumsFollow();
    forall s ensures Decode(ForgottenTopicLayout(), s) == Lift(ParseForgottenTopic(s), WireForgottenTopic) {
      DecodeFields(ForgottenTopicLayout(), s);
      OtherFields();
      hide Decode, TakeUuid, TakeBytes, TakeByte, ParseNums, WireNums;
    }
  }

  lemma ForgottenTopicsFollow()
    ensures forall s ::
      Decode(CompactArray(ForgottenTopicLayout()), s) == Lift(ParseForgottenTopics(s), WireForgottenTopics)
  {
    ForgottenTopicFollows();
    forall s
      ensures Decode(CompactArray(ForgottenTopicLayout()), s) == Lift(ParseForgottenTopics(s), WireForgottenTopics)
    {
      CompactArrayFollows(ForgottenTopicLayout(), ParseForgottenTopic, WireForgottenTopic, s);
    }
  }

  lemma FetchRequestFollowsAt(s: seq<byte>)
    ensures Decode(FetchRequestLayout(), s) == Lift(ParseFetchRequest(s), WireFetchRequest)
  {
    FetchTopicsFollow();
    ForgottenTopicsFollow();
    DecodeFields(FetchRequestLayout(), s);
    IntFields();
    OtherFields();
    hide Decode, TakeInt, TakeInt8, TakeInt32, TakeCompactString, TakeByte;
    hide ParseFetchTopics, WireFetchTopics, ParseForgottenTopics, WireForgottenTopics;
  }

  /** Reading a Fetch request follows its layout through three levels of arrays. */
  lemma FetchRequestFollows()
    ensures Follows(FetchRequestLayout(), ParseFetchRequest, WireFetchRequest)
  {
    forall s ensures Decode(FetchRequestLayout(), s) == Lift(ParseFetchRequest(s), WireFetchRequest) {
      FetchRequestFollowsAt(s);
    }
  }
}
