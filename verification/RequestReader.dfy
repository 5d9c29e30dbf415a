/** Reading requests from a stream (headers.hpp, api_versions.hpp, describe_topic_partitions.hpp, fetch.hpp,
    messages.hpp). */
module RequestReader {
  import opened Bytes
  import opened Varint
  import opened Wire
  import opened Arrays
  import opened Streams
  import opened Reader
  import opened Uuids
  import opened Requests

  method ReadHeader(src: IReadable) returns (r: Option<RequestHeader>)
    requires src.Valid()
    modifies src.Repr()
    ensures src.Valid()
    ensures Reads(ParseHeader(old(src.Remaining())), r, src.Remaining(), src.IsQuiet())
  {
    hide TakeInt, TakeInt16, TakeInt32, TakeNullableString, TakeByte;
    var requestApiKey :- ReadInt16(src);
    var requestApiVersion :- ReadInt16(src);
    var correlationId :- ReadInt32(src);
    var clientId :- ReadNullableString(src);
    var _ :- ReadTaggedFields(src);
    r := Some(RequestHeader(requestApiKey, requestApiVersion, correlationId, clientId));
  }

  method ReadApiVersionsRequest(src: IReadable) returns (r: Option<ApiVersionsRequest>)
    requires src.Valid()
    modifies src.Repr()
    ensures src.Valid()
    ensures Reads(ParseApiVersionsRequest(old(src.Remaining())), r, src.Remaining(), src.IsQuiet())
  {
    hide TakeCompactString, TakeByte;
    var clientSoftwareName :- ReadCompactString(src);
    var clientSoftwareVersion :- ReadCompactString(src);
    var _ :- ReadTaggedFields(src);
    r := Some(ApiVersionsRequest(clientSoftwareName, clientSoftwareVersion));
  }

  method ReadTopicRequest(src: IReadable) returns (r: Option<TopicRequest>)
    requires src.Valid()
    modifies src.Repr()
    ensures src.Valid()
    ensures Reads(ParseTopicRequest(old(src.Remaining())), r, src.Remaining(), src.IsQuiet())
  {
    hide TakeCompactString, TakeByte;
    var name :- ReadCompactString(src);
    var _ :- ReadTaggedFields(src);
    r := Some(TopicRequest(name));
  }

  method ReadTopicRequests(src: IReadable) returns (r: Option<seq<TopicRequest>>)
    requires src.Valid()
    modifies src.Repr()
    ensures src.Valid()
    ensures Reads(ParseTopicRequests(old(src.Remaining())), r, src.Remaining(), src.IsQuiet())
  {
    hide ParseTopicRequest, TakeUnsignedVarint;
    var n :- ReadUnsignedVarint(src);
    if n == 0 {
      return Some([]);
    }
    var count := n - 1;
    var arr: seq<TopicRequest> := [];
    ghost var s := src.Remaining();
    for i := 0 to count
      invariant src.Valid() && |arr| == i
      invariant ParseMany(ParseTopicRequest, count, s, []) ==
        ParseMany(ParseTopicRequest, count - i, src.Remaining(), arr)
    {
      var element :- ReadTopicRequest(src);
      arr := arr + [element];
    }
    r := Some(arr);
  }

  method ReadDescribeRequest(src: IReadable) returns (r: Option<DescribeTopicPartitionsRequest>)
    requires src.Valid()
    modifies src.Repr()
    ensures src.Valid()
    ensures Reads(ParseDescribeRequest(old(src.Remaining())), r, src.Remaining(), src.IsQuiet())
  {
    hide ParseTopicRequests, TakeInt, TakeInt32, TakeByte;
    var topics :- ReadTopicRequests(src);
    var responsePartitionLimit :- ReadInt32(src);
    var _ :- ReadByte(src, 0xFF);
    var _ :- ReadTaggedFields(src);
    r := Some(DescribeTopicPartitionsRequest(topics, responsePartitionLimit));
  }

  method ReadFetchPartition(src: IReadable) returns (r: Option<FetchPartition>)
    requires src.Valid()
    modifies src.Repr()
    ensures src.Valid()
    ensures Reads(ParseFetchPartition(old(src.Remaining())), r, src.Remaining(), src.IsQuiet())
  {
    hide TakeInt, TakeInt32, TakeInt64, TakeByte;
    var partition :- ReadInt32(src);
    var currentLeaderEpoch :- ReadInt32(src);
    var fetchOffset :- ReadInt64(src);
    var lastFetchedEpoch :- ReadInt32(src);
    var logStartOffset :- ReadInt64(src);
    var partitionMaxBytes :- ReadInt32(src);
    var _ :- ReadTaggedFields(src);
    r := Some(FetchPartition(partition, currentLeaderEpoch, fetchOffset, lastFetchedEpoch, logStartOffset,
                             partitionMaxBytes));
  }

  method ReadFetchPartitions(src: IReadable) returns (r: Option<seq<FetchPartition>>)
    requires src.Valid()
    modifies src.Repr()
    ensures src.Valid()
    ensures Reads(ParseFetchPartitions(old(src.Remaining())), r, src.Remaining(), src.IsQuiet())
  {
    hide ParseFetchPartition, TakeUnsignedVarint;
    var n :- ReadUnsignedVarint(src);
    if n == 0 {
      return Some([]);
    }
    var count := n - 1;
    var arr: seq<FetchPartition> := [];
    ghost var s := src.Remaining();
    for i := 0 to count
      invariant src.Valid() && |arr| == i
      invariant ParseMany(ParseFetchPartition, count, s, []) ==
        ParseMany(ParseFetchPartition, count - i, src.Remaining(), arr)
    {
      var element :- ReadFetchPartition(src);
      arr := arr + [element];
    }
    r := Some(arr);
  }

  method ReadFetchTopic(src: IReadable) returns (r: Option<FetchTopic>)
    requires src.Valid()
    modifies src.Repr()
    ensures src.Valid()
    ensures Reads(ParseFetchTopic(old(src.Remaining())), r, src.Remaining(), src.IsQuiet())
  {
    hide TakeUuid, TakeBytes, ParseFetchPartitions, TakeByte;
    var topicId :- ReadUuid(src);
    var partitions :- ReadFetchPartitions(src);
    var _ :- ReadTaggedFields(src);
    r := Some(FetchTopic(topicId, partitions));
  }

  method ReadFetchTopics(src: IReadable) returns (r: Option<seq<FetchTopic>>)
    requires src.Valid()
    modifies src.Repr()
    ensures src.Valid()
    ensures Reads(ParseFetchTopics(old(src.Remaining())), r, src.Remaining(), src.IsQuiet())
  {
    hide ParseFetchTopic, TakeUnsignedVarint;
    var n :- ReadUnsignedVarint(src);
    if n == 0 {
      return Some([]);
    }
    var count := n - 1;
    var arr: seq<FetchTopic> := [];
    ghost var s := src.Remaining();
    for i := 0 to count
      invariant src.Valid() && |arr| == i
      invariant ParseMany(ParseFetchTopic, count, s, []) == ParseMany(ParseFetchTopic, count - i, src.Remaining(), arr)
    {
      var element :- ReadFetchTopic(src);
      arr := arr + [element];
    }
    r := Some(arr);
  }

  method ReadNums(src: IReadable) returns (r: Option<seq<INT32>>)
    requires src.Valid()
    modifies src.Repr()
    ensures src.Valid()
    ensures Reads(ParseNums(old(src.Remaining())), r, src.Remaining(), src.IsQuiet())
  {
    hide TakeInt32, TakeUnsignedVarint;
    var n :- ReadUnsignedVarint(src);
    if n == 0 {
      return Some([]);
    }
    var count := n - 1;
    var arr: seq<INT32> := [];
    ghost var s := src.Remaining();
    for i := 0 to count
      invariant src.Valid() && |arr| == i
      invariant ParseMany(TakeInt32, count, s, []) == ParseMany(TakeInt32, count - i, src.Remaining(), arr)
    {
      var element :- ReadInt32(src);
      arr := arr + [element];
    }
    r := Some(arr);
  }

  method ReadForgottenTopic(src: IReadable) returns (r: Option<ForgottenTopic>)
    requires src.Valid()
    modifies src.Repr()
    ensures src.Valid()
    ensures Reads(ParseForgottenTopic(old(src.Remaining())), r, src.Remaining(), src.IsQuiet())
  {
    hide TakeUuid, TakeBytes, ParseNums, TakeByte;
    var topicId :- ReadUuid(src);
    var partitions :- ReadNums(src);
    var _ :- ReadTaggedFields(src);
    r := Some(ForgottenTopic(topicId, partitions));
  }

  method ReadForgottenTopics(src: IReadable) returns (r: Option<seq<ForgottenTopic>>)
    requires src.Valid()
    modifies src.Repr()
    ensures src.Valid()
    ensures Reads(ParseForgottenTopics(old(src.Remaining())), r, src.Remaining(), src.IsQuiet())
  {
    hide ParseForgottenTopic, TakeUnsignedVarint;
    var n :- ReadUnsignedVarint(src);
    if n == 0 {
      return Some([]);
    }
    var count := n - 1;
    var arr: seq<ForgottenTopic> := [];
    ghost var s := src.Remaining();
    for i := 0 to count
      invariant src.Valid() && |arr| == i
      invariant ParseMany(ParseForgottenTopic, count, s, []) ==
        ParseMany(ParseForgottenTopic, count - i, src.Remaining(), arr)
    {
      var element :- ReadForgottenTopic(src);
      arr := arr + [element];
    }
    r := Some(arr);
  }

  method ReadFetchRequest(src: IReadable) returns (r: Option<FetchRequest>)
    requires src.Valid()
    modifies src.Repr()
    ensures src.Valid()
    ensures Reads(ParseFetchRequest(old(src.Remaining())), r, src.Remaining(), src.IsQuiet())
  {
    hide TakeInt, TakeInt8, TakeInt32, TakeCompactString, TakeByte, ParseFetchTopics, ParseForgottenTopics;
    var maxWaitMs :- ReadInt32(src);
    var minBytes :- ReadInt32(src);
    var maxBytes :- ReadInt32(src);
    var isolationLevel :- ReadInt8(src);
    var sessionId :- ReadInt32(src);
    var sessionEpoch :- ReadInt32(src);
    var topics :- ReadFetchTopics(src);
    var forgottenTopicsData :- ReadForgottenTopics(src);
    var rackId :- ReadCompactString(src);
    var _ :- ReadTaggedFields(src);
    r := Some(FetchRequest(maxWaitMs, minBytes, maxBytes, isolationLevel, sessionId, sessionEpoch, topics,
                           forgottenTopicsData, rackId));
  }

  /** A request with its header, as it is filled in while it is read. */
  class RequestMessage {
    var header_: RequestHeader
    var request_: Option<Request>

    constructor ()
      ensures request_.None?
    {
      header_ := RequestHeader(0, 0, 0, []);
      request_ := None;
    }

    /** Reads one frame and parses its payload from memory.  Failing leaves the object in some state nobody uses. */
    method Read(src: IReadable) returns (ok: bool)
      requires src.Valid() && this !in src.Repr()
      modifies this, src.Repr()
      ensures src.Valid()
      ensures ok ==>
        request_.Some? && ParseMessage(old(src.Remaining())) == Ok((header_, request_.value), src.Remaining())
      ensures !ok ==> ParseMessage(old(src.Remaining())).Err? || !src.IsQuiet()
    {
      hide ParseHeader, ParseFetchRequest, ParseApiVersionsRequest, ParseDescribeRequest, TakeSizedBytes;
      var payload := ReadBytes(src);
      if payload.None? { return false; }
      var buffer := new ReadableBuffer(payload.value);
      var rb := Buffer(buffer);
      var header := ReadHeader(rb);
      if header.None? { return false; }
      header_ := header.value;
      if header_.request_api_key_ == FETCH {
        var request := ReadFetchRequest(rb);
        if request.None? { return false; }
        request_ := Some(Fetch(request.value));
      } else if header_.request_api_key_ == API_VERSIONS {
        var request := ReadApiVersionsRequest(rb);
        if request.None? { return false; }
        request_ := Some(ApiVersions(request.value));
      } else if header_.request_api_key_ == DESCRIBE_TOPIC_PARTITIONS {
        var request := ReadDescribeRequest(rb);
        if request.None? { return false; }
        request_ := Some(Describe(request.value));
      } else {
        return false;
      }
      ok := true;
    }
  }
}
