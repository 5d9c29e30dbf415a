/** Every request of the protocol guide's layouts that fits its length fields is read back as it was written. */
module RequestLaws {
  import opened Bytes
  import opened Wire
  import opened WireLaws
  import opened Arrays
  import opened Requests

  /** A compact length field holds one more than the size it announces, in 32 bits. */
  predicate CompactSize(n: nat) {
    n + 1 < TWO_32
  }

  predicate FetchTopicFits(t: FetchTopic) {
    CompactSize(|t.partitions_|)
  }

  predicate ForgottenTopicFits(t: ForgottenTopic) {
    CompactSize(|t.partitions_|)
  }

  predicate FetchRequestFits(r: FetchRequest) {
    && CompactSize(|r.topics_|) && (forall i | 0 <= i < |r.topics_| :: FetchTopicFits(r.topics_[i]))
    && CompactSize(|r.forgotten_topics_data_|)
    && (forall i | 0 <= i < |r.forgotten_topics_data_| :: ForgottenTopicFits(r.forgotten_topics_data_[i]))
    && CompactSize(|r.rack_id_|)
  }

  predicate DescribeRequestFits(r: DescribeTopicPartitionsRequest) {
    && CompactSize(|r.topics_|)
    && (forall i | 0 <= i < |r.topics_| :: CompactSize(|r.topics_[i].name_|))
  }

  predicate ApiVersionsRequestFits(r: ApiVersionsRequest) {
    CompactSize(|r.client_software_name_|) && CompactSize(|r.client_software_version_|)
  }

  // ---- Values determine requests ----

  lemma FetchTopicsInjective(xs: seq<FetchTopic>, ys: seq<FetchTopic>)
    requires WireFetchTopics(xs) == WireFetchTopics(ys)
    ensures xs == ys
  {
    forall a, b | WireFetchTopic(a) == WireFetchTopic(b) ensures a == b {
      assert Injective(WireFetchPartition);
      WiresInjective(WireFetchPartition, a.partitions_, b.partitions_);
    }
    WiresInjective(WireFetchTopic, xs, ys);
  }

  lemma ForgottenTopicsInjective(xs: seq<ForgottenTopic>, ys: seq<ForgottenTopic>)
    requires WireForgottenTopics(xs) == WireForgottenTopics(ys)
    ensures xs == ys
  {
    forall a, b | WireForgottenTopic(a) == WireForgottenTopic(b) ensures a == b {
      assert Injective(WireNum);
      WiresInjective(WireNum, a.partitions_, b.partitions_);
    }
    WiresInjective(WireForgottenTopic, xs, ys);
  }

  lemma FetchRequestInjective()
    ensures Injective(WireFetchRequest)
  {
    forall a, b | WireFetchRequest(a) == WireFetchRequest(b) ensures a == b {
      hide WireFetchTopics, WireForgottenTopics;
      FetchTopicsInjective(a.topics_, b.topics_);
      ForgottenTopicsInjective(a.forgotten_topics_data_, b.forgotten_topics_data_);
    }
  }

  lemma DescribeRequestInjective()
    ensures Injective(WireDescribeRequest)
  {
    forall a, b | WireDescribeRequest(a) == WireDescribeRequest(b) ensures a == b {
      assert Injective(WireTopicRequest);
      WiresInjective(WireTopicRequest, a.topics_, b.topics_);
    }
  }

  // ---- Which requests the layouts can carry ----

  lemma FetchPartitionIsTyped(p: FetchPartition)
    ensures Typed(FetchPartitionLayout(), WireFetchPartition(p))
  {
    Ranges(p.partition_);
    Ranges(p.current_leader_epoch_);
    Ranges(p.fetch_offset_);
    Ranges(p.last_fetched_epoch_);
    Ranges(p.log_start_offset_);
    Ranges(p.partition_max_bytes_);
    hide InRange;
  }

  lemma FetchTopicIsTyped(t: FetchTopic)
    ensures Typed(FetchTopicLayout(), WireFetchTopic(t)) <==> FetchTopicFits(t)
  {
    var items := Wires(WireFetchPartition, t.partitions_);
    forall i | 0 <= i < |items| ensures Typed(FetchPartitionLayout(), items[i]) {
      FetchPartitionIsTyped(t.partitions_[i]);
    }
    assert TypedMany(FetchPartitionLayout(), items);
    hide FetchPartitionLayout, WireFetchPartition;
  }

  lemma ForgottenTopicIsTyped(t: ForgottenTopic)
    ensures Typed(ForgottenTopicLayout(), WireForgottenTopic(t)) <==> ForgottenTopicFits(t)
  {
    var items := Wires(WireNum, t.partitions_);
    forall i | 0 <= i < |items| ensures Typed(Int(4, true), items[i]) {
      Ranges(t.partitions_[i]);
    }
    assert TypedMany(Int(4, true), items);
  }

  lemma FetchTopicsAreTyped(ts: seq<FetchTopic>)
    ensures Typed(CompactArray(FetchTopicLayout()), WireFetchTopics(ts)) <==>
      CompactSize(|ts|) && forall i | 0 <= i < |ts| :: FetchTopicFits(ts[i])
  {
    var items := Wires(WireFetchTopic, ts);
    forall i | 0 <= i < |items| ensures Typed(FetchTopicLayout(), items[i]) <==> FetchTopicFits(ts[i]) {
      FetchTopicIsTyped(ts[i]);
    }
    assert TypedMany(FetchTopicLayout(), items) <==> forall i | 0 <= i < |ts| :: FetchTopicFits(ts[i]);
    hide FetchTopicLayout, WireFetchTopic, FetchTopicFits, TypedMany;
  }

  lemma ForgottenTopicsAreTyped(ts: seq<ForgottenTopic>)
    ensures Typed(CompactArray(ForgottenTopicLayout()), WireForgottenTopics(ts)) <==>
      CompactSize(|ts|) && forall i | 0 <= i < |ts| :: ForgottenTopicFits(ts[i])
  {
    var items := Wires(WireForgottenTopic, ts);
    forall i | 0 <= i < |items| ensures Typed(ForgottenTopicLayout(), items[i]) <==> ForgottenTopicFits(ts[i]) {
      ForgottenTopicIsTyped(ts[i]);
    }
    assert TypedMany(ForgottenTopicLayout(), items) <==> forall i | 0 <= i < |ts| :: ForgottenTopicFits(ts[i]);
    hide ForgottenTopicLayout, WireForgottenTopic, ForgottenTopicFits, TypedMany;
  }

  lemma FetchRequestIsTyped(r: FetchRequest)
    ensures Typed(FetchRequestLayout(), WireFetchRequest(r)) <==> FetchRequestFits(r)
  {
    Ranges(r.max_wait_ms_);
    Ranges(r.min_bytes_);
    Ranges(r.max_bytes_);
    Ranges(r.isolation_level_);
    Ranges(r.session_id_);
    Ranges(r.session_epoch_);
    FetchTopicsAreTyped(r.topics_);
    ForgottenTopicsAreTyped(r.forgotten_topics_data_);
    hide InRange, WireFetchTopics, WireForgottenTopics, FetchTopicLayout, ForgottenTopicLayout, TypedMany;
    hide FetchTopicFits, ForgottenTopicFits;
  }

  lemma TopicRequestIsTyped(t: TopicRequest)
    ensures Typed(TopicRequestLayout(), WireTopicRequest(t)) <==> CompactSize(|t.name_|)
  {
  }

  lemma TopicRequestsAreTyped(ts: seq<TopicRequest>)
    ensures Typed(CompactArray(TopicRequestLayout()), WireTopicRequests(ts)) <==>
      CompactSize(|ts|) && forall i | 0 <= i < |ts| :: CompactSize(|ts[i].name_|)
  {
    var items := Wires(WireTopicRequest, ts);
    forall i | 0 <= i < |items| ensures Typed(TopicRequestLayout(), items[i]) <==> CompactSize(|ts[i].name_|) {
      TopicRequestIsTyped(ts[i]);
    }
    assert TypedMany(TopicRequestLayout(), items) <==> forall i | 0 <= i < |ts| :: CompactSize(|ts[i].name_|);
    hide TopicRequestLayout, WireTopicRequest, TypedMany;
  }

  lemma DescribeRequestIsTyped(r: DescribeTopicPartitionsRequest)
    ensures Typed(DescribeRequestLayout(), WireDescribeRequest(r)) <==> DescribeRequestFits(r)
  {
    Ranges(r.response_partition_limit_);
    TopicRequestsAreTyped(r.topics_);
    hide InRange, TopicRequestLayout, WireTopicRequests, TypedMany;
  }

  // ---- Main results ----

  /** Fetch v16: nested arrays and all, any request is read back exactly, consuming exactly its bytes, if and only if
      its lists and its rack id fit their length fields. */
  lemma FetchRequestRoundTrip(r: FetchRequest, t: seq<byte>)
    ensures ParseFetchRequest(Encode(FetchRequestLayout(), WireFetchRequest(r)) + t) == Ok(r, t) <==>
      FetchRequestFits(r)
  {
    FetchRequestFollows();
    FetchRequestInjective();
    FetchRequestIsTyped(r);
    hide ParseFetchRequest, WireFetchRequest, Encode, Typed;
    ParseRoundTrip(FetchRequestLayout(), ParseFetchRequest, WireFetchRequest, r, t);
  }

  lemma DescribeRequestRoundTrip(r: DescribeTopicPartitionsRequest, t: seq<byte>)
    ensures ParseDescribeRequest(Encode(DescribeRequestLayout(), WireDescribeRequest(r)) + t) == Ok(r, t) <==>
      DescribeRequestFits(r)
  {
    DescribeRequestFollows();
    DescribeRequestInjective();
    DescribeRequestIsTyped(r);
    hide ParseDescribeRequest, WireDescribeRequest, Encode, Typed;
    ParseRoundTrip(DescribeRequestLayout(), ParseDescribeRequest, WireDescribeRequest, r, t);
  }

  lemma ApiVersionsRequestRoundTrip(r: ApiVersionsRequest, t: seq<byte>)
    ensures ParseApiVersionsRequest(Encode(ApiVersionsRequestLayout(), WireApiVersionsRequest(r)) + t) == Ok(r, t) <==>
      ApiVersionsRequestFits(r)
  {
    ApiVersionsRequestFollows();
    assert Injective(WireApiVersionsRequest);
    assert Typed(ApiVersionsRequestLayout(), WireApiVersionsRequest(r)) <==> ApiVersionsRequestFits(r);
    hide ParseApiVersionsRequest, WireApiVersionsRequest, Encode, Typed;
    ParseRoundTrip(ApiVersionsRequestLayout(), ParseApiVersionsRequest, WireApiVersionsRequest, r, t);
  }

  lemma HeaderRoundTrip(h: RequestHeader, t: seq<byte>)
    ensures ParseHeader(Encode(RequestHeaderLayout(), WireHeader(h)) + t) == Ok(h, t) <==> |h.client_id_| < 0x8000
  {
    HeaderFollows();
    assert Injective(WireHeader);
    HeaderIsTyped(h);
    hide ParseHeader, WireHeader, Encode, Typed;
    ParseRoundTrip(RequestHeaderLayout(), ParseHeader, WireHeader, h, t);
  }

  lemma HeaderIsTyped(h: RequestHeader)
    ensures Typed(RequestHeaderLayout(), WireHeader(h)) <==> |h.client_id_| < 0x8000
  {
    Ranges(h.request_api_key_);
    Ranges(h.request_api_version_);
    Ranges(h.correlation_id_);
    hide InRange;
  }

  // ---- Whole frames ----

  /** Whether a request belongs to an API key. */
  predicate Matches(apiKey: INT16, r: Request) {
    match r
    case Fetch(_) => apiKey == FETCH
    case ApiVersions(_) => apiKey == API_VERSIONS
    case Describe(_) => apiKey == DESCRIBE_TOPIC_PARTITIONS
  }

  predicate Fits(r: Request) {
    match r
    case Fetch(f) => FetchRequestFits(f)
    case ApiVersions(v) => ApiVersionsRequestFits(v)
    case Describe(d) => DescribeRequestFits(d)
  }

  function EncodeBody(r: Request): seq<byte> {
    match r
    case Fetch(f) => Encode(FetchRequestLayout(), WireFetchRequest(f))
    case ApiVersions(v) => Encode(ApiVersionsRequestLayout(), WireApiVersionsRequest(v))
    case Describe(d) => Encode(DescribeRequestLayout(), WireDescribeRequest(d))
  }

  /** The frame a client sends: a size, a header, a body, and bytes of its own at the end of the payload. */
  function EncodePayload(h: RequestHeader, r: Request, extra: seq<byte>): seq<byte> {
    Encode(RequestHeaderLayout(), WireHeader(h)) + (EncodeBody(r) + extra)
  }

  function EncodeFrame(payload: seq<byte>): seq<byte> {
    Encode(SizedBytes, Blob(payload))
  }

  /** Reading a frame leaves exactly what follows it, whatever extra bytes the payload ends with. */
  lemma FrameRoundTrip(h: RequestHeader, r: Request, extra: seq<byte>, t: seq<byte>)
    requires Matches(h.request_api_key_, r) && Fits(r) && |h.client_id_| < 0x8000
    requires |EncodePayload(h, r, extra)| < TWO_31
    ensures ParseMessage(EncodeFrame(EncodePayload(h, r, extra)) + t) == Ok((h, r), t)
  {
    var payload := EncodePayload(h, r, extra);
    HeaderRoundTrip(h, EncodeBody(r) + extra);
    BodyRoundTrip(h.request_api_key_, r, extra);
    SizedBytesRoundTrip(payload, t);
    hide ParseHeader, ParseBody, EncodeBody, TakeSizedBytes, EncodePayload;
    assert EncodePayload(h, r, extra) == payload;
    FrameIsSized(payload);
    PayloadParses(h, r, extra);
  }

  lemma FrameIsSized(payload: seq<byte>)
    ensures EncodeFrame(payload) == BigBytes(4, |payload|) + payload
  {
    SizedEncoding(SizedBytes, Blob(payload));
    hide Encode;
  }

  lemma SizedEncoding(c: Schema, v: Value)
    requires c == SizedBytes && v.Blob?
    ensures Encode(c, v) == BigBytes(4, |v.data|) + v.data
  {
  }

  lemma PayloadParses(h: RequestHeader, r: Request, extra: seq<byte>)
    requires ParseHeader(EncodePayload(h, r, extra)) == Ok(h, EncodeBody(r) + extra)
    requires ParseBody(h.request_api_key_, EncodeBody(r) + extra) == Ok(r, extra)
    ensures ParsePayload(EncodePayload(h, r, extra)) == Ok((h, r), extra)
  {
    hide ParseHeader, ParseBody, EncodePayload, EncodeBody;
  }

  lemma BodyRoundTrip(apiKey: INT16, r: Request, extra: seq<byte>)
    requires Matches(apiKey, r) && Fits(r)
    ensures ParseBody(apiKey, EncodeBody(r) + extra) == Ok(r, extra)
  {
    hide ParseFetchRequest, ParseApiVersionsRequest, ParseDescribeRequest, Encode;
    match r
    case Fetch(f) => FetchRequestRoundTrip(f, extra);
    case ApiVersions(v) => ApiVersionsRequestRoundTrip(v, extra);
    case Describe(d) => DescribeRequestRoundTrip(d, extra);
  }
}
