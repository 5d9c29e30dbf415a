/** Which bytes of a metadata log tell which events: the record layouts, and logs written with them. */
module EventLaws {
  import opened Bytes
  import opened Varint
  import opened Wire
  import opened WireLaws
  import opened Streams
  import opened Reader
  import opened Uuids
  import opened Records
  import opened Scanning
  import opened Log
  import opened RequestLaws
  import opened Metadata

  /** Whichever record it is, a value starts with its frame version, its type and its version. */
  function HeadLayout(kind: byte): Schema {
    Int(1, true).And(Byte(kind)).And(Int(1, true))
  }

  /** The part of a topic record that is read. */
  function TopicRecordLayout(): Schema {
    HeadLayout(2)
      .And(CompactString)     // name
      .And(Raw(16))           // topic id
  }

  /** The part of a partition record that is read. */
  function PartitionRecordLayout(): Schema {
    HeadLayout(3)
      .And(Int(4, true))      // partition id
      .And(Raw(16))           // topic id
  }

  function WireTopicRecord(frame: INT8, version: INT8, name: seq<byte>, id: Uuid): Value {
    Num(frame).And(Unit).And(Num(version)).And(Blob(name)).And(Blob(id))
  }

  function WirePartitionRecord(frame: INT8, version: INT8, partition: INT32, id: Uuid): Value {
    Num(frame).And(Unit).And(Num(version)).And(Num(partition)).And(Blob(id))
  }

  /** A record value that tells `e`, whatever its two versions.  Type 12 stands for the types that are passed over. */
  function EventValue(frame: INT8, version: INT8, e: Event): seq<byte> {
    match e
    case TopicRecord(name, id) => Encode(TopicRecordLayout(), WireTopicRecord(frame, version, name, id))
    case PartitionRecord(partition, id) =>
      Encode(PartitionRecordLayout(), WirePartitionRecord(frame, version, partition, id))
    case OtherRecord => BigBytes(1, frame) + [12] + BigBytes(1, version)
  }

  // ---- Which bytes are which event ----

  function Signed(b: byte): INT8 {
    if b < 128 then b else b - 256
  }

  lemma FirstByte(s: seq<byte>)
    ensures TakeInt8(s) == if s == [] then Err else Ok(Signed(s[0]), s[1..])
  {
    if s != [] {
      assert s[..1][..0] == [];
      assert Pow256(0) == 1 && Pow256(1) == 256;
    }
  }

  lemma ThreeBytes(s: seq<byte>)
    requires |s| >= 3
    ensures TakeInt8(s) == Ok(Signed(s[0]), s[1..])
    ensures TakeInt8(s[1..]) == Ok(Signed(s[1]), s[2..])
    ensures TakeInt8(s[2..]) == Ok(Signed(s[2]), s[3..])
  {
    FirstByte(s);
    FirstByte(s[1..]);
    FirstByte(s[2..]);
    hide TakeInt8, Signed;
    assert s[1..][1..] == s[2..] && s[2..][1..] == s[3..];
  }

  lemma HeadFollows(kind: byte, s: seq<byte>)
    requires |s| >= 3
    ensures Decode(HeadLayout(kind), s) ==
      if s[1] == kind then Ok(Num(Signed(s[0])).And(Unit).And(Num(Signed(s[2]))), s[3..]) else Err
  {
    DecodeFields(HeadLayout(kind), s);
    IntFields();
    OtherFields();
    ThreeBytes(s);
    hide Decode, TakeInt, TakeInt8, Signed;
    assert s[1..][0] == s[1] && s[1..][1..] == s[2..];
  }

  lemma KindDecides(s: seq<byte>)
    requires |s| >= 3
    ensures ParseEvent(s) ==
      if s[1] == 2 then ParseTopic(s[3..]) else if s[1] == 3 then ParsePartition(s[3..]) else Ok(OtherRecord, s[3..])
  {
    ThreeBytes(s);
    hide TakeInt, TakeInt8, TakeInt32, TakeCompactString, TakeUuid;
  }

  /** A value is read as a topic record exactly when its bytes have the layout of one, and it carries the same
      fields. */
  lemma TopicRecordFollows(s: seq<byte>)
    requires |s| >= 3
    ensures Decode(TopicRecordLayout(), s) ==
      match ParseEvent(s)
      case Ok(TopicRecord(name, id), rest) => Ok(WireTopicRecord(Signed(s[0]), Signed(s[2]), name, id), rest)
      case _ => Err
  {
    DecodeFields(TopicRecordLayout(), s);
    OtherFields();
    HeadFollows(2, s);
    KindDecides(s);
    hide Decode, ParseEvent, TakeInt32, TakeCompactString, TakeBytes, Signed;
  }

  lemma PartitionRecordFollows(s: seq<byte>)
    requires |s| >= 3
    ensures Decode(PartitionRecordLayout(), s) ==
      match ParseEvent(s)
      case Ok(PartitionRecord(partition, id), rest) =>
        Ok(WirePartitionRecord(Signed(s[0]), Signed(s[2]), partition, id), rest)
      case _ => Err
  {
    DecodeFields(PartitionRecordLayout(), s);
    IntFields();
    OtherFields();
    HeadFollows(3, s);
    KindDecides(s);
    hide Decode, ParseEvent, TakeInt, TakeInt32, TakeCompactString, TakeBytes, Signed;
  }

  /** Which bytes give which event, and which give none: three bytes are needed; type 2 must go on as a topic record and
      type 3 as a partition record; any other type is passed over, whatever follows. */
  lemma EventsByLayout(s: seq<byte>)
    ensures |s| < 3 ==> ParseEvent(s).Err?
    ensures |s| >= 3 && s[1] == 2 ==> (ParseEvent(s).Ok? <==> Decode(TopicRecordLayout(), s).Ok?)
    ensures |s| >= 3 && s[1] == 3 ==> (ParseEvent(s).Ok? <==> Decode(PartitionRecordLayout(), s).Ok?)
    ensures |s| >= 3 ==> (ParseEvent(s) == Ok(OtherRecord, s[3..]) <==> s[1] != 2 && s[1] != 3)
  {
    hide Decode, TakeInt, TakeInt8, TakeInt32, TakeCompactString, TakeBytes;
    if |s| >= 3 {
      TopicRecordFollows(s);
      PartitionRecordFollows(s);
      ThreeBytes(s);
    } else {
      FirstByte(s);
      FirstByte(if s == [] then s else s[1..]);
      FirstByte(if |s| < 2 then [] else s[2..]);
    }
  }

  // ---- Reading what was logged ----

  /** Whether a record can tell the event: the name of a topic must fit its length field. */
  predicate Loggable(e: Event) {
    e.TopicRecord? ==> CompactSize(|e.name|)
  }

  lemma TopicRecordIsTyped(frame: INT8, version: INT8, name: seq<byte>, id: Uuid)
    ensures Typed(TopicRecordLayout(), WireTopicRecord(frame, version, name, id)) <==> CompactSize(|name|)
  {
    Ranges(frame);
    Ranges(version);
    hide InRange;
  }

  lemma PartitionRecordIsTyped(frame: INT8, version: INT8, partition: INT32, id: Uuid)
    ensures Typed(PartitionRecordLayout(), WirePartitionRecord(frame, version, partition, id))
  {
    Ranges(frame);
    Ranges(version);
    Ranges(partition);
    hide InRange;
  }

  function Kind(e: Event): byte {
    match e
    case TopicRecord(_, _) => 2
    case PartitionRecord(_, _) => 3
    case OtherRecord => 12
  }

  lemma SignedByte(n: INT8)
    ensures BigBytes(1, n) == [n % 256] && Signed(n % 256) == n
  {
    assert BigBytes(0, n / 256) == [];
  }

  lemma OneByteFields(kind: byte, n: INT8)
    ensures Encode(Int(1, true), Num(n)) == [n % 256] && Encode(Byte(kind), Unit) == [kind]
  {
    SignedByte(n);
  }

  lemma LayoutParts(kind: byte, d: Schema, e: Schema, frame: INT8, version: INT8, v: Value, w: Value)
    ensures Encode(HeadLayout(kind).And(d).And(e), Num(frame).And(Unit).And(Num(version)).And(v).And(w))
      == [frame % 256, kind, version % 256] + (Encode(d, v) + Encode(e, w))
  {
    hide Encode, BigBytes;
    ThenEncoding(Int(1, true), Byte(kind), Num(frame), Unit);
    var c, u := Int(1, true).And(Byte(kind)), Num(frame).And(Unit);
    ThenEncoding(c, Int(1, true), u, Num(version));
    var c', u' := c.And(Int(1, true)), u.And(Num(version));
    ThenEncoding(c', d, u', v);
    ThenEncoding(c'.And(d), e, u'.And(v), w);
    OneByteFields(kind, frame);
    OneByteFields(kind, version);
    var head := [frame % 256, kind, version % 256];
    assert ([frame % 256] + [kind]) + [version % 256] == head;
    assert (head + Encode(d, v)) + Encode(e, w) == head + (Encode(d, v) + Encode(e, w));
  }

  /** Every value starts with its frame version, its type and its version. */
  lemma EventHead(frame: INT8, version: INT8, e: Event, t: seq<byte>)
    ensures var s := EventValue(frame, version, e) + t;
      && |s| >= 3 && Signed(s[0]) == frame && s[1] == Kind(e) && Signed(s[2]) == version
      && (e.OtherRecord? ==> s[3..] == t)
  {
    SignedByte(frame);
    SignedByte(version);
    hide Encode, BigBytes;
    match e
    case TopicRecord(name, id) =>
      LayoutParts(2, CompactString, Raw(16), frame, version, Blob(name), Blob(id));
    case PartitionRecord(partition, id) =>
      LayoutParts(3, Int(4, true), Raw(16), frame, version, Num(partition), Blob(id));
    case OtherRecord =>
  }

  /** An event is read back as it was written, in any frame version and version and whatever follows it, exactly when it
      is loggable. */
  lemma EventRoundTrip(frame: INT8, version: INT8, e: Event, t: seq<byte>)
    ensures ParseEvent(EventValue(frame, version, e) + t) == Ok(e, t) <==> Loggable(e)
  {
    var s := EventValue(frame, version, e) + t;
    hide Decode, Encode, ParseEvent;
    EventHead(frame, version, e, t);
    EventsByLayout(s);
    match e
    case TopicRecord(name, id) =>
      RoundTrip(TopicRecordLayout(), WireTopicRecord(frame, version, name, id), t);
      TopicRecordIsTyped(frame, version, name, id);
      TopicRecordFollows(s);
    case PartitionRecord(partition, id) =>
      RoundTrip(PartitionRecordLayout(), WirePartitionRecord(frame, version, partition, id), t);
      PartitionRecordIsTyped(frame, version, partition, id);
      PartitionRecordFollows(s);
    case OtherRecord =>
  }

  // ---- Logs of events ----

  ghost predicate Tells(r: Record, e: Event) {
    Loggable(e) && exists frame: INT8, version: INT8 :: r.value_ == EventValue(frame, version, e)
  }

  /** The records tell the events one by one, in any frame versions and versions. */
  ghost predicate TellAll(rs: seq<Record>, es: seq<Event>) {
    |rs| == |es| && forall i | 0 <= i < |rs| :: Tells(rs[i], es[i])
  }

  lemma ToldEvent(r: Record, e: Event)
    requires Tells(r, e)
    ensures ParseEvent(r.value_) == Ok(e, [])
  {
    hide ParseEvent, EventValue;
    var frame: INT8, version: INT8 :| r.value_ == EventValue(frame, version, e);
    EventRoundTrip(frame, version, e, []);
    assert r.value_ + [] == r.value_;
  }

  lemma {:induction false} ToldEvents(rs: seq<Record>, es: seq<Event>)
    requires TellAll(rs, es)
    ensures EventsOf(rs) == Some(es)
    decreases |rs|
  {
    hide ParseEvent, Tells;
    if rs != [] {
      ToldEvent(rs[0], es[0]);
      ToldEvents(rs[1..], es[1..]);
      assert es == [es[0]] + es[1..];
    }
  }

  /** What is logged is replayed: events written as records of well-formed batches, spread over batches in any way, are
      the events that a scan of the log's bytes gives back. */
  lemma LoggedEvents(bs: seq<RecordBatch>, es: seq<Event>)
    requires AllWellFormed(bs) && TellAll(AllRecords(bs), es)
    ensures EventsOf(AllRecords(Scan(EncodeLog(bs)))) == Some(es)
  {
    ToldEvents(AllRecords(bs), es);
    WrittenLog(bs, []);
    BatchesConsume();
    NothingToScan(ParseBatch);
    hide ParseBatch, EncodeLog, EventsOf;
    assert EncodeLog(bs) + [] == EncodeLog(bs) && bs + [] == bs;
  }

  /** One more batch in the log adds the events of its records, in their order, after those of the batches before it. */
  lemma LoggedNext(bs: seq<RecordBatch>, b: RecordBatch, es: seq<Event>, fs: seq<Event>)
    requires AllWellFormed(bs + [b]) && TellAll(AllRecords(bs), es) && TellAll(b.records_, fs)
    ensures TellAll(AllRecords(bs + [b]), es + fs)
    ensures EventsOf(AllRecords(Scan(EncodeLog(bs + [b])))) == Some(es + fs)
  {
    hide Tells, EncodeLog, Scan, EventsOf, AllRecords, AllWellFormed;
    AllRecordsAppend(bs, [b]);
    AllRecordsOne(b);
    LoggedEvents(bs + [b], es + fs);
  }

  /** The events of several batches, one list after the other. */
  function Joined(ess: seq<seq<Event>>): seq<Event> {
    if ess == [] then [] else Joined(ess[..|ess| - 1]) + ess[|ess| - 1]
  }

  /** What is logged batch by batch is replayed batch by batch, and record by record in each. */
  lemma {:induction false} LoggedBatches(bs: seq<RecordBatch>, ess: seq<seq<Event>>)
    requires AllWellFormed(bs) && |bs| == |ess| && forall i | 0 <= i < |bs| :: TellAll(bs[i].records_, ess[i])
    ensures TellAll(AllRecords(bs), Joined(ess))
    ensures EventsOf(AllRecords(Scan(EncodeLog(bs)))) == Some(Joined(ess))
    decreases |bs|
  {
    hide WellFormed, EncodeLog, Scan, EventsOf, AllRecords, TellAll;
    if bs == [] {
      EmptyLog();
    } else {
      var k := |bs| - 1;
      LoggedBatches(bs[..k], ess[..k]);
      assert bs == bs[..k] + [bs[k]];
      LoggedNext(bs[..k], bs[k], Joined(ess[..k]), ess[k]);
    }
  }

  lemma EmptyLog()
    ensures TellAll(AllRecords([]), []) && EventsOf(AllRecords(Scan(EncodeLog([])))) == Some([])
  {
    LoggedEvents([], []);
  }

  /** Whether an event fits in a record, whose length field is signed. */
  predicate Storable(e: Event) {
    Loggable(e) && |EventValue(1, 0, e)| < TWO_31
  }

  predicate AllStorable(es: seq<Event>) {
    forall i | 0 <= i < |es| :: Storable(es[i])
  }

  function RecordOf(e: Event): Record
    requires Storable(e)
  {
    var value := EventValue(1, 0, e);
    Record(0, 0, 0, 0, |value|, value)
  }

  /** A batch with one record per event. */
  function BatchOf(es: seq<Event>): RecordBatch
    requires AllStorable(es)
  {
    RecordBatch(0, 0, 0, 2, 0, 0, 0, 0, 0, 0, 0, 0, seq(|es|, i requires 0 <= i < |es| => RecordOf(es[i])))
  }

  /** Every history of storable events is the replay of some log's bytes. */
  lemma EveryHistoryHappens(es: seq<Event>)
    requires AllStorable(es) && |es| < TWO_31
    ensures EventsOf(AllRecords(Scan(EncodeLog([BatchOf(es)])))) == Some(es)
  {
    hide EventValue, Loggable, EncodeLog, Scan, EventsOf;
    var b := BatchOf(es);
    AllRecordsOne(b);
    forall i | 0 <= i < |es| ensures Tells(b.records_[i], es[i]) && WellFormedRecord(b.records_[i]) {
      assert b.records_[i].value_ == EventValue(1, 0, es[i]);
    }
    LoggedEvents([b], es);
  }

  /** A name of any length a record has room for. */
  lemma NameFits(name: seq<byte>, id: Uuid)
    requires |name| + 24 < TWO_31
    ensures Storable(TopicRecord(name, id))
  {
    UnsignedVarlongRoundTrip(|name| + 1, []);
    SignedByte(1);
    SignedByte(0);
    LayoutParts(2, CompactString, Raw(16), 1, 0, Blob(name), Blob(id));
    StringParts(name);
    hide BigBytes, EncodeUnsigned;
  }

  lemma StringParts(d: seq<byte>)
    ensures Encode(CompactString, Blob(d)) == CompactLength(|d|) + d && Encode(Raw(16), Blob(d)) == d
  {
  }

  lemma PartitionFits(partition: INT32, id: Uuid)
    ensures Storable(PartitionRecord(partition, id))
  {
    LayoutParts(3, Int(4, true), Raw(16), 1, 0, Num(partition), Blob(id));
    StringParts(id);
    assert |Encode(Int(4, true), Num(partition))| == 4;
    hide Encode;
  }
}
