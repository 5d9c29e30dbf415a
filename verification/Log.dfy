/** Scanning a partition log for its complete record batches (cluster_metadata.cpp). */
module Log {
  import opened Bytes
  import opened Varint
  import opened Wire
  import opened WireLaws
  import opened Arrays
  import opened Streams
  import opened Records
  import opened Scanning

  function EncodeBatch(b: RecordBatch): seq<byte> {
    Encode(RecordBatchLayout(), WireBatch(b))
  }

  function EncodeLog(bs: seq<RecordBatch>): seq<byte> {
    EncodeAll(EncodeBatch, bs)
  }

  /** The records that can be written and read back: the announced length is the value's, and the time difference is
      not INT64_MIN. */
  predicate WellFormedRecord(r: Record) {
    r.value_len_ == |r.value_| && r.timestamp_delta_ != -TWO_63
  }

  predicate WellFormed(b: RecordBatch) {
    |b.records_| < TWO_31 && forall i | 0 <= i < |b.records_| :: WellFormedRecord(b.records_[i])
  }

  // ---- One batch ----

  lemma RecordIsTyped(r: Record)
    ensures Typed(RecordLayout(), WireRecord(r)) <==> WellFormedRecord(r)
  {
    Ranges(r.attributes_);
  }

  lemma BatchIsTyped(b: RecordBatch)
    ensures Typed(RecordBatchLayout(), WireBatch(b)) <==> WellFormed(b)
  {
    var items := Wires(WireRecord, b.records_);
    forall i | 0 <= i < |items|
      ensures Typed(RecordLayout(), items[i]) <==> WellFormedRecord(b.records_[i])
    {
      RecordIsTyped(b.records_[i]);
    }
    assert TypedMany(RecordLayout(), items) <==> forall i | 0 <= i < |b.records_| :: WellFormedRecord(b.records_[i]);
    HeaderIsTyped(b);
  }

  lemma HeaderIsTyped(b: RecordBatch)
    ensures Typed(RecordBatchLayout(), WireBatch(b)) <==> Typed(Array(RecordLayout()), WireRecords(b.records_))
  {
    Ranges(b.base_offset_);
    Ranges(b.batch_length_);
    Ranges(b.partition_leader_epoch_);
    Ranges(b.magic_);
    Ranges(b.crc_);
    Ranges(b.attributes_);
    Ranges(b.last_offset_delta_);
    Ranges(b.base_timestamp_);
    Ranges(b.max_timestamp_);
    Ranges(b.producer_id_);
    Ranges(b.producer_epoch_);
    Ranges(b.base_sequence_);
    hide InRange, TypedMany, WireRecords, RecordLayout;
  }

  lemma WireRecordsInjective(xs: seq<Record>, ys: seq<Record>)
    requires WireRecords(xs) == WireRecords(ys)
    ensures xs == ys
  {
    WiresInjective(WireRecord, xs, ys);
  }

  lemma WireBatchInjective()
    ensures Injective(WireBatch)
  {
    forall a, b | WireBatch(a) == WireBatch(b) ensures a == b {
      hide WireRecords;
      WireRecordsInjective(a.records_, b.records_);
    }
  }

  /** A batch is read back as it was written, whatever follows it, exactly when it is well formed. */
  lemma BatchRoundTrip(b: RecordBatch, t: seq<byte>)
    ensures ParseBatch(EncodeBatch(b) + t) == Ok(b, t) <==> WellFormed(b)
  {
    BatchFollows();
    WireBatchInjective();
    BatchIsTyped(b);
    hide Decode, Encode, ParseBatch, WireBatch, Typed;
    ParseRoundTrip(RecordBatchLayout(), ParseBatch, WireBatch, b, t);
  }

  /** The one timestamp that is lost: a record written with INT64_MIN reads back with 0 and is otherwise unharmed. */
  lemma SmallestTimestampIsLost(r: Record, t: seq<byte>)
    requires r.timestamp_delta_ == -TWO_63 && r.value_len_ == |r.value_|
    ensures ParseRecord(Encode(RecordLayout(), WireRecord(r)) + t) == Ok(r.(timestamp_delta_ := 0), t)
  {
    var front, frontValue := SignedVarint.And(Int(1, true)), Num(r.length_).And(Num(r.attributes_));
    Ranges(r.attributes_);
    TypedReadsAs(front, frontValue);
    forall t ensures Decode(SignedVarlong, Encode(SignedVarlong, Num(-TWO_63)) + t) == Ok(Num(0), t) {
      SignedRoundTrip(-TWO_63, t);
    }
    TypedReadsAs(SignedVarint, Num(r.offset_delta_));
    TypedReadsAs(Byte(1), Unit);
    TypedReadsAs(RecordValue, Counted(r.value_len_, r.value_));
    TypedReadsAs(Byte(0), Unit);
    hide ReadsAs, Decode, Encode;
    var c, v, w := front, frontValue, frontValue;
    ThenReadsAs(c, SignedVarlong, v, Num(-TWO_63), w, Num(0));
    c, v, w := c.And(SignedVarlong), v.And(Num(-TWO_63)), w.And(Num(0));
    ThenReadsAs(c, SignedVarint, v, Num(r.offset_delta_), w, Num(r.offset_delta_));
    c, v, w := c.And(SignedVarint), v.And(Num(r.offset_delta_)), w.And(Num(r.offset_delta_));
    ThenReadsAs(c, Byte(1), v, Unit, w, Unit);
    c, v, w := c.And(Byte(1)), v.And(Unit), w.And(Unit);
    var counted := Counted(r.value_len_, r.value_);
    ThenReadsAs(c, RecordValue, v, counted, w, counted);
    c, v, w := c.And(RecordValue), v.And(counted), w.And(counted);
    ThenReadsAs(c, Byte(0), v, Unit, w, Unit);
    ReadAsRecord(r, r.(timestamp_delta_ := 0), t);
  }

  lemma ReadAsRecord(r: Record, r': Record, t: seq<byte>)
    requires ReadsAs(RecordLayout(), WireRecord(r), WireRecord(r'))
    ensures ParseRecord(Encode(RecordLayout(), WireRecord(r)) + t) == Ok(r', t)
  {
    hide Decode, Encode, ParseRecord;
    RecordFollows();
  }

  /** Whatever bytes a batch was read from, it is well formed, and writing it gives no more bytes than were read,
      and the same bytes exactly when those were canonical. */
  lemma BatchRewrite(s: seq<byte>)
    requires ParseBatch(s).Ok?
    ensures var Ok(b, rest) := ParseBatch(s);
      WellFormed(b) && Rewrites(EncodeBatch(b), rest, s, Canonical(RecordBatchLayout(), s))
  {
    BatchFollowsAt(s);
    RewriteDecoded(RecordBatchLayout(), s);
    BatchIsTyped(ParseBatch(s).value);
    hide Decode, Encode, ParseBatch, WireBatch, Typed, Canonical;
  }

  lemma LayoutSizes()
    ensures MinSize(RecordLayout()) == 7
    ensures MinSize(RecordBatchLayout().first) == 57
  {
    RecordMinSize();
    BatchMinSize();
    hide MinSize;
  }

  lemma RecordMinSize()
    ensures MinSize(RecordLayout()) == 7
  {
  }

  lemma BatchMinSize()
    ensures MinSize(RecordBatchLayout().first) == 57
  {
    hide RecordLayout;
  }

  /** The fixed part of a batch takes 61 bytes and every record at least 7. */
  lemma BatchSize(b: RecordBatch)
    requires WellFormed(b)
    ensures |EncodeBatch(b)| >= 61 + 7 * |b.records_|
  {
    BatchIsTyped(b);
    LayoutSizes();
    hide Encode, EncodeMany, EncodeBatch, Typed, TypedMany, MinSize, RecordLayout, RecordBatchLayout, WireBatch;
    BatchSplit(b);
    EncodedManyAtLeast(RecordLayout(), Wires(WireRecord, b.records_));
  }

  lemma BatchParts(b: RecordBatch)
    ensures RecordBatchLayout() == Then(RecordBatchLayout().first, Array(RecordLayout()))
    ensures WireBatch(b) == Pair(WireBatch(b).left, Many(Wires(WireRecord, b.records_)))
  {
  }

  lemma BatchSplit(b: RecordBatch)
    requires Typed(RecordBatchLayout(), WireBatch(b))
    ensures TypedMany(RecordLayout(), Wires(WireRecord, b.records_))
    ensures |EncodeBatch(b)| >=
      4 + MinSize(RecordBatchLayout().first) + |EncodeMany(RecordLayout(), Wires(WireRecord, b.records_))|
  {
    BatchParts(b);
    var items := Wires(WireRecord, b.records_);
    var c, v := RecordBatchLayout().first, WireBatch(b).left;
    SplitTyped(c, RecordLayout(), v, items);
    hide Encode, EncodeMany, Typed, TypedMany, MinSize, RecordLayout, RecordBatchLayout, WireBatch;
    EncodedAtLeast(c, v);
    ThenEncoding(c, Array(RecordLayout()), v, Many(items));
    SplitArray(RecordLayout(), items);
  }

  lemma SplitTyped(c: Schema, e: Schema, v: Value, items: seq<Value>)
    requires Typed(Then(c, Array(e)), Pair(v, Many(items)))
    ensures Typed(c, v) && TypedMany(e, items)
  {
  }

  lemma SplitArray(e: Schema, items: seq<Value>)
    ensures |Encode(Array(e), Many(items))| == 4 + |EncodeMany(e, items)|
  {
  }

  /** Well formed or not, a batch takes at least 61 bytes. */
  lemma BatchIsLong(b: RecordBatch)
    ensures |EncodeBatch(b)| >= 61
  {
    var empty := b.(records_ := []);
    BatchIsTyped(empty);
    BatchParts(b);
    BatchParts(empty);
    LayoutSizes();
    var c, v := RecordBatchLayout().first, WireBatch(b).left;
    assert WireBatch(empty).left == v;
    SplitTyped(c, RecordLayout(), v, Wires(WireRecord, empty.records_));
    hide Encode, EncodeMany, Typed, TypedMany, MinSize, RecordLayout, RecordBatchLayout, WireBatch;
    EncodedAtLeast(c, v);
    ThenEncoding(c, Array(RecordLayout()), v, Many(Wires(WireRecord, b.records_)));
    SplitArray(RecordLayout(), Wires(WireRecord, b.records_));
  }

  lemma {:induction false} LogIsLong(bs: seq<RecordBatch>)
    ensures |EncodeLog(bs)| >= 61 * |bs|
    decreases |bs|
  {
    hide EncodeBatch;
    if bs != [] {
      BatchIsLong(bs[0]);
      LogIsLong(bs[1..]);
    }
  }

  // ---- Scanning ----

  /** An accepted batch takes bytes away from the front of its input. */
  lemma BatchUsed(s: seq<byte>)
    requires ParseBatch(s).Ok?
    ensures var Ok(b, rest) := ParseBatch(s);
      IsSuffix(rest, s) && |rest| + 61 + 7 * |b.records_| <= |s|
  {
    BatchRewrite(s);
    BatchSize(ParseBatch(s).value);
  }

  lemma BatchesConsume()
    ensures Consumes(ParseBatch)
  {
    forall s | ParseBatch(s).Ok? ensures |ParseBatch(s).rest| < |s| && IsSuffix(ParseBatch(s).rest, s) {
      BatchUsed(s);
    }
  }

  lemma BatchesAreLocal()
    ensures Local(ParseBatch)
  {
    BatchFollows();
    WireBatchInjective();
    FollowerIsLocal(RecordBatchLayout(), ParseBatch, WireBatch);
  }

  /** The batches at the front of `s`, up to the first bytes that are not a whole batch. */
  function Scan(s: seq<byte>): seq<RecordBatch> {
    BatchesConsume();
    ScanWith(ParseBatch, s)
  }

  /** The bytes of `s` that the scan does not turn into batches. */
  function Tail(s: seq<byte>): seq<byte> {
    BatchesConsume();
    TailWith(ParseBatch, s)
  }

  /** The offset in `s` at which its first `i` batches end. */
  function BatchEnd(s: seq<byte>, i: nat): nat
    requires i <= |Scan(s)|
  {
    BatchesConsume();
    EndOf(ParseBatch, s, i)
  }

  /** Appending anything to a log leaves what was found before at the front of what is found after. */
  lemma AppendMonotone(s: seq<byte>, t: seq<byte>)
    ensures Scan(s) <= Scan(s + t)
  {
    hide ParseBatch;
    BatchesConsume();
    BatchesAreLocal();
    AppendScan(ParseBatch, s, t);
  }

  /** Cutting any log after `k` bytes keeps exactly the batches that end at or before the cut. */
  lemma CutLog(s: seq<byte>, k: nat)
    requires k <= |s|
    ensures var m := |Scan(s[..k])|;
      && m <= |Scan(s)| && Scan(s[..k]) == Scan(s)[..m]
      && forall i :: 0 <= i <= |Scan(s)| ==> (BatchEnd(s, i) <= k <==> i <= m)
  {
    hide ParseBatch;
    BatchesConsume();
    BatchesAreLocal();
    CutScan(ParseBatch, s, k);
  }

  predicate AllWellFormed(bs: seq<RecordBatch>) {
    forall i | 0 <= i < |bs| :: WellFormed(bs[i])
  }

  lemma WellFormedSurvive(bs: seq<RecordBatch>)
    ensures AllSurvive(ParseBatch, EncodeBatch, bs) <==> AllWellFormed(bs)
  {
    forall i | 0 <= i < |bs| ensures Survives(ParseBatch, EncodeBatch, bs[i]) <==> WellFormed(bs[i]) {
      forall t ensures ParseBatch(EncodeBatch(bs[i]) + t) == Ok(bs[i], t) <==> WellFormed(bs[i]) {
        BatchRoundTrip(bs[i], t);
      }
      hide ParseBatch, EncodeBatch, WellFormed;
      assert WellFormed(bs[i]) ==> Survives(ParseBatch, EncodeBatch, bs[i]);
      assert Survives(ParseBatch, EncodeBatch, bs[i]) ==> ParseBatch(EncodeBatch(bs[i]) + []) == Ok(bs[i], []);
    }
    hide ParseBatch, EncodeBatch, WellFormed, Survives;
  }

  /** What was written is found again, followed by what is found in the bytes after it. */
  lemma WrittenLog(bs: seq<RecordBatch>, t: seq<byte>)
    requires AllWellFormed(bs)
    ensures Scan(EncodeLog(bs) + t) == bs + Scan(t)
    ensures Tail(EncodeLog(bs) + t) == Tail(t)
  {
    hide ParseBatch, EncodeBatch, WellFormed;
    BatchesConsume();
    WellFormedSurvive(bs);
    WrittenScan(ParseBatch, EncodeBatch, bs, t);
  }

  /** Torn-log recovery: cutting a written log anywhere gives back exactly the batches that end at or before the cut. */
  lemma TornLog(bs: seq<RecordBatch>, k: nat)
    requires AllWellFormed(bs) && k <= |EncodeLog(bs)|
    ensures var m := |Scan(EncodeLog(bs)[..k])|;
      && m <= |bs| && Scan(EncodeLog(bs)[..k]) == bs[..m]
      && forall i :: 0 <= i <= |bs| ==> (|EncodeLog(bs[..i])| <= k <==> i <= m)
  {
    hide ParseBatch, EncodeBatch, WellFormed;
    BatchesConsume();
    BatchesAreLocal();
    WellFormedSurvive(bs);
    TornScan(ParseBatch, EncodeBatch, bs, k);
  }

  // ---- Writing a scanned log again ----

  predicate CanonicalBatch(s: seq<byte>) {
    Canonical(RecordBatchLayout(), s)
  }

  /** Whether every accepted batch of a log is spelled as the writer spells it. */
  predicate CanonicalLog(s: seq<byte>) {
    BatchesConsume();
    CanonicalWith(ParseBatch, CanonicalBatch, s)
  }

  /** Byte-exact re-emission: writing the batches found in any log gives no more bytes than they were found in, and
      those very bytes exactly when every varint in them was minimal and untruncated and no record count was
      negative. */
  lemma ByteExact(s: seq<byte>)
    ensures Rewrites(EncodeLog(Scan(s)), Tail(s), s, CanonicalLog(s))
  {
    BatchesConsume();
    forall s | ParseBatch(s).Ok?
      ensures Rewrites(EncodeBatch(ParseBatch(s).value), ParseBatch(s).rest, s, CanonicalBatch(s))
    {
      BatchRewrite(s);
    }
    hide ParseBatch, EncodeBatch, CanonicalBatch, Rewrites;
    RewriteScan(ParseBatch, EncodeBatch, CanonicalBatch, s);
  }

  /** The bytes of `s` that the scan turns into batches. */
  function Accepted(s: seq<byte>): seq<byte> {
    TailIsLeft(s);
    s[..|s| - |Tail(s)|]
  }

  lemma TailIsLeft(s: seq<byte>)
    ensures |Tail(s)| <= |s| && s[..|s| - |Tail(s)|] + Tail(s) == s
  {
    ByteExact(s);
    hide EncodeLog, Scan, Tail, CanonicalLog;
  }

  /** The accepted part of a log is written again as it was, byte for byte, exactly when it was canonical. */
  lemma AcceptedExact(s: seq<byte>)
    ensures EncodeLog(Scan(s)) == Accepted(s) <==> CanonicalLog(s)
  {
    ByteExact(s);
    hide EncodeLog, Scan, Tail, CanonicalLog;
    var w := EncodeLog(Scan(s));
    if w + Tail(s) == s {
      assert w == (w + Tail(s))[..|s| - |Tail(s)|];
    }
  }

  lemma {:induction false} ScannedAreWellFormed(s: seq<byte>)
    ensures AllWellFormed(Scan(s))
    decreases |s|
  {
    hide ParseBatch, WellFormed;
    BatchesConsume();
    if ParseBatch(s).Ok? {
      BatchRewrite(s);
      BatchUsed(s);
      ScannedAreWellFormed(ParseBatch(s).rest);
    }
  }

  /** Scanning, writing and scanning again finds the same batches. */
  lemma LogNormalForm(s: seq<byte>)
    ensures Scan(EncodeLog(Scan(s))) == Scan(s) && |EncodeLog(Scan(s))| <= |s|
  {
    ByteExact(s);
    ScannedAreWellFormed(s);
    WrittenLog(Scan(s), []);
    BatchesConsume();
    NothingToScan(ParseBatch);
    hide ParseBatch, EncodeLog;
    assert EncodeLog(Scan(s)) + [] == EncodeLog(Scan(s)) && Scan(s) + [] == Scan(s);
  }

  function RecordCount(bs: seq<RecordBatch>): nat {
    if bs == [] then 0 else |bs[0].records_| + RecordCount(bs[1..])
  }

  /** A log cannot hold more batches and records than its length allows. */
  lemma {:induction false} ScanBound(s: seq<byte>)
    ensures 61 * |Scan(s)| + 7 * RecordCount(Scan(s)) + |Tail(s)| <= |s|
    decreases |s|
  {
    hide ParseBatch;
    BatchesConsume();
    if ParseBatch(s).Ok? {
      BatchUsed(s);
      ScanBound(ParseBatch(s).rest);
      assert Scan(s)[1..] == Scan(ParseBatch(s).rest);
    }
  }

  // ---- Reading a log file ----

  /** The log of a partition: what its file holds and how the kernel will hand it out. */
  datatype LogFile = LogFile(bytes: seq<byte>, schedule: Schedule)

  datatype LogKey = LogKey(topic_name: seq<byte>, partition_index: INT32)

  type Disk = map<LogKey, LogFile>

  /** What a scan of `file` may return: all its batches, or, if reading it can fail, the first few of them. */
  ghost predicate Scanned(file: LogFile, bs: seq<RecordBatch>) {
    bs <= Scan(file.bytes) && (Quiet(file.schedule) ==> bs == Scan(file.bytes))
  }

  method ReadRecordBatches(disk: Disk, topicName: seq<byte>, partitionIndex: INT32)
    returns (r: Option<seq<RecordBatch>>)
    ensures r.Some? <==> LogKey(topicName, partitionIndex) in disk
    ensures r.Some? ==> Scanned(disk[LogKey(topicName, partitionIndex)], r.value)
  {
    var key := LogKey(topicName, partitionIndex);
    if key !in disk {
      return None;
    }
    var readEnd := new ReadEnd(disk[key].bytes, disk[key].schedule);
    var writeEnd := new WriteEnd(disk[key].schedule);
    var logFd := new FileDescriptor(readEnd, writeEnd);
    ghost var s := disk[key].bytes;

    var recordBatches: seq<RecordBatch> := [];
    hide ParseBatch, Scan;
    while true
      invariant logFd.readEnd == readEnd && readEnd.schedule == disk[key].schedule && fresh(readEnd)
      invariant Scan(s) == recordBatches + Scan(readEnd.pending)
      decreases |readEnd.pending|
    {
      ScanStep(recordBatches, readEnd.pending);
      var recordBatch := ReadBatch(Descriptor(logFd));
      if recordBatch.None? {
        return Some(recordBatches);
      }
      recordBatches := recordBatches + [recordBatch.value];
    }
  }

  lemma ScanStep(before: seq<RecordBatch>, s: seq<byte>)
    ensures ParseBatch(s).Err? ==> before + Scan(s) == before
    ensures ParseBatch(s).Ok? ==>
      var Ok(b, rest) := ParseBatch(s);
      |rest| < |s| && before + Scan(s) == (before + [b]) + Scan(rest)
  {
    hide ParseBatch;
    BatchesConsume();
    if ParseBatch(s).Ok? {
      BatchUsed(s);
    }
  }
}
