/** The cluster metadata that replaying the metadata log builds (cluster_metadata.cpp). */
module Metadata {
  import opened Bytes
  import opened Wire
  import opened Streams
  import opened Reader
  import opened Uuids
  import opened Records
  import opened Log

  /** What a record of the metadata log tells. */
  datatype Event =
    | TopicRecord(name: seq<byte>, id: Uuid)
    | PartitionRecord(partition: INT32, topic: Uuid)
    | OtherRecord

  /** The three maps of the metadata. */
  datatype Index = Index(
    ids: map<seq<byte>, Uuid>,
    names: map<Uuid, seq<byte>>,
    partitions: map<Uuid, seq<INT32>>)

  const EMPTY := Index(map[], map[], map[])

  function Get<K, V>(m: map<K, V>, k: K): Option<V> {
    if k in m then Some(m[k]) else None
  }

  // ---- Replay ----

  function ParseEvent(value: seq<byte>): Parsed<Event> {
    var (_, s) :- TakeInt8(value);
    var (kind, s) :- TakeInt8(s);
    var (_, s) :- TakeInt8(s);
    if kind == 2 then ParseTopic(s) else if kind == 3 then ParsePartition(s) else Ok(OtherRecord, s)
  }

  function ParseTopic(s: seq<byte>): Parsed<Event> {
    var (name, s) :- TakeCompactString(s);
    var (id, s) :- TakeUuid(s);
    Ok(TopicRecord(name, id), s)
  }

  function ParsePartition(s: seq<byte>): Parsed<Event> {
    var (partition, s) :- TakeInt32(s);
    var (id, s) :- TakeUuid(s);
    Ok(PartitionRecord(partition, id), s)
  }

  function PartitionList(st: Index, id: Uuid): seq<INT32> {
    if id in st.partitions then st.partitions[id] else []
  }

  function Apply(st: Index, e: Event): Index {
    match e
    case TopicRecord(name, id) => st.(ids := st.ids[name := id], names := st.names[id := name])
    case PartitionRecord(partition, id) => st.(partitions := st.partitions[id := PartitionList(st, id) + [partition]])
    case OtherRecord => st
  }

  function Replay(st: Index, es: seq<Event>): Index
    decreases |es|
  {
    if es == [] then st else Replay(Apply(st, es[0]), es[1..])
  }

  /** The events that a list of records tells, or nothing when one of them cannot be parsed. */
  function EventsOf(rs: seq<Record>): Option<seq<Event>> {
    if rs == [] then Some([])
    else match (ParseEvent(rs[0].value_), EventsOf(rs[1..]))
      case (Ok(e, _), Some(es)) => Some([e] + es)
      case _ => None
  }

  function AllRecords(bs: seq<RecordBatch>): seq<Record> {
    if bs == [] then [] else bs[0].records_ + AllRecords(bs[1..])
  }

  /** One event per record, in order; and none at all when any record cannot be parsed, wherever it stands. */
  lemma {:induction false} OneEventPerRecord(rs: seq<Record>)
    ensures EventsOf(rs) == None <==> exists i :: 0 <= i < |rs| && ParseEvent(rs[i].value_).Err?
    ensures EventsOf(rs).Some? ==>
      && |EventsOf(rs).value| == |rs|
      && forall i | 0 <= i < |rs| ::
        && ParseEvent(rs[i].value_).Ok?
        && EventsOf(rs).value[i] == ParseEvent(rs[i].value_).value
    decreases |rs|
  {
    hide ParseEvent;
    if rs != [] {
      OneEventPerRecord(rs[1..]);
      if ParseEvent(rs[0].value_).Ok? && EventsOf(rs[1..]) == None {
        var i :| 0 <= i < |rs[1..]| && ParseEvent(rs[1..][i].value_).Err?;
        assert rs[i + 1] == rs[1..][i];
      } else if EventsOf(rs).Some? {
        forall i | 0 < i < |rs| ensures ParseEvent(rs[i].value_).Ok? {
          assert rs[i] == rs[1..][i - 1];
        }
      }
    }
  }

  /** The records of a log are those of its batches, in the order of the log. */
  lemma {:induction false} AllRecordsAppend(bs: seq<RecordBatch>, cs: seq<RecordBatch>)
    ensures AllRecords(bs + cs) == AllRecords(bs) + AllRecords(cs)
    decreases |bs|
  {
    if bs == [] {
      assert bs + cs == cs;
    } else {
      AllRecordsAppend(bs[1..], cs);
      assert (bs + cs)[1..] == bs[1..] + cs;
    }
  }

  lemma AllRecordsOne(b: RecordBatch)
    ensures AllRecords([b]) == b.records_ && AllRecords([]) == []
  {
    assert AllRecords([b]) == b.records_ + AllRecords([]);
  }

  /** Replays record after record, giving up at the first that cannot be parsed. */
  function ReplayRecords(st: Index, rs: seq<Record>): Option<Index>
    decreases |rs|
  {
    if rs == [] then Some(st)
    else match ParseEvent(rs[0].value_)
      case Err => None
      case Ok(e, _) => ReplayRecords(Apply(st, e), rs[1..])
  }

  lemma {:induction false} ReplayIsFold(st: Index, rs: seq<Record>)
    ensures ReplayRecords(st, rs) == match EventsOf(rs) case None => None case Some(es) => Some(Replay(st, es))
    decreases |rs|
  {
    hide ParseEvent, Apply;
    if rs != [] {
      var p := ParseEvent(rs[0].value_);
      if p.Ok? {
        ReplayIsFold(Apply(st, p.value), rs[1..]);
        if EventsOf(rs[1..]).Some? {
          var es := EventsOf(rs[1..]).value;
          assert ([p.value] + es)[1..] == es;
        }
      }
    }
  }

  class ClusterMetadata {
    var topic_ids_: map<seq<byte>, Uuid>
    var topic_names_: map<Uuid, seq<byte>>
    var partition_ids_: map<Uuid, seq<INT32>>

    function State(): Index
      reads this
    {
      Index(topic_ids_, topic_names_, partition_ids_)
    }

    constructor ()
      ensures State() == EMPTY
    {
      topic_ids_, topic_names_, partition_ids_ := map[], map[], map[];
    }

    /** Takes in one record of the log; failing means its value cannot be parsed. */
    method AddRecord(value: seq<byte>) returns (ok: bool)
      modifies this
      ensures ok <==> ParseEvent(value).Ok?
      ensures ok ==> State() == Apply(old(State()), ParseEvent(value).value)
    {
      hide TakeInt, TakeInt8, TakeInt32, TakeUuid, TakeCompactString;
      var buffer := new ReadableBuffer(value);
      var rb := Buffer(buffer);
      var frameVersion := ReadInt8(rb);
      if frameVersion.None? { return false; }
      var kind := ReadInt8(rb);
      if kind.None? { return false; }
      var version := ReadInt8(rb);
      if version.None? { return false; }

      if kind.value == 2 {
        var topicName := ReadCompactString(rb);
        if topicName.None? { return false; }
        var topicId := ReadUuid(rb);
        if topicId.None? { return false; }
        topic_ids_ := topic_ids_[topicName.value := topicId.value];
        topic_names_ := topic_names_[topicId.value := topicName.value];
      } else if kind.value == 3 {
        var partitionId := ReadInt32(rb);
        if partitionId.None? { return false; }
        var topicId := ReadUuid(rb);
        if topicId.None? { return false; }
        var list := if topicId.value in partition_ids_ then partition_ids_[topicId.value] else [];
        partition_ids_ := partition_ids_[topicId.value := list + [partitionId.value]];
      }
      ok := true;
    }

    /** Replays the records of `bs`, batch by batch. */
    method AddBatches(bs: seq<RecordBatch>) returns (ok: bool)
      modifies this
      ensures ReplayRecords(old(State()), AllRecords(bs)) == if ok then Some(State()) else None
    {
      hide ParseEvent, Apply;
      ghost var st := State();
      for i := 0 to |bs|
        invariant ReplayRecords(st, AllRecords(bs)) == ReplayRecords(State(), AllRecords(bs[i..]))
      {
        var records := bs[i].records_;
        ghost var later := AllRecords(bs[i + 1..]);
        assert bs[i..][1..] == bs[i + 1..];
        for j := 0 to |records|
          invariant ReplayRecords(st, AllRecords(bs)) == ReplayRecords(State(), records[j..] + later)
        {
          assert (records[j..] + later)[1..] == records[j + 1..] + later;
          ok := AddRecord(records[j].value_);
          if !ok {
            return;
          }
        }
        assert records[|records|..] + later == later;
      }
      ok := true;
    }

    /** What the C++ constructor does after the maps exist: replay the log of __cluster_metadata-0. */
    method Load(disk: Disk) returns (ok: bool)
      requires State() == EMPTY
      modifies this
      ensures ok ==> METADATA_LOG in disk && exists bs, es ::
        Scanned(disk[METADATA_LOG], bs) && EventsOf(AllRecords(bs)) == Some(es) && State() == Replay(EMPTY, es)
      ensures !ok && METADATA_LOG in disk ==> exists bs ::
        Scanned(disk[METADATA_LOG], bs) && EventsOf(AllRecords(bs)) == None
    {
      var batches := ReadRecordBatches(disk, METADATA_LOG.topic_name, METADATA_LOG.partition_index);
      if batches.None? {
        return false;
      }
      ok := AddBatches(batches.value);
      ReplayIsFold(EMPTY, AllRecords(batches.value));
      assert Scanned(disk[METADATA_LOG], batches.value);
    }

    method GetTopicId(topicName: seq<byte>) returns (r: Option<Uuid>)
      ensures r == Get(topic_ids_, topicName)
    {
      r := if topicName in topic_ids_ then Some(topic_ids_[topicName]) else None;
    }

    method GetTopicName(topicId: Uuid) returns (r: Option<seq<byte>>)
      ensures r == Get(topic_names_, topicId)
    {
      r := if topicId in topic_names_ then Some(topic_names_[topicId]) else None;
    }

    method GetPartitionIds(topicId: Uuid) returns (r: Option<seq<INT32>>)
      ensures r == Get(partition_ids_, topicId)
    {
      r := if topicId in partition_ids_ then Some(partition_ids_[topicId]) else None;
    }
  }

  /** "__cluster_metadata", partition 0. */
  const METADATA_LOG := LogKey(
    [95, 95, 99, 108, 117, 115, 116, 101, 114, 95, 109, 101, 116, 97, 100, 97, 116, 97], 0)

  // ---- What the maps hold after a replay ----

  lemma {:induction false} ReplayAppend(st: Index, es: seq<Event>, fs: seq<Event>)
    ensures Replay(st, es + fs) == Replay(Replay(st, es), fs)
    decreases |es|
  {
    hide Apply;
    if es == [] {
      assert es + fs == fs;
    } else {
      ReplayAppend(Apply(st, es[0]), es[1..], fs);
      assert (es + fs)[1..] == es[1..] + fs;
    }
  }

  lemma ReplayLast(es: seq<Event>)
    requires es != []
    ensures Replay(EMPTY, es) == Apply(Replay(EMPTY, es[..|es| - 1]), es[|es| - 1])
  {
    var init, last := es[..|es| - 1], es[|es| - 1];
    assert es == init + [last];
    ReplayAppend(EMPTY, init, [last]);
    assert Replay(Replay(EMPTY, init), [last]) == Replay(Apply(Replay(EMPTY, init), last), []);
  }

  /** Event `i` is the last topic record of its name. */
  predicate LastOfName(es: seq<Event>, i: nat)
    requires i < |es|
  {
    es[i].TopicRecord? && forall j | i < j < |es| :: es[j].TopicRecord? ==> es[j].name != es[i].name
  }

  /** Event `i` is the last topic record of its id. */
  predicate LastOfId(es: seq<Event>, i: nat)
    requires i < |es|
  {
    es[i].TopicRecord? && forall j | i < j < |es| :: es[j].TopicRecord? ==> es[j].id != es[i].id
  }

  /** The last topic record for `name` gives it `id`. */
  ghost predicate LastIdOf(es: seq<Event>, name: seq<byte>, id: Uuid) {
    exists i :: 0 <= i < |es| && LastOfName(es, i) && es[i] == TopicRecord(name, id)
  }

  /** The last topic record for `id` gives it `name`. */
  ghost predicate LastNameOf(es: seq<Event>, id: Uuid, name: seq<byte>) {
    exists i :: 0 <= i < |es| && LastOfId(es, i) && es[i] == TopicRecord(name, id)
  }

  lemma LastIdStep(es: seq<Event>, e: Event, name: seq<byte>, id: Uuid)
    ensures LastIdOf(es + [e], name, id) <==>
      if e.TopicRecord? && e.name == name then e.id == id else LastIdOf(es, name, id)
  {
    var all, k := es + [e], |es|;
    forall i | 0 <= i < k && es[i].TopicRecord?
      ensures LastOfName(all, i) <==> LastOfName(es, i) && !(e.TopicRecord? && e.name == es[i].name)
    {
      assert LastOfName(all, i) ==> forall j | i < j < k :: all[j] == es[j];
      assert LastOfName(all, i) && e.TopicRecord? ==> all[k].name != all[i].name;
    }
    if e.TopicRecord? {
      assert LastOfName(all, k);
    }
    if LastIdOf(es, name, id) && !(e.TopicRecord? && e.name == name) {
      var i :| 0 <= i < |es| && LastOfName(es, i) && es[i] == TopicRecord(name, id);
      assert LastOfName(all, i) && all[i] == es[i];
    }
  }

  lemma LastNameStep(es: seq<Event>, e: Event, id: Uuid, name: seq<byte>)
    ensures LastNameOf(es + [e], id, name) <==>
      if e.TopicRecord? && e.id == id then e.name == name else LastNameOf(es, id, name)
  {
    var all, k := es + [e], |es|;
    forall i | 0 <= i < k && es[i].TopicRecord?
      ensures LastOfId(all, i) <==> LastOfId(es, i) && !(e.TopicRecord? && e.id == es[i].id)
    {
      assert LastOfId(all, i) ==> forall j | i < j < k :: all[j] == es[j];
      assert LastOfId(all, i) && e.TopicRecord? ==> all[k].id != all[i].id;
    }
    if e.TopicRecord? {
      assert LastOfId(all, k);
    }
    if LastNameOf(es, id, name) && !(e.TopicRecord? && e.id == id) {
      var i :| 0 <= i < |es| && LastOfId(es, i) && es[i] == TopicRecord(name, id);
      assert LastOfId(all, i) && all[i] == es[i];
    }
  }

  /** The name map holds exactly the ids of the last topic records of each name. */
  lemma {:induction false} IdsAreLast(es: seq<Event>, name: seq<byte>, id: Uuid)
    ensures Get(Replay(EMPTY, es).ids, name) == Some(id) <==> LastIdOf(es, name, id)
    decreases |es|
  {
    if es != [] {
      var init, e := es[..|es| - 1], es[|es| - 1];
      assert es == init + [e];
      ReplayLast(es);
      IdsAreLast(init, name, id);
      LastIdStep(init, e, name, id);
      hide Replay, LastIdOf;
    }
  }

  /** The id map holds exactly the names of the last topic records of each id. */
  lemma {:induction false} NamesAreLast(es: seq<Event>, id: Uuid, name: seq<byte>)
    ensures Get(Replay(EMPTY, es).names, id) == Some(name) <==> LastNameOf(es, id, name)
    decreases |es|
  {
    if es != [] {
      var init, e := es[..|es| - 1], es[|es| - 1];
      assert es == init + [e];
      ReplayLast(es);
      NamesAreLast(init, id, name);
      LastNameStep(init, e, id, name);
      hide Replay, LastNameOf;
    }
  }

  /** Every id that Describe can hand out is known to Fetch, and every name that Fetch knows is known to Describe. */
  predicate InSync(st: Index) {
    && (forall n | n in st.ids :: st.ids[n] in st.names)
    && (forall u | u in st.names :: st.names[u] in st.ids)
  }

  lemma {:induction false} ReplayKeepsInSync(st: Index, es: seq<Event>)
    requires InSync(st)
    ensures InSync(Replay(st, es))
    decreases |es|
  {
    if es != [] {
      ReplayKeepsInSync(Apply(st, es[0]), es[1..]);
    }
  }

  /** The id that Describe gives for the name of event `i` leads Fetch back to that name exactly when no later topic
      record gives the id to another name. */
  lemma IdResolvesBack(es: seq<Event>, i: nat)
    requires i < |es| && LastOfName(es, i)
    ensures var st := Replay(EMPTY, es);
      && Get(st.ids, es[i].name) == Some(es[i].id)
      && es[i].id in st.names
      && (st.names[es[i].id] == es[i].name <==>
          forall j | i < j < |es| :: es[j].TopicRecord? ==> es[j].id != es[i].id)
  {
    var TopicRecord(name, id) := es[i];
    var st := Replay(EMPTY, es);
    IdsAreLast(es, name, id);
    ReplayKeepsInSync(EMPTY, es);
    NamesAreLast(es, id, name);
    hide Replay;
    assert st.names[id] == name <==> exists k :: 0 <= k < |es| && LastOfId(es, k) && es[k] == es[i];
    if LastOfId(es, i) {
      assert st.names[id] == name;
    }
  }

  /** If no id is ever given to two names, ids from Describe always mean the same topic to Fetch. */
  lemma DescribeAndFetchAgree(es: seq<Event>, name: seq<byte>)
    requires forall i, j | 0 <= i < |es| && 0 <= j < |es| ::
      es[i].TopicRecord? && es[j].TopicRecord? && es[i].id == es[j].id ==> es[i].name == es[j].name
    ensures var st := Replay(EMPTY, es);
      name in st.ids ==> Get(st.names, st.ids[name]) == Some(name)
  {
    var st := Replay(EMPTY, es);
    if name in st.ids {
      IdsAreLast(es, name, st.ids[name]);
      var i :| 0 <= i < |es| && LastOfName(es, i) && es[i] == TopicRecord(name, st.ids[name]);
      IdResolvesBack(es, i);
    }
  }

  // ---- Partitions ----

  /** What an event adds to the list of a topic. */
  function Told(e: Event, id: Uuid): seq<INT32> {
    if e.PartitionRecord? && e.topic == id then [e.partition] else []
  }

  /** The partition records of one topic, in log order. */
  function PartitionsOf(es: seq<Event>, id: Uuid): seq<INT32> {
    if es == [] then [] else PartitionsOf(es[..|es| - 1], id) + Told(es[|es| - 1], id)
  }

  lemma ToldIsListed(st: Index, e: Event, id: Uuid)
    ensures PartitionList(Apply(st, e), id) == PartitionList(st, id) + Told(e, id)
    ensures id in Apply(st, e).partitions <==> id in st.partitions || Told(e, id) != []
  {
  }

  lemma ToldIsCounted(init: seq<Event>, e: Event, id: Uuid, partition: INT32)
    ensures multiset(init + [e])[PartitionRecord(partition, id)] ==
      multiset(init)[PartitionRecord(partition, id)] + multiset(Told(e, id))[partition]
  {
  }

  lemma CountsAdd(a: seq<INT32>, b: seq<INT32>, partition: INT32)
    ensures multiset(a + b)[partition] == multiset(a)[partition] + multiset(b)[partition]
  {
  }

  lemma {:induction false} ListsAreTold(es: seq<Event>, id: Uuid)
    ensures PartitionList(Replay(EMPTY, es), id) == PartitionsOf(es, id)
    ensures id in Replay(EMPTY, es).partitions <==> PartitionsOf(es, id) != []
    decreases |es|
  {
    if es != [] {
      var init, last := es[..|es| - 1], es[|es| - 1];
      ReplayLast(es);
      ListsAreTold(init, id);
      ToldIsListed(Replay(EMPTY, init), last, id);
      hide Replay, Apply, PartitionList, Told;
    }
  }

  lemma PartitionsOfNext(init: seq<Event>, e: Event, id: Uuid)
    ensures PartitionsOf(init + [e], id) == PartitionsOf(init, id) + Told(e, id)
  {
    assert (init + [e])[..|init|] == init;
  }

  lemma InitAndLast(es: seq<Event>)
    requires es != []
    ensures es[..|es| - 1] + [es[|es| - 1]] == es
  {
  }

  lemma NextListed(init: seq<Event>, e: Event, id: Uuid, partition: INT32)
    requires multiset(PartitionsOf(init, id))[partition] == multiset(init)[PartitionRecord(partition, id)]
    ensures multiset(PartitionsOf(init + [e], id))[partition] == multiset(init + [e])[PartitionRecord(partition, id)]
  {
    hide PartitionsOf, Told;
    PartitionsOfNext(init, e, id);
    ToldIsCounted(init, e, id, partition);
    CountsAdd(PartitionsOf(init, id), Told(e, id), partition);
  }

  lemma {:induction false} ListedAsOften(es: seq<Event>, id: Uuid, partition: INT32)
    ensures multiset(PartitionsOf(es, id))[partition] == multiset(es)[PartitionRecord(partition, id)]
    decreases |es|
  {
    if es == [] {
      assert PartitionsOf(es, id) == [];
    } else {
      hide PartitionsOf;
      InitAndLast(es);
      var init, last := es[..|es| - 1], es[|es| - 1];
      ListedAsOften(init, id, partition);
      NextListed(init, last, id, partition);
    }
  }

  /** Conservation: a topic's list is exactly its partition records in log order, repeats kept; and as many times as a
      partition record was logged, so many times its number is listed. */
  lemma PartitionsConserved(es: seq<Event>, id: Uuid, partition: INT32)
    ensures PartitionList(Replay(EMPTY, es), id) == PartitionsOf(es, id)
    ensures id in Replay(EMPTY, es).partitions <==> PartitionsOf(es, id) != []
    ensures multiset(PartitionsOf(es, id))[partition] == multiset(es)[PartitionRecord(partition, id)]
  {
    ListsAreTold(es, id);
    ListedAsOften(es, id, partition);
  }

  function PartitionTotal(es: seq<Event>): nat {
    if es == [] then 0 else PartitionTotal(es[..|es| - 1]) + if es[|es| - 1].PartitionRecord? then 1 else 0
  }

  function ListTotal(st: Index, topics: seq<Uuid>): nat {
    if topics == [] then 0 else |PartitionList(st, topics[0])| + ListTotal(st, topics[1..])
  }

  predicate Distinct(topics: seq<Uuid>) {
    forall i, j | 0 <= i < j < |topics| :: topics[i] != topics[j]
  }

  lemma {:induction false} ListTotalStep(st: Index, e: Event, topics: seq<Uuid>)
    requires Distinct(topics)
    ensures ListTotal(Apply(st, e), topics) ==
      ListTotal(st, topics) + if e.PartitionRecord? && e.topic in topics then 1 else 0
    decreases |topics|
  {
    if topics != [] {
      ListTotalStep(st, e, topics[1..]);
      assert topics == [topics[0]] + topics[1..];
    }
  }

  lemma {:induction false} EmptyLists(topics: seq<Uuid>)
    ensures ListTotal(EMPTY, topics) == 0
    decreases |topics|
  {
    if topics != [] {
      EmptyLists(topics[1..]);
    }
  }

  /** No partition record is lost or counted twice: over all topics the lists are as long as there are partition
      records. */
  lemma {:induction false} PartitionsCounted(es: seq<Event>, topics: seq<Uuid>)
    requires Distinct(topics)
    requires forall i | 0 <= i < |es| :: es[i].PartitionRecord? ==> es[i].topic in topics
    ensures ListTotal(Replay(EMPTY, es), topics) == PartitionTotal(es)
    decreases |es|
  {
    if es == [] {
      EmptyLists(topics);
    } else {
      var init := es[..|es| - 1];
      ReplayLast(es);
      PartitionsCounted(init, topics);
      ListTotalStep(Replay(EMPTY, init), es[|es| - 1], topics);
    }
  }

  // ---- Order and growth of the log ----

  function Topics(es: seq<Event>): seq<Event> {
    if es == [] then [] else if es[0].TopicRecord? then [es[0]] + Topics(es[1..]) else Topics(es[1..])
  }

  function Partitions(es: seq<Event>): seq<Event> {
    if es == [] then [] else if es[0].PartitionRecord? then [es[0]] + Partitions(es[1..]) else Partitions(es[1..])
  }

  lemma {:induction false} SameTopics(st: Index, st': Index, es: seq<Event>)
    requires st.ids == st'.ids && st.names == st'.names
    ensures Replay(st, es).ids == Replay(st', es).ids && Replay(st, es).names == Replay(st', es).names
    decreases |es|
  {
    if es != [] {
      SameTopics(Apply(st, es[0]), Apply(st', es[0]), es[1..]);
    }
  }

  lemma {:induction false} SamePartitions(st: Index, st': Index, es: seq<Event>)
    requires st.partitions == st'.partitions
    ensures Replay(st, es).partitions == Replay(st', es).partitions
    decreases |es|
  {
    if es != [] {
      SamePartitions(Apply(st, es[0]), Apply(st', es[0]), es[1..]);
    }
  }

  lemma {:induction false} ReplayByKind(st: Index, es: seq<Event>)
    ensures var topics, partitions := Replay(st, Topics(es)), Replay(st, Partitions(es));
      Replay(st, es) == Index(topics.ids, topics.names, partitions.partitions)
    decreases |es|
  {
    if es != [] {
      var e, rest := es[0], es[1..];
      var st' := Apply(st, e);
      ReplayByKind(st', rest);
      match e
      case TopicRecord(_, _) =>
        assert ([e] + Topics(rest))[1..] == Topics(rest);
        SamePartitions(st, st', Partitions(rest));
      case PartitionRecord(_, _) =>
        assert ([e] + Partitions(rest))[1..] == Partitions(rest);
        SameTopics(st, st', Topics(rest));
      case OtherRecord =>
    }
  }

  /** How topic records and partition records interleave does not matter: only the order within each kind does.  In
      particular two neighbours of different kinds can be swapped. */
  lemma InterleavingIrrelevant(es: seq<Event>, fs: seq<Event>)
    requires Topics(es) == Topics(fs) && Partitions(es) == Partitions(fs)
    ensures Replay(EMPTY, es) == Replay(EMPTY, fs)
  {
    ReplayByKind(EMPTY, es);
    ReplayByKind(EMPTY, fs);
  }

  lemma {:induction false} PartitionsOfAppend(es: seq<Event>, fs: seq<Event>, id: Uuid)
    ensures PartitionsOf(es + fs, id) == PartitionsOf(es, id) + PartitionsOf(fs, id)
    decreases |fs|
  {
    if fs == [] {
      assert es + fs == es;
    } else {
      var init := fs[..|fs| - 1];
      PartitionsOfAppend(es, init, id);
      assert (es + fs)[..|es + fs| - 1] == es + init;
    }
  }

  lemma {:induction false} RecordsOfPrefix(bs: seq<RecordBatch>, cs: seq<RecordBatch>)
    requires bs <= cs
    ensures AllRecords(bs) <= AllRecords(cs)
    decreases |bs|
  {
    if bs != [] {
      RecordsOfPrefix(bs[1..], cs[1..]);
      PrefixUnder(bs[0].records_, AllRecords(bs[1..]), AllRecords(cs[1..]));
    }
  }

  lemma PrefixUnder<T>(a: seq<T>, b: seq<T>, c: seq<T>)
    requires b <= c
    ensures a + b <= a + c
  {
  }

  lemma {:induction false} EventsOfPrefix(rs: seq<Record>, ss: seq<Record>)
    requires rs <= ss && EventsOf(ss).Some?
    ensures EventsOf(rs).Some? && EventsOf(rs).value <= EventsOf(ss).value
    decreases |rs|
  {
    hide ParseEvent;
    if rs != [] {
      EventsOfPrefix(rs[1..], ss[1..]);
      PrefixUnder([ParseEvent(rs[0].value_).value], EventsOf(rs[1..]).value, EventsOf(ss[1..]).value);
    }
  }

  /** Growth, from the bytes up: when the log file grows and the longer log still replays, the shorter one replayed too,
      and each partition list has only been extended at its end. */
  lemma LongerLog(s: seq<byte>, t: seq<byte>, id: Uuid)
    requires EventsOf(AllRecords(Scan(s + t))).Some?
    ensures EventsOf(AllRecords(Scan(s))).Some?
    ensures var es, fs := EventsOf(AllRecords(Scan(s))).value, EventsOf(AllRecords(Scan(s + t))).value;
      && es <= fs
      && PartitionList(Replay(EMPTY, es), id) <= PartitionList(Replay(EMPTY, fs), id)
  {
    hide Scan, EventsOf, Replay;
    AppendMonotone(s, t);
    RecordsOfPrefix(Scan(s), Scan(s + t));
    EventsOfPrefix(AllRecords(Scan(s)), AllRecords(Scan(s + t)));
    var es, fs := EventsOf(AllRecords(Scan(s))).value, EventsOf(AllRecords(Scan(s + t))).value;
    var later := fs[|es|..];
    assert fs == es + later;
    PartitionsOfAppend(es, later, id);
    ListsAreTold(es, id);
    ListsAreTold(fs, id);
  }
}
