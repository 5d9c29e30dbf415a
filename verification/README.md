# A verified model of a Kafka broker's codec and replay

The broker keeps partition logs as files of record batches, rebuilds its topic metadata by replaying one of those logs,
and answers three requests over TCP: ApiVersions, DescribeTopicPartitions and Fetch.  This project models that broker
from bytes to bytes and proves what its parts promise each other.

- `Bytes`, `Varint`: machine integers, host byte order, 7-bit groups and zig-zag with their wrap-around.
- `Wire`, `WireLaws`: message layouts as data (`Schema`), with a decoder, an encoder, and the laws that hold of every
  layout: round trip exactly for the values a layout can carry, locality, prefix-freeness, rewriting.
- `Streams`: memory buffers and file descriptors.  A descriptor is driven by an arbitrary schedule of short reads, short
  writes and errors; `Quiet` says that a schedule has no errors.
- `Reader`, `Writer`, `Arrays`, `Records`, `Requests`, `RequestReader`, `Responses`: the readers and writers of the
  source as methods on streams.  Each reader is proved against a function on byte strings (`Parse...`), and that function
  against the layout of its message; each writer is proved against the layout directly.
- `Scanning`: reading a stream item by item until the first failure, for any reader; logs, requests and responses are
  instances.
- `Log`: the scan of a log file, and recovery, growth and byte-exactness of logs.
- `Metadata`: the replay and its three maps, with lookups in both directions.
- `Server`: the handlers and the loop that serves a client, over whole runs.
- `RequestLaws`, `ResponseLaws`, `EventLaws`: what a server recovers from requests, a client from responses, and a replay
  from the records of a metadata log.
- `AnswerSizes`: how many bytes an answer takes, from the request, the metadata and the logs.
- `Spelling`, `AnswerBytes`: the bytes of numbers, messages and answers spelled out field by field, and what is read from
  bytes that no writer produces (absent strings and arrays, long varints), all without reference to layouts.
- `Clients`: what a client decodes of the answers to its requests, from end to end.
- `Uuids`, `Legacy`: map keys, and an older varint encoder.

Exceptions are failure results: `None`, `Err` or `false`.  A read of a stream that reports no errors fails exactly when
the parser function fails; on a stream that may report errors it may fail earlier, and never succeeds differently.

Four things hold of the code that its own comments do not say, each with an input and the exact condition.

- A signed varlong of INT64_MIN, and no other, is not read back: it becomes 0 (`Varint.ZigZagInverse`,
  `Log.SmallestTimestampIsLost`).
- An id that the metadata log gives to two names is still handed out by Describe for the first, but Fetch answers it with
  the logs of the second (`Server.RenamedTopic` gives the bytes of such a log, `Server.DescribeThenFetch` and
  `Metadata.IdResolvesBack` the condition).
- A fetched partition carries its number of batches where the Kafka protocol guide has the number of their bytes: it is
  what the guide says, and is read as such by a client that follows the guide, exactly when it holds no batch
  (`ResponseLaws.MatchesGuide`, `ResponseLaws.GuideClientReads`; `ResponseLaws.GuideClientMisreads` says what is read
  otherwise, and `ResponseLaws.OneBatchOffGuide` gives the bytes of a log).
- The size in front of a response is cut to 32 bits.  A client finds the payloads that were sent exactly when all of them
  are below 2 GiB (`ResponseLaws.FramesSplit`), which the requests, the metadata and the logs decide beforehand
  (`Clients.FramedExactly`).  From the first payload of 2 to 4 GiB on it finds nothing more (`Clients.StreamLost`);
  `Clients.LargeLogLost` gives a log whose fetch has this effect.

## Model

| member | source | states |
|---|---|---|
| Bytes.NetworkToHost | include/kafka/utils.hpp:9-13 | loading a network-order field into a host integer and converting it gives its big-endian value on hosts of either byte order |
| Bytes.HostToNetwork | include/kafka/utils.hpp:15-19 | converting a host integer and storing it puts its big-endian bytes in memory on hosts of either byte order |
| Bytes.IntRoundTrip | src/protocol/ireadable.cpp:6-32 | a fixed-width integer is read back as written, before any suffix, if and only if its type can hold it |
| Bytes.IntOfBytes | src/protocol/ireadable.cpp:6-32 | every field of 1 to 8 bytes reads to a number in range that writes back the same bytes |
| Spelling.NetworkOrder | include/kafka/utils.hpp:9-19 | the first byte of a two- or four-byte field is its most significant one |
| Spelling.HostOrder | include/kafka/utils.hpp:9-19 | in the memory of a little-endian host it is the last |
| Spelling.HighThenLow | src/protocol/iwritable.cpp:17-34 | a wider field is its high part followed by its low part |
| Varint.ZigZagInverse | src/protocol/ireadable.cpp:42-45 | the reader's zig-zag formula undoes the writer's for a 64-bit number if and only if it is not INT64_MIN, which becomes 0 because n + 1 wraps |
| Varint.ZigZagWordInverse | src/protocol/iwritable.cpp:44-46 | the same exception for the shift-and-xor formulas on 64-bit machine words |
| Varint.EncoderImage | src/protocol/iwritable.cpp:48-56 | the byte strings the writer produces are exactly the grouped ones without a spare group, of at most ten groups, the tenth being 0x01 |
| Varint.UnsignedVarlongRoundTrip | src/protocol/ireadable.cpp:47-56 | reading inverts writing for every 64-bit number before any suffix; 32-bit numbers take at most five bytes |
| Varint.EncodedLength | src/protocol/iwritable.cpp:48-56 | a number is written in at most k groups if and only if it is below 128 to the power k |
| Varint.UnsignedVarlongRewrite | src/protocol/ireadable.cpp:47-56 | writing an accepted varint again takes no more bytes, and the same bytes if and only if it was minimal and did not wrap |
| Varint.GroupsLocal | src/protocol/ireadable.cpp:47-56 | a varint's value depends only on the bytes it consumed |
| Varint.SignedRoundTrip | src/protocol/ireadable.cpp:34-45 | signed varints survive for all of INT32, signed varlongs for all of INT64 but INT64_MIN, which reads back as 0 |
| Spelling.VarlongValue | src/protocol/ireadable.cpp:47-56 | minimal or not, up to ten groups are read as the sum of the groups, each scaled by its place, in 64 bits |
| Spelling.VarlongUnended | src/protocol/ireadable.cpp:47-56 | without a byte below 128 among the first ten there is no varint |
| Spelling.VarintCut | src/protocol/ireadable.cpp:38-40 | a 64-bit varint read as a 32-bit one is cut to its low 32 bits |
| Spelling.SignedVarintCut | src/protocol/ireadable.cpp:34-36 | the same for signed varints, modulo 2 to the power 32 |
| Spelling.SignedVarintBytes | src/protocol/iwritable.cpp:36-46 | a signed number is written as the groups of 2n, or of -2n - 1 when negative |
| WireLaws.RoundTrip | include/kafka/protocol/ireadable.hpp:61-105 | for every layout: a value is read back as written, before any suffix, if and only if the layout can carry it |
| WireLaws.DecodeEncoded | include/kafka/protocol/iwritable.hpp:61-89 | the same by structural induction through nested arrays |
| Wire.DecodeLocal | include/kafka/protocol/ireadable.hpp:61-105 | for every layout: success and result depend only on the bytes consumed |
| Wire.DecodeSuffix | include/kafka/protocol/ireadable.hpp:61-105 | for every layout: what is left after a read is an end part of the input |
| WireLaws.StrictPrefixFails | include/kafka/protocol/ireadable.hpp:61-105 | for every layout: no strict prefix of what was read is accepted |
| WireLaws.RewriteDecoded | include/kafka/protocol/iwritable.hpp:61-89 | for every layout: writing what was read takes no more bytes, and the same bytes if and only if the input was canonical |
| WireLaws.NormalForm | include/kafka/protocol/iwritable.hpp:61-89 | for every layout: decode, encode, decode gives the first result again |
| WireLaws.UniquelyDecodable | include/kafka/protocol/iwritable.hpp:61-89 | for every layout: two values with overlapping encodings are equal |
| Wire.PutAppends | include/kafka/protocol/iwritable.hpp:61-89 | a chain of nested writes leaves the old stream followed by the encoding |
| Streams.ReadableBuffer.Read | include/kafka/protocol/readable_buffer.hpp:18-27 | delivers the next bytes and moves the index, or fails on underflow |
| Streams.WritableBuffer.Write | include/kafka/protocol/writable_buffer.hpp:12-16 | appends the source |
| Streams.FileDescriptor.Read | src/protocol/file_descriptor.cpp:7-19 | for every schedule of short reads: the next nbytes bytes exactly, or a failure that an error or too few bytes explain; terminates |
| Streams.FileDescriptor.Write | src/protocol/file_descriptor.cpp:21-31 | for every schedule of short writes: the source once and in order; after an error, a front part of it; terminates |
| Streams.IReadable.Read | include/kafka/protocol/ireadable.hpp:13-20 | both implementations refine the same reader of byte strings, so what is read does not depend on how it arrives |
| Reader.ReadInteger | src/protocol/ireadable.cpp:6-32 | an integer of any width and sign is read as TakeInt says on any host |
| Reader.ReadInt8 | src/protocol/ireadable.cpp:6-10 | reads one signed byte |
| Reader.ReadInt16 | src/protocol/ireadable.cpp:12-16 | reads a big-endian INT16 |
| Reader.ReadInt32 | src/protocol/ireadable.cpp:18-20 | reads a big-endian INT32 |
| Reader.ReadInt64 | src/protocol/ireadable.cpp:22-26 | reads a big-endian INT64 |
| Reader.ReadUint32 | src/protocol/ireadable.cpp:28-32 | reads a big-endian UINT32 |
| Reader.ReadVarint | src/protocol/ireadable.cpp:34-36 | reads a zig-zag varint cut to 32 bits |
| Reader.ReadUnsignedVarint | src/protocol/ireadable.cpp:38-40 | reads a varint cut to 32 bits |
| Reader.ReadVarlong | src/protocol/ireadable.cpp:42-45 | reads a zig-zag varlong |
| Reader.ReadUnsignedVarlong | src/protocol/ireadable.cpp:47-56 | the loop over groups with 64-bit wrap-around computes the recursive sum of the groups |
| Reader.ReadCompactString | src/protocol/ireadable.cpp:64-72 | length minus one bytes; a length of 0 is the empty string |
| Reader.ReadNullableString | src/protocol/ireadable.cpp:74-82 | a negative length is the empty string |
| Reader.ReadBytes | src/protocol/ireadable.cpp:84-89 | a negative length fails |
| Reader.ReadByte | src/protocol/ireadable.cpp:91-97 | one byte that must have the expected value, as tagged fields, null keys and absent cursors do |
| Reader.ReadTaggedFields | src/protocol/ireadable.cpp:91-97 | accepts only empty tagged fields |
| Spelling.AbsentString | src/protocol/ireadable.cpp:74-89 | a negative length is the empty string for a nullable string, and refused for bytes and for record values |
| Spelling.AbsentCompactString | src/protocol/ireadable.cpp:64-72 | a compact length of 0 is the empty string |
| Spelling.AbsentArray | include/kafka/protocol/ireadable.hpp:61-105 | an array of negative length and a compact array of length 0 are empty, and only the length is consumed |
| Spelling.MarkerByte | src/protocol/ireadable.cpp:91-97 | a marker byte must be there and be the one expected |
| Spelling.TooFewBytes | include/kafka/protocol/readable_buffer.hpp:18-27 | a string of bytes is refused exactly when fewer bytes are there |
| Uuids.ReadUuid | src/protocol/ireadable.cpp:58-62 | reads 16 bytes |
| Uuids.UuidKeys | include/kafka/protocol/uuid.hpp:41-46 | the map comparison is a strict order whose equivalence is equality of identifiers |
| Spelling.UuidOrder | include/kafka/protocol/uuid.hpp:42-46 | identifiers are ordered by the first byte in which they differ |
| Arrays.ManyFollow | include/kafka/protocol/ireadable.hpp:61-105 | a loop over element readers that follow a layout decodes a run of that layout |
| Arrays.ArrayFollows | include/kafka/protocol/ireadable.hpp:61-73 | so does an array, a negative length being an absent array |
| Arrays.CompactArrayFollows | include/kafka/protocol/ireadable.hpp:75-105 | so does a compact array, a length of 0 being an absent array |
| Arrays.ParseRoundTrip | include/kafka/protocol/ireadable.hpp:61-105 | a reader that follows a layout inverts its encoding if and only if the layout can carry the value |
| Spelling.NextElement | include/kafka/protocol/iwritable.hpp:61-89 | elements are written in order, one after the other |
| Writer.WriteInteger | src/protocol/iwritable.cpp:13-34 | appends the big-endian bytes on any host |
| Writer.WriteBoolean | src/protocol/iwritable.cpp:8-11 | appends 0x01 or 0x00 |
| Writer.WriteInt8 | src/protocol/iwritable.cpp:13-15 | appends one byte |
| Writer.WriteInt16 | src/protocol/iwritable.cpp:17-20 | appends a big-endian INT16 |
| Writer.WriteInt32 | src/protocol/iwritable.cpp:22-24 | appends a big-endian INT32 |
| Writer.WriteInt64 | src/protocol/iwritable.cpp:26-29 | appends a big-endian INT64 |
| Writer.WriteUint32 | src/protocol/iwritable.cpp:31-34 | appends a big-endian UINT32 |
| Writer.WriteVarint | src/protocol/iwritable.cpp:36-38 | appends the zig-zag groups of an INT32 |
| Writer.WriteUnsignedVarint | src/protocol/iwritable.cpp:40-42 | appends the groups of a UINT32 |
| Writer.WriteVarlong | src/protocol/iwritable.cpp:44-46 | appends the zig-zag groups of an INT64 |
| Writer.WriteUnsignedVarlong | src/protocol/iwritable.cpp:48-56 | the do-while loop appends the groups of a 64-bit number |
| Writer.WriteRaw | src/protocol/iwritable.cpp:58-60 | appends bytes as they are |
| Writer.WriteCompactNullableString | src/protocol/iwritable.cpp:62-65 | appends the size plus one, cut to 32 bits, and the bytes |
| Writer.WriteBytes | src/protocol/iwritable.cpp:67-70 | sends a size and the bytes down a descriptor; after an error a front part of them was sent |
| Writer.WriteTaggedFields | src/protocol/iwritable.cpp:72-75 | appends an empty set of tagged fields |
| Spelling.CompactLengthBytes | src/protocol/iwritable.cpp:48-66 | the length prefix is one more than the length, starting again at 0 past 32 bits |
| Records.ReadRecord | include/kafka/metadata/cluster_metadata.hpp:19-39 | reads a record as ParseRecord does; a negative value length, a key or a header fails |
| Records.ReadRecords | include/kafka/protocol/ireadable.hpp:61-73 | reads an array of records |
| Records.ReadBatch | include/kafka/metadata/cluster_metadata.hpp:74-88 | reads a batch as ParseBatch does |
| Records.RecordFollows | include/kafka/metadata/cluster_metadata.hpp:19-39 | reading a record follows the layout of section 5.3.2 of the Kafka documentation field by field |
| Records.BatchFollows | include/kafka/metadata/cluster_metadata.hpp:74-88 | reading a batch follows the layout of section 5.3.1 field by field |
| Records.WriteRecordValue | include/kafka/metadata/cluster_metadata.hpp:50-51 | writes the announced length whether or not it is the value's |
| Records.WriteRecord | include/kafka/metadata/cluster_metadata.hpp:42-56 | appends the record in its layout |
| Records.WriteRecords | include/kafka/protocol/iwritable.hpp:61-68 | appends a count and the records |
| Records.WriteBatch | include/kafka/metadata/cluster_metadata.hpp:91-105 | appends the batch in its layout |
| Spelling.RecordBytes | include/kafka/metadata/cluster_metadata.hpp:34-56 | the bytes of a record, field by field |
| Spelling.BatchBytes | include/kafka/metadata/cluster_metadata.hpp:91-105 | the bytes of a batch, field by field |
| Scanning.FollowerIsLocal | include/kafka/protocol/ireadable.hpp:61-105 | a reader that follows a layout depends only on the bytes it consumes |
| Scanning.PartFails | src/metadata/cluster_metadata.cpp:18-26 | no strict front part of what such a reader consumed is accepted |
| Scanning.AppendScan | src/metadata/cluster_metadata.cpp:18-26 | for every such reader: appending any bytes leaves the items found before at the front |
| Scanning.CutScan | src/metadata/cluster_metadata.cpp:18-26 | for every such reader and any bytes: a cut keeps exactly the items that end at or before it |
| Scanning.WrittenScan | src/metadata/cluster_metadata.cpp:18-26 | items that survive being written are found again, followed by what the later bytes hold |
| Scanning.TornScan | src/metadata/cluster_metadata.cpp:18-26 | every cut of a written stream gives exactly the items whose encodings end at or before it |
| Scanning.RewriteScan | include/kafka/metadata/cluster_metadata.hpp:91-105 | if rewriting one item is never longer, and exact if and only if it was canonical, so it is for whole streams |
| Log.BatchRoundTrip | include/kafka/metadata/cluster_metadata.hpp:74-105 | a batch is read back as written, before any suffix, if and only if it is well formed |
| Log.SmallestTimestampIsLost | include/kafka/metadata/cluster_metadata.hpp:22-22 | a record written with a timestamp delta of INT64_MIN reads back with 0 and is otherwise unchanged |
| Log.BatchRewrite | include/kafka/metadata/cluster_metadata.hpp:74-105 | from any accepted bytes: the batch is well formed, writing it takes no more bytes, and the same bytes if and only if they were canonical |
| Log.BatchSize | include/kafka/metadata/cluster_metadata.hpp:91-105 | a batch takes at least 61 bytes and 7 more per record |
| Log.AppendMonotone | src/metadata/cluster_metadata.cpp:18-26 | on arbitrary bytes: appending to a log keeps the earlier result as a prefix |
| Log.CutLog | src/metadata/cluster_metadata.cpp:18-26 | on arbitrary bytes: cutting a log keeps exactly the batches that end at or before the cut |
| Log.WrittenLog | src/metadata/cluster_metadata.cpp:18-26 | scanning written batches followed by anything finds those batches and then what the rest holds |
| Log.TornLog | src/metadata/cluster_metadata.cpp:12-27 | torn-log recovery: every cut of a written log gives exactly the batches ending at or before the cut |
| Log.ByteExact | include/kafka/metadata/cluster_metadata.hpp:74-105 | writing the batches found in any log takes no more bytes than they were found in, and those bytes if and only if they were canonical |
| Log.AcceptedExact | include/kafka/metadata/cluster_metadata.hpp:74-105 | the accepted part of a log is written again byte for byte if and only if it was canonical |
| Log.ScannedAreWellFormed | include/kafka/metadata/cluster_metadata.hpp:74-105 | every batch that a scan of arbitrary bytes finds can be written and read back |
| Log.LogNormalForm | src/metadata/cluster_metadata.cpp:12-27 | scan, write, scan finds the same batches |
| Log.ScanBound | src/metadata/cluster_metadata.cpp:18-26 | 61 per batch plus 7 per record plus the unread tail is at most the file length |
| Log.ReadRecordBatches | src/metadata/cluster_metadata.cpp:12-27 | fails exactly when the log cannot be opened; otherwise terminates with the scan of the file, or a prefix of it if reading can fail |
| Metadata.ReplayIsFold | src/metadata/cluster_metadata.cpp:56-76 | replaying record by record is folding the events, or failing when some record cannot be parsed |
| Metadata.OneEventPerRecord | src/metadata/cluster_metadata.cpp:57-75 | one event per record, in order, and none at all if and only if some record cannot be parsed |
| Metadata.AllRecordsAppend | src/metadata/cluster_metadata.cpp:57-58 | the records of a log are those of its batches in log order |
| Metadata.AllRecordsOne | src/metadata/cluster_metadata.cpp:57-58 | the records of one batch are taken in their order |
| Spelling.MetadataLogName | src/metadata/cluster_metadata.cpp:57-57 | the metadata log is partition 0 of "__cluster_metadata" |
| Metadata.ClusterMetadata.AddRecord | src/metadata/cluster_metadata.cpp:59-74 | one record updates the maps as its event says, and fails exactly when its value cannot be parsed; `EventLaws.EventsByLayout` says which values those are |
| Metadata.ClusterMetadata.AddBatches | src/metadata/cluster_metadata.cpp:57-75 | the nested loops replay all records of all batches in order |
| Metadata.ClusterMetadata.Load | src/metadata/cluster_metadata.cpp:56-76 | after construction the maps are the replay of the scanned metadata log |
| Metadata.ClusterMetadata.GetTopicId | src/metadata/cluster_metadata.cpp:29-36 | the id of a name, or a failure |
| Metadata.ClusterMetadata.GetTopicName | src/metadata/cluster_metadata.cpp:38-45 | the name of an id, or a failure |
| Metadata.ClusterMetadata.GetPartitionIds | src/metadata/cluster_metadata.cpp:47-54 | the partitions of an id, or a failure |
| Metadata.IdsAreLast | src/metadata/cluster_metadata.cpp:68-68 | a name maps to an id if and only if its last topic record gives it that id |
| Metadata.NamesAreLast | src/metadata/cluster_metadata.cpp:69-69 | an id maps to a name if and only if its last topic record gives it that name |
| Metadata.ReplayKeepsInSync | src/metadata/cluster_metadata.cpp:65-69 | every id Describe gives is a key for Fetch, and every name Fetch knows is a key for Describe |
| Metadata.IdResolvesBack | src/metadata/cluster_metadata.cpp:65-69 | the id Describe gives for a name resolves back to that name if and only if no later topic record reuses the id |
| Metadata.DescribeAndFetchAgree | src/metadata/cluster_metadata.cpp:65-69 | if no id is logged with two names, all ids resolve back |
| EventLaws.TopicRecordFollows | src/metadata/cluster_metadata.cpp:60-69 | a record value is read as a topic record if and only if its bytes have that layout, with the same fields |
| EventLaws.PartitionRecordFollows | src/metadata/cluster_metadata.cpp:60-73 | the same for a partition record |
| EventLaws.EventsByLayout | src/metadata/cluster_metadata.cpp:60-74 | which bytes tell which event and which cannot be parsed: three bytes are needed, types 2 and 3 must go on in their layouts, any other type is passed over |
| EventLaws.EventRoundTrip | src/metadata/cluster_metadata.cpp:60-74 | an event written in any frame version and version is read back, before any suffix, if and only if its name fits its length field |
| Spelling.EventBytes | src/metadata/cluster_metadata.cpp:60-73 | the bytes of each kind of metadata record |
| EventLaws.LoggedEvents | src/metadata/cluster_metadata.cpp:56-76 | events written as records of well-formed batches, spread over batches in any way, are the events that scanning the log's bytes gives back |
| EventLaws.LoggedNext | src/metadata/cluster_metadata.cpp:56-76 | one more batch adds the events of its records, in their order, after those of the batches before it |
| EventLaws.LoggedBatches | src/metadata/cluster_metadata.cpp:56-76 | a log written from one list of events per batch is replayed list after list, in order |
| EventLaws.EveryHistoryHappens | src/metadata/cluster_metadata.cpp:56-76 | every history of events that fit in records is told by the bytes of some log |
| Metadata.PartitionsConserved | src/metadata/cluster_metadata.cpp:70-73 | a topic's list is its partition records in log order with repeats, each number listed as often as it was logged |
| Metadata.PartitionsCounted | src/metadata/cluster_metadata.cpp:70-73 | over all topics the list lengths sum to the number of partition records |
| Metadata.InterleavingIrrelevant | src/metadata/cluster_metadata.cpp:65-73 | only the order within topic records and within partition records matters |
| Metadata.LongerLog | src/metadata/cluster_metadata.cpp:56-76 | if a longer log file replays, the shorter one did, and every partition list is only extended at its end |
| Requests.HeaderFollows | include/kafka/message/headers.hpp:13-20 | reading a header follows Request Header v2 |
| Requests.ApiVersionsRequestFollows | include/kafka/message/api_versions.hpp:14-19 | reading follows ApiVersions Request v4 |
| Requests.DescribeRequestFollows | include/kafka/message/describe_topic_partitions.hpp:33-43 | reading follows DescribeTopicPartitions Request v0 with a null cursor |
| Requests.FetchTopicFollows | include/kafka/message/fetch.hpp:44-49 | reading a topic follows its layout |
| Requests.ForgottenTopicFollows | include/kafka/message/fetch.hpp:66-71 | reading a forgotten topic follows its layout |
| Requests.FetchRequestFollows | include/kafka/message/fetch.hpp:78-90 | reading follows Fetch Request v16 through three levels of arrays |
| RequestReader.ReadHeader | include/kafka/message/headers.hpp:13-20 | reads a header as ParseHeader does |
| RequestReader.ReadApiVersionsRequest | include/kafka/message/api_versions.hpp:14-19 | reads the two strings and the tags |
| RequestReader.ReadTopicRequest | include/kafka/message/describe_topic_partitions.hpp:19-23 | reads a topic name |
| RequestReader.ReadTopicRequests | include/kafka/protocol/ireadable.hpp:75-87 | reads a compact array of topic names |
| RequestReader.ReadDescribeRequest | include/kafka/message/describe_topic_partitions.hpp:33-43 | reads the topics, the limit and an absent cursor; any other cursor fails |
| RequestReader.ReadFetchPartition | include/kafka/message/fetch.hpp:18-27 | reads a requested partition |
| RequestReader.ReadFetchPartitions | include/kafka/protocol/ireadable.hpp:75-87 | reads a compact array of requested partitions |
| RequestReader.ReadFetchTopic | include/kafka/message/fetch.hpp:44-49 | reads a requested topic |
| RequestReader.ReadFetchTopics | include/kafka/protocol/ireadable.hpp:75-87 | reads a compact array of requested topics |
| RequestReader.ReadNums | include/kafka/protocol/ireadable.hpp:92-105 | the push_back loop over an element function |
| RequestReader.ReadForgottenTopic | include/kafka/message/fetch.hpp:66-71 | reads a forgotten topic |
| RequestReader.ReadForgottenTopics | include/kafka/protocol/ireadable.hpp:75-87 | reads a compact array of forgotten topics |
| RequestReader.ReadFetchRequest | include/kafka/message/fetch.hpp:78-90 | reads a Fetch request |
| RequestReader.RequestMessage.Read | include/kafka/message/messages.hpp:22-38 | takes one frame from the stream and parses its payload from memory; the stream ends up behind the frame whatever the payload left unread |
| RequestLaws.HeaderRoundTrip | include/kafka/message/headers.hpp:13-20 | a header is read back as encoded if and only if its client id fits an INT16 length |
| RequestLaws.ApiVersionsRequestRoundTrip | include/kafka/message/api_versions.hpp:14-19 | read back as encoded, before any suffix, if and only if its strings fit their length fields |
| RequestLaws.DescribeRequestRoundTrip | include/kafka/message/describe_topic_partitions.hpp:33-43 | read back as encoded, before any suffix, if and only if its lists and names fit their length fields |
| RequestLaws.FetchRequestRoundTrip | include/kafka/message/fetch.hpp:78-90 | read back as encoded, before any suffix, if and only if its nested lists and rack id fit their length fields |
| RequestLaws.FrameRoundTrip | include/kafka/message/messages.hpp:22-38 | a framed request with extra bytes in its payload is read back, leaving exactly what follows the frame |
| Spelling.HeaderBytes | include/kafka/message/headers.hpp:13-20 | the bytes of a request header |
| Spelling.HeaderWithoutClient | include/kafka/message/headers.hpp:13-20 | a header whose client id is absent, whatever the negative length, is read with an empty one |
| Spelling.ApiVersionsRequestBytes | include/kafka/message/api_versions.hpp:14-19 | the bytes of an ApiVersions request |
| Spelling.TopicRequestBytes | include/kafka/message/describe_topic_partitions.hpp:19-23 | the bytes of a topic name in a request |
| Spelling.DescribeRequestBytes | include/kafka/message/describe_topic_partitions.hpp:33-43 | the bytes of a DescribeTopicPartitions request, its cursor absent |
| Spelling.FetchPartitionBytes | include/kafka/message/fetch.hpp:18-27 | the bytes of a requested partition |
| Spelling.FetchTopicBytes | include/kafka/message/fetch.hpp:44-49 | the bytes of a requested topic |
| Spelling.ForgottenTopicBytes | include/kafka/message/fetch.hpp:66-71 | the bytes of a forgotten topic |
| Spelling.FetchRequestBytes | include/kafka/message/fetch.hpp:78-90 | the bytes of a Fetch request |
| Spelling.WithoutElements | include/kafka/protocol/ireadable.hpp:61-105 | batches and requests whose lists are absent are read with empty lists |
| Spelling.RequestKeyBytes | include/kafka/protocol/constants.hpp:9-13 | a payload starts with 0 1 for Fetch, 0 18 for ApiVersions, 0 75 for DescribeTopicPartitions |
| Spelling.KeyDecides | include/kafka/message/messages.hpp:26-37 | keys 1, 18 and 75 decide what is read, and no other key is answered |
| Spelling.FrameBytes | include/kafka/message/messages.hpp:59-66 | a payload has its size in front, in four bytes |
| Responses.WriteApiVersion | include/kafka/message/api_versions.hpp:33-39 | appends one supported version |
| Responses.WriteApiVersions | include/kafka/protocol/iwritable.hpp:70-77 | appends a compact array of versions |
| Responses.WriteApiVersionsResponse | include/kafka/message/api_versions.hpp:52-58 | appends the response in the layout of ApiVersions Response v4 |
| Responses.WriteAbortedTransaction | include/kafka/message/fetch.hpp:112-117 | appends an aborted transaction |
| Responses.WriteAbortedTransactions | include/kafka/protocol/iwritable.hpp:70-77 | appends a compact array of them |
| Responses.WriteBatches | include/kafka/protocol/iwritable.hpp:70-77 | appends the number of batches plus one and the batches |
| Responses.WritePartitionData | include/kafka/message/fetch.hpp:126-137 | appends a partition, its batches counted rather than measured |
| Responses.WritePartitionDatas | include/kafka/protocol/iwritable.hpp:70-77 | appends a compact array of partitions |
| Responses.WriteFetchableTopic | include/kafka/message/fetch.hpp:165-169 | appends a topic |
| Responses.WriteFetchableTopics | include/kafka/protocol/iwritable.hpp:70-77 | appends a compact array of topics |
| Responses.WriteFetchResponse | include/kafka/message/fetch.hpp:189-196 | appends the response |
| Responses.WriteNums | include/kafka/protocol/iwritable.hpp:82-89 | appends a compact array of INT32 |
| Responses.WriteResponsePartition | include/kafka/message/describe_topic_partitions.hpp:65-78 | appends a described partition |
| Responses.WriteResponsePartitions | include/kafka/protocol/iwritable.hpp:70-77 | appends a compact array of them |
| Responses.WriteResponseTopic | include/kafka/message/describe_topic_partitions.hpp:94-103 | appends a described topic |
| Responses.WriteResponseTopics | include/kafka/protocol/iwritable.hpp:70-77 | appends a compact array of them |
| Responses.WriteDescribeResponse | include/kafka/message/describe_topic_partitions.hpp:135-142 | appends the response with an absent cursor |
| Responses.WriteResponseHeader | include/kafka/message/headers.hpp:45-51 | appends the correlation id, and a tag byte unless the header version is 0 |
| Responses.WriteResponseBody | src/network/server.cpp:157-170 | appends the body of whichever response it is |
| Responses.WriteResponseMessage | include/kafka/message/messages.hpp:59-66 | sends the payload length and the payload; after an error a front part of the frame was sent |
| ResponseLaws.FetchResponseRoundTrip | include/kafka/message/fetch.hpp:126-196 | a decoder of the layout recovers the response, before any suffix, if and only if its lists fit and its batches are well formed |
| ResponseLaws.DescribeResponseRoundTrip | include/kafka/message/describe_topic_partitions.hpp:65-142 | a decoder of the layout recovers the response, before any suffix, if and only if its lists and names fit |
| ResponseLaws.ResponsesDistinct | include/kafka/message/fetch.hpp:126-196 | two different responses of one kind never share an encoding, nor is one a prefix of the other |
| AnswerBytes.ApiVersionBytes | include/kafka/message/api_versions.hpp:33-39 | the bytes of a supported version: key, lowest, highest |
| AnswerBytes.ApiVersionsResponseBytes | include/kafka/message/api_versions.hpp:52-58 | the bytes of an ApiVersions response |
| AnswerBytes.AbortedTransactionBytes | include/kafka/message/fetch.hpp:112-117 | the bytes of an aborted transaction |
| AnswerBytes.PartitionDataBytes | include/kafka/message/fetch.hpp:126-137 | the bytes of a fetched partition |
| AnswerBytes.FetchableTopicBytes | include/kafka/message/fetch.hpp:165-169 | the bytes of a fetched topic |
| AnswerBytes.FetchResponseBytes | include/kafka/message/fetch.hpp:189-196 | the bytes of a Fetch response |
| AnswerBytes.ResponsePartitionBytes | include/kafka/message/describe_topic_partitions.hpp:65-78 | the bytes of a described partition |
| AnswerBytes.ResponseTopicBytes | include/kafka/message/describe_topic_partitions.hpp:94-103 | the bytes of a described topic |
| AnswerBytes.DescribeResponseBytes | include/kafka/message/describe_topic_partitions.hpp:135-142 | the bytes of a DescribeTopicPartitions response, ending in FF 00 for the absent cursor and no tags |
| AnswerBytes.CodeBytes | include/kafka/protocol/constants.hpp:16-24 | the error codes on the wire: 0, 3, 35 and 100 |
| ResponseLaws.FramesSplit | include/kafka/message/messages.hpp:59-66 | cutting sent frames apart by their size prefixes gives back exactly the payloads if and only if every payload is below 2 GiB |
| ResponseLaws.FramesLost | include/kafka/message/messages.hpp:59-66 | after a payload of 2 to 4 GiB, whose size is sent as a negative number, no further payload is found |
| ResponseLaws.CodePartition | include/kafka/message/fetch.hpp:126-137 | a partition is written as its fixed fields, batch count plus one, batches and a tag |
| ResponseLaws.PartitionCarriesLog | include/kafka/message/fetch.hpp:126-137 | the batches of a scanned log are sent as the very bytes they were found in if and only if the log was canonical |
| ResponseLaws.MatchesGuide | include/kafka/message/fetch.hpp:135-135 | a partition is written as the Kafka protocol guide says if and only if it holds no batch |
| ResponseLaws.GuideClientReads | include/kafka/message/fetch.hpp:126-137 | a decoder of the guide's layout recovers a written partition if and only if it holds no batch |
| ResponseLaws.GuideClientMisreads | include/kafka/message/fetch.hpp:126-137 | what it reads otherwise: as many bytes of the first batch as there are batches, and then either the middle of that batch as what follows or a failure, as the next byte is 0 or not |
| ResponseLaws.OneBatchOffGuide | include/kafka/message/fetch.hpp:126-137 | an input: the 61 bytes of a log with one empty batch scan to that batch, and what is written for it is not what a decoder of the guide's layout reads |
| Server.MakePartitionData | src/network/server.cpp:55-61 | no error and the scan of the partition's log; fails exactly when there is no log |
| Server.MakePartitions | src/network/server.cpp:71-74 | one delivered partition per request up to the first log that cannot be opened |
| Server.MakeUnknownPartition | src/network/server.cpp:75-80 | the error entry: index 0, UNKNOWN_TOPIC_ID, no batches |
| Server.MakeFetchableTopicResponse | src/network/server.cpp:63-83 | an unknown id gives exactly one error entry; a known one delivers in order up to the first log that cannot be opened, then exactly one error entry |
| Server.HandleFetch | src/network/server.cpp:85-97 | one topic response per requested topic, in order |
| Server.FetchedShape | src/network/server.cpp:63-83 | with the k-th requested log the first that cannot be opened: k entries in order without error and then one with UNKNOWN_TOPIC_ID |
| AnswerBytes.FetchBytes | src/network/server.cpp:85-97 | a fetch is answered without error, delay or session, with as many topics as requested |
| AnswerBytes.UnknownEntryBytes | src/network/server.cpp:75-80 | the bytes of the error entry: partition 0, code 0 100, no batches |
| AnswerBytes.DeliveredBytes | src/network/server.cpp:55-61 | the bytes of a delivered entry: its index, code 0 0, its batches |
| AnswerBytes.UnknownTopicBytes | src/network/server.cpp:63-83 | the bytes for an unknown identifier: the identifier and one error entry |
| Server.HandleApiVersions | src/network/server.cpp:99-114 | the three supported ranges for version 4, UNSUPPORTED_VERSION and nothing for any other |
| AnswerBytes.ApiVersionsBytes | src/network/server.cpp:99-114 | the whole body as literal bytes, for version 4 and for any other |
| AnswerBytes.AnsweredVersions | src/network/server.cpp:99-114 | the same for the answer to a request, the version being that of its header |
| Server.MakeResponseTopic | src/network/server.cpp:119-138 | an unknown name gives its error and the nil id; a known one its id and partitions in order; fails exactly when the id has no partition record |
| Server.HandleDescribe | src/network/server.cpp:140-150 | one topic per requested name, in order; fails exactly when one of them cannot be described |
| AnswerBytes.DescribeBytes | src/network/server.cpp:140-150 | a describe request is answered without delay, with as many topics as requested and an absent cursor |
| AnswerBytes.UnknownNameBytes | src/network/server.cpp:119-138 | the bytes for an unknown name: code 0 3, the name, sixteen zeros, no partitions |
| AnswerBytes.KnownNameBytes | src/network/server.cpp:119-138 | the bytes for a known name: code 0 0, the name, its identifier, its partitions |
| AnswerBytes.DescribedBytes | src/network/server.cpp:119-138 | the bytes of a described partition: code 0 0, its number, five empty lists |
| AnswerBytes.DescribedInOrder | src/network/server.cpp:119-138 | the partitions come in the order of the partition records in the log |
| AnswerBytes.UndescribableExactly | src/network/server.cpp:133-133 | Describe fails exactly for the names whose last topic record has an identifier without any partition record |
| Server.HandleRequest | src/network/server.cpp:157-168 | dispatches on the kind of request |
| Server.ServeClient | src/network/server.cpp:152-172 | over the whole run: the exchanges answer the first requests of the stream in order, the output is one frame per exchange, and the reason for stopping is the true one |
| Server.RequestsAligned | include/kafka/message/messages.hpp:22-38 | a stream of frames holds exactly the requests sent: unread bytes in one never shift the next |
| Server.RequestsCut | src/network/server.cpp:152-172 | a client that stops sending anywhere has sent exactly the requests whose frames end at or before that point |
| Server.ResponsesAligned | include/kafka/message/messages.hpp:59-66 | splitting the output by its size prefixes gives one payload per exchange, in order, if and only if every payload is below 2 GiB |
| Server.PayloadStart | include/kafka/message/messages.hpp:60-65 | a payload is the correlation id of its request, a tag byte exactly when it does not answer ApiVersions, and the body |
| Server.ConnectionAligned | src/network/server.cpp:152-172 | end to end, if every request was answered: one payload per request is written, in order, with its correlation id, and the client finds exactly these if and only if all are below 2 GiB |
| AnswerSizes.AnswerSized | src/network/server.cpp:55-168 | for logs whose batches 32 bits can count, the size of an answer is decided by the request, the metadata and the logs: a payload never takes more, and takes exactly that much when the logs are read without errors |
| AnswerSizes.FetchBound | src/network/server.cpp:55-97 | a fetch is answered with at most the lengths of the log files asked for, 41 bytes a partition, 55 bytes a topic and 21 bytes more |
| Clients.AnswersFit | src/network/server.cpp:55-168 | what the handlers build for a request that fits its length fields fits its own, as long as logs and partition lists can be counted in 32 bits |
| Clients.ReplayedListsCountable | src/metadata/cluster_metadata.cpp:70-73 | the partition lists replayed from a log are no longer than the log has room for |
| Clients.PayloadIsRead | include/kafka/message/messages.hpp:59-66 | a client that knows its request decodes from the payload the correlation id and every field of the answer, and nothing is left |
| Clients.EveryAnswerIsRead | src/network/server.cpp:152-172 | end to end, from replayed metadata: if no answer asked for takes 2 GiB, one payload per request in order, decoded to the correlation id and the answer that the maps and logs give to that request |
| Clients.FramedExactly | src/network/server.cpp:152-172 | with logs read without errors, the client finds the payloads that were written if and only if no request asks for 2 GiB or more |
| Clients.StreamLost | src/network/server.cpp:152-172 | from the first answer of 2 to 4 GiB on, the client finds nothing more |
| Clients.LargeLogLost | src/network/server.cpp:55-83 | an input: fetching a log of empty batches with 2 to almost 4 GiB gives the client nothing |
| Clients.ServeConnection | src/network/server.cpp:152-172 | loading the metadata and serving a connection: the metadata is loaded if and only if its log can be replayed; without errors, unanswerable requests and oversized answers, the client reads an answer to every request from the bytes on the descriptor |
| Server.FetchedLog | src/network/server.cpp:55-83 | for every partition that a fetch delivers: all batches of its log; the bytes sent for them are the accepted bytes of the log file, verbatim, if and only if the log was canonical |
| Server.DescribeThenFetch | src/network/server.cpp:63-138 | fetching by the id that Describe gave delivers the partitions of the name that id was last given to, which is the name asked for if and only if no later topic record reused the id |
| Server.RenamedTopic | src/network/server.cpp:63-138 | an input: a log, as bytes, that gives an id and a partition to one name and then the id to another; Describe answers for the first, and fetching by that id delivers the logs of the second |
| Legacy.KafkaResponse.AppendVarInt | src/KafkaResponse.hpp:55-70 | appends the same bytes as the current writer for every non-negative INT32 and refuses the others |
| Legacy.TwoEncodersAgree | src/KafkaResponse.hpp:55-70 | run side by side, the older encoder and the current one append the same bytes if and only if the number is not negative |

## Left out

- Reader.ReadUnsignedVarlong: an eleventh group is a failed read, because the shift by 70 bits that C++ makes is undefined.
- Metadata.ClusterMetadata.AddRecord: for the same reason a topic record whose name length takes eleven groups cannot be parsed.
- RequestReader.RequestMessage.Read: an unknown API key is a failed request, because the source goes on with a null request object, which is undefined.
- Server.ServeClient: an uncaught exception ends the modelled connection, because what it does to the other threads of the process is not modelled.
- Messages, records and their parts are values here, built from local variables in the order the source assigns fields; in C++ they are objects read into place and then copied or moved as values, so no aliasing is lost.  Streams, the metadata and the request message are objects with fields.
- The interfaces IReadable and IWritable: the first is a sum of its two implementations; messages are written to a memory buffer, as `ResponseMessage::write` does, and only whole frames to a descriptor.
- Bit operators of the varint loops are modelled by the arithmetic they stand for (a mask is a remainder, a shift a multiplication or division with wrap-around); only the zig-zag formulas are also proved on bit vectors.
- Memory limits: a length that is in range but too large to allocate.  A negative length given to an allocation is a failed read.
- The CRC, the batch length and the record length are carried and not checked, as in the source.
- Fields that the server never assigns (watermarks, leader ids and the like) hold arbitrary values.
- A log file is the same for every read of it within a run, and its path is a pair of topic name and partition index; the text of the path is not modelled.
- The singleton behind the metadata and its mutex: handlers get metadata that has been loaded and does not change.
- Sockets, accepting connections, threads, move semantics and destructors.
- The rest of the older server (src/TCPServer.cpp, src/Buffer.cpp, the other parts of src/KafkaResponse.hpp), which is not in the build.
- Printing of UUIDs.
