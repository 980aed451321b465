# relaybay, modelled and proved in Dafny

relaybay takes live streams in over RTMP and gives them out over RTSP. Its protocol layers do no I/O: each is fed
bytes or messages and says what it makes of them. This project models those layers and proves what they are for,
over every input, every run and every interleaving.

Five parts, each with the state it changes in place modelled as a class, the classes proved against functions on
values, and the theorems stated about those functions:

1. **The RTMP chunk stream.** `Chunk` models the reader and the writer of section 5.3.1 of Adobe's RTMP
   specification 1.0. Central is `InStep` in `ChunkRoundTrip`: after every message the reader's state for each chunk
   stream is the writer's, nothing is pending, and the chunk sizes agree. From it come the round trip over whole
   runs, with the exact condition for it (`ChunkRuns`, `ChunkStutter`). `ChunkArrival` proves that the way bytes
   arrive does not matter and that what is held is bounded; `ChunkInterleaving` that chunk streams do not interfere;
   `ChunkForms` that every way of writing a header reads the same, and which bytes they are; `ChunkControl` what
   becomes of the bytes around an abort or a chunk size, and what is refused.
2. **Paths.** `Cache` (what a joining reader is given, as a function of every push there has been), `Delivery` (what a
   reader gets over every interleaving of pushes and receives), `Resync` (when a reader that fell behind is given units
   again), `Polling` (what one call comes to, and that the end is told), `Takeover` (every interleaving of the steps that
   hold a lock), `Audience` (who hears what is pushed), `RegistryCalls` (whole calls as a map from names to publishers)
   and `RegistryNames` (when a name leads to its publisher, over the interleavings that break that map).
3. **AMF0.** `Amf0` is the printer and the depth-limited parser, `Amf0Codec` both in place, `Amf0RoundTrip` that they
   undo each other exactly as deep as the parser goes. `Amf0Wire` says byte by byte what every encoding of a value is and
   that those are what is read, `Amf0Refusals` what is refused and where, `Utf8Text` what text is.
4. **Repackaging.** `H264` and `H264RoundTrip` (the two framings and the configuration record), `H264Refusals` (any
   record or payload, whoever wrote it, and what it is refused for), `Rtp` and `RtpAac` (the packetizers), `RtpHeader`
   (a packet as a player opens it), `RtpReceiver` (a strict receiver as RFC 6184 describes one; `RtpAac` has RFC 3640's),
   `Rtsp` (interleaved frames), `Egress` and `EgressTracks` (several tracks on one connection), and `Repackaging`.
5. **The publishing session.** `Session` and `SessionMachine`, with `SessionRuns` (safety over whole runs),
   `SessionMedia` (every unit is its message, at its time), `SessionWindow` (acknowledgements), `SessionCommands` (each
   command and its answer, to the byte), `SessionStages` (when a stream is on the air, and that its end is told),
   `SessionReplies` (what the replies say once read), `Conversation` (everything said is readable), `ReplySizes` and
   `LongReplies` (unless it is too long, and when that is) and `Clocks` (the timeline). `Requests` and `LatePicture`
   spell out runs of it.

`Relay` joins the ends: what is published is what is played.

## What turned out not to be so

Each of these is a lemma with a concrete case, beside the exact condition under which the property does hold.

- A writer's message that repeats the time, length, type and stream of one just sent in format 0 with a time of
  0xffffff or more goes out under a header its reader does not read (`src/rtmp/chunk.rs:611-647` against
  `src/rtmp/chunk.rs:453`). `SecondPictureNeverArrives` is the smallest case; `FaithfulExactlyWithoutStutters` says
  that there is no other.
- `src/path.rs:289-290` says that dropping `next` loses nothing. Dropped inside `resync` it forgets that it was
  looking for a picture to start at. In `DroppedInResyncHappens` a slow reader has received all there is and waits when
  its call is dropped; the next unit pushed is delivered, and follows on from nothing it was given. `ResumesExactly` says
  in which runs units passed over are followed by a picture that opens a stream.
- `src/path.rs:76-88` says that a publisher takes over a name and cannot fail to. Between finding a path and putting
  its source there, and between a predecessor's taking its source away and removing the name, it can end up published
  where nobody can find it: `SecondPublisherIsLost` is such a run from nothing, and `PublishDuringDropIsLost` and
  `DropDuringPublishIsLost` the two places it can happen in any. `FoundExactlyUnlessNameLost` says exactly when.
- `src/path.rs:17-24` has a reader that fell behind start again at the next picture. On a stream of sound alone there is
  none: in `SoundAloneHappens`, while its calls are let wait, it is never given another unit. `ResyncEndsExactly` and
  `ResumesWhenMet` say when a reader is: exactly when a unit that opens a stream is still there when it is reached.
- `src/unit.rs:115-116` says that a picture is never decoded later than it is shown. The session lets a negative
  offset through anywhere but at the beginning: `DecodedLate` is a run with a picture decoded at 40 and shown at 30, and
  `DecodedInTimeExactly` says when that cannot be.
- `src/rtp/mod.rs:115-121` checks that packets have room for a payload, which is less than the packetizers need. At 14
  bytes a unit of three cannot be fragmented and at 16 no frame can be sent (`FourteenIsTooSmall`, `SixteenIsTooSmall`);
  `PacketizesExactly`, `PacketizesAnythingExactly` and `FramePacketizesExactly` say what is enough.
- A request to publish under a key of nearly 8 MiB is one a reader delivers, and its answer is one a reader refuses
  (`LongReplyIsRefused`). `ReadableExactly` says that nothing else keeps what is said from being read, and
  `ModestRequestsDrawModestReplies` that requests 97 bytes shorter never come to it.

## Model

| member | source | states |
|---|---|---|
| Chunk.BasicHeaderReads | src/rtmp/chunk.rs:687-714 | every format and chunk stream id in any of its three widths reads back as written, and what is behind it is left |
| ChunkForms.BasicHeaderBytes | src/rtmp/chunk.rs:687-714 | the format is in the top two bits, and the id in the rest, in one more byte less 64, or in two less 64 with the low one first |
| ChunkForms.FullHeaderBytes | src/rtmp/chunk.rs:628-648 | each byte of a full header: three of time, three of length, the type, and the message stream id with its low byte first |
| ChunkForms.ExtendedHeaderBytes | src/rtmp/chunk.rs:628-648 | a time of 0xffffff or more is three bytes of ones, and is stated in four at the end |
| ChunkForms.KindNumbers | src/rtmp/chunk.rs:120-160 | each type of message goes by its own number, and any other number by itself |
| Chunk.ReadChunk | src/rtmp/chunk.rs:353-514 | keeps the reader's bounds whatever the bytes, refusals included; consumes at least a byte when it takes a chunk, and nothing when it needs more |
| Chunk.ReadAll | src/rtmp/chunk.rs:343-351 | reading until there is nothing more to give ends, with the reader's bounds kept |
| Chunk.Reader.ReadOne | src/rtmp/chunk.rs:353-514 | in place, one chunk does to reader and buffer exactly what the specification says, on every path |
| Chunk.Reader.Absorb | src/rtmp/chunk.rs:475-514 | a chunk's bytes join the message they belong to, which is handed up and acted on when complete |
| Chunk.Reader.Act | src/rtmp/chunk.rs:518-538 | only chunk size and abort messages change the reader, and a refused one changes nothing |
| Chunk.Reader.Read | src/rtmp/chunk.rs:343-351 | gives the first message of all that the buffer holds, and leaves reader and buffer such that the rest is what is still to come |
| Chunk.Reader.Drain | src/rtmp/chunk.rs:330-351 | calling until there is no more gives all the messages of the buffer, in order, and the first error |
| Chunk.Reader.constructor | src/rtmp/chunk.rs:319-324 | a new reader knows no chunk streams and is at 128 bytes |
| Chunk.Writer.SetChunkSize | src/rtmp/chunk.rs:576-584 | accepts exactly 1 to 0xffffff, and otherwise changes nothing and says what was asked |
| Chunk.Writer.Write | src/rtmp/chunk.rs:593-679 | appends exactly the wire form and carries the message's fields forward, or refuses a length over 24 bits and changes nothing |
| Chunk.Writer.PutPieces | src/rtmp/chunk.rs:650-665 | the loop puts the whole payload in pieces of the chunk size with a continuation header between each two |
| Chunk.Writer.constructor | src/rtmp/chunk.rs:559-564 | a new writer has said nothing and is at 128 bytes |
| ChunkRoundTrip.FirstHeaderReads | src/rtmp/chunk.rs:604-647 | whichever of the four formats the writer picks, the reader makes of it the very fields the writer carries forward |
| ChunkRoundTrip.MarkReads | src/rtmp/chunk.rs:660-664 | a continuation header changes no field, with its extended timestamp or without one |
| ChunkRoundTrip.BodyReads | src/rtmp/chunk.rs:470-514 | a payload cut at any chunk size is put back together from any point in it, whatever is behind it |
| ChunkRoundTrip.SettledKeepsStep | src/rtmp/chunk.rs:518-538 | acting on a delivered message, chunk size and abort included, keeps reader and writer in step |
| ChunkRoundTrip.WriteReads | src/rtmp/chunk.rs:353-679 | one message written is that message read, nothing behind it is touched, and the two stay in step |
| ChunkForms.AnyFormReads | src/rtmp/chunk.rs:353-514 | whichever format an encoder picks of those that leave out nothing new, on a clock that may wrap, and whatever time it repeats between the pieces, a reader reads that message, leaves what is behind, and carries on from its fields |
| ChunkForms.WriterLeavesOutTheMost | src/rtmp/chunk.rs:607-626 | the writer picks the format that leaves out most of those that say enough and do not go back in time |
| ChunkForms.FieldsSize | src/rtmp/chunk.rs:628-648 | the formats state 11, 7, 3 and no bytes, and four more where the time is extended |
| ChunkControl.WholeReads | src/rtmp/chunk.rs:353-514 | a message headed in full is read by any reader with nothing half-read on its chunk stream, and nothing else about the reader changes but what the message says |
| ChunkControl.AbortReads | src/rtmp/chunk.rs:529-534 | an Abort naming a chunk stream clears what is half-read on it and nothing else: not the other streams, nor the chunk size |
| ChunkControl.AbortDiscards | src/rtmp/chunk.rs:529-534 | part-way through a message on a chunk stream, an Abort naming it and then a new message on it read as exactly those two, every other half-read message staying as it was |
| ChunkControl.UnabortedIsRefused | src/rtmp/chunk.rs:367-376 | without the Abort the new message is refused for what it would leave unfinished |
| ChunkControl.ChunkSizeReads | src/rtmp/chunk.rs:518-528 | a chunk size takes effect behind the message that states it, and is its 31 low bits |
| ChunkControl.RefusedForItsFault | src/rtmp/chunk.rs:518-538 | a message about the chunk stream is refused exactly when it is not four bytes or states a size out of range, at its end and for that |
| ChunkControl.HeaderRefusedExactly | src/rtmp/chunk.rs:367-376 | a header is refused as having nothing to inherit, one chunk stream too many, or interleaved, exactly where each is so, with nothing consumed |
| ChunkControl.LengthRefused | src/rtmp/chunk.rs:469-474 | a header that states over 8 MiB is refused before any payload |
| ChunkRuns.RunReads | src/rtmp/chunk.rs:353-679 | any run of messages on up to 64 chunk streams, with chunk sizes changed as announced and none stuttering, is read as exactly those messages, with anything behind |
| ChunkRuns.RunIsFaithful | src/rtmp/chunk.rs:353-679 | a fresh reader has all of such a run's messages in order, no bytes left, and the writer's state |
| ChunkRuns.RunArrives | src/rtmp/chunk.rs:343-679 | and it does in whatever pieces the bytes arrive |
| ChunkRuns.FaithfulExactlyWithoutStutters | src/rtmp/chunk.rs:611-647 | every prefix of a run is read faithfully if and only if no message of it stutters |
| ChunkRuns.SecondPictureNeverArrives | src/rtmp/chunk.rs:611-647 | one picture at time 0xffffff sent twice arrives once, with two bytes left waiting for ever |
| ChunkStutter.StutterStalls | src/rtmp/chunk.rs:453-455 | a stuttering message of one chunk is waited for without end |
| ChunkStutter.StutterStarves | src/rtmp/chunk.rs:453-455 | one of several chunks takes more bytes to read than were written |
| ChunkStutter.StarvedStaysStuck | src/rtmp/chunk.rs:353-514 | no way of reading those bytes that delivers one message leaves the chunk stream where the writer's is |
| ChunkStutter.StutterIsNotRead | src/rtmp/chunk.rs:453-647 | a stuttering message is never read as it was written |
| ChunkArrival.VerdictStands | src/rtmp/chunk.rs:353-514 | a verdict other than needing more is the same whatever comes behind the chunk |
| ChunkArrival.ReadAllSplits | src/rtmp/chunk.rs:343-351 | reading part and then the rest is reading the whole, unless the part was refused |
| ChunkArrival.ReadAllExhausts | src/rtmp/chunk.rs:338-351 | what is left after reading is never anything that could have been read |
| ChunkArrival.ArrivalDoesNotMatter | src/rtmp/chunk.rs:330-514 | for every cutting of every byte string: the same messages, first error, state and unread bytes as one buffer |
| ChunkArrival.ArrivalOfAnyCutting | src/rtmp/chunk.rs:330-514 | the same from a fresh reader |
| ChunkArrival.ReachableReaderIsBounded | src/rtmp/chunk.rs:66-76 | whatever a peer sends, at most 64 chunk streams, sizes in range, every half-read message shorter than its length, and under 64 times 8 MiB held |
| ChunkInterleaving.TakenAlone | src/rtmp/chunk.rs:353-514 | a chunk does the same to a reader that knows only its chunk stream, and nothing to the others |
| ChunkInterleaving.StreamsDoNotInterfere | src/rtmp/chunk.rs:353-514 | in any interleaving each chunk stream carries what it would carry alone, and ends where it would end |
| ChunkInterleaving.AnyInterleavingIsTaken | src/rtmp/chunk.rs:353-514 | any interleaving of chunks that each chunk stream could take alone is taken whole, while there is room for the chunk streams |
| ChunkInterleaving.OnOneWire | src/rtmp/chunk.rs:343-514 | laid end to end the chunks are read as those chunks, delivered in the order messages were completed |
| Cache.Cache.constructor | src/path.rs:348-355 | a new cache holds what an empty history leaves |
| Cache.Cache.Push | src/path.rs:357-383 | kept one unit at a time, the cache is always what the whole history of pushes leaves, its byte count exact |
| Cache.LastOpeningIsLast | src/path.rs:358-363 | the place the cache cuts at opens a stream and nothing after it does |
| Cache.TrimmedPush | src/path.rs:378-381 | dropping the oldest as units come keeps what trimming the whole history would |
| Cache.TrimmedIsLongest | src/path.rs:369-381 | with no pictures it is the longest end of the history within the limit |
| Cache.KeptIsAnEnd | src/path.rs:26-36 | a joining reader is given an unbroken run up to the last push or nothing, within the limit, opening a stream where there are pictures |
| Cache.GroupIsKeptExactly | src/path.rs:357-383 | with pictures it is everything from the last one that opens a stream on if that is at most 8 388 608 bytes of coded data, and otherwise nothing |
| Cache.SoundIsKeptExactly | src/path.rs:364-382 | with none it is the history from the earliest place that leaves at most that many |
| Unit.LenIsOfBytes | src/unit.rs:59-63 | the length a unit is counted at is that of its coded bytes, all NAL units of a picture or a frame |
| Unit.OpensExactly | src/unit.rs:129-136 | a picture opens a stream if and only if one of its NAL units is of type 5, and no frame does |
| Delivery.Receiver.constructor | src/path.rs:131-141 | a reader begins with the snapshot at the end of the feed, nothing skipped |
| Delivery.Receiver.Next | src/path.rs:291-325 | the two loops in place are the steps of the specification run until one gives a unit, the end, or has to wait |
| Delivery.RunIsSound | src/path.rs:291-325 | every interleaving of pushes, receives, closing and dropped calls keeps the reader's books |
| Delivery.DeliveredInOrder | src/path.rs:131-142 | whatever happens, what is delivered is the start of the snapshot, then later pushes in order and none twice |
| Delivery.ResumesExactly | src/path.rs:296-325 | units passed over are followed by one that opens a stream in exactly the runs where no reader told that it missed some, and not given an opening one since, is given one that opens nothing |
| Delivery.PatienceIsEnough | src/path.rs:288-307 | that never happens where no call is dropped inside resync |
| Polling.PollsExactly | src/path.rs:291-325 | a call gives a unit, tells the end or waits, each exactly when: the end only of a closed feed with nothing left to give, and waiting only on one that is not closed |
| Polling.GivesTheRightUnit | src/path.rs:291-325 | what it gives is the next of the snapshot, the next of the feed, or past missed units the first still there that opens a stream, counting what was missed |
| Polling.EndIsReached | src/path.rs:295-320 | in every run, once the publisher has gone a reader is told the end within as many calls as there are units left for it and one more |
| Resync.ResyncEndsExactly | src/path.rs:311-325 | a reader in resync is given a unit if and only if one that opens a stream is ahead of it and still there, and that is what it is given |
| Resync.ResumesWhenMet | src/path.rs:311-325 | over any run without a dropped call it is given another unit if and only if it reaches one that opens a stream while that is still there |
| Resync.SoundAloneNeverResumes | src/path.rs:311-325 | over any such run of a stream of sound alone a reader in resync is given nothing more |
| Resync.SoundAloneHappens | src/path.rs:291-325 | a reader 1025 frames late receives once, and is given nothing however the run of sound goes on |
| Resync.DroppedInResync | src/path.rs:303-304 | after a drop inside resync the next receive is right if and only if nothing was passed over, nothing is there, or what is there opens a stream |
| Resync.DroppedInResyncHappens | src/path.rs:288-325 | a reader that has received all there is and waits in resync is dropped, and is given the next unit pushed though it opens nothing |
| Delivery.EveryPushIsAccountedFor | src/path.rs:212-325 | pushes since joining are delivered, skipped, discarded, lost or queued, and the numbers add up, in every run |
| Delivery.EndIsTheEnd | src/path.rs:295-298 | when the end is told nothing is left to give; Polling.PollsExactly has when it is told |
| Delivery.KeepingUpMissesNothing | src/path.rs:291-297 | a reader with nothing skipped or discarded has the snapshot and then every push up to its place |
| Takeover.StepKeeps | src/path.rs:89-260 | every lock-sized step keeps sources, paths, feeds and readers consistent |
| Takeover.ReadersAreNeverMovedAcross | src/path.rs:86-142 | in every interleaving a reader begins on what the pushes of the publisher it attached to had left in its cache, is sent only that publisher's units after, and holds its description |
| Takeover.EndedExactlyWhenOver | src/path.rs:108-111 | in every interleaving a publisher's feed is closed, and it is woken, if and only if it has been displaced or dropped |
| Takeover.DisplacedIsHarmless | src/path.rs:212-260 | a displaced publisher's push or drop changes no source, feed, name or reader, and ends nobody |
| Takeover.OnlyOnesOwn | src/path.rs:212-260 | a push or drop by anyone changes no source and no feed but that publisher's own, and ends no other |
| Takeover.DisplacedForGood | src/path.rs:212-223 | once displaced, a publisher stays displaced and nothing more ever goes down its feed |
| Audience.FeedIsWhatWasPushed | src/path.rs:212-223 | in every interleaving what goes down a publisher's feed is everything it pushes while its source is in place, in order, and nothing else |
| Audience.ReadersAreWhoJoined | src/path.rs:124-142 | the readers are everyone who attached where there was a source, each with its description and what its publisher's pushes so far leave in the cache |
| Audience.SentSinceJoining | src/path.rs:131-223 | each of them has been sent exactly what its publisher has pushed in place since |
| RegistryCalls.CallsKeepTheLatest | src/path.rs:89-161 | with each call one step, a lookup finds exactly the latest publisher of the name not yet dropped |
| RegistryCalls.PublishDuringDropIsLost | src/path.rs:252-258 | a publish between a drop's two locks leaves a live publisher nobody can find |
| RegistryCalls.DropDuringPublishIsLost | src/path.rs:101-111 | and so does a drop between a publish's two locks |
| RegistryCalls.Registry.constructor | src/path.rs:74-76 | a new registry has no names |
| RegistryCalls.Registry.Publish | src/path.rs:89-120 | in place, the name's current source becomes the new publisher's, whoever had it |
| RegistryCalls.Registry.PushUnit | src/path.rs:212-223 | a unit is added to the publisher's own cache and to the end of its feed, which its readers are on, if it still has the path; otherwise nothing changes |
| RegistryCalls.Registry.Drop | src/path.rs:243-260 | if the path is still this publisher's its source and its name go and it is ended; otherwise nothing of that |
| RegistryCalls.Registry.Read | src/path.rs:124-142 | one more reader, at the end of the current source's feed with its description and what everything pushed to it leaves in the cache; or none |
| RegistryCalls.Registry.Describe | src/path.rs:150-161 | tells the current source's description, and changes nothing |
| RegistryNames.FoundExactlyUnlessNameLost | src/path.rs:89-260 | in every interleaving a publisher in place is what its name finds if and only if no other removed the name since it found its path |
| RegistryNames.SecondPublisherIsLost | src/path.rs:89-260 | eight steps from an empty registry after which a live publisher has its path and no lookup finds it |
| Amf0Codec.ReadEvery | src/rtmp/amf0.rs:186-197 | in place, a payload gives exactly the values, or the error at the offset, that the specification gives |
| Amf0Codec.Reader.One | src/rtmp/amf0.rs:362-420 | one value is read as specified at the depth the reader is at, and the depth is put back |
| Amf0Codec.Reader.Properties | src/rtmp/amf0.rs:349-359 | nested properties are refused past 32 deep, and the depth is put back |
| Amf0Codec.Reader.PropertiesInside | src/rtmp/amf0.rs:423-440 | properties are read up to the empty key and the end marker that confirms it |
| Amf0Codec.Put | src/rtmp/amf0.rs:212-251 | appends exactly a value's bytes, or fails as specified |
| Amf0Codec.PutProperties | src/rtmp/amf0.rs:272-291 | appends every property and the end marker, or fails as specified |
| Amf0Codec.PutAll | src/rtmp/amf0.rs:200-207 | appends the values one after another, or fails as specified |
| Amf0RoundTrip.WritableIsWritten | src/rtmp/amf0.rs:212-291 | every value with keys, lengths and counts in range can be written, and is some bytes |
| Amf0RoundTrip.ValueReads | src/rtmp/amf0.rs:362-420 | one written value with anything behind is read back from exactly its bytes if it nests no deeper than there is room for, and is refused as too deep otherwise |
| Amf0RoundTrip.PropertiesRead | src/rtmp/amf0.rs:423-440 | the same of an object's properties |
| Amf0RoundTrip.ItemsRead | src/rtmp/amf0.rs:381-399 | the same of a strict array's values |
| Amf0RoundTrip.PrintedReads | src/rtmp/amf0.rs:186-207 | a list of values printed is that list read, or refused as too deep exactly when one of them nests more than 32 deep |
| Amf0RoundTrip.ReadIsSound | src/rtmp/amf0.rs:362-420 | any value read is writable, well spelt, within the depth, and paid for in bytes whatever counts were claimed |
| Amf0RoundTrip.ReadReprints | src/rtmp/amf0.rs:186-207 | whatever bytes are accepted, the values are writable, at most 32 deep, no more than the bytes, and read back unchanged once rewritten |
| Amf0Wire.EncodingReads | src/rtmp/amf0.rs:362-420 | whoever wrote it: any of the encodings a value may have, byte by byte, is read as that value with what is behind it left, if it nests at most 32 deep, and else refused for that |
| Amf0Wire.ReadIsEncoding | src/rtmp/amf0.rs:362-440 | whatever is read as a value is one of its encodings |
| Amf0Wire.ReadExactly | src/rtmp/amf0.rs:186-197 | a payload reads as a list of values if and only if it is encodings of them end to end and none nests more than 32 deep |
| Amf0Wire.WrittenIsEncoding | src/rtmp/amf0.rs:212-291 | what is printed is an encoding, with each type's marker as the specification numbers it |
| Amf0Wire.PrinterChooses | src/rtmp/amf0.rs:212-270 | of those it is the one with true as 1, strings short up to 65535 bytes, true counts, and a time zone of zero |
| Amf0Wire.RefusedExactly | src/rtmp/amf0.rs:253-291 | printing is refused if and only if a string is over 32 bits of length or a key is of no bytes or over 65535, and for such a length |
| Amf0Refusals.MarkersRefused | src/rtmp/amf0.rs:409-417 | seven types are refused by name, an end marker as unexpected, and anything over 0x11 as unknown, each at its marker |
| Amf0Refusals.OthersBeginValues | src/rtmp/amf0.rs:362-420 | no other marker is refused as one |
| Amf0Refusals.BadTextRefused | src/rtmp/amf0.rs:340-346 | text that is not UTF-8 is refused where it begins, behind its marker and count |
| Amf0Refusals.BadKeyRefused | src/rtmp/amf0.rs:423-440 | and so is a key, behind its count |
| Amf0Refusals.BadEndRefused | src/rtmp/amf0.rs:427-435 | an empty key with anything but the end marker behind it is refused at that |
| Amf0Refusals.CutIsRefused | src/rtmp/amf0.rs:302-346 | any encoding cut off anywhere is refused as truncated, at a field begun before the cut, with no more said to be missing than is |
| Utf8Text.TextExactly | src/rtmp/amf0.rs:340-346 | the bytes taken for text are exactly the spellings in UTF-8 of sequences of Unicode scalar values |
| Amf0.Find | src/rtmp/amf0.rs:99-104 | a key is looked up as the first property it names, or none |
| H264Codec.FindUnits | src/codec/h264.rs:192-223 | the scan in place finds exactly the units of the byte stream |
| H264Codec.WriteAnnexB | src/codec/h264.rs:263-274 | writes every unit behind a four-byte start code |
| H264Codec.Split | src/codec/h264.rs:231-260 | the loop gives exactly the units, or the error at the offset, of the length-prefixed payload |
| H264Codec.PutPrefixed | src/codec/h264.rs:293-313 | appends one unit behind its length, or refuses one its prefix cannot state and appends nothing |
| H264Codec.Join | src/codec/h264.rs:281-290 | joins units behind their lengths, or fails at the first that does not fit |
| H264Codec.Parse | src/codec/h264.rs:371-398 | in place, a record is read or refused as specified, at the offset specified |
| H264Codec.WriteRecord | src/codec/h264.rs:404-425 | writes exactly the record's bytes, or fails as specified |
| H264Codec.RecordReader.ParameterSets | src/codec/h264.rs:467-483 | a counted list of parameter sets is read as specified, only the low bits of the count being the count |
| H264RoundTrip.AnnexBRoundTrip | src/codec/h264.rs:192-274 | written as Annex B and split, units come back if and only if none of them contains 00 00 01 |
| H264RoundTrip.SplitIsClean | src/codec/h264.rs:192-223 | whatever the bytes, no unit found contains 00 00 01 |
| H264RoundTrip.SplitLosesNothing | src/codec/h264.rs:192-223 | any bytes are what precedes the first start code, then start codes taken at their widest and the pieces between, of which the units are the ones not empty |
| H264RoundTrip.RewritingSettles | src/codec/h264.rs:192-274 | splitting a split stream rewritten gives the same units |
| H264RoundTrip.JoinThenSplit | src/codec/h264.rs:231-313 | units joined at any width under 8 and split are the units |
| H264RoundTrip.SplitThenJoin | src/codec/h264.rs:231-313 | bytes that split are what their units join to, at every width |
| H264RoundTrip.JoinsWhenEachFits | src/codec/h264.rs:281-313 | a list can be joined if and only if every unit's length fits the prefix |
| H264RoundTrip.RecordRoundTrip | src/codec/h264.rs:371-425 | a record written reads back if and only if it has 1 to 31 SPS, 1 to 255 PPS and a width of 1 to 4 |
| H264RoundTrip.RecordIsWritten | src/codec/h264.rs:338-425 | a record can be written if and only if every set is under 64 KiB and the first SPS states its profile |
| H264RoundTrip.ParsedIsRecordable | src/codec/h264.rs:371-398 | every record accepted is one of those that round-trip |
| H264Refusals.AnyRecordReads | src/codec/h264.rs:371-398 | a record reads as its parameter sets and width whatever its profile bytes, its reserved bits and what is behind it, or is refused for the set it lacks |
| H264Refusals.RecordBytes | src/codec/h264.rs:404-425 | a record is written byte for byte as version 1, the first SPS's profile, constraints and level, six and three reserved ones, and the counted sets |
| H264Refusals.VersionIsRefused | src/codec/h264.rs:371-376 | any other version is refused by its number |
| H264Refusals.CutRecordIsRefused | src/codec/h264.rs:436-483 | a record cut off anywhere is refused as truncated, at a field begun before the cut |
| H264Refusals.EmptySetIsRefused | src/codec/h264.rs:467-483 | a parameter set of no bytes is refused at its place, behind any whole ones |
| H264Refusals.RefusedForItsTail | src/codec/h264.rs:231-260 | behind any whole units, part of a prefix, a prefix of zero or part of a unit is refused as such, at its own offset and by how much is missing |
| H264Refusals.OnlyTailsAreRefused | src/codec/h264.rs:231-260 | and a payload is refused for nothing else |
| Rtp.HeaderReads | src/rtp/mod.rs:157-210 | every packet header reads back as written, with its payload |
| RtpHeader.HeaderBytes | src/rtp/mod.rs:157-170 | each of the twelve bytes: version 2 and no padding, extension or sources, the marker and type, then number, time and source, high byte first |
| RtpHeader.OpensAsMade | src/rtp/mod.rs:157-170 | a player that refuses any other first byte, another source or another payload type opens every packet a stream makes, as it was made |
| RtpHeader.OpenedIsParsed | src/rtp/mod.rs:198-210 | and what it opens the relay's own reading makes the same of |
| Rtp.H264Packetizer.Emit | src/rtp/mod.rs:157-170 | a packet bears the stream's number behind the header that RtpHeader.HeaderBytes spells out, and the stream moves on by one modulo 2^16 |
| Rtp.H264Packetizer.Packetize | src/rtp/h264.rs:65-78 | one access unit's packets are its parts numbered on from before, at one timestamp, or it does not come to an end |
| Rtp.H264Packetizer.Fragment | src/rtp/h264.rs:81-101 | a unit too large is cut into pieces with the start bit on the first and the end bit on the last, where there is room to |
| Rtp.PacketizesExactly | src/rtp/h264.rs:65-101 | packetizing comes to an end if and only if there is room to fragment or nothing that needs it |
| Rtp.PacketizesAnythingExactly | src/rtp/h264.rs:87-91 | it does whatever it is given if and only if packets are of at least 15 bytes |
| Rtp.FourteenIsTooSmall | src/rtp/mod.rs:115-121 | a stream is made with packets of 14 bytes, and a picture of three stops it |
| Rtp.NumberedAt | src/rtp/mod.rs:157-170 | packet i states the number i on from the first modulo 2^16, the one timestamp, and its own marker |
| RtpReceiver.NalReceived | src/rtp/h264.rs:65-101 | one NAL unit, whole or in pieces, is what a strict RFC 6184 receiver rebuilds |
| RtpReceiver.UnitReceived | src/rtp/h264.rs:65-78 | an access unit's packets give back its NAL units and end it exactly once |
| RtpReceiver.RunReceived | src/rtp/h264.rs:65-101 | a whole run of access units arrives as those units at a receiver of version 2 packets of its own source: order, boundaries, bytes and times |
| RtpReceiver.UnitPartsFit | src/rtp/h264.rs:65-101 | every part of an access unit fits its packet, and the last alone is marked |
| RtpReceiver.CutNoMoreThanNeeded | src/rtp/h264.rs:65-101 | a unit that fits goes in one packet as it is, and any other in as few as can be, all but the last full |
| RtpReceiver.RunIsNumbered | src/rtp/mod.rs:157-170 | across a run every packet is within the MTU and numbered one after the last |
| RtpAac.AacPacketizer.Packetize | src/rtp/aac.rs:63-90 | a frame's pieces numbered on at one timestamp, its refusal with no number taken, or no end to it |
| RtpAac.AacPacketizer.Cut | src/rtp/aac.rs:80-89 | the loop over the pieces covers the frame once, every piece with the whole size and only the last marked |
| RtpAac.FramePacketizesExactly | src/rtp/aac.rs:63-90 | packetizing comes to an end if and only if the frame is over 8191 bytes or packets are of at least 17 |
| RtpAac.TooLongIsRefused | src/rtp/aac.rs:64-69 | exactly frames over 8191 bytes are refused, at any packet size |
| RtpAac.SixteenIsTooSmall | src/rtp/mod.rs:115-121 | a stream is made with packets of 16 bytes, and a frame with nothing in it stops it |
| RtpAac.RunReceived | src/rtp/aac.rs:63-90 | every expressible frame of a run arrives whole at a receiver that checks each piece states the whole size, empty frames too |
| RtpAac.RunIsNumbered | src/rtp/aac.rs:78-89 | across a run every packet is within the MTU and numbered one after the last |
| RtpAac.PiecesFit | src/rtp/aac.rs:78-89 | every piece fits its packet, and the last alone is marked |
| RtpAac.CutNoMoreThanNeeded | src/rtp/aac.rs:78-89 | a frame goes in as few packets as can be, all but the last full |
| Rtsp.Read | src/rtsp/message.rs:291-315 | in place, a whole frame is taken off and nothing else is consumed |
| Rtsp.PutInterleaved | src/rtsp/message.rs:389-399 | appends the framed packet, or refuses one over 65535 bytes and appends nothing |
| Rtsp.FrameReads | src/rtsp/message.rs:301-399 | a frame written reads back on its channel, leaving what is behind it |
| Rtsp.FramesThen | src/rtsp/message.rs:301-399 | packets interleaved one after another read back as they were, and then whatever follows |
| Rtsp.TakenExactly | src/rtsp/message.rs:301-315 | a frame is taken if and only if it is all there: a dollar, its channel, two bytes of length, and that many |
| Rtsp.OthersExactly | src/rtsp/message.rs:291-315 | what is not is waited for, begins a request, or is refused, each exactly by its first byte and its length, and none is consumed |
| Rtsp.FramesInParts | src/rtsp/message.rs:285-315 | the frames of a connection are the same in whatever pieces its bytes come |
| Repackaging.PacketsInterleave | src/rtsp/server.rs:217-221 | no packet of a run is too large to interleave |
| Repackaging.RepackagingPreservesTheStream | src/rtsp/server.rs:186-222 | split, packetized, interleaved, read back and reassembled, pictures are exactly their original NAL units, boundaries and times |
| Repackaging.BytesSurvive | src/codec/h264.rs:231-290 | framed again at the width they came in at, what is played is byte for byte what came |
| Egress.Playing.Write | src/rtsp/server.rs:186-222 | one unit goes to its track's packetizer alone, and out on that track's channel; any other unit adds nothing |
| Egress.Find | src/rtsp/server.rs:187-193 | the track a unit goes to is the first bound to its id, or there is none |
| EgressTracks.ChannelCarriesTrack | src/rtsp/server.rs:186-222 | however tracks' units are interleaved, each channel carries its own packetizer's packets and nothing else, with no byte left over |
| EgressTracks.EveryTrackPlays | src/rtsp/server.rs:186-222 | so each track arrives through a strict receiver as if it were alone on the connection |
| Relay.Attach | src/rtsp/server.rs:226-259 | a packetizer is made for exactly the setups of tracks the stream has on channels of this connection, each of its track's kind and with room for what it will be given |
| Relay.AttachedAsAsked | src/rtsp/server.rs:226-259 | each bears the channel of its setup, that start's numbers, payload type 96 at 90 kHz for pictures or 97 at the sample rate for sound, and packets of 1400 bytes |
| Relay.DueIsExpected | src/rtp/mod.rs:148-153 | what is due to a player is its track's pictures at 90 ticks a millisecond from the start, or frames at whole samples |
| Relay.OnlyItsOwnKind | src/rtsp/server.rs:212-215 | no unit of any run of a session reaches a packetizer of the other kind |
| Relay.PublishedIsPlayed | src/rtsp/server.rs:186-259 | whatever is published and whichever of its units a player is handed, each track set up arrives as exactly those units' coded bytes, in order, each at its time in the track's own clock from where that began |
| Relay.PublishedIsPlayedLive | src/rtsp/server.rs:150-222 | through a path, a player joining at any time is played on each channel its track's share of the start of the cache and then later units in order, resuming at a picture exactly unless it strays |
| Clocks.Timeline.Reading | src/rtmp/session.rs:550-563 | in place, a reading of the counter does what the specification says to the clock |
| Clocks.TracksExactlyTellable | src/rtmp/session.rs:555-559 | a clock that knows the true time goes on knowing it if and only if the step can be told from the counter |
| Clocks.PublishersStepsAreTellable | src/rtmp/session.rs:555-559 | steps forward of up to 2^31, and back of less within an era, can be told |
| Clocks.CounterUnwraps | src/rtmp/session.rs:550-563 | over any run of such steps and any number of wraps every time read is the true time since the first, or zero before it |
| Clocks.MillisInTicks | src/rtp/mod.rs:148-153 | a moment is the origin plus the whole ticks in it modulo 2^32, less than a tick off, however long the stream has run |
| Clocks.VideoTicksAreExact | src/rtp/mod.rs:148-153 | at 90 kHz it is 90 ticks a millisecond with nothing lost |
| Track.NewDescription | src/track.rs:150-180 | a description is accepted if and only if it has 1 to 65535 tracks and every H.264 one both parameter sets, its tracks then being the codecs in order; otherwise the first without them is named |
| SessionMachine.Machine.constructor | src/rtmp/session.rs:190-201 | a new session has done nothing |
| SessionMachine.Machine.HandleMessage | src/rtmp/session.rs:238-264 | in place, every kind of message is answered and leaves the session as specified |
| SessionMachine.Machine.HandleCommand | src/rtmp/session.rs:266-361 | so is every command |
| SessionMachine.Machine.Publish | src/rtmp/session.rs:363-399 | and publish |
| SessionMachine.Machine.SettleNow | src/rtmp/session.rs:489-517 | the description is settled once, video first |
| SessionMachine.Machine.HandleVideo | src/rtmp/session.rs:401-438 | and video, sequence headers and pictures |
| SessionMachine.Machine.HandleAudio | src/rtmp/session.rs:440-486 | and audio |
| SessionMachine.Machine.Received | src/rtmp/session.rs:215-231 | and a count of bytes |
| SessionRuns.TurnExtends | src/rtmp/session.rs:238-517 | one message of any kind keeps what has been published consistent with the sequence headers kept |
| SessionRuns.SessionIsSafe | src/rtmp/session.rs:401-517 | in every run: at most one stream published, video on track 0, every unit after it on a track of its kind, every picture split at the kept header's width, the description that of the headers kept |
| SessionStages.EndsAreToldExactly | src/rtmp/session.rs:266-297 | in every run a turn says that the stream is over if and only if one was asked for with no end or connect since and the turn is one of the three commands; it says only that, the run is over, and a stream that begins is under the application and key last asked for |
| SessionStages.HeadersAgree | src/rtmp/session.rs:466-485 | in every run all the sequence headers of a kind are the one kept, and one is kept only if it came |
| SessionCommands.EndByName | src/rtmp/session.rs:281-288 | deleteStream, closeStream and FCUnpublish leave the connection, and end a stream exactly where one has begun |
| SessionCommands.EndingsSpelt | src/rtmp/session.rs:281-283 | those are the three names, letter by letter |
| SessionCommands.NamelessIsRefused | src/rtmp/session.rs:266-273 | a command that does not read, or whose first value is no text, is refused for that |
| SessionCommands.ConnectByName | src/rtmp/session.rs:299-361 | connect takes the application named in its third value, or is refused for having none |
| SessionCommands.ConnectSays | src/rtmp/session.rs:309-360 | and says both windows, a chunk size and the change to it, and success, to the byte and to the last property |
| SessionCommands.CreateStreamByName | src/rtmp/session.rs:276-279 | createStream changes nothing |
| SessionCommands.CreateStreamSays | src/rtmp/session.rs:276-279 | and is answered with stream number one |
| SessionCommands.PublishByName | src/rtmp/session.rs:363-399 | publish is on the air under the application and the key stated, or is refused for having none |
| SessionCommands.PublishSays | src/rtmp/session.rs:380-398 | and says that the stream begins and that publishing has started, to the byte and to the last property |
| SessionCommands.OthersByName | src/rtmp/session.rs:289-296 | any other name is read past |
| SessionCommands.NamesSpelt | src/rtmp/session.rs:274-302 | the names that begin a stream, and that of the application, letter by letter |
| SessionCommands.ByKind | src/rtmp/session.rs:238-264 | three kinds of message are refused by kind, and all but commands and media are read past |
| SessionCommands.MediaNeedsStream | src/rtmp/session.rs:401-464 | media before a stream, or that does not read, is refused for that |
| SessionCommands.VideoHeaderExactly | src/rtmp/session.rs:406-485 | a video header is kept, let by or refused, exactly as it is the first, the same, or another, or does not parse |
| SessionCommands.AudioHeaderExactly | src/rtmp/session.rs:445-485 | and so is an audio one |
| SessionCommands.SettlesExactly | src/rtmp/session.rs:489-517 | the first media settles what the stream is from the headers kept, or is refused where there are none or they do not do |
| SessionCommands.MediaExactly | src/rtmp/session.rs:410-464 | a picture or a frame is passed on exactly where the stream has its kind and it splits |
| SessionMedia.RunAccounts | src/rtmp/session.rs:401-466 | in every run the units passed on are the pictures and frames that came, one for one, each with its own bytes, the clock's reading of its timestamp, its offset from there but never below zero, and its flag by what is in it |
| SessionMedia.TimesAreTrue | src/rtmp/session.rs:536-563 | a publisher whose steps can be told has every unit at its true time since the first, over any number of wraps |
| SessionMedia.DecodedInTimeExactly | src/rtmp/session.rs:568-578 | in every run a picture is decoded no later than shown if and only if its offset is not negative or the clock reads zero from the timestamps that came |
| SessionMedia.DecodedInTimeForTrueTimes | src/rtmp/session.rs:568-578 | for a publisher whose steps can be told, if and only if its offset is not negative or its time is no later than the first |
| LatePicture.DecodedLate | src/rtmp/session.rs:401-578 | connect, publish, a sequence header and two pictures, of which the second is decoded at 40 and shown at 30 |
| SessionWindow.WindowIsKept | src/rtmp/session.rs:207-231 | in every run the peer has been told of all but less than a window of what it sent, once there is a window to tell of and not before, each acknowledgement four bytes on chunk stream 2 that state the true count modulo 2^32 |
| SessionReplies.PublishesByName | src/rtmp/session.rs:363-383 | a stream is put at the application and the key stated, without query string or surrounding slashes and with nothing else taken away |
| SessionReplies.ReplyReads | src/rtmp/session.rs:599-616 | a reply's payload reads as a result bearing its transaction and the values answered |
| SessionReplies.AnswersAreRead | src/rtmp/session.rs:266-399 | every command said in answer to one reads as the result of that transaction, or as publishing begun under the name the path ends in |
| Conversation.ChangeKeepsOrder | src/rtmp/session.rs:334-344 | announcing a chunk size and then changing to it is never early and never late |
| Conversation.TurnKeepsOrder | src/rtmp/session.rs:215-399 | whatever is said in one turn keeps the connection orderly, on two chunk streams, without a stutter |
| Conversation.EverythingSaidIsReadable | src/rtmp/server.rs:165-193 | for every run of a session a fresh reader makes of the bytes written exactly the messages said, with none left over |
| Conversation.Apply | src/rtmp/server.rs:165-193 | applying actions in order leaves writer and output exactly where the run of them does, up to the first the writer refuses and no sooner |
| LongReplies.ReadableExactly | src/rtmp/chunk.rs:469-474 | for every run on messages a reader delivers, what is said is readable if and only if no reply is over 8 MiB |
| LongReplies.ModestRequestsDrawModestReplies | src/rtmp/session.rs:363-399 | no reply is where no message is over 8 MiB less 97 bytes |
| LongReplies.TooLongIsRefused | src/rtmp/chunk.rs:469-474 | a message of over 8 MiB is written, and refused by the reader at its first header |
| LongReplies.LongReplyIsRefused | src/rtmp/session.rs:363-399 | a publish request of 8 MiB less 88 bytes draws an answer one byte too long, which the peer refuses |
| LongReplies.DeliveredWithin | src/rtmp/chunk.rs:469-474 | no reader delivers a message over 8 MiB, whatever the bytes |
| ReplySizes.RepliesAreBounded | src/rtmp/session.rs:266-399 | every reply is of at most 190 bytes, or 97 more than the command it answers |
| ReplySizes.NewsSize | src/rtmp/session.rs:618-656 | how long the news of publishing is, by the length of the key in it |

## Left out

- Sockets, tasks, timers and `select!` (src/server.rs, src/main.rs, the loops of src/rtmp/server.rs and
  src/rtsp/server.rs): plumbing. What they call is modelled, and their interleavings are the events of the runs.
- The insides of tokio's broadcast and oneshot channels: `Delivery.Recv` is the broadcast channel's contract, with the
  last 1024 units kept, a count of those missed, and an end once drained. Being woken is being among those ended.
- RTSP's request text, headers, URIs, SDP and session: `Rtsp.ReadOne` stops at the first letter of a request. Which
  tracks and channels a client sets up are the setups given to `Relay.Attach`.
- The RTMP handshake and both `scramble` functions: nothing depends on their values. Where a stream's numbers start
  is arbitrary (`Relay.Start`).
- FLV tag headers and `AudioSpecificConfig` (src/rtmp/flv.rs, src/codec/aac.rs): a media message comes with what its
  payload is read as. That the reading never fails to be defined is not claimed.
- `f64` arithmetic: numbers and dates are their 64 bits. Strings are their UTF-8 bytes.
- Error messages' text, tracing, allocation and zero-copy sharing.
- `Registry::names`, the H.264 type names and `starts_with_start_code`: they would add only easy members.
- Paths shared between handles are places in an arena rather than aliased objects. What a reader makes of a feed is in
  `Delivery`, which a feed closing reaches as an event; that it closes exactly when its publisher is over is in `Takeover`.
- Counters that cannot wrap in practice are unbounded: tokens, bytes received, units skipped, wraps of the clock. The
  32-bit and 16-bit numbers of the protocols, and the saturating 64-bit arithmetic of the clock, are modelled as they are.
- Rtsp.Read: does not read a request, only that one begins, because requests are text.
- SessionMachine.Machine.HandleVideo: takes what the payload reads as, because tag headers are not modelled.
- SessionMachine.Machine.HandleAudio: takes what the payload and its parameters read as, for the same reason.
- Rtp.PacketizesExactly: subtraction below zero stops, as it does in a build that checks for overflow. In one that does
  not, room wraps to more than any packet has, for packets of 13 bytes; at 14 it is division by zero that stops either.
- RtpAac.FramePacketizesExactly: likewise, with wrapping at 13 to 15 bytes and division by zero at 16.
- H264RoundTrip.JoinThenSplit: for prefixes under 8 bytes; at 8 or more the original states no limit, and no unit that
  a machine holds reaches one. Records only state widths of 1 to 4.
- H264Codec.WriteRecord: asks for a width of at least 1, as the original subtracts one from it.
- Repackaging.RepackagingPreservesTheStream: for NAL unit types 1 to 23, which are the ones that travel as
  themselves or in FU-A fragments; types 0 and 24 to 31 mean something else to a receiver.
- EgressTracks.EveryTrackPlays: for tracks set up on different channels; the channels are the client's to name, and
  two tracks on one would be one to it.
- Conversation.EverythingSaidIsReadable: for replies of at most 8 MiB, which is the most a reader assembles;
  LongReplies.ReadableExactly says what happens otherwise.
- SessionMachine.Machine.HandleMessage: says nothing of the session after an error, since the connection ends there.
