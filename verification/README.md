# Verified model of the GPS ingest pipeline

This project models the data path of the repository: the Teltonika AVL codec, the TCP session and its
post-acknowledgement pipeline, the repair and extraction of text payloads, the Redis-stream consumer with
the message handler, the stoppage filter, the retrying sender, the mirror forwarder, and the track cleaning
of the map view. `dafny verify dfyconfig.toml` checks all of it.

Where the program changes things step by step, so does the model: classes with fields, methods with loops,
each proved equal to a function of its inputs or its old state. What the program promises is then proved
about those functions. Where several goroutines or processes interleave, there is a step machine, and the
theorems are about all its runs. The network, Redis, the clock and the callers' timing are parameters, so
every theorem holds for all of their behaviours.

| module | what it holds |
|---|---|
| `Options`, `Words`, `Bytes`, `Counting` | missing values, machine words as sets of bits, big-endian numbers, counting in lists |
| `Crc` | the bitwise CRC-16/IBM loop, and polynomial division over GF(2) |
| `Codec`, `WireFormat`, `RecordLayout`, `Packet` | the record and packet decoders, an encoder for each of the three codecs, where each byte stands, tiling, corruption |
| `Framing`, `Session` | reading frames from a stream in pieces of any size, and one device's session |
| `Pipeline` | accepting, the bounded job buffer, its workers, and the order of `Stop` |
| `TextExtraction`, `TextRepair`, `RepairLimits`, `StrictDecoding` | the string scanner, object recovery, the four text rewrites and where they change too much, strict decoding |
| `DateTime`, `Calendar`, `Paths` | date-time strings and their order, what a record becomes on its way to the workers, and agreement of the TCP and HTTP paths |
| `Stream`, `Queue`, `Redelivery`, `Consumer`, `QueueRuns` | the stream commands, the consumer as a step machine, bounds on redelivery, the consumer's methods, and runs that show where the bounds end |
| `Filtering`, `Handler` | the sharded filter, and what the handler's nil answers guarantee |
| `Rotation`, `Sender` | the round-robin counter, and the sending loop with pauses |
| `Mirror`, `MirrorForwarder` | the mirror's workers as a step machine, and the forwarder's methods |
| `Track` | distance gating, Douglas-Peucker, and splitting at gaps |

## Model

| member | source | states |
|---|---|---|
| Crc.CRC16IBM | internal/teltonika/codec/crc16ibm.go:4-17 | the two nested loops compute the checksum defined bit by bit |
| Crc.ChecksumIsTheRemainder | internal/teltonika/codec/crc16ibm.go:4-17 | a word is the checksum exactly when it fits 16 bits and the message shifted by 16 differs from it by a multiple of the generator: it is the GF(2) remainder |
| Crc.ChecksumIsXorLinear | internal/teltonika/codec/crc16ibm.go:4-17 | on inputs of equal length the checksum of the bitwise difference is the difference of the checksums |
| Crc.AppendedChecksumCancels | internal/teltonika/codec/crc16ibm.go:4-17 | data followed by its own checksum, low byte first, has checksum zero |
| Crc.BurstsAreDetected | internal/teltonika/codec/crc16ibm.go:4-17 | inputs of equal length that differ only within sixteen consecutive bits, and do differ, have different checksums |
| Crc.KnownChecksum | internal/teltonika/codec/crc16ibm.go:9-13 | the byte 0x80 alone has the checksum 0xA001, the generator in the order the register holds it |
| Codec.ParseGroup | internal/teltonika/codec/record.go:93-123 | one counted group of fixed-width values is read as the wire grammar says, with the same error |
| Codec.ParseIOBlock | internal/teltonika/codec/record.go:62-162 | the whole IO block: event id, generation, count, four groups and the variable part, for every layout and every error |
| Codec.DecodeRecord | internal/teltonika/codec/record.go:185-220 | the decoder returns the record and length that the wire grammar gives, or its error; it panics exactly on a slice of at least 9 bytes that with the bytes behind it in the array is shorter than 24 |
| WireFormat.RecordsAreExactlyEncodings | internal/teltonika/codec/record.go:185-220 | a record decodes from a buffer exactly when the buffer starts with an encoding of fields that mean that record |
| WireFormat.RawBytesDecodeAlone | internal/teltonika/codec/record.go:218-219 | a record's raw bytes followed by anything decode to the same record |
| WireFormat.RecordsAreLong | internal/teltonika/codec/record.go:185-220 | a decoded record takes at least 30, 38 or 32 bytes, by codec |
| RecordLayout.FieldsAreInPlace | internal/teltonika/codec/record.go:24-34 | every decoded record holds the time at bytes 0 to 8, the priority at 8, the signed longitude at 9 to 13 and latitude at 13 to 17, altitude at 17 to 19, angle at 19 to 21, satellites at 21 and speed at 22 to 24 |
| RecordLayout.EncodedFieldsAreInPlace | internal/teltonika/codec/record.go:190-204 | and an encoded record holds its fields at these places |
| RecordLayout.HeadersAreChecked | internal/teltonika/codec/record.go:186-216 | fewer than 9 bytes, an unknown codec, and fewer than 24 bytes each give their own error |
| RecordLayout.PlainRecordsAreLaidOut | internal/teltonika/codec/record.go:62-130 | codec 8 and codec 16 byte by byte: the widths of event id, generation, counts and ids, values of one, two, four and eight bytes each behind its id, and the IO map they mean |
| RecordLayout.ExtendedRecordsAreLaidOut | internal/teltonika/codec/record.go:131-162 | codec 8 Extended byte by byte: behind the groups an entry with its id, two bytes of length and its data, whose first eight bytes count |
| RecordLayout.FirstByteWeighsMost | internal/teltonika/codec/record.go:190-204 | numbers are big-endian: a byte in front adds its value times 256 to the number of bytes behind it |
| WireFormat.LastEntryWins | internal/teltonika/codec/record.go:120 | of several IO entries with one id the last value is kept |
| WireFormat.DistinctIDsAreAllKept | internal/teltonika/codec/record.go:120 | entries with distinct ids are all in the map with their values, and nothing else is |
| Packet.ParsePacket | internal/teltonika/codec/packet.go:11-71 | the packet parser computes the packet grammar: header checks, checksum, both counts, the record loop, all its errors, and its panics, given the bytes behind the packet in its array |
| Packet.PacketsAreExactlyEncodings | internal/teltonika/codec/packet.go:11-71 | parsing succeeds with some records exactly on buffers that start with an encoded packet of those records |
| Packet.PacketsPanicExactly | internal/teltonika/codec/record.go:185-197 | parsing panics exactly on a packet that passes the checks of header, checksum and counts, announces more records than it holds, and behind its whole records has a rest of at least 9 bytes that with the bytes behind it in the array is shorter than 24 |
| Packet.ShortRestsPanic | internal/teltonika/codec/record.go:185-197 | in an array of its own length, as the TCP session makes it, every packet with a rest of 9 to 18 bytes behind any whole records panics, under every codec id |
| Packet.TwelveBytesPanic | internal/teltonika/codec/record.go:185-197 | the shortest frame that does: twelve bytes of payload that announce one record of nine bytes |
| Packet.AcceptedPacketsReturn | internal/teltonika/codec/packet.go:11-71 | a packet that the grammar accepts never panics, and with ten spare bytes in the array no packet does |
| Packet.PacketRoundTrip | internal/teltonika/codec/packet.go:11-71 | any list of records that fits a packet is returned from its encoding, whatever follows it |
| Packet.FrameBytes | internal/teltonika/codec/packet.go:15-35 | a framed payload is four zeros, its length in four bytes, the payload, and its checksum in four bytes |
| Packet.RecordsTileThePayload | internal/teltonika/codec/packet.go:48-68 | the codec is byte 8, the counts are byte 9 and the last of the payload and are the number of records, the records' raw bytes are the payload between them, each decodes alone, and there are at most 68, 53 or 63 |
| Packet.BurstsAreRejected | internal/teltonika/codec/packet.go:29-35 | a valid packet whose payload is changed within sixteen consecutive bits is rejected for its checksum |
| Framing.FramesAreRead | internal/teltonika/tcp/session.go:104-131 | the reader takes a frame off the stream exactly when the stream starts with a well-formed one |
| Framing.FramingRoundTrip | internal/teltonika/tcp/session.go:104-131 | any number of well-formed frames in a row is read back as those frames and every byte is consumed |
| Framing.ReadingLosesNothing | internal/teltonika/tcp/session.go:104-131 | of any stream, the frames read and the rest make up the stream, and no frame can be read from the rest |
| Framing.FramesPassTheHeaderChecks | internal/teltonika/codec/packet.go:12-27 | a frame that was read never fails the parser's checks of length, preamble, length field and truncation |
| Framing.IMEIsAreRead | internal/teltonika/tcp/session.go:83-102 | an IMEI is read exactly from a stream that starts with a zero, its length of 1 to 32, and as many bytes |
| Framing.Connection.ReadFull | internal/teltonika/tcp/session.go:89-90 | however the stream is cut into pieces, exactly the next n bytes are read, or none when the stream is shorter |
| Framing.Connection.ReadIMEI | internal/teltonika/tcp/session.go:83-102 | the IMEI of 1 to 32 bytes behind its length, from a stream in any pieces |
| Framing.Connection.ReadFrame | internal/teltonika/tcp/session.go:104-131 | the next frame, from a stream in any pieces |
| Session.Session.ValidateFrame | internal/teltonika/tcp/session.go:135-164 | the count and job of a frame: zero and none for a parse error, no records, or a failed envelope; a panic exactly for the frames that make the decoder panic |
| Session.Session.Run | internal/teltonika/tcp/session.go:25-81 | a whole session, for each device and each allow-list, writes and submits what the session specification says, up to the end of the process on a frame that panics; Session.StrangersAreTurnedAway and Session.DeviceConversation say what that is in bytes |
| Session.EveryFrameIsAnswered | internal/teltonika/tcp/session.go:52-80 | the events of a session are one answer per frame of the stream, in order, up to cancellation, a failed write, or the first frame that panics, which ends the process |
| Session.ShortRestsEndTheProcess | internal/teltonika/tcp/session.go:25-81 | an allowed device whose first frame has a rest of 9 to 18 bytes behind its whole records gets 0x01 and no acknowledgement: the process ends, since nothing on this path recovers |
| Session.ServeFollowsTheProtocol | internal/teltonika/tcp/session.go:70-79 | a job is submitted only right behind a nonzero acknowledgement that equals the number of its records |
| Session.DeviceConversation | internal/teltonika/tcp/session.go:25-164 | a device that sends its IMEI and encoded packets gets, when the allow-list is empty or has it, 0x01 and each packet's record count, and jobs with exactly those records |
| Session.StrangersAreTurnedAway | internal/teltonika/tcp/server.go:58-64 | a device that is not on a non-empty allow-list gets 0x00 alone, whatever it sends; and when the greeting cannot be written no device is served |
| Session.HandshakeBytes | internal/teltonika/tcp/session.go:88-99 | a device sends a zero, the length of its IMEI, and the IMEI |
| Session.FramesAreAnswered | internal/teltonika/tcp/session.go:135-170 | a frame is answered with three zeros and the number of its records, behind which comes the job with those records; four zeros and no job when it does not parse, holds none, or its envelope cannot be marshalled |
| Pipeline.EveryJobIsAccountedFor | internal/teltonika/tcp/pipeline.go:37-88 | in every run a submitted job is in exactly one place: buffered, with a worker, processed or dropped; and the next event drops a job exactly when it is a submission that meets a full buffer |
| Pipeline.NoSubmitAfterClose | internal/teltonika/tcp/server.go:121-133 | in every run no session can submit once the sessions were waited for, so never to a closed channel |
| Pipeline.StopDrains | internal/teltonika/tcp/server.go:121-133 | when Stop has returned the buffer is empty, no worker holds a job, and every job was processed once or dropped |
| Pipeline.DrainEnds | internal/teltonika/tcp/pipeline.go:37-68 | once the channel is closed worker steps run out, and one is possible until all workers have ended |
| Pipeline.Server.SubmitPostAck | internal/teltonika/tcp/pipeline.go:49-61 | submission without blocking: nothing without a channel, queued below the limit, dropped at it |
| Pipeline.Server.StopPipeline | internal/teltonika/tcp/pipeline.go:37-45 | what is left in the channel is received in order, then the channel is gone |
| TextExtraction.ReadJSONStringValue | internal/parser/parser.go:160-198 | the scanner's value and index, or the empty value and -1, as the value grammar says |
| TextExtraction.ValuesAreExactlyRenderings | internal/parser/parser.go:160-198 | a value is read exactly from texts that are its characters and escapes followed by a quote and a brace |
| TextExtraction.EscapesStandFor | internal/parser/parser.go:169-185 | an escape in a value stands for the characters 8, 9, 10, 12 and 13 behind the letters b, t, n, f and r, and for the character itself behind any other |
| TextExtraction.StartsAreExactly | internal/parser/parser.go:56 | an object starts exactly at a brace, the quoted word data, a colon and a quote, with any of the characters 9, 10, 12, 13 and 32 around the colon only |
| TextExtraction.MatchesAreStarts | internal/parser/parser.go:122-133 | the non-overlapping matches from left to right are all the places where an object starts |
| TextExtraction.ExtractDataItems | internal/parser/parser.go:121-156 | items and invalid records are those of every object start, in order |
| TextExtraction.ExtractionRoundTrip | internal/parser/parser.go:121-156 | for objects printed between any texts in which no object starts: one item per non-empty value, one invalid record per empty one, in order |
| TextExtraction.EveryListComesBack | internal/parser/parser.go:121-230 | any list of strings has a printed form from which extraction returns exactly the non-empty ones in order, and one invalid record for each empty one |
| TextExtraction.BrokenObjectCostsOneInvalid | internal/parser/parser.go:135-145 | an object broken inside its value (cut off, cut off in an escape, or closed by a quote without a brace) costs one invalid record, of at most 512 characters from its start on, and leaves the objects behind it untouched |
| TextExtraction.ProcessDataItems | internal/parser/parser.go:201-230 | every item becomes exactly one record or one invalid record, in order |
| TextRepair.RepairIsCanonical | internal/parser/parser.go:90-96 | missing commas, empty objects after the first, a comma before the bracket, and trailing commas and dots are all rewritten to one canonical array |
| RepairLimits.ArraysAreLeftExactly | internal/parser/parser.go:90-96 | the repair leaves a text that ends in a bracket as it is exactly when it holds none of the three defects: a closing and an opening brace in a row, a comma and an empty object, a closing brace and a comma before a bracket |
| RepairLimits.RepairLeavesExactly | internal/parser/parser.go:90-96 | an array that is canonical already is left as it is exactly when no value of it holds one of these |
| StrictDecoding.StrictAgreesWithExtraction | internal/parser/parser.go:101-118 | on every array strict decoding accepts, extraction finds the same values with each escape of a code point left as its letters, the empty ones as invalid records |
| StrictDecoding.DecodersAgreeExactly | internal/parser/parser.go:101-118 | extraction finds what strict decoding finds exactly when no value has an escape of a code point |
| StrictDecoding.CodePointsDiffer | internal/parser/parser.go:182-184 | for every four hex digits: strict decoding of such an escape gives the character, extraction the letter u and the digits |
| StrictDecoding.SloppyArraysDecode | internal/parser/parser.go:101-118 | decoding any such rendering: all values in order with their escapes decoded when every value is a JSON string, and otherwise what extraction reads, the empty ones as invalid records |
| StrictDecoding.FormatErrorExactly | internal/parser/parser.go:101-120 | the decoder fails exactly when strict decoding does and no object starts anywhere in the repaired text |
| DateTime.CalendarIsTime | internal/parser/parser.go:317-334 | the order of calendar dates and clock times is the order of seconds |
| Calendar.TimesAreWrittenOut | internal/parser/teltonika.go:100 | the string of a time in the years 0 to 9999 has 19 characters, and read back by the rules of the Gregorian calendar, with leap years and months in closed form, it is that time |
| DateTime.StringOrderIsTimeOrder | internal/parser/parser.go:79-81 | for the years 0 to 9999 one date-time string is less than another exactly when its time is earlier |
| DateTime.OrderHoldsExactly | internal/parser/parser.go:79-81 | the strings of all times of a span are in the order of the times exactly when its years are: one year, years from -1 on with equally many digits, or two years before the year 0 of which the later has fewer digits |
| Paths.AcceptedPacketsAreDetected | internal/teltonika/codec/detect.go:18-33 | every accepted packet with records is detected as a binary packet |
| Paths.EmptyPacketsAreAccepted | internal/teltonika/codec/packet.go:41-68 | a packet without records is accepted under any codec id |
| Paths.FormatsAreExactly | internal/teltonika/codec/detect.go:17-33 | an envelope is known by the text {"_teltonika": in front, a packet by four zeros and the codec at byte 8, other text by an opening bracket or brace, and nothing else is recognised |
| Paths.TeltonikaRecordsToParsed | internal/parser/teltonika.go:64-112 | the loop maps each record in order, with the default offset of 12600 seconds for a configured zero; Paths.FieldsAreMapped says what a record becomes |
| Paths.FieldsAreMapped | internal/parser/teltonika.go:72-101 | field by field: coordinates and speed as decoded, ns and ew 0 exactly for a negative latitude and longitude, status 1 exactly for IO 239 with value 1, and the date-time of the signed timestamp |
| Paths.UnmarshalTeltonikaEnvelope | internal/parser/teltonika.go:32-50 | a sorted arrangement of the queued records, with missing IMEIs filled in |
| Paths.QueueKeeps | internal/parser/teltonika.go:32-50 | the queue drops the raw bytes of a record, fills in a missing IMEI, and keeps every other field |
| Paths.SendOverTCP | internal/teltonika/tcp/session.go:135-164 | what a worker gets for a packet over TCP, or nothing, or the end of the process |
| Paths.SendOverHTTP | internal/api/handler.go:224-243 | what a worker gets for an octet-stream body: a sorted list for a packet with records, the other parsers' result for their formats, or an error, which a recovered panic also is |
| Paths.PathsAgree | internal/parser/teltonika.go:32-112 | both paths give the workers the same records up to order, sorted, with the same sequence of date-times |
| Paths.PacketsReachTheWorkers | internal/parser/teltonika.go:20-101 | from the wire: a packet of any encoded records is detected and does not panic, and over TCP and over HTTP the workers get, sorted and each once, records with the encoded speed, signed coordinates and directions, status 1 exactly when the last IO entry with id 239 has value 1, the local date-time of the timestamp, the IMEI, and no raw bytes |
| Paths.SortedMeansByTime | internal/parser/parser.go:79-81 | records sorted by their strings are sorted by their times when all years have four digits |
| Paths.LateTimestampsTurnBack | internal/parser/teltonika.go:88-101 | two device timestamps one second apart, at the end of the year 9999, whose strings are in the wrong order |
| Paths.EarlyTimestampsTurnBack | internal/parser/teltonika.go:73 | two device timestamps with the top bit set, one second apart at the end of the year -2, whose strings are in the wrong order |
| Stream.SmallestIs | internal/queue/consumer.go:352-358 | the first k entries of a listing: members in order, at most k, anything left out comes later |
| Stream.MessagesAre | internal/queue/consumer.go:125-167 | the messages of a list of ids are the stored ones, in its order |
| Queue.StepKeepsTheLedger | internal/queue/consumer.go:125-381 | every step, interleaved anyhow, keeps the account of all messages |
| Queue.RunsKeepTheLedger | internal/queue/consumer.go:171-381 | in every reachable state each message is exactly one of unread, pending and gone, and gone only for trimming, a nil answer, a bad data field, or deliveries at a positive limit |
| Queue.NothingIsLostSilently | internal/queue/consumer.go:206-290 | a message the handler never accepted, with its data in place and its limit not reached, is unread, pending or trimmed; without a positive limit counts never remove it |
| Queue.CountsAreDeliveries | internal/queue/consumer.go:313-381 | in every run the count that is compared with the limit is the number of reads and claims that delivered the message |
| Queue.StepRecords | internal/queue/consumer.go:313-341 | a delivery makes a message pending from now on, a claim takes entries that are no longer stored off the list, and every other pending entry keeps its count and time |
| Redelivery.ScanFindsExactly | internal/queue/consumer.go:352-371 | a scan finds a message exactly when it is pending at its limit with fewer than 200 pending messages before it |
| Redelivery.ShortListsAreSeen | internal/queue/consumer.go:352-371 | with at most 200 pending messages a scan sees every message at its limit |
| Redelivery.DeliveriesAreBounded | internal/queue/consumer.go:313-381 | when the reclaimer's calls succeed and each scan sees every message at its limit, in particular with at most 200 pending, no message is delivered more often than the limit |
| Redelivery.StuckMessageLeaves | internal/queue/consumer.go:313-381 | in every run, whatever fails and however much is pending, a delivered message m is not pending once (m + 1) * (limit + 1) rounds of the reclaimer have succeeded, that is scan, drop and claim got through and the claim found the first pending message idle for a minute |
| Redelivery.FirstIsClaimed | internal/queue/consumer.go:319-326 | the first pending message is claimed when it is idle, whatever stands behind it, so no message starves behind the window that a claim looks at |
| Redelivery.ClaimTakesExactly | internal/queue/consumer.go:319-326 | a claim takes a message exactly when it is idle for a minute, fewer idle messages stand before it than the batch size and fewer pending ones than ten times that |
| Redelivery.HitsAreBounded | internal/queue/consumer.go:313-341 | when no scan misses a message at its limit, every claim that looks at a message and finds it idle uses up part of a bound that nothing raises |
| QueueRuns.TickPassesTheLimit | internal/queue/consumer.go:313-381 | a successful tick delivers a message at its limit once more exactly when 200 pending messages stand before it, it is idle, and behind the drop fewer idle messages than the batch size and fewer pending ones than ten times that stand before it |
| QueueRuns.LimitIsPassed | internal/queue/consumer.go:313-381 | with one delivery allowed, any batch size and any number of failed messages above 200, a run in which every call succeeds delivers message 200 twice |
| Consumer.BatchIsARun | internal/queue/consumer.go:171-204 | processing a batch is a run of the step machine with the same effect on the stream: any number of messages started before cancellation, finishing in any order |
| Consumer.Consumer.HandleMessage | internal/queue/consumer.go:206-269 | acknowledged for a nil answer or a missing or ill-typed data field; the worker count is restored |
| Consumer.Consumer.BatchAck | internal/queue/consumer.go:272-290 | once the pipeline reached the server no id of the list is pending, once it got through none is stored, and every other entry is as it was |
| Consumer.Consumer.ProcessBatchConcurrently | internal/queue/consumer.go:171-204 | for any order of completion the ids acknowledged are exactly those whose handling was done |
| Consumer.Consumer.DropExcessiveRetries | internal/queue/consumer.go:346-381 | drops exactly the scanned entries at their limit, and nothing without a positive limit |
| Consumer.Consumer.ClaimStaleMessages | internal/queue/consumer.go:313-341 | one reclaim tick: drop, claim, process and acknowledge |
| Consumer.Consumer.ProcessMessages | internal/queue/consumer.go:125-167 | one read of a worker: nothing for a failed read, pending with nobody to handle them for a lost reply, else processed and acknowledged |
| Handler.NilMeansAccepted | cmd/server/main.go:145-312 | a call that answered nil had a record accepted exactly when the record passed its filter and the payload could be marshalled |
| Handler.NilExactly | cmd/server/main.go:169-312 | a call answers nil exactly when its send succeeded, its payload could not be marshalled, or no record passed, in particular when the message does not parse or holds no records |
| Handler.StoppagesCanBeLost | cmd/server/main.go:180-312 | with the filter on and any limit on deliveries but one, a run in which every queue call succeeds removes a message for a nil answer while no destination accepted anything: its send failed once, and on redelivery its stoppage is redundant; with a limit of one the failed message is dropped at its limit |
| Handler.FilteredExactly | internal/filter/stoppage_filter.go:149-152 | a record is in the filter's output exactly when some occurrence of it is not a repeated stoppage in the memory it met |
| Handler.DeliveredExactly | cmd/server/main.go:145-312 | over any calls a record of a message is accepted exactly when some call on it answered nil, marshalled its payload, and let the record pass |
| Handler.EndToEnd | cmd/server/main.go:145-312 | over every run of the queue: a message removed for a nil answer was answered nil by a call that had a record accepted exactly when it passed and the payload could be marshalled; so every record with a speed, and with the filter off every record, is in an accepted payload |
| Handler.Handler.Handle | cmd/server/main.go:145-312 | one call: a message that does not parse or is empty is answered nil and dropped; else the filtered records are sent when there are any and they can be marshalled, the answer is nil unless a send failed, and the filter remembers the records even then |
| Filtering.StoppageFilter.FilterData | internal/filter/stoppage_filter.go:122-169 | the loop over 256 shards does what a filter over one map does, in output and in memory; Filtering.KeptExactly says what that is |
| Filtering.KeptExactly | internal/filter/stoppage_filter.go:139-158 | a record is left out exactly when it has speed zero and so had the record before it of the same device, or the memory without one |
| Filtering.AnySplitGivesTheSame | internal/filter/stoppage_filter.go:122-169 | any split into batches gives the same output in all |
| Filtering.DeviceOutput | internal/filter/stoppage_filter.go:122-169 | each device's output is its own records without repeated stoppages |
| Filtering.DevicesAreIndependent | internal/filter/stoppage_filter.go:122-169 | any interleavings of the same records per device give each device the same output |
| Filtering.MovementsAreKept | internal/filter/stoppage_filter.go:143-148 | the output is a subsequence that holds every record with a speed other than zero |
| Filtering.FilteringIsIdempotent | internal/filter/stoppage_filter.go:122-169 | filtering the output again removes nothing and leaves the same memory |
| Filtering.FilterIsTheWindowQuery | internal/storage/postgres.go:207-234 | from an empty memory each device's output is the rows of the LAG query over its records |
| Filtering.UnionIsRepresented | internal/filter/stoppage_filter.go:40-48 | shards hold what a map holds exactly when that map is their union |
| Filtering.StoppageFilter.SyncToRedis | internal/filter/stoppage_filter.go:177-220 | the stored copy gets the entries of all shards whose SET was applied, and keeps everything else |
| Filtering.StoppageFilter.LoadFromRedis | internal/filter/stoppage_filter.go:223-278 | each stored device that the scan listed, however far it came, is remembered as stored and every other as before; an empty filter and a complete scan remember what is stored |
| Filtering.RestartChangesNothing | internal/filter/stoppage_filter.go:177-278 | a filter saved, stopped and loaded between any sessions outputs what one that never stopped does |
| Filtering.PartialSaveExactly | internal/filter/stoppage_filter.go:177-278 | behind a save, partial or not and over any store, a device's output goes on as without a restart, whatever it sends, exactly when its entry was stored or the entry before meant the same |
| Filtering.NextSaveHeals | internal/filter/stoppage_filter.go:177-220 | a complete save behind a partial one stores what it would have stored alone |
| Rotation.RotationIsFair | internal/sender/load_balancer.go:24-35 | before the counter wraps, k consecutive picks take each index the floor or the ceiling of k / n times |
| Rotation.WrapKeepsTheOrder | internal/sender/load_balancer.go:33-34 | at the wrap the rotation continues in order exactly when n divides 2^64 |
| Sender.SearchIsComplete | internal/sender/http_sender.go:265-273 | undisturbed, the search finds the cyclically first open server exactly when one is open |
| Sender.SendReports | internal/sender/http_sender.go:140-263 | what each result says: server, attempt number (the tries made for a rate limit, all attempts when they are used up), last 429 or last target, and why the call ended; it is cancelled exactly behind a failed try, not the last one allowed, whose wait was cancelled |
| Sender.SendOutcome | internal/sender/http_sender.go:140-263 | at most the configured attempts; success exactly when the last was accepted; a failure without cancellation is the rate-limit error exactly when some attempt got 429 |
| Sender.PausesAreRespected | internal/sender/http_sender.go:190-291 | deadlines never move earlier, no paused server is chosen, and no server is tried again before its 429 delay has passed |
| Sender.DelayIsBounded | internal/sender/http_sender.go:357-371 | every wait between attempts is at least 0 and below 37.5 seconds, whatever the machine makes of an overflow, exactly when base * 2^(attempt - 1) can be converted to a duration |
| Sender.DelaysDouble | internal/sender/http_sender.go:357-371 | the first delay is the configured one, each next twice the one before; a wait is the delay cut to 30 seconds times one plus a quarter of the random value |
| Sender.CapHoldsExactly | internal/sender/http_sender.go:355-371 | every wait before an attempt keeps the cap of 30 seconds that the comment promises exactly when its delay can be converted and is at most 24 seconds without jitter, since jitter is added behind the cap |
| Sender.CapIsPassed | internal/sender/http_sender.go:355-371 | with a delay of 30 seconds any positive random value gives a wait above the cap and below 37.5 seconds |
| Sender.HTTPSender.NextServer | internal/sender/load_balancer.go:24-35 | the server the counter selects, and the counter advanced modulo 2^64; the empty name without servers |
| Sender.HTTPSender.PauseServer | internal/sender/http_sender.go:283-290 | the server is paused at every time before the new deadline and every time it was paused before; no deadline moves earlier and no other moves |
| Sender.HTTPSender.NextAvailableServer | internal/sender/http_sender.go:265-273 | at most one probe per server, with the shared counter and deadlines changed by others in between |
| Sender.HTTPSender.Send | internal/sender/http_sender.go:140-263 | the loop computes the specified result, attempts and shared state |
| Mirror.EveryJobEndsOnce | internal/hooshnics/forwarder.go:225-304 | when all workers have left, each job was delivered or spilled exactly once, except jobs that came later still |
| Mirror.PostsAreBounded | internal/hooshnics/forwarder.go:255-304 | at every point a job had at most five posts and 7.5 seconds of backoff, and was posted again only behind no answer, a 429, or a status outside 200 to 299 and 400 to 499 |
| Mirror.DeliveredExactly | internal/hooshnics/forwarder.go:261-268 | in every run the jobs delivered are exactly those with a post answered by a status of 200 to 299 |
| Mirror.BufferIsBounded | internal/hooshnics/forwarder.go:225-234 | in every run the buffer keeps its capacity, and a new job is spilled exactly when the buffer is full |
| Mirror.DrainEnds | internal/hooshnics/forwarder.go:236-253 | every worker step uses up a bounded amount of work |
| Mirror.SomeWorkerCanGoOn | internal/hooshnics/forwarder.go:236-253 | until all workers of a closed forwarder have left some worker can go on |
| MirrorForwarder.Forwarder.Enqueue | internal/hooshnics/forwarder.go:225-234 | a job goes into the buffer, or to disk when it is full, without blocking |
| MirrorForwarder.Forwarder.Deliver | internal/hooshnics/forwarder.go:255-304 | the delivery loop: its posts, its waits, and delivery of the job when accepted, else its spill |
| MirrorForwarder.DeliveryEnds | internal/hooshnics/forwarder.go:255-304 | a delivery goes on exactly behind no answer, a 429 or a status outside 200 to 299 and 400 to 499, below the fifth attempt and while no wait is cut; it waits 500, 1000, 2000 and 4000 milliseconds, and is accepted exactly when its last status is 200 to 299 |
| MirrorForwarder.DeliverIsARun | internal/hooshnics/forwarder.go:255-304 | a delivery is a run of the worker's steps with the same effect |
| Track.SimplifyRdp | web/src/views/PathMapView.vue:217-239 | the recursion with its inner loop computes the specified simplification |
| Track.SimplifyGuarantee | web/src/views/PathMapView.vue:217-239 | a selection with both ends; every point left out is within tolerance of the segment around it; every inner point kept is out of tolerance of some segment |
| Track.FilterByMinDistance | web/src/views/PathMapView.vue:164-180 | the gating loop computes the specified selection |
| Track.GateThins | web/src/views/PathMapView.vue:164-180 | gating is the one way to keep exactly the points at least five metres, or two for a point of speed zero, from the last one kept |
| Track.GatingIsIdempotent | web/src/views/PathMapView.vue:164-180 | gating twice is gating once |
| Track.SmoothedSelects | web/src/views/PathMapView.vue:241-245 | the cleaned track is a selection of the recorded points from the first on, and of the gated track with both ends, within six metres of every gated point left out and with every inner point needed |
| Track.SplitTrackByGaps | web/src/views/PathMapView.vue:247-290 | the loop computes the cut with segments of one point left out |
| Track.LongOnesExactly | web/src/views/PathMapView.vue:289 | segments of fewer than two points are left out, in order |
| Track.SplitIsTheCut | web/src/views/PathMapView.vue:247-290 | the segments before short ones are left out are the one cut with no gap inside a segment and one between neighbours |

## Left out

- The guard at internal/teltonika/codec/record.go:186 asks for 9 bytes, the fixed header at record.go:197 slices 24. The model has the slice's spare bytes and a panic where they run out; over HTTP and in a worker a panic is recovered, over TCP it ends the process, and what becomes of the other sessions, the buffer and the consumer of an ended process is not part of this model.
- Coordinates are the device's signed 32-bit integers; the division by ten million and the rounding to six places are floating point.
- The event IO id, the generation byte and the total IO count are skipped by the decoder and not claimed back.
- StrictDecoding uses a reference decoder that follows RFC 8259 for arrays of data objects; the white space JSON allows inside an object elsewhere than around the colon, other members of an object, and the library's tolerance of control characters are not part of it.
- Parsing of one text record (fields, NMEA coordinates, ignored number errors): a parameter of TextExtraction.ProcessDataItems.
- Paths.SendOverHTTP: the parsers of the other formats are a parameter.
- JSON encoding of parsed records is modelled as the identity except for the raw bytes, which are not serialized.
- The window query's date range, its handling of missing fields and its row limit.
- Consumer.Consumer.HandleMessage: the wait of up to 30 seconds behind a rate-limited message, which only passes time.
- Redis restarts and deletion of the stream or its group.
- Redelivery.DeliveriesAreBounded: assumes successful reclaim calls and scans that see every message at its limit; Redelivery.ScanFindsExactly says when a scan does, and QueueRuns.LimitIsPassed is a run in which one does not and the limit is passed.
- Delays between attempts are real numbers: their rounding to nanoseconds is not part of this model, their overflow is.
- Handler.Handler.Handle: describes a call with no other handler in between; Handler.NilMeansAccepted, Handler.DeliveredExactly and Handler.EndToEnd do not assume that.
- Expiry of stored filter entries, and other processes that write them between the pages of a scan.
- Sender.HTTPSender.Send: with MaxAttempts of 0 it makes no attempt, as the code does, although env.example:45 presents 0 as unlimited redelivery.
- The sender's limiter, the parsing of Retry-After (a missing or non-positive one counts as five seconds), and cancellation inside a request, which is a failed reply.
- A spill that cannot be written, spill file names, and the building of mirror requests.
- A job that the pipeline processes may still fail to be queued; the code logs this and goes on.
- Distances on the sphere and the rule for what is a gap are parameters of Track; its theorems hold for all of them.
- Metrics, logging, configuration, dashboards, tracking, storage writers and the load tester.
