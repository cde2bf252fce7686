# Verified models of the ilumo sensor stacks

The repository drives three kinds of sensors: Blickfeld LiDARs, a ZED stereo camera and a SenXor thermal
camera. Most of its code talks to devices. This project models the self-contained algorithms in between and
proves what they promise.

| files | what they model |
|---|---|
| `CodedStream`, `PointCloudData`, `PointCloudRecord`, `PointCloudStream`, `Replay` | recording a point cloud stream to a file and playing it back |
| `SimulatedConnection` | the connection that replays a recording in a loop |
| `Scanlines`, `FrameConversion`, `SimpleFrame`, `PackedFrames` | flat big-endian frames regrouped into scanlines, points and returns, and the simple frame |
| `DnsName`, `DnsDiscover` | the mDNS client: compressed names and the answer loop |
| `ScannerConnection` | requests, replies and events on one asynchronous connection |
| `PointCloud2` | packing a frame into the byte buffer of a ROS message |
| `UsbAck` | acknowledge frames on the thermal camera's serial port |
| `VideoCapture`, `SensorSync` | V4L2 buffer hand-over, frame timestamps, clock drift and offset |
| `Filters`, `StringUtils` | temporal filters, string splitting |

Each source object is a class whose methods are proved against functions on its state; the promises are
lemmas about those functions, over every input and every run. Threads are interleaved at the granularity
the source's mutexes give. `Bytes` holds octets, machine integers and byte orders.

Main results, hardest first:

- A reader of any recording behaves, under every sequence of `end_of_stream`, `recv_frame` and
  `jump_to_first_frame` calls, as a cursor over the recorded frames; header, footer and data offset come back
  (`Replay.RecordingRoundTrip`, and on the objects `Replay.RecordAndPlay`). The message codec is only asked to
  read back the messages of that recording, and for every recording there is one that does
  (`PointCloudData.LosslessCodecExists`).
- Both ways of converting a packed frame agree exactly when the announced return count is the array length
  and the returns of one point share their ambient value (`SimpleFrame.ConversionPathsAgree`); regrouping is
  faithful and canonical, and the canonical form is unique. A frame written from given values, most significant
  octets first, converts to those values in both forms (`PackedFrames.SimplePointsAre`, `PackedFrames.NestedRowsAre`).
- Within its reach, the DNS reader returns exactly the label list that section 4.1.4 of RFC 1035 assigns, and
  on any octets it finishes if and only if its chain of pointers ends within 320 hops.
- Every finished request ended with its own reply or its own error, in every interleaving with events; a caller
  can be served exactly while somebody reads and its reply is neither an event nor empty; only an error ends the
  reading, and nothing is answered after it.
- Every event goes to every callback registered for its kind by then, each invocation in its place
  (`ScannerConnection.EveryCallInItsPlace`).
- The looping replay pushes frame `k mod n` as its k-th frame and loses and reorders nothing.
- The thermal camera's reader reads a frame if and only if what precedes it is whole chunks other than the marker,
  and an image comes out with the pixels it was sent with.
- In every run of the two ZED threads the drift scale stays a number, within 20 % per adjustment, exactly while no
  full window lacks extent on both clocks; after an adjustment the report timestamps advance by what the host
  clock measured (`SensorSync.AdjustmentCorrectsTimestamps`); and a constant camera clock difference is gone from
  the third hand-shake on.
- Whoever reads a field of a return in a published point cloud finds that return's value, by the field's name.

## What the code does not do

Where the code misses what it is for, the model follows the code:

- Compression pointers are read by adding the two offset parts. The reader follows a pointer exactly when it
  points below 256 (`DnsName.FollowsPointerIff`); a service whose owner is compressed beyond that goes unreported
  (`DnsDiscover.FarServiceUnreported`).
- A datagram of 14 octets, whose only name points at itself, exhausts any stack (`DnsDiscover.SelfPointerCrashes`).
- The service test compares joined names, which means the same labels exactly when there are as many
  (`DnsDiscover.SameJoinedString`, `DnsDiscover.ServiceTest`): an owner of three labels can pass for the service
  of four, and a datagram with it is reported (`DnsDiscover.DottedServiceReported`).
- A request whose reply is an event, as a subscription's is, never returns once asynchronous reading has
  started, and keeps the request mutex (`ScannerConnection.ServedIffSettling`).
- An error reply ends the reading for good. A caller that waits gets it, if it runs the handler itself, and others
  can still send, but no later request is ever answered (`ScannerConnection.ErrorEndsReading`,
  `ScannerConnection.NothingAfterError`).
- Fields missing from a packed frame, and returns announced but not held by a nested one, leave the previous
  frame's values in the caller's simple frame (`SimpleFrame.StaleFields`).
- If the scanline count does not divide the point count, the last points get scanline ids that do not exist
  (`Scanlines.ScanlineIdsInRange`).
- Looping over a recording without frames throws in the dump thread
  (`SimulatedConnection.EmptyRecordingKillsDump`).
- An acknowledge frame is missed exactly when what precedes it is not whole chunks other than the marker
  (`UsbAck.ReadsFrameIffNoise`); one stray octet is enough (`UsbAck.StrayOctetHidesAnyFrame`).
- A full window with no extent on either clock makes the drift scale not-a-number, and nothing else does
  (`SensorSync.RunNaN`); frozen clocks are such a run (`SensorSync.FrozenClocks`).
- `direction` in the nested conversion is read from the cartesian array (point_cloud_stream.cpp:106-109): it is
  right exactly when the coordinates happen to hold it there (`FrameConversion.DirectionsFaithfulIff`,
  `FrameConversion.DirectionMistaken`).
- The size of the published buffer is a 32-bit product, large enough for the announced returns exactly when there
  are fewer than 2^27 (`PointCloud2.BufferSuffices`), and for the returns there are exactly when each has a record
  in it (`PointCloud2.FillInBoundsIff`).

## Model

| member | source | states |
|---|---|---|
| CodedStream.VarintRoundTrip | src/blickfeld/src/point_cloud_record.cpp:36-38 | reading a Base 128 varint gives back the number written and consumes exactly its octets, whatever follows |
| CodedStream.VarintForm | src/blickfeld/src/point_cloud_record.cpp:36-38 | what is written is the number in base 128, least significant septet first, marked and minimal as Base 128 Varints are |
| CodedStream.ReadLengthAt | src/blickfeld/src/point_cloud_stream.cpp:321-328 | reading the length of a record exposes exactly its payload up to the limit |
| CodedStream.ReadLengthAtEnd | src/blickfeld/src/point_cloud_stream.cpp:321-325 | at the end of the data a length read leaves a zero limit, again and again |
| PointCloudRecord.PointCloudRecord.Start | src/blickfeld/src/point_cloud_record.cpp:26-39 | appends the header record and touches nothing else |
| PointCloudRecord.PointCloudRecord.RecordData | src/blickfeld/src/point_cloud_record.cpp:41-60 | appends one record and keeps the footer equal to the summary of everything recorded |
| PointCloudRecord.PointCloudRecord.Finish | src/blickfeld/src/point_cloud_record.cpp:62-73 | writes one footer, the summary of everything recorded, however often it is called |
| PointCloudRecord.RecordSession | src/blickfeld/src/point_cloud_record.cpp:26-73 | a session writes header, records and one footer (none without finish) |
| PointCloudRecord.NothingSummarised | src/blickfeld/src/point_cloud_record.cpp:55-73 | without frames the footer has neither counters nor events |
| PointCloudRecord.CountersAreExact | src/blickfeld/src/point_cloud_record.cpp:55-59 | the counters are the number of frames and the sums of points and returns exactly while those fit 64 bits |
| PointCloudRecord.FooterRecoversPatterns | src/blickfeld/src/point_cloud_record.cpp:46-53 | with increasing frame ids the last event at or before an id gives that frame's scan pattern |
| PointCloudRecord.ConsecutiveEventsDiffer | src/blickfeld/src/point_cloud_record.cpp:46-53 | no event repeats the pattern already in force |
| PointCloudStream.PointCloudStream.OpenFile | src/blickfeld/src/point_cloud_stream.cpp:158-202 | restores header, footer and data offset as Open says, or fails exactly when the header does not parse |
| PointCloudStream.PointCloudStream.StreamInitAndSkip | src/blickfeld/src/point_cloud_stream.cpp:205-216 | whatever the stream did before, it now has no limit and exposes exactly the file from the offset on, or nothing past its end |
| PointCloudStream.PointCloudStream.ReadNext | src/blickfeld/src/point_cloud_stream.cpp:320-334 | reads one record ahead, or marks nothing buffered at a zero limit |
| PointCloudStream.PointCloudStream.EndOfStream | src/blickfeld/src/point_cloud_stream.cpp:299-308 | reads ahead if nothing is buffered; ended when nothing could be or a footer was |
| PointCloudStream.PointCloudStream.RecvFrame | src/blickfeld/src/point_cloud_stream.cpp:240-266 | hands out the buffered frame converted into the caller's object and drops the buffer, or throws at the end |
| PointCloudStream.PointCloudStream.JumpToFirstFrame | src/blickfeld/src/point_cloud_stream.cpp:311-317 | rewinds to the data and reads the first record ahead |
| PointCloudStream.ScanFindsLastRecord | src/blickfeld/src/point_cloud_stream.cpp:177-189 | the forward scan finds the last record before the first empty one |
| PointCloudStream.OpenRecording | src/blickfeld/src/point_cloud_stream.cpp:158-202 | opening any list of records restores the header, stops just past it and takes the footer from that record |
| Replay.StepSimulates | src/blickfeld/src/point_cloud_stream.cpp:240-334 | one reader call answers as one call on the list cursor and keeps representing its position |
| Replay.ReplaysAnyRecording | src/blickfeld/src/point_cloud_stream.cpp:158-334 | for any list of records and any sequence of calls, the reader is a cursor over the frames before the first empty or footer record |
| Replay.RecordingRoundTrip | src/blickfeld/src/point_cloud_stream.cpp:158-334 | exactly the recorded frames come back, in order, under every call sequence, with the footer or without it |
| Replay.PlainReplay | src/blickfeld/src/point_cloud_stream.cpp:240-308 | without jumps each frame is yielded once, in order, and after that the end is reached for good |
| Replay.JumpStartsOver | src/blickfeld/src/point_cloud_stream.cpp:311-317 | after any calls a jump starts over with the first frame, and the end is reached exactly when as many have been read as there are |
| Replay.RecordAndPlay | src/blickfeld/src/point_cloud_record.cpp:26-73 | recorder and reader objects back to back satisfy the round trip |
| SimulatedConnection.SimulatedConnection.Send | src/blickfeld/src/simulated_connection.cpp:46-108 | queues the one reply and starts the dump thread on a point cloud subscription |
| SimulatedConnection.OneReplyEach | src/blickfeld/src/simulated_connection.cpp:46-108 | which reply each kind of request gets, and that only a point cloud subscription starts the thread |
| SimulatedConnection.HeadersShowDevice | src/blickfeld/src/simulated_connection.cpp:66-66 | in every run the header events carry the device of the recording |
| SimulatedConnection.SimulatedConnection.Recv | src/blickfeld/src/simulated_connection.cpp:35-44 | delivers the oldest buffered response |
| SimulatedConnection.SimulatedConnection.DumpOnce | src/blickfeld/src/simulated_connection.cpp:75-99 | one iteration of the dump thread |
| SimulatedConnection.DumpStep | src/blickfeld/src/simulated_connection.cpp:75-99 | one iteration pushes the next frame, rewinding after the last when looping and stopping otherwise |
| SimulatedConnection.ReplaysForEver | src/blickfeld/src/simulated_connection.cpp:35-108 | in every interleaving the k-th frame pushed is frame k mod n processed, the header comes first, and delivered plus buffered is everything pushed in order |
| SimulatedConnection.StartsReplaying | src/blickfeld/src/simulated_connection.cpp:19-28 | a freshly opened recording with frames satisfies the invariant of that theorem |
| SimulatedConnection.EmptyRecordingKillsDump | src/blickfeld/src/simulated_connection.cpp:76-85 | the first looping iteration throws exactly when the recording has no frame |
| Scanlines.ScanlineBlock | src/blickfeld/src/utils.cpp:132-139 | a scanline covers exactly one contiguous block of point ids |
| Scanlines.ScanlineMonotone | src/blickfeld/src/utils.cpp:137-139 | larger point ids have no smaller scanline ids |
| Scanlines.ScanlineIdsInRange | src/blickfeld/src/utils.cpp:115-139 | every point's scanline exists exactly when the scanline count divides the point count |
| Scanlines.HasScanlineIdsExactly | src/blickfeld/src/utils.cpp:132-139 | neither division is by zero exactly when there are between one and as many scanlines as points |
| Scanlines.PhasesAddUp | src/blickfeld/src/utils.cpp:122-129 | the up and down phase of separate frames together have the scanlines of a combined frame, and each those of a one-way frame |
| Scanlines.WithoutPattern | src/blickfeld/src/utils.cpp:116-120 | a frame without a scan pattern has the scanlines it holds, or -1 |
| FrameConversion.ConvertToNested | src/blickfeld/src/point_cloud_stream.cpp:79-138 | the added scanlines flatten to the packed returns in order, each under the point data of the first return of its run, and are grouped canonically; without point ids there is one point with all returns |
| PackedFrames.NestedRowsAre | src/blickfeld/src/point_cloud_stream.cpp:92-133 | each return has the values its octets were written from, under a point with those of the first of its run, in the scanline whose block holds the point id |
| PackedFrames.NestedReturnsAre | src/blickfeld/src/point_cloud_stream.cpp:87-133 | without point ids the returns, with their values, hang under one point |
| FrameConversion.AddRowFlatten | src/blickfeld/src/point_cloud_stream.cpp:97-119 | adding one return keeps the grouping canonical and appends exactly one row |
| FrameConversion.CanonicalIsUnique | src/blickfeld/src/point_cloud_stream.cpp:92-133 | a canonical grouping is determined by its rows |
| FrameConversion.DirectionsFaithfulIff | src/blickfeld/src/point_cloud_stream.cpp:106-109 | regrouped points have the directions of the frame exactly when the coordinates hold them at those words |
| FrameConversion.DirectionMistaken | src/blickfeld/src/point_cloud_stream.cpp:106-109 | a frame for which they do not |
| SimpleFrame.ConvertToSimple | src/blickfeld/src/point_cloud_stream.cpp:32-77 | fills the simple frame in place, from the packed arrays or from the flattened scanlines, keeping what is not written |
| PackedFrames.SimplePointsAre | src/blickfeld/src/point_cloud_stream.cpp:32-56 | each point has the values its octets were written from, intensity and ambient light cut to 16 bits; unset fields leave what was there |
| SimpleFrame.RowPosition | src/blickfeld/src/point_cloud_stream.cpp:58-75 | the running index of the nested loops is the return's place in the flat order |
| SimpleFrame.ConversionPathsAgree | src/blickfeld/src/point_cloud_stream.cpp:32-138 | converting directly or through the nested form gives the same points exactly when the counts agree and the returns of a point share their ambient value |
| SimpleFrame.StaleFields | src/blickfeld/src/point_cloud_stream.cpp:38-76 | the result is independent of the frame object's old contents exactly when all converted fields are present or there is no point, or, without packed data, when as many returns are held as announced |
| SimpleFrame.GroupsOrdered | src/blickfeld/src/point_cloud_stream.cpp:97-104 | neighbouring groups of ordered input are strictly ordered |
| SimpleFrame.ScanlinesIncrease | src/blickfeld/src/point_cloud_stream.cpp:97-101 | non-decreasing point ids give strictly increasing scanline ids |
| SimpleFrame.PointsIncrease | src/blickfeld/src/point_cloud_stream.cpp:102-104 | and strictly increasing point ids within each scanline |
| DnsName.SafeBuffer.Read | src/blickfeld/src/discover_impl.hpp:71-82 | reads at the cursor and advances, or throws and stays when the buffer is too short |
| DnsName.SafeBuffer.Skip | src/blickfeld/src/discover_impl.hpp:91-95 | advances, or throws and stays |
| DnsName.SafeBuffer.ReadNameAt | src/blickfeld/src/discover_impl.hpp:122-144 | the loop with its recursion computes CodeName, on any buffer and any stack size |
| DnsName.NameDecoding | src/blickfeld/src/discover_impl.hpp:122-144 | with proper pointers reading finishes, and returns labels and end position exactly when the octets denote them per section 4.1.4 of RFC 1035 |
| DnsName.NameRoundTrip | src/blickfeld/src/discover_impl.hpp:122-144 | names written with any reachable compression decode to their labels and leave the cursor just past them |
| DnsName.FollowsPointerIff | src/blickfeld/src/discover_impl.hpp:129-132 | a name that ends in a pointer is taken from where the RFC says, on every buffer, exactly when that is below 256 |
| DnsDiscover.FarServiceUnreported | src/blickfeld/src/discover_impl.hpp:129-132 | a datagram of at most 512 octets with a Blickfeld service whose owner is compressed to offset 256 is not reported |
| DnsName.FinishesWithin320 | src/blickfeld/src/discover_impl.hpp:122-144 | on any octets reading finishes for some stack size exactly when the chain of pointers ends within 320 hops |
| DnsName.SelfPointerOverflows | src/blickfeld/src/discover_impl.hpp:129-132 | a name pointing at itself, in any buffer, overflows every stack |
| DnsDiscover.SelfPointerCrashes | src/blickfeld/src/discover_impl.hpp:192-207 | a 14-octet datagram makes the handler overflow every stack |
| DnsDiscover.ConcatName | src/blickfeld/src/discover_impl.hpp:241-247 | joins labels with dots by the left fold |
| DnsDiscover.JoinedIsDotted | src/blickfeld/src/discover_impl.hpp:241-247 | which is the labels with full stops between them |
| DnsDiscover.SameJoinedString | src/blickfeld/src/discover_impl.hpp:219-219 | equal joined strings mean equal label lists exactly when there are as many labels |
| DnsDiscover.ServiceTest | src/blickfeld/src/discover_impl.hpp:217-219 | so the service test is label-list equality exactly for owners with as many labels as the service |
| DnsDiscover.DottedLabelsCollide | src/blickfeld/src/discover_impl.hpp:219-219 | a dotted label joins to the same string as two labels |
| DnsDiscover.DottedServiceReported | src/blickfeld/src/discover_impl.hpp:213-232 | a datagram whose owner has one label less than a Blickfeld service is reported as one |
| DnsDiscover.Discover.Recv | src/blickfeld/src/discover_impl.hpp:192-236 | one datagram adds one result exactly when nothing threw and the service matched |
| DnsDiscover.Discover.ReadMessage | src/blickfeld/src/discover_impl.hpp:196-230 | the answer loop computes CodeMessage |
| DnsDiscover.Discover.ReadRData | src/blickfeld/src/discover_impl.hpp:209-229 | the branch per record type, including where it throws |
| DnsDiscover.RecordInStep | src/blickfeld/src/discover_impl.hpp:203-230 | a well-formed record is read to exactly its end with exactly its effect |
| DnsDiscover.CursorAtNextRecord | src/blickfeld/src/discover_impl.hpp:202-230 | after every iteration the cursor is where the remaining records begin |
| DnsDiscover.MessageResult | src/blickfeld/src/discover_impl.hpp:195-234 | the result holds the last SRV port and host, the last named service and the last addresses; every Blickfeld service is reported, and what is reported is one exactly when the owner has as many labels |
| ScannerConnection.ScannerConnection.ParseResponse | src/blickfeld/src/scanner_connection.cpp:168-191 | errors throw, events go to every callback of their kind in order, anything else goes to the slot |
| ScannerConnection.ScannerConnection.Subscribe | src/blickfeld/src/scanner_connection.cpp:193-195 | appends the callback to its kind |
| ScannerConnection.ScannerConnection.TakeReceived | src/blickfeld/src/scanner_connection.cpp:110-121 | takes a set slot and clears it |
| ScannerConnection.RunsCorrelated | src/blickfeld/src/scanner_connection.cpp:109-121 | in every interleaving, whoever runs the read handlers, at most one request is outstanding and all finished ones ended with their own reply or their own error |
| ScannerConnection.SlotEmptyWhenSending | src/blickfeld/src/connection.cpp:16-22 | the slot is empty, and no reply can still reach it, whenever a request is sent |
| ScannerConnection.CallersGetTheirReplies | src/blickfeld/src/connection.cpp:16-35 | each caller gets the reply to its own request, or the error thrown for it, never an event |
| ScannerConnection.ErrorEndsReading | src/blickfeld/src/scanner_connection.cpp:175-178 | an error ends reading: the waiting caller that reads it gets it and frees the mutex, in the background it reaches nobody, and nothing is answered afterwards |
| ScannerConnection.NothingAfterError | src/blickfeld/src/scanner_connection.cpp:199-217 | in every run no request after one answered by an error finishes |
| ScannerConnection.OnlyErrorsEndReading | src/blickfeld/src/scanner_connection.cpp:199-217 | in every run, whatever the replies, reading stops only after an error reply |
| ScannerConnection.ServedIffSettling | src/blickfeld/src/scanner_connection.cpp:109-121 | a waiting caller can finish, with the reply, exactly when somebody still reads and the reply is neither an event nor unset; otherwise nobody ever sends again |
| ScannerConnection.EventsReachCallbacks | src/blickfeld/src/scanner_connection.cpp:181-195 | each event goes once, in order, to every callback registered for it by then |
| ScannerConnection.EveryEventDelivered | src/blickfeld/src/scanner_connection.cpp:181-195 | in every run the callback invocations are exactly the deliveries of the events read so far, a prefix of those emitted |
| ScannerConnection.EveryCallInItsPlace | src/blickfeld/src/scanner_connection.cpp:181-195 | in every run each event was passed once to each callback registered for its kind by then, in order of events and registrations, and nothing else was called |
| ScannerConnection.ListeningAt | src/blickfeld/src/scanner_connection.cpp:193-195 | the callbacks for an event are those registered for its kind, in order of registration |
| PointCloud2.Message.AddPointCloudField | src/ilumo_sensors/src/lidar_publisher.cpp:12-24 | offsets stay the prefix sums of the field sizes |
| PointCloud2.Message.GetFieldIndex | src/ilumo_sensors/src/lidar_publisher.cpp:26-34 | the first field of that name, or -1 exactly when there is none |
| PointCloud2.Message.MakePointCloudMessage | src/ilumo_sensors/src/lidar_publisher.cpp:47-74 | eight fields of four octets with names, offsets and types as listed |
| PointCloud2.Message.AssignField | src/ilumo_sensors/src/lidar_publisher.cpp:36-45 | writes one value at its point's record and its field's offset |
| PointCloud2.Message.AssignFields | src/ilumo_sensors/src/lidar_publisher.cpp:335-343 | one return is written by field name, in the order of the fields |
| PointCloud2.Message.Fill | src/ilumo_sensors/src/lidar_publisher.cpp:308-349 | leaves the buffer, of the size the 32-bit product gives, as all writes of all returns make it |
| PointCloud2.Message.Publish | src/ilumo_sensors/src/lidar_publisher.cpp:308-349 | whatever the message held before, a reader finds each return's coordinates, intensity, ambient light, time offset and ids at their offsets in the record at the return's position |
| PointCloud2.PublishAll | src/ilumo_sensors/src/lidar_publisher.cpp:47-74 | so does every message of a sequence of frames published from one layout |
| PointCloud2.BufferSuffices | src/ilumo_sensors/src/lidar_publisher.cpp:310-311 | the buffer has room for the announced returns exactly when there are fewer than 2^27 |
| PointCloud2.FieldsDisjoint | src/ilumo_sensors/src/lidar_publisher.cpp:12-24 | fields occupy disjoint ordered ranges inside the record |
| PointCloud2.WritesInBounds | src/ilumo_sensors/src/lidar_publisher.cpp:321-349 | every write stays in the buffer exactly when no value reaches past its record |
| PointCloud2.SourceWritesFitIff | src/ilumo_sensors/src/lidar_publisher.cpp:321-349 | a buffer of any size takes all writes exactly when it has a record for every return |
| PointCloud2.FillInBoundsIff | src/ilumo_sensors/src/lidar_publisher.cpp:308-349 | the source writes inside the buffer it resized exactly when the returns fit the 32-bit product |
| PointCloud2.WriteSurvives | src/ilumo_sensors/src/lidar_publisher.cpp:36-45 | what a write put down stays as far as no later write begins |
| PointCloud2.FieldsHoldValues | src/ilumo_sensors/src/lidar_publisher.cpp:321-349 | the four octets of every field of every return read as that return's value modulo 2^32, also past wider writes |
| PointCloud2.LittleEndianReads | src/ilumo_sensors/src/lidar_publisher.cpp:36-45 | what is stored reads back, least significant octet first |
| PointCloud2.SourceFieldsHoldValues | src/ilumo_sensors/src/lidar_publisher.cpp:336-343 | so with the types the source writes |
| PointCloud2.ValuesAtPosition | src/ilumo_sensors/src/lidar_publisher.cpp:321-347 | a return is packed at the number of returns before it |
| UsbAck.Cksum | src/senxor/senxor/interfaces.py:15-21 | adds the octet sum to the initial value |
| UsbAck.UsbGetAck | src/senxor/senxor/interfaces.py:267-321 | resynchronises chunk by chunk and reads one message, as GetAck says, on any input |
| UsbAck.UsbAcknowledge | src/senxor/senxor/interfaces.py:226-239 | returns only an accepted frame, and the first one when it is accepted, parsed |
| UsbAck.GetsNextFrame | src/senxor/senxor/interfaces.py:267-321 | aligned noise and one frame give that frame and stop at its end |
| UsbAck.ReadMessage | src/senxor/senxor/interfaces.py:289-321 | a message of the right shape is accepted exactly when its last four digits show the octet sum of everything between marker and checksum |
| UsbAck.WregFrameAccepted | src/senxor/senxor/interfaces.py:267-321 | the frame with the text "   #0008WREG01FD" is |
| UsbAck.HexRoundTrip | src/senxor/senxor/interfaces.py:293-293 | a field's value is the number whose hexadecimal digits it shows |
| UsbAck.GetsAllFrames | src/senxor/senxor/interfaces.py:267-321 | successive calls return all commands and data in order, each stopping on a frame boundary |
| UsbAck.FindsMarkerIffNoise | src/senxor/senxor/interfaces.py:277-287 | the marker is found exactly when what precedes it is whole chunks other than the marker |
| UsbAck.ReadsFrameIffNoise | src/senxor/senxor/interfaces.py:267-321 | and so is the frame read, with any data and any continuation |
| UsbAck.StrayOctetHidesAnyFrame | src/senxor/senxor/interfaces.py:277-287 | one stray octet before any frame makes the reader miss it |
| UsbAck.PixelsRoundTrip | src/senxor/senxor/interfaces.py:262-265 | pixels sent low octet first are read back |
| UsbAck.ImageArrives | src/senxor/senxor/interfaces.py:241-321 | a frame acknowledge after aligned noise yields the pixels it was made from |
| UsbAck.RegisterArrives | src/senxor/senxor/interfaces.py:241-321 | a register acknowledge yields the value of its four hexadecimal digits |
| UsbAck.WriteParses | src/senxor/senxor/interfaces.py:253-255 | a register write is acknowledged without data |
| UsbAck.ErrorParses | src/senxor/senxor/interfaces.py:259-261 | an error report is its text |
| UsbAck.UnknownParses | src/senxor/senxor/interfaces.py:252-265 | any other command is no answer |
| UsbAck.DamagedFrame | src/senxor/senxor/interfaces.py:297-321 | a payload replaced by one of equal length is accepted exactly when the octet sums agree modulo 2^16 |
| UsbAck.SingleOctetRejected | src/senxor/senxor/interfaces.py:297-321 | replacing any single octet of command or data makes the frame rejected |
| VideoCapture.Capture.StartCapture | src/zed_open_capture/src/videocapture.cpp:601-622 | queues every buffer with the driver |
| VideoCapture.Capture.GrabOnce | src/zed_open_capture/src/videocapture.cpp:790-887 | one turn publishes a whole mapped frame from the buffer just taken and ends with all buffers queued, whatever the driver did |
| VideoCapture.GrabThread | src/zed_open_capture/src/videocapture.cpp:760-891 | over every run all buffers are queued at each turn, data is copied only from an application-owned buffer, and exactly the whole mapped frames are published |
| VideoCapture.ExpectedAt | src/zed_open_capture/src/videocapture.cpp:803-831 | the k-th published frame is the k-th whole mapped one, timed against the first whole one |
| VideoCapture.TimestampsNonDecreasing | src/zed_open_capture/src/videocapture.cpp:803-831 | published timestamps do not go back if the driver's do not |
| VideoCapture.TimestampValue | src/zed_open_capture/src/videocapture.cpp:803-831 | a frame's timestamp is the start time plus the nanoseconds since the first frame |
| SensorSync.SensorCapture.Grab | src/zed_open_capture/src/sensorcapture.cpp:373-455 | timestamp, queues and drift scale of one report |
| SensorSync.ScaledTimestamps | src/zed_open_capture/src/sensorcapture.cpp:384-397 | while the scale is constant two report timestamps differ by the scale times the MCU difference, up to one unit per report |
| SensorSync.AdjustmentCorrectsTimestamps | src/zed_open_capture/src/sensorcapture.cpp:394-433 | after an adjustment a raw span that the host clock measured advances the timestamps by that measure, up to rounding |
| SensorSync.SyncCondition | src/zed_open_capture/src/sensorcapture.cpp:400-402 | in every run which reports belong to a camera frame |
| SensorSync.FirstValidReportSetsStart | src/zed_open_capture/src/sensorcapture.cpp:375-383 | the first valid report sets the start time to the wall clock |
| SensorSync.SensorCapture.UpdateTimestampOffset | src/zed_open_capture/src/sensorcapture.cpp:563-582 | accumulates a difference and applies the truncated mean of three |
| SensorSync.RatioInBounds | src/zed_open_capture/src/sensorcapture.cpp:424-430 | the clamped ratio lies in 0.8 to 1.2, or is not a number exactly when both spans are zero |
| SensorSync.RatioExactly | src/zed_open_capture/src/sensorcapture.cpp:428-431 | the ratio between the bounds, and the bound it passes otherwise |
| SensorSync.AdjustmentMatchesClocks | src/zed_open_capture/src/sensorcapture.cpp:424-433 | within the clamp, the adjusted scale makes the sensor clock cover what the host clock covered |
| SensorSync.RunNaN | src/zed_open_capture/src/sensorcapture.cpp:412-440 | in every run the scale is not a number exactly when some full window had no extent on either clock |
| SensorSync.FrozenClocks | src/zed_open_capture/src/sensorcapture.cpp:424-433 | frozen clocks are such a run |
| SensorSync.DriftEstimator | src/zed_open_capture/src/sensorcapture.cpp:412-440 | in every run the queues are equally long, adjustments count full windows, and without a window of no extent the scale is a number within 0.8^k and 1.2^k |
| SensorSync.TimestampsNonDecreasing | src/zed_open_capture/src/sensorcapture.cpp:386-397 | report timestamps do not go back while start time and offset stay and the MCU clock does not go back |
| SensorSync.OffsetStep | src/zed_open_capture/src/sensorcapture.cpp:563-582 | only hand-shakes change the offset state, each by its own difference |
| SensorSync.ObservedDifference | src/zed_open_capture/src/sensorcapture.cpp:442-450 | a hand-shake sees the clock difference less the offset already applied |
| SensorSync.RunObserves | src/zed_open_capture/src/sensorcapture.cpp:563-582 | the offset in a run of both threads is what the differences seen by its hand-shakes make it |
| SensorSync.RunTracksDifferences | src/zed_open_capture/src/sensorcapture.cpp:563-582 | in every run the offset changes on every third hand-shake only, and after 3m of them three times the offset is within 2m of the summed differences |
| SensorSync.RunRemovesDifference | src/zed_open_capture/src/videocapture.cpp:839-845 | in every run whose hand-shakes follow a full window and see a constant clock difference, that difference is the offset from the third hand-shake on |
| Filters.TrueAverageFilter.Update | src/senxor/senxor/utils.py:301-308 | returns the pixel-wise mean of the last depth frames, or of all there are |
| Filters.MeanTimesCount | src/senxor/senxor/utils.py:304-305 | the number of frames times the mean is their sum, pixel by pixel |
| Filters.RingStep | src/senxor/senxor/utils.py:301-308 | one update keeps the buffer a rotation of the recent history |
| Filters.RingSum | src/senxor/senxor/utils.py:304-305 | summing the buffer is summing the recent history |
| Filters.RollingAverageFilter.Update | src/senxor/senxor/utils.py:333-347 | the exact mean of the first N inputs, then a fixed combination of all inputs |
| Filters.RollingWeightsConvex | src/senxor/senxor/utils.py:333-340 | its weights are non-negative and sum to one |
| Filters.RollingInRange | src/senxor/senxor/utils.py:333-347 | so it stays in the range of its inputs |
| Filters.FibonacciAverageFilter.Call | src/senxor/senxor/utils.py:373-381 | the result lies between the least and the greatest of the initial value and all inputs |
| Filters.FibWeightsConvex | src/senxor/senxor/utils.py:366-371 | the normalised weights are non-negative and sum to one |
| Filters.FibWeightAt | src/senxor/senxor/utils.py:366-371 | the i-th weight is in proportion to the i-th number of the slice, and later frames weigh no less |
| Filters.FibIsFibonacci | src/senxor/senxor/utils.py:352-352 | from 1 and 2 on each number is the sum of the two before it |
| StringUtils.SplitString | src/blickfeld/src/string_utils.cpp:37-56 | terminates, joins back to the input less at most one trailing separator, leaves no separator in a piece but a limit's remainder, and respects the limit |
| StringUtils.JoinSplit | src/blickfeld/src/string_utils.cpp:37-56 | joining restores the text, less one separator exactly when one was dropped at the end |
| StringUtils.DroppedOrWhole | src/blickfeld/src/string_utils.cpp:37-56 | a trailing separator is dropped or the pieces join to the whole text, never with an empty piece at the end unless a limit leaves it |
| StringUtils.PiecesAreFree | src/blickfeld/src/string_utils.cpp:40-54 | no piece except a limit's remainder contains the separator |

## Left out

- Sockets, TLS, timers, asio internals, ROS publishers, HID and ioctl calls, and image processing: foreign code.
- gzip is the identity, and protobuf field encoding is any codec that reads back the recording's messages and writes nothing for a message with no field set.
- Recordings of 2 GiB or more: positions and limits in the coded stream are C++ `int`s.
- A reader that threw on a corrupt record: its state afterwards is not specified.
- `SimulatedConnection`: spurious wake-ups, a second point cloud subscription and the sleeping between frames.
- `ScannerConnection`: registering a callback is one atomic step; the source does not lock the callback table.
- `ScannerConnection`: the synchronous branch of `recv`, before asynchronous reading has started.
- A packed frame whose arrays are shorter than announced, or a division by zero points per scanline: undefined in the source.
- Scanline ids of 2^31 and more, which do not fit the `int` the source passes them in.
- DNS: the question section and the query that `send` writes.
- Reading the published `time_offset` field: it is declared as a float but holds the low half of an integer, and the model says only what the octets are.
- UsbAck.UsbGetAck: reads that time out in mid-stream and return fewer octets, which shift the chunk alignment; octets are missing only at the end of the input.
- `UsbAck`: how `int(text, 16)` treats text that is not four hexadecimal digits, and decoding beyond ASCII.
- Nested frames that hold more returns than they announce: the simple conversion and the publisher then write
  outside their buffers.
- Retries inside `xioctl`, and drivers that deliver a buffer they do not hold or refuse one they were given back.
- The sensor values other than timestamps, and the periodic ping.
- Converting the frame rate from `double` to `float` is a parameter of the simple conversion.
- Floating-point rounding: scales and averages are exact reals, with not-a-number kept apart.
- Filters with a depth or window below one, and Fibonacci weights without a positive total: the source divides by zero or indexes nothing.
- `split_string` with an empty separator, no limit and a non-empty input: the source does not terminate.
