# The NetBridge transport, modelled in Dafny

`swarm_ros_bridge` carries ROS topics and services between robots over Zenoh. This project
models its transport and codec layer and proves what the layer promises. `dafny verify
dfyconfig.toml` checks everything.

| file | what it models |
|---|---|
| `Envelope.dfy`, `KeySpace.dfy` | the `NBZ1` wire envelope; ROS-name normalisation and the keys built from it |
| `PointLayout.dfy`, `Sidecar.dfy`, `PointSlots.dfy`, `PointCloudCodec.dfy`, `CloudRoundTrip.dfy`, `PointBytes.dfy` | the layout-preserving point-cloud codec: which bytes are encoded, the side bytes, the scattering of a permuted point set, the round trip, and what is read and written in bytes of the message |
| `Executor.dfy`, `ServiceQueue.dfy` | the bounded worker pool as atomic steps; one reply per remote service query |
| `ServiceCall.dfy` | a service call from the client's request to its outcome |
| `Receiver.dfy` | the receive pipeline of one topic: validation, bounded queue, worker |
| `Routing.dfy` | the publishers and subscriptions every host builds from the same rules, and who hears what |
| `RateLimiter.dfy`, `SlidingWindow.dfy`, `JpegQuality.dfy`, `TopicMetrics.dfy`, `FrameSequence.dfy` | the control and metrics loops |
| `Presence.dfy` | host presence and reconnect counting |
| `Common.dfy`, `Arithmetic.dfy`, `Subsequences.dfy` | shared types and facts |

## How the model is built

Objects the program updates in place are classes. Each method is proved to make one step of a
specification, a function of the old state or of the whole history of calls, and the properties
are proved about that specification: as an invariant of every step, over every run, or for every
history. Concurrent code is a state machine whose steps are the critical sections, atomic
exchanges, task bodies and wake-ups of the program; runs interleave them freely.

- Draco is a pair of functions. It is assumed to return a list of points numbered in order, as
  `Encode` submits them, in some order, with index and colour exact and the position mapped by an
  arbitrary quantiser on 32-bit patterns (`PointCloudCodec.Faithful`). `Decode` takes one
  precondition from this: a cloud whose layout has no colour does not come back with a colour
  attribute, which the program would write through a null field.
- Sending a reply or an error to a query either goes out or throws a `std::exception`, and then
  nothing has gone out.
- A Zenoh subscription hears a key when its chunks match one by one, `*` matching any one chunk.
- Clocks, thread schedules, exceptions of called code, `std::stoi` and `std::to_string` are
  parameters. Times are integer nanoseconds; rates and bandwidths are exact reals.
- Counters and memory are unbounded. Widths that decide behaviour are explicit: the fields of the
  wire format, two's complement timestamps, 32-bit words of either endianness, the 64-bit service
  sequence number.

## What the model shows about the code

- A query that reaches a live transport can go without any reply. That happens exactly when an
  exception leaves its task, which the worker's catch-all swallows: the handler throws something
  other than a `std::exception`, or the error sent from the catch clause cannot be sent either; or
  when a query refused in the callback itself cannot be sent its error
  (`ServiceQueue.OneReplyBeforeClose`). Each way has its run (`ServiceQueue.UnansweredQuery`,
  `ServiceQueue.UnansweredRefusal`).
- An error reply with an empty text makes `Query` succeed with a default envelope, the only success
  without a decoded reply; `call` then refuses it (`ServiceCall.EmptyErrorReply`).
- The clamp of the success rate of complete frames is reachable: duplicates are published but not
  expected (`FrameSequence.RatesAndClamps`, `FrameSequence.ClampedSuccess`). The clamp of the loss
  rate is not.
- Two rules that expand to one topic name on a sending host leave only the later one with a
  publisher (`Routing.SenderOfRule`, `Routing.LostPublisher`); two that make one receiving topic
  stop the bridge (`Routing.StartsExactlyWhen`). The documentation warns only about the second.
- On a receiver, a directed `/drone_{id}` rule expands with the host's own number without asking
  whether it has one, while the sending side does ask; the documentation speaks of the logical
  host name in both cases. The two expansions agree exactly when the host has a number
  (`Routing.DirectedExpansion`); a ground station without one publishes a directed command under
  `/drone_-9999/cmd` (`Routing.UnnumberedReceiver`). The model follows the code.
- A fanout `/drone_{id}` topic takes its number from the sender's configuration on the sending side
  and from the sender's host name on the receiving side. Without a prefix the two names are the
  same exactly when the two numbers have the same text (`Routing.SameNameBothEnds`).
- A pool that is stopping can still have a task running and nothing finished, and a further `Stop`
  would change nothing and return (`Executor.StopMidway`); everything accepted has finished exactly
  when no task waits and none runs (`Executor.FinishedExactlyWhen`). `Close` guards its `Stop` with
  a compare-exchange, so here it is a second, overlapping `Close` that returns before the drain.
- The first send of a topic never adjusts the quality, for want of a second sample
  (`TopicMetrics.FirstReadingNone`). With a cooldown of one, a topic overloaded at every later send
  is therefore one step behind its count of sends (`TopicMetrics.OverloadedTopic`).
- A search for an index that was never restored cannot succeed after the loop of `Decode`
  (`PointCloudCodec.TracksAll`).
- Pruning a window from its front filters it exactly when no stale sample stands behind a fresh
  one, which holds whenever the clock does not step back (`SlidingWindow.PrunedIsFilter`) and can
  fail when it does (`SlidingWindow.StaleBehindFresh`).

## Model

| member | source | states |
|---|---|---|
| Envelope.AppendUnsigned | swarm_ros_bridge/src/transport/bridge_transport.cpp:20-26 | appends the big-endian bytes of the low bits of the value, for every width |
| Envelope.ReadUnsigned | swarm_ros_bridge/src/transport/bridge_transport.cpp:28-40 | succeeds exactly when enough bytes are left, then reads their big-endian value and moves past them; on failure the cursor stays |
| Envelope.AppendString | swarm_ros_bridge/src/transport/bridge_transport.cpp:42-52 | succeeds exactly for strings of at most 65535 bytes, appending length and contents, and otherwise appends nothing |
| Envelope.ReadString | swarm_ros_bridge/src/transport/bridge_transport.cpp:54-65 | the bytes ahead split into the wire form of the string read and the rest; it fails only when they do not start with any string; the cursor never passes the end |
| Envelope.EncodeEnvelope | swarm_ros_bridge/src/transport/bridge_transport.cpp:90-128 | succeeds exactly for encodable envelopes, with the whole byte layout; says which error comes when and what is left in the output |
| Envelope.DecodeEnvelope | swarm_ros_bridge/src/transport/bridge_transport.cpp:130-194 | accepts exactly the wire forms of encodable envelopes, returns that envelope, and leaves the output untouched otherwise; says which error comes when |
| Envelope.WireLength | swarm_ros_bridge/src/transport/bridge_transport.cpp:107-127 | an encoding is 40 bytes longer than its strings and payload together |
| Envelope.FlagsByte | swarm_ros_bridge/src/transport/bridge_transport.cpp:111-117 | the reserved byte is byte 7 and nothing else depends on it |
| Envelope.PrefixFree | swarm_ros_bridge/src/transport/bridge_transport.cpp:90-128 | an encoding that starts another is that other, of the same envelope |
| Envelope.TruncatedOrExtendedIsRejected | swarm_ros_bridge/src/transport/bridge_transport.cpp:130-194 | no strict prefix and no strict extension of an encoding is accepted |
| Envelope.EncodeThenDecode | swarm_ros_bridge/src/transport/bridge_transport.cpp:90-194 | every encodable envelope, with any timestamp, decodes to itself |
| Envelope.DecodeThenEncode | swarm_ros_bridge/src/transport/bridge_transport.cpp:90-194 | every accepted byte string re-encodes to itself with byte 7 zeroed |
| Envelope.HeaderBytes | swarm_ros_bridge/src/transport/bridge_transport.cpp:107-117 | the first 28 bytes one by one: the letters of the magic, version, number of the kind, flags, sequence, two's complement time and header sequence, most significant byte first |
| Envelope.MetadataBytes | swarm_ros_bridge/src/transport/bridge_transport.cpp:118-127 | after the header come the four texts with their lengths in two bytes, the payload length in four, and the payload, each at its place |
| Envelope.EncodableLimits | swarm_ros_bridge/src/transport/bridge_transport.cpp:97-106 | an envelope can be encoded exactly when its version is 1, its payload has at most 536870912 bytes and each text fewer than 65536 |
| Envelope.HeaderErrors | swarm_ros_bridge/src/transport/bridge_transport.cpp:138-169 | which header error comes, by the bytes alone |
| KeySpace.NormalizeRosName | swarm_ros_bridge/src/transport/bridge_transport.cpp:67-86 | the one-pass loop yields the nonempty segments of the name joined by single slashes |
| KeySpace.NormalizeIdentifiesSegments | swarm_ros_bridge/src/transport/bridge_transport.cpp:67-86 | normalisation is idempotent, and two names normalise alike exactly when they have the same nonempty segments |
| KeySpace.KeysAreInjective | swarm_ros_bridge/src/transport/bridge_transport.cpp:284-303 | for slash-free hosts, fanout, directed, service and alive keys are equal exactly when they are of one kind with equal hosts and names equal up to normalisation |
| KeySpace.KeyTexts | swarm_ros_bridge/src/transport/bridge_transport.cpp:284-303 | the four kinds of key written out |
| KeySpace.NormalizedChunks | swarm_ros_bridge/src/transport/bridge_transport.cpp:67-86 | cut at its slashes, a normalised name gives exactly the nonempty segments of the name, and it is empty if there are none |
| KeySpace.ParseAliveKeyInverts | swarm_ros_bridge/src/transport/bridge_transport.cpp:305-316 | parsing answers a host exactly for that host's alive key, and only for nonempty slash-free names |
| KeySpace.PlainSubscription | swarm_ros_bridge/src/topic_factory.cpp:666-671 | a subscription without wildcard hears exactly the key it names, up to normalisation |
| KeySpace.AnySourceSubscription | swarm_ros_bridge/src/topic_factory.cpp:663-671 | the any-source directed subscription hears exactly the directed keys with its destination and its normalised topic |
| PointLayout.OverlapIsSharing | swarm_ros_bridge/src/transport/draco_pointcloud_codec.cpp:107-114 | the overlap test of two fields holds exactly when some byte lies in both |
| PointLayout.FindField | swarm_ros_bridge/src/transport/draco_pointcloud_codec.cpp:77-85 | the first field of that name, or none when there is none |
| PointLayout.MarkField | swarm_ros_bridge/src/transport/draco_pointcloud_codec.cpp:116-125 | adds exactly the bytes of a fitting field to the mask and changes nothing for one that does not fit |
| PointLayout.ParseLayout | swarm_ros_bridge/src/transport/draco_pointcloud_codec.cpp:127-218 | accepts exactly the field lists whose fields fit, whose x, y, z and chosen colour fields are pairwise disjoint and touched by no other field, and marks exactly their bytes |
| PointLayout.AcceptableInBytes | swarm_ros_bridge/src/transport/draco_pointcloud_codec.cpp:127-218 | a field list is accepted exactly when the point step is positive, all fields fit, x, y and z are float scalars, and no byte lies in two fields of which one is encoded |
| PointLayout.FitsInNumbers | swarm_ros_bridge/src/transport/draco_pointcloud_codec.cpp:48-75 | a field fits exactly when its type is 1 to 8, its count is positive and offset plus count times 1, 2, 4 or 8 bytes stays within the step |
| PointLayout.Float32Scalar | swarm_ros_bridge/src/transport/draco_pointcloud_codec.cpp:87-91 | the position qualifies exactly when x, y and z exist with type 7, count 1 and four bytes within the step |
| PointLayout.ColorInNumbers | swarm_ros_bridge/src/transport/draco_pointcloud_codec.cpp:93-105 | a packed colour qualifies with type 6 or 7 and four bytes, a separate channel with type 2 and one byte |
| PointLayout.ChooseColor | swarm_ros_bridge/src/transport/draco_pointcloud_codec.cpp:152-175 | a qualifying packed rgba is chosen before rgb, a packed colour before separate bytes, separate bytes exactly when they qualify, and no colour exactly when no form does; the chosen fields are existing, fitting scalars of the required types |
| PointLayout.MarkedBytes | swarm_ros_bridge/src/transport/draco_pointcloud_codec.cpp:210-215 | disjoint fields mark as many bytes as their sizes add up to |
| PointLayout.EncodedBytesPerPoint | swarm_ros_bridge/src/transport/draco_pointcloud_codec.cpp:322-325 | an accepted layout encodes 12 bytes per point plus 4 for packed colour, 3 or 4 for separate colour, and leaves the rest of the step as side bytes |
| Sidecar.ExtractSidecar | swarm_ros_bridge/src/transport/draco_pointcloud_codec.cpp:327-361 | the nested loops collect exactly the unencoded and padding bytes in address order, and the final length check always passes |
| Sidecar.RestoreSidecar | swarm_ros_bridge/src/transport/draco_pointcloud_codec.cpp:363-398 | accepts exactly right-length sidecars; then extracting from the result gives the sidecar back and no encoded byte has changed; every write is in bounds |
| Sidecar.SidecarLength | swarm_ros_bridge/src/transport/draco_pointcloud_codec.cpp:333-338 | the number of side positions in the data is the length both functions compute |
| Sidecar.PointSideInNumbers | swarm_ros_bridge/src/transport/draco_pointcloud_codec.cpp:341-353 | a byte of a point, found by row, column and place in the point, is a side byte exactly when the mask leaves it out |
| Sidecar.SideByteAt | swarm_ros_bridge/src/transport/draco_pointcloud_codec.cpp:344-359 | a side byte stands in the sidecar after exactly as many bytes as there are side positions before it |
| Sidecar.SidecarAndEncodedBytes | swarm_ros_bridge/src/transport/draco_pointcloud_codec.cpp:327-361 | sidecar length plus encoded bytes per point times point count is the data length |
| Sidecar.SideBytesDetermine | swarm_ros_bridge/src/transport/draco_pointcloud_codec.cpp:344-359 | two clouds of one geometry have equal sidecars exactly when they agree at every side position |
| Sidecar.RestoreInvertsExtract | swarm_ros_bridge/src/transport/draco_pointcloud_codec.cpp:327-398 | restoring the sidecar of one cloud onto another gives exactly the first at side positions and the second elsewhere |
| PointSlots.WriteUint32 | swarm_ros_bridge/src/transport/draco_pointcloud_codec.cpp:257-269 | the four bytes are then those of the value in the byte order asked for, reading back gives the value, and only these bytes change |
| PointSlots.WordIsWord | swarm_ros_bridge/src/transport/draco_pointcloud_codec.cpp:244-255 | the word read is the one whose byte k is the k-th displayed, from the least significant up or down as the byte order says |
| PointSlots.WordInjective | swarm_ros_bridge/src/transport/draco_pointcloud_codec.cpp:244-255 | in either byte order, equal words are equal bytes |
| PointSlots.PackUnpack | swarm_ros_bridge/src/transport/draco_pointcloud_codec.cpp:287-312 | packing a colour into a word and unpacking it are mutually inverse |
| PointSlots.PackedChannels | swarm_ros_bridge/src/transport/draco_pointcloud_codec.cpp:287-312 | a packed colour is alpha, red, green and blue from the most significant byte down |
| PointSlots.MaskIsSlots | swarm_ros_bridge/src/transport/draco_pointcloud_codec.cpp:177-215 | the mask marks exactly the bytes that reading and writing a point touch |
| PointCloudCodec.OffsetInData | swarm_ros_bridge/src/transport/draco_pointcloud_codec.cpp:400-406 | the point of an in-range index lies within the data |
| PointCloudCodec.OffsetsApart | swarm_ros_bridge/src/transport/draco_pointcloud_codec.cpp:400-406 | points of different indices occupy disjoint bytes, in index order |
| PointCloudCodec.WritePoint | swarm_ros_bridge/src/transport/draco_pointcloud_codec.cpp:582-594 | the point then holds position and colour, and only encoded bytes of that point have changed |
| PointCloudCodec.WriteKeepsSide | swarm_ros_bridge/src/transport/draco_pointcloud_codec.cpp:582-594 | a change confined to encoded bytes of one point leaves every side byte |
| PointCloudCodec.WriteKeepsOthers | swarm_ros_bridge/src/transport/draco_pointcloud_codec.cpp:582-594 | a change confined to one point leaves what every other point holds |
| PointCloudCodec.Pigeonhole | swarm_ros_bridge/src/transport/draco_pointcloud_codec.cpp:572-598 | n in-range indices without repetition hit every slot |
| PointCloudCodec.TracksAll | swarm_ros_bridge/src/transport/draco_pointcloud_codec.cpp:596-598 | once the loop has passed every point, no slot is left unrestored |
| PointCloudCodec.RestorePoints | swarm_ros_bridge/src/transport/draco_pointcloud_codec.cpp:572-598 | succeeds exactly when the indices are a permutation; then every point is where its index says and no side byte has changed |
| PointCloudCodec.Decode | swarm_ros_bridge/src/transport/draco_pointcloud_codec.cpp:501-601 | accepts exactly the decodable clouds and rebuilds metadata, side bytes and points (`PointBytes.DecodedIntoBytes` says in which bytes) |
| PointCloudCodec.Encode | swarm_ros_bridge/src/transport/draco_pointcloud_codec.cpp:412-499 | fails exactly when nothing meets the description of an encoding; otherwise copies the metadata, extracts the sidecar and submits every point under its index (`PointBytes.EncodedFromBytes` says from which bytes) |
| PointBytes.EncodedFromBytes | swarm_ros_bridge/src/transport/draco_pointcloud_codec.cpp:467-482 | what is submitted for index i: its coordinates are the 32-bit values whose bytes, in the byte order of the message, stand at the fields named x, y and z of point i, and its colour that of rgba, else rgb, else r, g, b and a, alpha 255 without a |
| PointBytes.DecodedIntoBytes | swarm_ros_bridge/src/transport/draco_pointcloud_codec.cpp:575-595 | after decoding, the fields of each returned point hold its coordinates and colour in those bytes |
| PointBytes.EncodedHeader | swarm_ros_bridge/src/transport/draco_pointcloud_codec.cpp:425-465 | the codec name, format version 2 and the point type: xyzrgb exactly when some colour qualifies |
| PointBytes.StorageInNumbers | swarm_ros_bridge/src/transport/draco_pointcloud_codec.cpp:220-242 | which geometries are accepted, in numbers |
| CloudRoundTrip.EncodedPosition | swarm_ros_bridge/src/transport/draco_pointcloud_codec.cpp:344-359 | a position of the data that is not a side byte is an encoded byte of some point |
| CloudRoundTrip.DecodedDataUnique | swarm_ros_bridge/src/transport/draco_pointcloud_codec.cpp:542-595 | sidecar and points determine the data, whatever the order of the points |
| CloudRoundTrip.DecodingUnique | swarm_ros_bridge/src/transport/draco_pointcloud_codec.cpp:501-601 | the contract of decoding leaves one result |
| CloudRoundTrip.EncodedIsDecodable | swarm_ros_bridge/src/transport/draco_pointcloud_codec.cpp:412-601 | whatever encoding produces is accepted by decoding |
| CloudRoundTrip.RoundTrip | swarm_ros_bridge/src/transport/draco_pointcloud_codec.cpp:412-601 | the decoded cloud is the message with each x, y, z replaced by its quantised image: all metadata, colours, side fields and padding are identical, in either byte order |
| CloudRoundTrip.DecodeThenEncode | swarm_ros_bridge/src/transport/draco_pointcloud_codec.cpp:412-601 | re-encoding a decoded message, with a geometry codec that yields the same payload, gives the encoded cloud back: version, point type, metadata and sidecar included |
| CloudRoundTrip.DecodedPointResubmitted | swarm_ros_bridge/src/transport/draco_pointcloud_codec.cpp:467-595 | the decoded message submits, at each returned index, the returned position and colour, alpha 255 where the layout has none |
| CloudRoundTrip.OrderIrrelevant | swarm_ros_bridge/src/transport/draco_pointcloud_codec.cpp:575-595 | two geometry codecs with the same quantiser but different orders of points give the same decoded cloud |
| CloudRoundTrip.Transfer | swarm_ros_bridge/src/transport/draco_pointcloud_codec.cpp:412-601 | running the two in sequence succeeds exactly when encoding does and gives the quantised message |
| CloudRoundTrip.SomeCodecEncodes | swarm_ros_bridge/src/transport/draco_pointcloud_codec.cpp:412-499 | for every acceptable message there is a faithful geometry codec, one that reverses the points, with which encoding succeeds |
| Executor.StepInv | swarm_ros_bridge/src/transport/zenoh_transport.cpp:94-140 | every step keeps the invariant of the pool: bound, no lost wake-up, exits only after the drain, conservation of tasks |
| Executor.ReachableGuarantees | swarm_ros_bridge/src/transport/zenoh_transport.cpp:94-140 | in every reachable state: while a worker is parked the awake ones suffice for the queue; after the stopping notification none is parked; tasks start once each in submission order; the queue keeps its capacity |
| Executor.NoneAcceptedAfterStop | swarm_ros_bridge/src/transport/zenoh_transport.cpp:94-112 | once stopping has begun no run accepts another task |
| Executor.AcceptsExactlyWhen | swarm_ros_bridge/src/transport/zenoh_transport.cpp:94-102 | in every reachable state a submission is accepted, and queued last, exactly when the pool is not stopping and fewer tasks wait than the capacity it was made with |
| Executor.FillsToCapacity | swarm_ros_bridge/src/transport/zenoh_transport.cpp:81-102 | for every capacity and every list of tasks up to it there is a run that accepts them all before any worker moves |
| Executor.CapacityKept | swarm_ros_bridge/src/transport/zenoh_transport.cpp:81-102 | the capacity stays what it was at the start, and is at least one |
| Executor.DrainedWhenJoined | swarm_ros_bridge/src/transport/zenoh_transport.cpp:104-140 | when all workers have been joined, which the first stopping call waits for, every task ever accepted has finished |
| Executor.FinishedExactlyWhen | swarm_ros_bridge/src/transport/zenoh_transport.cpp:94-140 | in every reachable state everything accepted has finished exactly when no task waits and none runs |
| Executor.StopMidway | swarm_ros_bridge/src/transport/zenoh_transport.cpp:104-119 | there is a run to a stopping pool with one task running and none finished, where a further stop changes nothing |
| Executor.NeverStuck | swarm_ros_bridge/src/transport/zenoh_transport.cpp:122-140 | while tasks wait, or a notified stop is not over, some worker can move |
| Executor.StopTerminates | swarm_ros_bridge/src/transport/zenoh_transport.cpp:104-119 | after the notification each worker step lowers a measure that nothing raises and that is zero only when all have exited |
| Executor.BoundedExecutor.TrySubmit | swarm_ros_bridge/src/transport/zenoh_transport.cpp:94-102 | accepts exactly when not stopping and fewer tasks wait than the capacity, and then queues the task last; is one step of the pool, waking a parked worker if there is one |
| Executor.BoundedExecutor.EnterRun | swarm_ros_bridge/src/transport/zenoh_transport.cpp:122-133 | takes the oldest task, parks, or exits when stopping with nothing queued |
| Executor.BoundedExecutor.BeginStopping | swarm_ros_bridge/src/transport/zenoh_transport.cpp:104-111 | sets the flag and reports whether this call is the first, the one that goes on to notify and join |
| Executor.BoundedExecutor.NotifyStopped | swarm_ros_bridge/src/transport/zenoh_transport.cpp:112-118 | wakes every parked worker and no other |
| Executor.BoundedExecutor.FinishTask | swarm_ros_bridge/src/transport/zenoh_transport.cpp:134-139 | the task is finished, however it ends, and its worker goes back to the queue |
| ServiceQueue.StepInvariant | swarm_ros_bridge/src/transport/zenoh_transport.cpp:433-484 | every step keeps the account of queries: refused at once, waiting, running or settled |
| ServiceQueue.NeverTwoReplies | swarm_ros_bridge/src/transport/zenoh_transport.cpp:433-484 | over every run no query gets two replies and none gets one before it arrives |
| ServiceQueue.OneReplyBeforeClose | swarm_ros_bridge/src/transport/zenoh_transport.cpp:212-231 | when the session may close, each query that arrived has had exactly one reply or error if no step of the run abandoned it, and none if one did: an exception escaping the task of a worker running it, or an immediate error that could not be sent |
| ServiceQueue.SilentOnlyIfAbandoned | swarm_ros_bridge/src/transport/zenoh_transport.cpp:440-483 | over every run a query is finished without a reply exactly when an earlier step abandoned that query |
| ServiceQueue.AnsweredExactlyWhen | swarm_ros_bridge/src/transport/zenoh_transport.cpp:454-477 | a query is answered with a response exactly when its handler gave one that could be encoded and was sent |
| ServiceQueue.RefusedExactlyWhen | swarm_ros_bridge/src/transport/zenoh_transport.cpp:440-483 | a query gets an error exactly when some step sent one: for bytes missing or malformed, a stopping or full pool, an unencodable response, a refusal, or from the catch clause |
| ServiceQueue.CountersCount | swarm_ros_bridge/src/transport/zenoh_transport.cpp:440-452 | decode errors count the queries whose bytes do not decode, queue drops the well-formed ones that met a stopping or full pool |
| ServiceQueue.UnansweredQuery | swarm_ros_bridge/src/transport/zenoh_transport.cpp:134-138 | for any encodable request and any way an exception escapes its task, there is a run of one worker in which the query is accepted, the task ends so, the pool drains, and the session may close with no reply given |
| ServiceQueue.UnansweredRefusal | swarm_ros_bridge/src/transport/zenoh_transport.cpp:440-452 | for any malformed query there is a run in which its immediate error is not sent, nothing is accepted, and the session may close with no reply given |
| Receiver.PushToBoundedEnvelopeQueue | swarm_ros_bridge/src/transport/bridge_transport.cpp:263-282 | command and service queues append while fewer than 64 wait and then reject; state and bulk queues drop the oldest instead and hold one; the queue never exceeds its capacity |
| Receiver.StepInv | swarm_ros_bridge/src/topic_factory.cpp:433-515 | every step of callbacks, worker, start and stop keeps conservation, counters, order and quiescence |
| Receiver.PipelineConservation | swarm_ros_bridge/src/topic_factory.cpp:433-570 | in every reachable state each arrived envelope is in exactly one of rejected by validation, held by its callback, ignored while stopped, rejected by the queue, replaced, queued, held by the worker, failed to decode, published; dropped messages are the validation and queue rejects, replacements and decode failures, queue drops are queue rejects and replacements, received are the published |
| Receiver.QueuePolicy | swarm_ros_bridge/src/transport/bridge_transport.cpp:249-282 | over every run a queue accepts a subsequence of what is offered and rejects the rest; command and service topics replace nothing, never hold more than 64 and take exactly what they accept, in order; state and bulk topics reject nothing, take a subsequence, and a nonempty queue is the one newest offer; messages are published in the order accepted |
| Receiver.OfferByClass | swarm_ros_bridge/src/transport/bridge_transport.cpp:263-282 | in every reachable running state an offer to a command or service topic is rejected exactly when 64 wait, and one to a state or bulk topic is accepted and then waits alone |
| Receiver.PolicyTable | swarm_ros_bridge/src/transport/bridge_transport.cpp:249-261 | the policy of each class, row by row |
| Receiver.ValidationSifts | swarm_ros_bridge/src/topic_factory.cpp:433-466 | over every run what validation rejects does not pass its checks, and only what passes them reaches the queue |
| Receiver.AdmittedExactlyWhen | swarm_ros_bridge/src/topic_factory.cpp:433-466 | an envelope is admitted exactly when kind, version 1, type and checksum are the expected ones and the source is switched on and, for a fixed source, that one |
| Receiver.EmptyUntilRestart | swarm_ros_bridge/src/topic_factory.cpp:658-700 | once the worker has exited the queue is empty and stays empty until a restart |
| Receiver.TopicReceiver.EnqueueEnvelope | swarm_ros_bridge/src/topic_factory.cpp:433-466 | validation admits exactly the expected kind, version, type, checksum and allowed source, and counts the rest as dropped |
| Receiver.TopicReceiver.OfferPending | swarm_ros_bridge/src/topic_factory.cpp:472-490 | the critical section is one step: ignored when stopped, else queued, replacing or rejected, with the counters it owes |
| Receiver.TopicReceiver.TakeEnvelope | swarm_ros_bridge/src/topic_factory.cpp:493-506 | the worker takes the oldest envelope, parks, or exits when stopped with nothing queued |
| Receiver.TopicReceiver.FinishEnvelope | swarm_ros_bridge/src/topic_factory.cpp:507-513 | a publication or a decoding failure is counted as such and frees the worker |
| Receiver.TopicReceiver.CreateThread | swarm_ros_bridge/src/topic_factory.cpp:658-662 | starts a worker unless one is running |
| Receiver.TopicReceiver.StopThread | swarm_ros_bridge/src/topic_factory.cpp:692-698 | clears the flag once and waits for the worker, leaving the queue to it |
| Routing.ExpandHostSelection | swarm_ros_bridge/src/bridge_factory.cpp:152-179 | succeeds exactly when every selector is a keyword or a known host; then a host is on exactly when it was before or some selector covers it |
| Routing.SelectorMeans | swarm_ros_bridge/src/bridge_factory.cpp:152-179 | which hosts each selector covers |
| Routing.BridgeFactory.BuildSenders | swarm_ros_bridge/src/bridge_factory.cpp:565-583 | the publishers made are the send table of the rules |
| Routing.BridgeFactory.ListenToSources | swarm_ros_bridge/src/bridge_factory.cpp:589-625 | the inner loop makes a listener for each eligible source, only the first for a directed rule, and stops at the first error |
| Routing.BridgeFactory.TopicOperatorInit | swarm_ros_bridge/src/bridge_factory.cpp:565-626 | both tables are those of the rules, or the error is the first one met |
| Routing.SenderOfRule | swarm_ros_bridge/src/bridge_factory.cpp:566-583 | a rule this host sends keeps its publisher exactly when no later rule it sends expands to the same name |
| Routing.LostPublisher | swarm_ros_bridge/src/bridge_factory.cpp:571-583 | on drone 1 the rules /drone_{id}/cmd and /drone_1/cmd leave one publisher, that of the second |
| Routing.DirectedExpansion | swarm_ros_bridge/src/bridge_factory.cpp:571-607 | for a directed {id} rule, a drone source and a number text without a brace, receiver and sender expand the name alike exactly when the host has a drone number |
| Routing.UnnumberedReceiver | swarm_ros_bridge/src/bridge_factory.cpp:597-607 | a ground station without a number receives /drone_{id}/cmd under /drone_-9999/cmd and would send it unexpanded |
| Routing.NumberedNameWritten | swarm_ros_bridge/src/bridge_factory.cpp:571-619 | the name of an {id} rule written out: a fanout rule takes the number parsed from the source's host name, a directed rule the receiver's own, behind the prefix the entry asks for; the sender takes its own if it has one |
| Routing.PlainNameWritten | swarm_ros_bridge/src/bridge_factory.cpp:598-619 | a rule without {id} keeps its name, behind the prefix it asks for |
| Routing.OtherSourceRefused | swarm_ros_bridge/src/bridge_factory.cpp:600-603 | an {id} rule from a host that is not a drone is an error |
| Routing.SameNameBothEnds | swarm_ros_bridge/src/bridge_factory.cpp:571-607 | a fanout {id} topic without prefix has one name at both ends exactly when the number in the sender's host name and the sender's own number have the same text |
| Routing.NumberedFanoutEntry | swarm_ros_bridge/src/bridge_factory.cpp:585-626 | a receiver's table has the topic of an {id} fanout rule under the number of each wanted source |
| Routing.FanoutListenerWritten | swarm_ros_bridge/src/bridge_factory.cpp:585-626 | the subscription, session and configuration of each fanout entry, with the key written out |
| Routing.DirectedListenerWritten | swarm_ros_bridge/src/bridge_factory.cpp:585-626 | the same for the one entry of a directed rule, which listens to any source |
| Routing.SenderWritten | swarm_ros_bridge/src/bridge_factory.cpp:566-583 | the keys a publisher uses: one fanout key, or one for each other enabled destination, written out |
| Routing.SessionsByType | swarm_ros_bridge/src/bridge_factory.cpp:632-650 | images and point clouds use their own session exactly when it is configured, all else the control session |
| Routing.EntryOrigin | swarm_ros_bridge/src/bridge_factory.cpp:585-626 | every receiving topic comes from a rule for this host and one of its wanted sources |
| Routing.EntryExists | swarm_ros_bridge/src/bridge_factory.cpp:585-626 | every such rule and source has its receiving topic |
| Routing.StartsExactlyWhen | swarm_ros_bridge/src/bridge_factory.cpp:598-621 | a host builds its receivers exactly when every wanted name expands and no two are the same |
| Routing.SamePrefixClash | swarm_ros_bridge/src/bridge_factory.cpp:611-619 | the shared prefix stops a host that receives a fanout rule from several sources |
| Routing.PrefixSeparates | swarm_ros_bridge/src/bridge_factory.cpp:609-613 | with the source prefix, different slash-free sources never share a receiving topic, whatever their rules |
| Routing.FanoutReach | swarm_ros_bridge/src/bridge_factory.cpp:565-626 | what S publishes under a fanout rule is heard and accepted at R by exactly one receiver if S is a source, R a destination and R is not S or in debug mode, and by none otherwise |
| Routing.FanoutDelivery | swarm_ros_bridge/src/bridge_factory.cpp:565-626 | the publisher a sending host keeps for a fanout rule is heard at R by exactly one receiver if R is a destination and is not the sender or in debug mode, and by none otherwise |
| Routing.DirectedReach | swarm_ros_bridge/src/topic_factory.cpp:663-671 | an envelope published for a configured destination is heard and accepted there by exactly one receiver and nowhere else |
| Routing.PublishToDrones | swarm_ros_bridge/src/topic_factory.cpp:206-222 | each listed drone is published to or counted as a drop |
| Routing.DirectedCopies | swarm_ros_bridge/src/topic_factory.cpp:93-113 | host R gets as many copies of a directed message as its number is listed if S is a source, R a destination other than S and the publisher accepts, and none otherwise |
| Routing.DirectedDelivery | swarm_ros_bridge/src/bridge_factory.cpp:565-583 | the same count for the publishers the send table of S keeps for the rule |
| RateLimiter.SendLimiter.SendFreqControl | swarm_ros_bridge/src/topic_factory.cpp:308-322 | the call passes its sample exactly when the specification does, and counts what it drops |
| RateLimiter.IntervalInNumbers | swarm_ros_bridge/src/topic_factory.cpp:308-322 | interval times frequency is a second in nanoseconds, frequencies below 0.001 count as 0.001, and the limiter is off within 2^-52 of -1 |
| RateLimiter.UnlimitedPassesAll | swarm_ros_bridge/src/topic_factory.cpp:308-322 | switched off it passes everything |
| RateLimiter.PassedSpaced | swarm_ros_bridge/src/topic_factory.cpp:308-322 | consecutive passed samples are at least the minimum interval apart, even if the clock steps back |
| RateLimiter.WindowBound | swarm_ros_bridge/src/topic_factory.cpp:308-322 | any span W holds at most floor(W / interval) + 1 passed samples |
| RateLimiter.GreedyStaysAhead | swarm_ros_bridge/src/topic_factory.cpp:308-322 | no selection with the same spacing is larger, and one equally large does not end earlier |
| RateLimiter.PassedIsLargest | swarm_ros_bridge/src/topic_factory.cpp:308-322 | the passed samples are a largest selection of the arrivals with that spacing |
| SlidingWindow.PruneSamples | swarm_ros_bridge/src/topic_factory.cpp:582-589 | keeps everything from the first fresh sample on |
| SlidingWindow.PruneTimes | swarm_ros_bridge/src/topic_factory.cpp:574-581 | keeps everything from the first fresh time on |
| SlidingWindow.SumBytes | swarm_ros_bridge/src/diagnostics/topic_metrics.cpp:97-108 | the summing loop yields the bytes of all the samples |
| SlidingWindow.PrunedIsFilter | swarm_ros_bridge/src/topic_factory.cpp:572-590 | pruning equals filtering by age exactly when no stale sample stands behind a fresh one, as on any nondecreasing deque |
| SlidingWindow.StaleBehindFresh | swarm_ros_bridge/src/topic_factory.cpp:572-590 | a deque in which the clock stepped back keeps a sample that is outside the window |
| SlidingWindow.PruneRefines | swarm_ros_bridge/src/topic_factory.cpp:572-590 | pruning a deque that held an earlier window of the history gives the window of the history now |
| SlidingWindow.PrunedInStep | swarm_ros_bridge/src/topic_factory.cpp:574-589 | pruning keeps the time deque and the byte deque in step |
| SlidingWindow.WindowCounts | swarm_ros_bridge/src/topic_factory.cpp:572-590 | a sample is in the window as often as in the history if it is no older than the window, and else never |
| SlidingWindow.WindowInOrder | swarm_ros_bridge/src/topic_factory.cpp:572-590 | the window is a subsequence of the history |
| TopicMetrics.WindowsRefineHistory | swarm_ros_bridge/src/topic_factory.cpp:529-590 | under a clock that never steps back each deque is, after every call, the whole history cut to the window |
| TopicMetrics.SeriesInStep | swarm_ros_bridge/src/topic_factory.cpp:529-570 | for any clock, time and byte deques stay in step and the totals are those of the whole history |
| TopicMetrics.ControlIsRun | swarm_ros_bridge/src/topic_factory.cpp:529-540 | the quality kept by the topic is that of a controller run over the readings of its send window, one per send |
| TopicMetrics.ReadingIsOfHistory | swarm_ros_bridge/src/topic_factory.cpp:602-608 | under a clock that never steps back, what the controller reads at a send is the in-window history, that send included |
| TopicMetrics.FirstReadingNone | swarm_ros_bridge/src/topic_factory.cpp:596-600 | the first send of a topic finds itself alone in the window, so nothing is read |
| TopicMetrics.OverloadedTopic | swarm_ros_bridge/src/topic_factory.cpp:592-623 | a topic overloaded at every send after its first has exactly the start less one step per cooldown of sends, down to the lower bound |
| TopicMetrics.SecondSendFalls | swarm_ros_bridge/src/topic_factory.cpp:592-623 | two large sends with a cooldown of one: the quality holds at the first and falls by a step at the second |
| TopicMetrics.SnapshotReportsHistory | swarm_ros_bridge/src/diagnostics/topic_metrics.cpp:80-113 | the rates and the bandwidth of a snapshot are those of the in-window history |
| TopicMetrics.RatesInNumbers | swarm_ros_bridge/src/diagnostics/topic_metrics.cpp:80-113 | send rate times nanoseconds since the oldest send is a billion times the sends, and so for receptions; bandwidth in the same way from the bytes of the topic's own direction; the span counts as at least a millisecond and at most three seconds |
| TopicMetrics.WindowInNumbers | swarm_ros_bridge/src/diagnostics/topic_metrics.cpp:10-18 | the observed window in numbers |
| TopicMetrics.ReadingInNumbers | swarm_ros_bridge/src/topic_factory.cpp:596-608 | nothing is read with fewer than two samples; otherwise the reading times nanoseconds since the oldest is eight million times the bytes |
| TopicMetrics.HistoryOfCall | swarm_ros_bridge/src/topic_factory.cpp:529-570 | a send adds its bytes to the send history, a reception to the receive history, a snapshot to neither |
| TopicMetrics.TopicRuntimeState.RecordSendBytes | swarm_ros_bridge/src/topic_factory.cpp:529-540 | recording a send appends one call to the history that defines every field, quality included |
| TopicMetrics.TopicRuntimeState.RecordReceiveBytes | swarm_ros_bridge/src/topic_factory.cpp:559-570 | recording a reception appends one call to that history |
| TopicMetrics.TopicRuntimeState.MaybeAdaptImageQuality | swarm_ros_bridge/src/topic_factory.cpp:592-623 | the early returns and the two adjustments are one step of the controller (`JpegQuality.LastingOverload`, `LastingUnderuse` and `BalancedHolds` say what its runs do) |
| TopicMetrics.TopicRuntimeState.MakeTopicMetrics | swarm_ros_bridge/src/diagnostics/topic_metrics.cpp:70-113 | the reported rates and bandwidth are those of the deques over the observed window |
| TopicMetrics.ObservedWindow | swarm_ros_bridge/src/diagnostics/topic_metrics.cpp:10-18 | the divisor lies between a millisecond and the configured window |
| JpegQuality.Configure | swarm_ros_bridge/src/bridge_factory.cpp:497-532 | whatever the entry says, initial quality and bounds lie in [10, 100] in order and step and cooldown are positive; proper values of each are kept |
| JpegQuality.ConfiguredNumbers | swarm_ros_bridge/src/bridge_factory.cpp:497-532 | the defaults 80, 45, 90, 5 and 8 and the clamps, in numbers |
| JpegQuality.QualityBounded | swarm_ros_bridge/src/topic_factory.cpp:592-623 | over any run quality stays in [10, 100] and in the range spanned by the start and the bounds |
| JpegQuality.StaysInside | swarm_ros_bridge/src/topic_factory.cpp:592-623 | once between the bounds, quality stays there |
| JpegQuality.DriftBound | swarm_ros_bridge/src/topic_factory.cpp:592-623 | adjustments times cooldown never exceed the sends, so the distance from the start times cooldown is at most step times sends |
| JpegQuality.LastingOverload | swarm_ros_bridge/src/topic_factory.cpp:592-623 | from any moment of any run on, under readings above 1.15 times the target at every send, quality is exactly what it was less one step once the cooldown first allows one and one more every cooldown sends, down to the lower bound |
| JpegQuality.LastingUnderuse | swarm_ros_bridge/src/topic_factory.cpp:592-623 | from any moment on, under readings below 0.85 times the target, it is what it was plus one step once the cooldown first allows one and one more every cooldown sends, up to the upper bound |
| JpegQuality.BalancedHolds | swarm_ros_bridge/src/topic_factory.cpp:592-623 | readings from 0.85 to 1.15 times the target, and sends without a reading, leave quality and the start of the cooldown as they are |
| JpegQuality.DisabledHolds | swarm_ros_bridge/src/topic_factory.cpp:592-623 | switched off, or without a positive target, the quality never moves |
| JpegQuality.OverloadAfterFirst | swarm_ros_bridge/src/topic_factory.cpp:592-623 | when only the first send has nothing to read, quality is the start less one step per cooldown of sends, the first send not counting when the cooldown is one |
| FrameSequence.FrameState.ObserveCompleteFrameSequence | swarm_ros_bridge/src/diagnostics/topic_metrics.cpp:40-68 | the counters are a function of all sequences observed |
| FrameSequence.EpochsAreMaximalRuns | swarm_ros_bridge/src/diagnostics/topic_metrics.cpp:55-61 | the epochs partition the observations into maximal nondecreasing runs |
| FrameSequence.Accounting | swarm_ros_bridge/src/diagnostics/topic_metrics.cpp:40-68 | expected is complete plus lost and the sum of the spans of the epochs; resets are epochs less one; complete is observations less adjacent duplicates |
| FrameSequence.RatesAndClamps | swarm_ros_bridge/src/diagnostics/topic_metrics.cpp:129-137 | the loss rate is below 100 without its clamp; for any number of published images the success clamp acts exactly when duplicates outnumber losses and unpublished images together |
| FrameSequence.RatesInNumbers | swarm_ros_bridge/src/diagnostics/topic_metrics.cpp:129-137 | each rate times the frames expected is a hundred times the lost, or the published, frames, and 100 where more were published than expected |
| FrameSequence.ClampedSuccess | swarm_ros_bridge/src/diagnostics/topic_metrics.cpp:134-136 | one frame published twice is reported as 100 percent where the quotient is 200 |
| ServiceCall.QueryState.OnReply | swarm_ros_bridge/src/transport/zenoh_transport.cpp:517-536 | only the first reply changes the state: to its text, to a decoding failure, or to the envelope its bytes stand for |
| ServiceCall.QueryClient.EndWait | swarm_ros_bridge/src/transport/zenoh_transport.cpp:562-577 | the outcome is the conclusion from the state reached, and the timeout counter advances without a reply or on an error text that speaks of a timeout |
| ServiceCall.FirstReplyDecides | swarm_ros_bridge/src/transport/zenoh_transport.cpp:508-577 | under any interleaving only the first reply before the wait ends fixes the outcome, and the timeout counter advances exactly on a timeout |
| ServiceCall.OutcomeByReply | swarm_ros_bridge/src/transport/zenoh_transport.cpp:494-578 | the outcome of a query by its first reply, case by case |
| ServiceCall.FirstReplyMeans | swarm_ros_bridge/src/transport/zenoh_transport.cpp:517-561 | what the first reply in time is: nothing but end-of-replies stands before it |
| ServiceCall.TimeoutWords | swarm_ros_bridge/src/transport/zenoh_transport.cpp:32-40 | an error text speaks of a timeout exactly when it has timeout or timed out in it, in capital or small letters |
| ServiceCall.CountedTimeouts | swarm_ros_bridge/src/service_factory.cpp:82-90 | which failures the client counts as timeouts, by the text |
| ServiceCall.HandleRemoteRequest | swarm_ros_bridge/src/service_factory.cpp:108-184 | answers exactly the requests of kind, version 1, type and checksum from allowed clients whose local call does not throw, echoing their sequence; says which refusal comes when |
| ServiceCall.ServiceFactory.MakeRequest | swarm_ros_bridge/src/service_factory.cpp:65-76 | the request carries the next sequence number, which wraps to 0 after 18446744073709551615, version 1 and this service's type and checksum |
| ServiceCall.ServiceFactory.FinishCall | swarm_ros_bridge/src/service_factory.cpp:82-105 | a response exactly for an envelope of the response kind, version 1 and this service's type and checksum; the timeout count advances when the error mentions one |
| ServiceCall.CallSucceeds | swarm_ros_bridge/src/service_factory.cpp:78-105 | a call succeeds exactly when its request went out and the first reply in time decodes to a service response of the expected version, type and checksum |
| ServiceCall.EmptyErrorReply | swarm_ros_bridge/src/transport/zenoh_transport.cpp:517-577 | Query succeeds exactly when the request went out and the first reply in time decodes or is an error with an empty text; the latter yields the default envelope, which call refuses |
| ServiceCall.TimeoutsAgree | swarm_ros_bridge/src/transport/zenoh_transport.cpp:562-574 | the client's timeout counter and the transport's advance together on every query that reached the session |
| ServiceCall.EndToEnd | swarm_ros_bridge/src/service_factory.cpp:62-184 | a server of the same service that allows the client accepts its request, and its answer is what the call returns |
| Presence.PresenceTable.UpdatePresence | swarm_ros_bridge/src/transport/zenoh_transport.cpp:310-330 | each host's record is a function of that host's events alone |
| Presence.RecordIsHistory | swarm_ros_bridge/src/transport/zenoh_transport.cpp:310-330 | a record is the last state, the number of maximal online runs and the start of the current run |
| Presence.EdgesAccountedFor | swarm_ros_bridge/src/transport/zenoh_transport.cpp:253-261 | however polls interleave, rising edges are counted reconnects plus pending polls plus one if ever connected, else pending polls only |
| Presence.LinkStats.Stats | swarm_ros_bridge/src/transport/zenoh_transport.cpp:240-267 | undisturbed polls count every rising edge after the first |

## Left out

- Draco, PCL downsampling and octree compression, JPEG coding, ROS serialisation and Zenoh itself: abstract functions, steps or matching rules stand for them.
- PointCloudCodec.Decode: requires that a cloud without colour in its layout does not decode with a colour attribute, because the program would write through a null field there.
- PointCloudCodec.Encode: floats are 32-bit patterns, so what the quantiser does to NaN or infinity is part of the arbitrary quantiser.
- Routing.FanoutReach: assumes host names without slash and star, topic names without star, and topic names distinct after normalisation; the program does not check them.
- Routing.DirectedReach: makes the same assumptions; no built-in message type has the list of drone numbers, so the list is abstract.
- Receiver.TopicReceiver.StopThread: proves safety and draining only; the flag is cleared outside the mutex, so that the join always ends is not claimed.
- Receiver.TopicReceiver.CreateThread: a failing subscription is modelled as the stop it performs, not as a separate step; the constructor's publisher set-up is part of the routing model.
- RateLimiter.PassedSpaced: assumes arrival times other than zero, since zero means that nothing was sent yet.
- TopicMetrics.SnapshotReportsHistory: latency averages, jitter and the stability score are not modelled.
- FrameSequence.Accounting: counters do not overflow; the call that feeds it from the receive path is not part of the pipeline model.
- ServiceQueue.OneReplyBeforeClose: what Zenoh does with an exception thrown out of its query callback is not modelled; the query goes unanswered and the session goes on. A query that reaches the callback after the transport object is gone gets no reply either, and is not counted as having arrived.
- Receiver.TopicReceiver.FinishEnvelope: something other than a std::exception thrown while publishing ends the process and is not a step of the model.
- Null output pointers, log messages and memory exhaustion.
- Parameter reading and XmlRpc conversion; rules start out parsed, host selections as lists of strings.
- The mapping of queue policies to Zenoh priorities and congestion control beyond the table itself.
- Service proxies' name prefixes, endpoint validation and session configuration.
- Resolution of ROS names by the node handle, which may refuse a name.
- The terminal user interface, the diagnostics cache, the logger, the configuration loader and the vendored `cv_bridge`.
