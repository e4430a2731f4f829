# Verified model of the Torpedo controller core and its web console

This project models, in Dafny, the hard logic of the Torpedo OpenFlow controller and of the browser
code it ships: how OpenFlow messages are cut from and written to a byte stream, how the console lays
out a topology, how read events are dispatched to worker threads, and four algorithms of the bundled
browser libraries (callback lists and promises, selector caches, a word diff, digit grouping).

`dafny verify dfyconfig.toml` checks everything. Every claim below is about all inputs, all runs or
all interleavings; nothing is claimed about executions of the original program.

## The parts

**Framing** (`Frames`, `ChannelBuffers`, `AsyncStream`, `EndToEnd`, `Session`, `RawCodec`).
`Frames` holds the header arithmetic, the message writers as sequences of buffer calls (with the
length patched in afterwards), the laws asked of the codec, and `Parse`, the reference decoder of a
byte string. `ChannelBuffers` has the two socket buffers with the position, limit and mark of the
`ByteBuffer` they wrap, over a fixed array, and a socket that moves any number of bytes or fails.
`AsyncStream` is the stream class: `Read` is tied to `Parse`, `Write` and `Flush` to what leaves the
buffer. `EndToEnd` proves, on the states that these contracts describe, the round trip over every
interleaving and independence from fragmentation for arbitrary bytes. `Session` plays scripts on two
live streams and carries the round trip back to the objects. `RawCodec` is a codec that meets the
laws, so that they are known to be consistent. The header layout is that of section 5.1 of the
OpenFlow Switch Specification 1.0.0.

**Topology** (`Graphs`, `MinimumDistances`, `Eccentricity`, `TreeCentre`, `Layout`).
The in-place Floyd-Warshall is proved to give shortest hop counts, with no condition on the node list
and with self-links allowed: a self-link overwrites the zero on the diagonal, and that is exactly
where the table differs from the minimum number of hops. On top of it: the estimates and the network
width, the parent forest, the theorem that on a tree the roots of the forest are the centre (one
node, or two adjacent ones), and the traversal that hands out angles
and positions.

**Dispatch** (`Dispatch`, `DispatchSafety`, `DispatchProgress`).
A step system of n workers, their transfer queues and the threads that read connections, with
interrupted transfers, draining in single steps, connections going down at any time, protocol calls that
succeed, refuse or throw, and shutdown, which a worker that is past its loop test does not notice. The
account of every connection is an invariant of every schedule, and `DispatchProgress` shows that a worker
that is alive gets its work done and that one told to quit stops.

**Callbacks and promises** (`CallbackQueue`, `CallbackList`, `CallbackOptions`, `Notifications`, `Deferreds`,
`ProgressList`, `DeferredObject`, `Listeners`, `When`, `WhenAccounts`, `WhenRuns`, `WhenSettles`, `WhenObject`).
`CallbackList` is the list as written, with the index and the end of the firing moved by hand; it is
proved to refine `CallbackQueue`, a queue with a cursor, for all four options. Calls made from inside
a running callback are ordinary operations on a list that is firing. The guarantees are proved for
every run of the queue. A Deferred is three such lists, on values (`Deferreds`) and as an object
(`DeferredObject`). For a Deferred the steps may interleave more freely than nested calls can, so
that every nesting is covered. `Listeners` says when a function added from outside is called; `When` is a
call of `when` over any Deferreds of a page together with all that is done to them afterwards,
`WhenAccounts` and `WhenRuns` are its invariant, and `WhenSettles` is what its master promise says on
return, at every later moment, and once all is quiet.
`WhenObject` is the counter and the array that the callbacks close over.

**Selector caches** (`SelectorCache`, `NthChild`).
The combinator walk with its per-node cache gives, for every element of a run, the answer of the walk
without one, for chains of all four combinators and for comma-separated groups, whatever earlier runs
have left in the cache. The remembered sibling index gives the index that counting gives.

**Smaller algorithms** (`Diff`, `DiffOutput`, `Grouping`).

## Where the code and its documentation differ

- `OFMessageInStream` documents `limit` as the maximum number of messages; the loop test admits one
  more. `Frames.LimitCount` gives the exact number, `Frames.DocumentedLimitExceeded` the inputs on
  which the documented bound fails, and `Frames.DocumentedLimitIffFewBuffered` says when it holds.
- With a self-link, `minimumDistances` reports one hop from the node to itself
  (`Graphs.SelfLinkExample`); `Graphs.ExactMeansMinHops` says that this is the only difference.
- `when` does not resolve at the moment when its last input does: a callback that it adds to a list which
  is firing waits in line. `WhenSettles.PendingInsideCallback` is a call that returns a pending promise
  although its only promise is settled; `WhenSettles.OnReturn` and `WhenSettles.ResolvedUnlessWaiting`
  say exactly when this happens, and `WhenSettles.QuietMasterIsSettled` that it does not last.
- `expandNumber` fills a number with a negative exponent up with zeros behind the digits instead of in
  front (`Grouping.ShiftBackExample`); `Grouping.ShiftBackScalesIff` says when the result is right.

## Model

| member | source | states |
|---|---|---|
| Frames.ShortRoundTrip | Torpedo/src/org/openflow/protocol/factory/OFHeader.java:35-53 | a length written as a 16-bit big-endian short is read back as the same unsigned number although the header field is a signed short |
| Frames.BigEndianReadsBack | Torpedo/src/org/openflow/io/SocketWriteByteChannelBuffer.java:675-837 | bytes written most significant first read back as the integer written, up to what they can hold |
| Frames.AppendedHolds | Torpedo/src/org/openflow/io/SocketWriteByteChannelBuffer.java:675-837 | a byte, short, int and long take one, two, four and eight bytes that hold the value; bytes are taken as they are and zeros are zeros |
| Frames.UnlimitedIgnoresCount | Torpedo/src/org/openflow/io/OFMessageAsyncStream.java:103-103 | with limit 0 the number of messages already collected has no effect on the pass |
| Frames.ParseStep | Torpedo/src/org/openflow/io/OFMessageAsyncStream.java:104-135 | one turn over a complete frame consumes exactly the declared length, at least 8 bytes when it parses, and fails the pass when the reader refuses the frame |
| Frames.ParseTurn | Torpedo/src/org/openflow/io/OFMessageAsyncStream.java:103-136 | every loop turn either stops with the remainder in place, fails, or adds one message and advances by the declared length |
| Frames.FrameIsLocal | Torpedo/src/org/openflow/io/OFMessageAsyncStream.java:111-116 | bytes behind a complete frame change neither its length nor its decoding |
| Frames.ParseThenResume | Torpedo/src/org/openflow/io/OFMessageAsyncStream.java:97-137 | stopping for any limit or for want of bytes and resuming later yields the same messages, remainder and success as decoding all bytes at once |
| Frames.LimitCount | Torpedo/src/org/openflow/io/OFMessageAsyncStream.java:103-103 | a pass with limit k > 0 returns exactly the smaller of k + 1 and the number of complete messages |
| Frames.NegativeLimitTakesNothing | Torpedo/src/org/openflow/io/OFMessageAsyncStream.java:103-103 | a pass with a negative limit takes nothing |
| Frames.DocumentedLimitIffFewBuffered | Torpedo/src/org/openflow/io/OFMessageInStream.java:25-35 | the documented maximum of limit messages holds if and only if no more than limit complete messages are buffered; limit + 1 is never exceeded |
| Frames.DocumentedLimitExceeded | Torpedo/src/org/openflow/io/OFMessageAsyncStream.java:103-103 | over the encodings of more than limit messages a pass with that limit returns limit + 1 of them |
| Frames.ParseMakesProgress | Torpedo/src/org/openflow/io/OFMessageAsyncStream.java:103-113 | a pass with a non-negative limit takes a message or fails exactly when a complete frame is buffered |
| Frames.RemainderHasNoFrame | Torpedo/src/org/openflow/io/OFMessageAsyncStream.java:33-137 | an unlimited pass leaves a suffix of its input that has no complete frame and at most 65534 bytes |
| Frames.DecodeInvertsEncode | Torpedo/src/org/openflow/io/OFMessageAsyncStream.java:71-137 | decoding the concatenated encodings of any messages gives back the messages and leaves nothing |
| Frames.EncodeAllConcat | Torpedo/src/org/openflow/io/OFMessageAsyncStream.java:71-90 | the encoding of two lists of messages in a row is the two encodings in a row |
| ChannelBuffers.SocketReadByteChannelBuffer.Read | Torpedo/src/org/openflow/io/SocketReadByteChannelBuffer.java:44-51 | on success the readable bytes are those held before followed by those received, in drain mode; on -1 the buffer stays in fill mode unchanged |
| ChannelBuffers.SocketReadByteChannelBuffer.DiscardReadBytes | Torpedo/src/org/openflow/io/SocketReadByteChannelBuffer.java:118-121 | returns to fill mode holding exactly the unread bytes |
| ChannelBuffers.SocketReadByteChannelBuffer.Clear | Torpedo/src/org/openflow/io/SocketReadByteChannelBuffer.java:98-101 | returns to fill mode holding nothing, which on an empty remainder is what compacting does |
| ChannelBuffers.SocketReadByteChannelBuffer.MarkReaderIndex | Torpedo/src/org/openflow/io/SocketReadByteChannelBuffer.java:332-335 | the mark is the reader index |
| ChannelBuffers.SocketReadByteChannelBuffer.ResetReaderIndex | Torpedo/src/org/openflow/io/SocketReadByteChannelBuffer.java:489-492 | the reader index goes back to the mark |
| ChannelBuffers.SocketReadByteChannelBuffer.SetReaderIndex | Torpedo/src/org/openflow/io/SocketReadByteChannelBuffer.java:484-487 | the reader index is as given; a mark ahead of it is dropped and any other is kept |
| ChannelBuffers.SocketReadByteChannelBuffer.ReadShort | Torpedo/src/org/openflow/io/SocketReadByteChannelBuffer.java:433-436 | two bytes are consumed as a signed big-endian short |
| ChannelBuffers.SocketWriteByteChannelBuffer.Put | Torpedo/src/org/openflow/io/SocketWriteByteChannelBuffer.java:675-702 | bytes are appended whole when they fit and refused without change otherwise |
| ChannelBuffers.SocketWriteByteChannelBuffer.PutZero | Torpedo/src/org/openflow/io/SocketWriteByteChannelBuffer.java:828-837 | zero bytes are appended all together or not at all |
| ChannelBuffers.SocketWriteByteChannelBuffer.PutShortAt | Torpedo/src/org/openflow/io/SocketWriteByteChannelBuffer.java:569-576 | two bytes anywhere under the limit are overwritten in place and nothing else changes; any other index is refused without change |
| ChannelBuffers.SocketWriteByteChannelBuffer.SetWriterIndex | Torpedo/src/org/openflow/io/SocketWriteByteChannelBuffer.java:844-847 | the index moves anywhere up to the limit or is refused; rolling back leaves exactly the bytes before it pending |
| ChannelBuffers.SocketWriteByteChannelBuffer.Clear | Torpedo/src/org/openflow/io/SocketWriteByteChannelBuffer.java:81-84 | nothing is pending afterwards |
| ChannelBuffers.SocketWriteByteChannelBuffer.Write | Torpedo/src/org/openflow/io/SocketWriteByteChannelBuffer.java:27-34 | the loop ends under every partial-write behaviour with all pending bytes on the wire in order, or after an I/O error with a prefix of them |
| AsyncStream.AfterWriteConserves | Torpedo/src/org/openflow/io/OFMessageAsyncStream.java:71-82 | one write conserves bytes and order: bytes forced out followed by bytes kept are those buffered before followed by the encoding, what is kept fits, and bytes are forced out exactly when all together would not fit |
| AsyncStream.OFMessageAsyncStream.constructor | Torpedo/src/org/openflow/io/OFMessageAsyncStream.java:40-44 | a new stream has two empty buffers of 65536 bytes, the input buffer in fill mode |
| AsyncStream.OFMessageAsyncStream.Read | Torpedo/src/org/openflow/io/OFMessageAsyncStream.java:51-69 | a socket that reports -1 answers "pending" while its connection is being established and fails otherwise; any other read fails exactly when a frame is refused, and otherwise messages and bytes held are what the reference decoder makes of the bytes held and received, in fill mode |
| AsyncStream.OFMessageAsyncStream.TakeMessages | Torpedo/src/org/openflow/io/OFMessageAsyncStream.java:63-68 | parsing fails exactly with the reference decoder, and otherwise the buffer is back in fill mode with its remainder |
| AsyncStream.OFMessageAsyncStream.ParseMessages | Torpedo/src/org/openflow/io/OFMessageAsyncStream.java:97-137 | returns the messages of the reference decoder and leaves its remainder readable, or fails exactly when it does |
| AsyncStream.OFMessageAsyncStream.PeekLength | Torpedo/src/org/openflow/io/OFMessageAsyncStream.java:104-112 | tells whether a whole frame is readable and its declared length without moving the reader index |
| AsyncStream.OFMessageAsyncStream.DecodeFrame | Torpedo/src/org/openflow/io/OFMessageAsyncStream.java:114-134 | the reader index ends one declared length on, however far the decoder moved it |
| AsyncStream.OFMessageAsyncStream.ReadHeader | Torpedo/src/org/openflow/protocol/factory/OFHeader.java:35-53 | consumes eight bytes and yields the unsigned length field |
| AsyncStream.OFMessageAsyncStream.Write | Torpedo/src/org/openflow/io/OFMessageAsyncStream.java:71-90 | wire and buffer are exactly as if the whole encoding had been appended, after one flush of the earlier bytes if and only if it did not fit; it fails exactly when that flush raises an I/O error |
| AsyncStream.OFMessageAsyncStream.WriteTo | Torpedo/src/org/openflow/io/OFMessageAsyncStream.java:73-80 | a message's writer completes if and only if its whole encoding fits, and a failed attempt leaves the earlier bytes in front |
| AsyncStream.OFMessageAsyncStream.WriteOne | Torpedo/src/org/openflow/io/SocketWriteByteChannelBuffer.java:569-837 | each sequential write or patch has its effect on the bytes of the message in progress, or is refused without change |
| AsyncStream.OFMessageAsyncStream.Flush | Torpedo/src/org/openflow/io/OFMessageAsyncStream.java:144-152 | everything buffered goes out in order, or a prefix of it exactly when an I/O error is raised, and the buffer is empty in both cases |
| EndToEnd.FlushKeeps | Torpedo/src/org/openflow/io/OFMessageAsyncStream.java:144-152 | a flush keeps the accounts of the link |
| EndToEnd.WriteKeeps | Torpedo/src/org/openflow/io/OFMessageAsyncStream.java:71-90 | a write, with or without a forced flush, keeps the accounts of the link |
| EndToEnd.ReadKeeps | Torpedo/src/org/openflow/io/OFMessageAsyncStream.java:51-69 | a read of any number of bytes with any limit succeeds and keeps the accounts of the link |
| EndToEnd.RunKeeps | Torpedo/src/org/openflow/io/OFMessageAsyncStream.java:51-153 | every reachable state of every interleaving satisfies the accounts |
| EndToEnd.RunConserves | Torpedo/src/org/openflow/io/OFMessageAsyncStream.java:71-152 | every step of every run keeps the bytes sent followed by the bytes buffered equal to the encodings of all written messages |
| EndToEnd.AlwaysConserved | Torpedo/src/org/openflow/io/OFMessageAsyncStream.java:71-152 | from the start, in every run without I/O error, wire plus buffer are exactly the concatenated encodings of all written messages |
| EndToEnd.EndToEndRoundTrip | Torpedo/src/org/openflow/io/OFMessageAsyncStream.java:51-153 | in every run the deliveries are a prefix of the flushed messages, no read can fail, and once the bytes have arrived and been read the deliveries are exactly the flushed messages |
| EndToEnd.ReadingCompletes | Torpedo/src/org/openflow/io/OFMessageAsyncStream.java:46-69 | from every reachable state some reads with limit 0 deliver every flushed message and leave nothing held or on the way |
| EndToEnd.FragmentationIndependence | Torpedo/src/org/openflow/io/OFMessageAsyncStream.java:51-69 | for arbitrary bytes, any split into reads with any limits gives the messages and the failure of decoding everything at once |
| EndToEnd.UnlimitedReadsDecodeAll | Torpedo/src/org/openflow/io/OFMessageAsyncStream.java:46-69 | reads with limit 0 return the whole decoding and hold exactly the undecoded suffix, at most 65534 bytes |
| EndToEnd.UnlimitedLeavesNoFrame | Torpedo/src/org/openflow/io/OFMessageAsyncStream.java:103-112 | between reads with limit 0 no complete frame is held |
| Session.Conversation.SendMessage | Torpedo/src/org/openflow/io/OFMessageAsyncStream.java:87-90 | writing on the live stream takes the link through its write step, and fails only on an I/O error |
| Session.Conversation.FlushOut | Torpedo/src/org/openflow/io/OFMessageAsyncStream.java:144-152 | flushing the live stream takes the link through its flush step, and fails exactly on an I/O error |
| Session.Conversation.ReceiveSome | Torpedo/src/org/openflow/io/OFMessageAsyncStream.java:51-69 | reading the live stream takes the link through its read step for some number of bytes, or changes nothing while the connection is pending, and fails exactly at the end of the stream |
| Session.Conversation.Conclude | Torpedo/src/org/openflow/io/OFMessageAsyncStream.java:35-153 | whatever state two live streams are in, deliveries are a prefix of the messages written, and all of them when the buffers and the network are empty |
| Session.Conversation.Play | Torpedo/src/org/openflow/io/OFMessageAsyncStream.java:35-153 | for every script on two live streams the messages returned are a prefix of those written, and all of them once nothing is left in a buffer or on the way; a script is only broken off by an I/O error or the end of the stream |
| RawCodec.WriterShape | Torpedo/src/org/openflow/protocol/factory/OFHeader.java:47-53 | a writer that patches its length in last produces the header layout that the reader expects |
| RawCodec.TheCodecIsLawful | Torpedo/src/org/openflow/io/OFMessageAsyncStream.java:75-116 | the laws assumed of the message codec can be met together |
| Graphs.ExactMeansMinHops | Torpedo/web/js/controllers/topology.js:6-54 | a cell is undefined exactly when no path exists, and is the minimum number of hops exactly when it is not the diagonal cell of a self-linked node, which is 1 |
| Graphs.SelfLinkExample | Torpedo/web/js/controllers/topology.js:14-17 | a single self-linked node gets distance 1 to itself where the minimum is 0 |
| Graphs.ExactSymmetric | Torpedo/web/js/controllers/topology.js:14-17 | the table is symmetric |
| Graphs.ExactTriangle | Torpedo/web/js/controllers/topology.js:37-50 | the table satisfies the triangle inequality and definedness is transitive |
| Graphs.ExactAdjacent | Torpedo/web/js/controllers/topology.js:14-17 | linked nodes are one hop apart |
| MinimumDistances.MinimumDistances | Torpedo/web/js/controllers/topology.js:6-54 | every cell of the result is the length of a shortest walk, and undefined when there is none |
| MinimumDistances.Initialize | Torpedo/web/js/controllers/topology.js:9-17 | the table starts with ones for links, zeros on the rest of the diagonal, and is undefined elsewhere |
| MinimumDistances.Round | Torpedo/web/js/controllers/topology.js:38-49 | updating the table while reading it has the effect of relaxing every cell at once through node k |
| MinimumDistances.PivotUnchanged | Torpedo/web/js/controllers/topology.js:40-47 | row k and column k do not change in round k, and relaxing a cell twice is relaxing it once |
| MinimumDistances.RoundSound | Torpedo/web/js/controllers/topology.js:37-50 | after a round every defined cell is still the length of a walk |
| MinimumDistances.RoundComplete | Torpedo/web/js/controllers/topology.js:37-50 | after round k no walk through the first k nodes is shorter than its cell |
| MinimumDistances.SplitAtPivot | Torpedo/web/js/controllers/topology.js:40-47 | a walk through node k is at least as long as its part up to the first k plus its part from the last k |
| Eccentricity.CenterEstimate | Torpedo/web/js/controllers/topology.js:57-68 | in whatever order the row is visited, the result is the largest defined distance from the node |
| Eccentricity.NetworkWidth | Torpedo/web/js/controllers/topology.js:70-80 | the result is the largest centre estimate |
| Eccentricity.DiameterAtMostTwice | Torpedo/web/js/controllers/topology.js:57-80 | any two nodes reachable from a node are within twice its estimate, and so are their estimates |
| Eccentricity.WidthBounds | Torpedo/web/js/controllers/topology.js:57-80 | in a connected network the width is the diameter: no two nodes are farther apart, some two are exactly that far apart, and it is at most twice any estimate |
| Eccentricity.NeighbourEstimates | Torpedo/web/js/controllers/topology.js:57-68 | estimates of linked nodes differ by at most one and are at least one |
| Eccentricity.FindParentNode | Torpedo/web/js/controllers/topology.js:97-113 | returns the first neighbour of smaller value that the links offer, or the node itself |
| Eccentricity.ParentIsFirstOffer | Torpedo/web/js/controllers/topology.js:97-113 | the parent is the smaller end that the first link to have one offers |
| Eccentricity.OfferedIff | Torpedo/web/js/controllers/topology.js:99-107 | a link offers its other end exactly when that has a smaller value |
| Eccentricity.ParentIsSmallerNeighbour | Torpedo/web/js/controllers/topology.js:97-113 | a node is its own parent exactly when no neighbour has a smaller value; any other parent is a neighbour of strictly smaller value |
| Eccentricity.RootOf | Torpedo/web/js/controllers/topology.js:97-113 | following parents from any node ends at a node that is its own parent |
| TreeCentre.OneWayTowards | Torpedo/web/js/controllers/topology.js:97-113 | in a tree only one neighbour of a node is no farther from a given other node |
| TreeCentre.Away | Torpedo/web/js/controllers/topology.js:97-113 | in a tree, a walk that has started to move away from a node keeps moving away from it |
| TreeCentre.DownhillNeighbour | Torpedo/web/js/controllers/topology.js:97-113 | in a tree, a node that is not central has a neighbour of strictly smaller estimate |
| TreeCentre.RootsAreCentral | Torpedo/web/js/controllers/topology.js:56-113 | in a tree findParentNode returns the node itself exactly for the nodes of minimum eccentricity |
| TreeCentre.CentralNodesTouch | Torpedo/web/js/controllers/topology.js:56-113 | in a tree two nodes of minimum eccentricity are adjacent |
| TreeCentre.NoTriangle | Torpedo/web/js/controllers/topology.js:97-113 | in a tree two neighbours of a node are not linked to each other |
| TreeCentre.OneOrTwoRoots | Torpedo/web/js/controllers/topology.js:97-113 | a tree has one root or two adjacent ones |
| Layout.ParentComesFirst | Torpedo/web/js/controllers/topology.js:115-125 | in the sorted traversal a parent comes before its child and has a value of at least 1 |
| Layout.NDistance | Torpedo/web/js/controllers/topology.js:82-84 | the radius times the value is 250, so it is positive and at most 250 for a value of at least 1 |
| Layout.Distance | Torpedo/web/js/controllers/topology.js:86-89 | the link length is the greater of the radii that its two ends give their children, positive and at most 250 |
| Layout.AdjustXandY | Torpedo/web/js/controllers/topology.js:115-153 | every read of a parent's degree or position is of its final one; roots get -45 and stay where they are, and the r-th child of a parent gets the parent's degree less 180 plus r turns and the point in that direction at the parent's radius |
| Layout.SortedIsForest | Torpedo/web/js/controllers/topology.js:115-125 | in ascending order of value every node is its own parent or comes after its parent |
| Layout.ChildStep | Torpedo/web/js/controllers/topology.js:122-132 | one more child gets the angle its rank calls for, and every earlier node keeps its own |
| Layout.PlaceOne | Torpedo/web/js/controllers/topology.js:140-144 | placing a node moves none of the nodes placed before it, nor the points they hang from |
| Layout.ChildAngle | Torpedo/web/js/controllers/topology.js:124-129 | the next child of a parent gets the parent's degree less 180 plus as many turns as its rank among the children, whether the running degree was set before or not |
| Layout.ChildrenAre | Torpedo/web/js/controllers/topology.js:119-131 | the rank counts the children of the parent among the nodes visited so far |
| Layout.TurnsAre | Torpedo/web/js/controllers/topology.js:124-129 | so many turns are that multiple of one turn |
| Layout.PolarIsThere | Torpedo/web/js/controllers/topology.js:140-144 | the new position is at the given distance, in the given direction |
| Layout.NoChildrenYet | Torpedo/web/js/controllers/topology.js:115-131 | no child of a node is visited before the node, so its running degree is unset when it gets its own |
| Layout.EstimatesArePlaceable | Torpedo/web/js/controllers/topology.js:329-341 | with values computed from the distance table both ends of every link have a value of at least 1 |
| DispatchSafety.BalancedDecide | Torpedo/src/etri/sdn/controller/OFController.java:156-195 | deciding the next undecided messages, each passed on or dropped, keeps an account: those passed on are logged in order and the rest stay undecided |
| DispatchSafety.DeliverKeeps | Torpedo/src/etri/sdn/controller/OFController.java:384-387 | handing over a batch keeps every connection's account |
| DispatchSafety.EnqueueKeeps | Torpedo/src/etri/sdn/controller/OFController.java:119-133 | putting an item in the worker's queue keeps every account |
| DispatchSafety.InterruptKeeps | Torpedo/src/etri/sdn/controller/OFController.java:121-130 | an interrupted transfer that is retried neither loses, repeats nor reorders messages |
| DispatchSafety.TakeHeadKeeps | Torpedo/src/etri/sdn/controller/OFController.java:148-154 | polling or draining an item keeps every account |
| DispatchSafety.TakeKeeps | Torpedo/src/etri/sdn/controller/OFController.java:156-159 | looking at the next item, or skipping it because its connection is down, keeps every account |
| DispatchSafety.ProcessKeeps | Torpedo/src/etri/sdn/controller/OFController.java:181-195 | passing one message on, whether it succeeds, is refused or throws, keeps every account |
| DispatchSafety.StepKeeps | Torpedo/src/etri/sdn/controller/OFController.java:119-195 | every step of every thread keeps the invariant: all accounts, own work only, and calls with an empty context by the right worker |
| DispatchSafety.CleanLogKeeps | Torpedo/src/etri/sdn/controller/OFController.java:181-190 | every call is made by its connection's worker with the context as clearing leaves it, whatever earlier calls put there |
| DispatchSafety.AllOwnWorkKeeps | Torpedo/src/etri/sdn/controller/OFController.java:385-387 | queues, batches and items in progress of a worker are always of its own connections |
| DispatchSafety.RunKeeps | Torpedo/src/etri/sdn/controller/OFController.java:119-195 | the invariant holds after every schedule |
| DispatchSafety.OrderAndAtMostOnce | Torpedo/src/etri/sdn/controller/OFController.java:119-195 | after every schedule each call was made by the connection's one worker with an empty context, and the messages passed on are an order-preserving selection without duplicates of those delivered |
| DispatchSafety.NothingLost | Torpedo/src/etri/sdn/controller/OFController.java:139-195 | unless the connection is found down or a call is refused, the messages passed on followed by those on their way are exactly those delivered, and the messages passed on are all of them once worker and thread are at rest |
| DispatchProgress.DeliverDelivers | Torpedo/src/etri/sdn/controller/OFController.java:384-387 | a batch handed over is delivered to its connection and to no other |
| DispatchProgress.OnlyDeliverDelivers | Torpedo/src/etri/sdn/controller/OFController.java:119-195 | and nothing else delivers |
| DispatchProgress.InterruptWithdraws | Torpedo/src/etri/sdn/controller/OFController.java:121-130 | an interrupted transfer takes its item out of the queue and is about to be made again |
| DispatchProgress.CallDecides | Torpedo/src/etri/sdn/controller/OFController.java:181-195 | one call passes one message on; exactly a refusal drops the rest of the item, and exactly an exception ends the worker |
| DispatchProgress.TakeDecides | Torpedo/src/etri/sdn/controller/OFController.java:156-159 | exactly an item whose connection is down is dropped, whole |
| DispatchProgress.StepIsPossible | Torpedo/src/etri/sdn/controller/OFController.java:143-163 | a worker that is alive, not told to quit and not at rest can take its next step |
| DispatchProgress.StepLeavesLess | Torpedo/src/etri/sdn/controller/OFController.java:143-163 | and has less to do after it |
| DispatchProgress.WorkGetsDone | Torpedo/src/etri/sdn/controller/OFController.java:119-195 | from every reachable state in which its worker is alive and not told to quit, the worker's own steps bring a connection to rest, and unless messages were dropped all delivered ones have then been passed on |
| DispatchProgress.QuitTells | Torpedo/src/etri/sdn/controller/OFController.java:109-111 | a worker is told to quit by `shutdown` only, and for good |
| DispatchProgress.ShutdownStops | Torpedo/src/etri/sdn/controller/OFController.java:143-143 | a worker told to quit has stopped when it is at its loop test |
| DispatchProgress.StoppedMakesNoCalls | Torpedo/src/etri/sdn/controller/OFController.java:143-170 | a worker that has stopped, or ended with an exception, makes no call in any schedule |
| CallbackQueue.PushKeeps | Torpedo/web/lib/jquery-ui-1.10.2/jquery-1.9.1.js:1058-1074 | registering functions keeps the accounts of a "once memory" list |
| CallbackQueue.LoopKeeps | Torpedo/web/lib/jquery-ui-1.10.2/jquery-1.9.1.js:1036-1053 | calling the next entry or ending the firing keeps them |
| CallbackQueue.RemoveKeeps | Torpedo/web/lib/jquery-ui-1.10.2/jquery-1.9.1.js:1089-1108 | removing a function, also while firing, takes out the entries registered for it and no other, behind and ahead of the running one, and keeps the accounts |
| CallbackQueue.DisableKeeps | Torpedo/web/lib/jquery-ui-1.10.2/jquery-1.9.1.js:1120-1123 | disabling at any time keeps the accounts |
| CallbackQueue.StepKeeps | Torpedo/web/lib/jquery-ui-1.10.2/jquery-1.9.1.js:1029-1152 | every operation keeps the accounts and takes back neither a call nor the arguments |
| CallbackQueue.OnceMemoryAlways | Torpedo/web/lib/jquery-ui-1.10.2/jquery-1.9.1.js:1004-1165 | in every run, calls from inside callbacks included, entries are called in registration order, none twice, all with the first firing's arguments |
| CallbackQueue.IdleCounts | Torpedo/web/lib/jquery-ui-1.10.2/jquery-1.9.1.js:1029-1054 | on an idle list that has fired, a registration has been called exactly once, or never if it was dropped first |
| CallbackQueue.ExactlyOnce | Torpedo/web/lib/jquery-ui-1.10.2/jquery-1.9.1.js:1004-1165 | in every run from an empty list, a registration has been called exactly once when the list has fired and is idle, or never if its function was removed, or the list disabled or locked unfired, while it waited |
| CallbackQueue.NothingDropped | Torpedo/web/lib/jquery-ui-1.10.2/jquery-1.9.1.js:1058-1107 | no registration is dropped in a run exactly when no step takes a waiting one away, and so in every run without remove, disable or lock |
| CallbackQueue.StepTakes | Torpedo/web/lib/jquery-ui-1.10.2/jquery-1.9.1.js:1058-1135 | a step drops exactly the waiting entries whose function it removes, or all of them when it disables the list or locks it unfired |
| CallbackQueue.RunTakes | Torpedo/web/lib/jquery-ui-1.10.2/jquery-1.9.1.js:1004-1165 | a run drops exactly what its steps take away |
| CallbackQueue.StepServes | Torpedo/web/lib/jquery-ui-1.10.2/jquery-1.9.1.js:1029-1152 | an entry that waits or has been called still does after any step that does not take it away |
| CallbackQueue.SparedOrDropped | Torpedo/web/lib/jquery-ui-1.10.2/jquery-1.9.1.js:1004-1165 | at the end of a run an entry waits or has been called if no step took it away, and is dropped for good otherwise |
| CallbackQueue.CalledOnceIfSpared | Torpedo/web/lib/jquery-ui-1.10.2/jquery-1.9.1.js:1004-1165 | on a fired idle list an entry has been called exactly once if no step took it away while it waited, and otherwise never |
| CallbackQueue.RemainingEntryServed | Torpedo/web/lib/jquery-ui-1.10.2/jquery-1.9.1.js:1089-1108 | whatever other functions are removed, and whenever, an entry whose own function is not removed from a list not disabled or locked is waiting or called, and called exactly once when the fired list is idle |
| CallbackQueue.AddRegisters | Torpedo/web/lib/jquery-ui-1.10.2/jquery-1.9.1.js:1058-1087 | adding before, during or after firing puts every function on the books, in order, under its own ticket |
| CallbackQueue.EveryAddedFunctionOnce | Torpedo/web/lib/jquery-ui-1.10.2/jquery-1.9.1.js:1004-1165 | a function added at any moment of any run from an empty list is called exactly once by the time the fired list is idle, if it was not taken away while it waited, and otherwise never |
| CallbackQueue.FlagStaysUp | Torpedo/web/lib/jquery-ui-1.10.2/jquery-1.9.1.js:1029-1035 | a list that is firing or remembers counts as fired, for every option and every operation |
| CallbackOptions.PushUnique | Torpedo/web/lib/jquery-ui-1.10.2/jquery-1.9.1.js:1064-1069 | adding to a `unique` list puts every function on it, none twice |
| CallbackOptions.UniqueAlways | Torpedo/web/lib/jquery-ui-1.10.2/jquery-1.9.1.js:1004-1165 | and no run does |
| CallbackOptions.FalseStops | Torpedo/web/lib/jquery-ui-1.10.2/jquery-1.9.1.js:1036-1041 | on a `stopOnFalse` list a callback that returns false ends the firing: nobody behind it, and nobody added later, is called with its data |
| CallbackOptions.FalseIsIgnored | Torpedo/web/lib/jquery-ui-1.10.2/jquery-1.9.1.js:1036-1041 | on other lists it makes no difference |
| CallbackOptions.OnceOnlyAlways | Torpedo/web/lib/jquery-ui-1.10.2/jquery-1.9.1.js:1004-1165 | a "once" list without memory is over when its firing is, and all its calls are made with the data of that firing |
| Notifications.LoopKeepsBook | Torpedo/web/lib/jquery-ui-1.10.2/jquery-1.9.1.js:1036-1053 | a repeatable list calls the next function with the notification in use, or takes up the next notification |
| Notifications.AddKeepsBook | Torpedo/web/lib/jquery-ui-1.10.2/jquery-1.9.1.js:1058-1087 | functions added join the notification in use, start with the latest one if the list remembers it, or wait for the next |
| Notifications.FireKeepsBook | Torpedo/web/lib/jquery-ui-1.10.2/jquery-1.9.1.js:1141-1152 | a notification is taken up at once, or after those before it |
| Notifications.EveryNotificationReachesAll | Torpedo/web/lib/jquery-ui-1.10.2/jquery-1.9.1.js:1004-1165 | in every run a repeatable list calls every function with every notification from its birth on, notification by notification and within one in order of registration |
| Notifications.IdleHeardAll | Torpedo/web/lib/jquery-ui-1.10.2/jquery-1.9.1.js:1004-1165 | on an idle list each function has been called with exactly the notifications from its birth on, in order |
| CallbackList.Callbacks.Fire | Torpedo/web/lib/jquery-ui-1.10.2/jquery-1.9.1.js:1029-1042 | starts the queue's firing at the requested entry |
| CallbackList.Callbacks.Proceed | Torpedo/web/lib/jquery-ui-1.10.2/jquery-1.9.1.js:1036-1042 | the loop test calls the entry at the head of the queue or ends the firing |
| CallbackList.Callbacks.Finish | Torpedo/web/lib/jquery-ui-1.10.2/jquery-1.9.1.js:1042-1053 | after the loop: next data, emptied list or disabled list, as for the queue |
| CallbackList.Callbacks.Return | Torpedo/web/lib/jquery-ui-1.10.2/jquery-1.9.1.js:1036-1041 | the return of a callback moves the queue on, or stops it on false |
| CallbackList.Callbacks.FireWith | Torpedo/web/lib/jquery-ui-1.10.2/jquery-1.9.1.js:1141-1152 | fires, queues the data behind a running firing, or does nothing |
| CallbackList.Callbacks.Disable | Torpedo/web/lib/jquery-ui-1.10.2/jquery-1.9.1.js:1120-1123 | nothing is left to call or remember |
| CallbackList.Callbacks.Lock | Torpedo/web/lib/jquery-ui-1.10.2/jquery-1.9.1.js:1129-1135 | no further data is accepted, and a list that remembers nothing is disabled |
| CallbackList.Callbacks.Add | Torpedo/web/lib/jquery-ui-1.10.2/jquery-1.9.1.js:1058-1087 | new functions join the current firing, are called at once with remembered arguments, or wait |
| CallbackList.Callbacks.Remove | Torpedo/web/lib/jquery-ui-1.10.2/jquery-1.9.1.js:1089-1108 | the entries behind and ahead of the running one are those before without the function, whatever the index arithmetic |
| CallbackList.Callbacks.SpliceAll | Torpedo/web/lib/jquery-ui-1.10.2/jquery-1.9.1.js:1091-1105 | splicing one by one leaves the filtered list with the index at the same remaining entry |
| CallbackList.RemoveOne | Torpedo/web/lib/jquery-ui-1.10.2/jquery-1.9.1.js:1093-1103 | one splice moves the index back exactly when the entry taken out was not ahead of it |
| CallbackList.RemovedAll | Torpedo/web/lib/jquery-ui-1.10.2/jquery-1.9.1.js:1093-1105 | once no match is left, the list is the filtered one and the index is where it should be |
| Deferreds.CreateInv | Torpedo/web/lib/jquery-ui-1.10.2/jquery-1.9.1.js:1218-1241 | a new Deferred is pending with its own three entries first in both settling lists |
| Deferreds.BuiltinStep | Torpedo/web/lib/jquery-ui-1.10.2/jquery-1.9.1.js:1226-1232 | a running entry of the Deferred's own does exactly its work on the state and the other lists, and its list moves on to the next entry |
| Deferreds.SettleEffect | Torpedo/web/lib/jquery-ui-1.10.2/jquery-1.9.1.js:1226-1240 | the first firing sets the state, disables the other list and locks the progress list before any user callback |
| Deferreds.StepInv | Torpedo/web/lib/jquery-ui-1.10.2/jquery-1.9.1.js:1168-1253 | every action keeps the invariant and the outcome once there is one |
| Deferreds.RunInv | Torpedo/web/lib/jquery-ui-1.10.2/jquery-1.9.1.js:1168-1253 | so does every run |
| Deferreds.SettlesOnce | Torpedo/web/lib/jquery-ui-1.10.2/jquery-1.9.1.js:1168-1253 | the state leaves pending at most once, the settled arguments never change, and only one side ever calls anything, always with the settled arguments |
| Deferreds.FirstSettleWins | Torpedo/web/lib/jquery-ui-1.10.2/jquery-1.9.1.js:1235-1240 | the first resolve or reject settles with its arguments; later ones change nothing |
| Deferreds.EveryCallbackOnce | Torpedo/web/lib/jquery-ui-1.10.2/jquery-1.9.1.js:1168-1253 | when the winning list is idle every function registered on it, early or late, has been called exactly once |
| Deferreds.NoNewsAfterSettling | Torpedo/web/lib/jquery-ui-1.10.2/jquery-1.9.1.js:1225-1233 | after settling, notify changes nothing |
| ProgressList.NotifyReachesAll | Torpedo/web/lib/jquery-ui-1.10.2/jquery-1.9.1.js:1168-1253 | while a Deferred is pending, in every run, each progress callback is called with each notification from its registration on and with the latest one before it, in order of notification and then of registration |
| ProgressList.FirstNotification | Torpedo/web/lib/jquery-ui-1.10.2/jquery-1.9.1.js:1236-1240 | the first notification calls the one function registered with its arguments |
| DeferredObject.DeferredObject.constructor | Torpedo/web/lib/jquery-ui-1.10.2/jquery-1.9.1.js:1168-1244 | three live lists wired as a new Deferred |
| DeferredObject.DeferredObject.Settle | Torpedo/web/lib/jquery-ui-1.10.2/jquery-1.9.1.js:1235-1240 | resolving or rejecting the object is the settling action |
| DeferredObject.DeferredObject.RunBuiltin | Torpedo/web/lib/jquery-ui-1.10.2/jquery-1.9.1.js:1226-1232 | the entry at the running index does its work on the other lists and returns |
| DeferredObject.DeferredObject.Done | Torpedo/web/lib/jquery-ui-1.10.2/jquery-1.9.1.js:1222-1223 | done is the add of the done list |
| DeferredObject.DeferredObject.Notify | Torpedo/web/lib/jquery-ui-1.10.2/jquery-1.9.1.js:1236-1240 | notify fires the progress list |
| Listeners.RegisteringEffect | Torpedo/web/lib/jquery-ui-1.10.2/jquery-1.9.1.js:1058-1087 | adding a function does nothing to a disabled list, calls it on the spot on a fired idle list, and puts it at the end of the line on a list that is firing or has not fired |
| Listeners.IdleHasHeard | Torpedo/web/lib/jquery-ui-1.10.2/jquery-1.9.1.js:1058-1087 | a fired idle list has called everything registered on it |
| Listeners.HeardUnlessWaiting | Torpedo/web/lib/jquery-ui-1.10.2/jquery-1.9.1.js:1036-1042 | a fired list has called exactly those of its registrations that are not in line |
| Listeners.HeardMeansSettled | Torpedo/web/lib/jquery-ui-1.10.2/jquery-1.9.1.js:1226-1240 | a done callback is only ever called on a resolved Deferred, a fail callback on a rejected one |
| Listeners.StepMovesOn | Torpedo/web/lib/jquery-ui-1.10.2/jquery-1.9.1.js:1168-1253 | no action on a Deferred takes back a call, a registration or the settled arguments |
| Listeners.ListenedEffect | Torpedo/web/lib/jquery-ui-1.10.2/jquery-1.9.1.js:1289-1293 | listening in with done, fail and progress changes neither state nor firing, and is called back at once exactly by the list that has fired and is idle |
| WhenAccounts.MissingNone | Torpedo/web/lib/jquery-ui-1.10.2/jquery-1.9.1.js:1274-1276 | the count is at zero exactly when every input has been heard |
| When.OneTells | Torpedo/web/lib/jquery-ui-1.10.2/jquery-1.9.1.js:1271-1271 | a single argument is stored as it is, and several are kept in an array, in order |
| WhenAccounts.MissingUpdate | Torpedo/web/lib/jquery-ui-1.10.2/jquery-1.9.1.js:1268-1278 | hearing one more input takes one off the count |
| WhenAccounts.UpdateKeeps | Torpedo/web/lib/jquery-ui-1.10.2/jquery-1.9.1.js:1268-1278 | the update function stores what its input was resolved with, counts down, and at zero resolves the master with all values |
| WhenAccounts.RejectByKeeps | Torpedo/web/lib/jquery-ui-1.10.2/jquery-1.9.1.js:1292-1292 | the first reject settles the master with the arguments of its input, and none comes after the master is resolved |
| WhenAccounts.HearFromKeeps | Torpedo/web/lib/jquery-ui-1.10.2/jquery-1.9.1.js:1268-1293 | when the lists have called callbacks of `when`, running them makes its records complete again |
| WhenRuns.AttachKeeps | Torpedo/web/lib/jquery-ui-1.10.2/jquery-1.9.1.js:1287-1298 | each turn of the loop over the arguments keeps the accounts and hears exactly the input it attaches |
| WhenRuns.NextIsGood | Torpedo/web/lib/jquery-ui-1.10.2/jquery-1.9.1.js:1256-1304 | whatever is done to any Deferred of the page or to the promise that `when` returned keeps them |
| WhenSettles.GoodAnswers | Torpedo/web/lib/jquery-ui-1.10.2/jquery-1.9.1.js:1268-1304 | the master is resolved, with all values in order, exactly when every promise input has called back, and rejected, with the arguments of an input, exactly when one has called `reject` |
| WhenSettles.WhenAnswers | Torpedo/web/lib/jquery-ui-1.10.2/jquery-1.9.1.js:1256-1304 | so it is in every run after a call of `when` at any moment on any Deferreds, pending, settled or firing, one given twice included |
| WhenSettles.CallsUnlessWaiting | Torpedo/web/lib/jquery-ui-1.10.2/jquery-1.9.1.js:1077-1087 | an input calls back as soon as it is settled, unless the callback is in line behind others on a list that is firing |
| WhenSettles.ResolvedUnlessWaiting | Torpedo/web/lib/jquery-ui-1.10.2/jquery-1.9.1.js:1256-1304 | in every run a resolved master has all inputs resolved, a rejected one a rejected input, and with all inputs resolved the master is resolved if and only if no callback of `when` is in line on a firing list |
| WhenSettles.QuietMasterIsSettled | Torpedo/web/lib/jquery-ui-1.10.2/jquery-1.9.1.js:1256-1304 | in every run, once no input's list is firing, the master is resolved if all inputs are and rejected if one is |
| WhenSettles.OnReturn | Torpedo/web/lib/jquery-ui-1.10.2/jquery-1.9.1.js:1280-1304 | on return the master is resolved if and only if every input is a plain value or resolved with its list not firing, rejected if and only if one is rejected with its list not firing, and pending otherwise |
| WhenSettles.PendingInsideCallback | Torpedo/web/lib/jquery-ui-1.10.2/jquery-1.9.1.js:1077-1078 | called from inside a callback of its only promise, resolved or rejected, `when` returns a pending master, which is settled when that callback has returned |
| WhenObject.Whenever.constructor | Torpedo/web/lib/jquery-ui-1.10.2/jquery-1.9.1.js:1256-1304 | the loop over the arguments and the final test make the state that the call is said to begin with; a single promise is itself the master |
| WhenObject.Whenever.UpdateWith | Torpedo/web/lib/jquery-ui-1.10.2/jquery-1.9.1.js:1268-1278 | the closure over counter and array has the effect of the update function |
| WhenObject.Whenever.Happen | Torpedo/web/lib/jquery-ui-1.10.2/jquery-1.9.1.js:1256-1304 | every event on the page leaves the live object in the state the model gives, and the promises above hold of it |
| SelectorCache.AboveMeansSome | Torpedo/web/lib/jquery-ui-1.10.2/jquery-1.9.1.js:5107-5138 | the uncached walk of a descendant or general-sibling combinator succeeds exactly when some element beyond the starting node matches |
| SelectorCache.AboveMeansClosest | Torpedo/web/lib/jquery-ui-1.10.2/jquery-1.9.1.js:5096-5104 | the uncached walk of a child or adjacent-sibling combinator succeeds exactly when the closest element matches, past any text and comment nodes |
| SelectorCache.MatchesMeans | Torpedo/web/lib/jquery-ui-1.10.2/jquery-1.9.1.js:5141-5153 | a selector matches exactly when all its filters pass and some node that its combinator asks matches the selector before it |
| SelectorCache.CombinatorsExample | Torpedo/web/lib/jquery-ui-1.10.2/jquery-1.9.1.js:5096-5138 | on a division with a heading, white space and a paragraph, the four combinators find what they should and not what they should not |
| SelectorCache.SelectedAre | Torpedo/web/lib/jquery-ui-1.10.2/jquery-1.9.1.js:5326-5359 | the elements selected are those at exactly the places where one of the alternatives matches, in order |
| SelectorCache.Sizzle.Match | Torpedo/web/lib/jquery-ui-1.10.2/jquery-1.9.1.js:5141-5153 | a compound with its combinator gives the uncached answer and leaves the cache truthful |
| SelectorCache.Sizzle.Nearest | Torpedo/web/lib/jquery-ui-1.10.2/jquery-1.9.1.js:5096-5104 | child and adjacent-sibling combinators give the answer of the closest element |
| SelectorCache.Sizzle.Walk | Torpedo/web/lib/jquery-ui-1.10.2/jquery-1.9.1.js:5107-5138 | the cached walk, with its early returns, gives the answer of the uncached one |
| SelectorCache.Sizzle.Fill | Torpedo/web/lib/jquery-ui-1.10.2/jquery-1.9.1.js:5128-5134 | claiming a slot and storing the answer keeps the cache truthful while inner walks reuse it |
| SelectorCache.Sizzle.SuperMatcher | Torpedo/web/lib/jquery-ui-1.10.2/jquery-1.9.1.js:5326-5359 | whatever earlier runs have left in the cache, the results are exactly the elements that the uncached matchers accept, in order |
| SelectorCache.Sizzle.AnyGroup | Torpedo/web/lib/jquery-ui-1.10.2/jquery-1.9.1.js:5348-5354 | an element matches when one of the comma-separated alternatives does |
| NthChild.FrontAndEnd | Torpedo/web/lib/jquery-ui-1.10.2/jquery-1.9.1.js:4716-4760 | an element's index from the front and from the end add up to one more than the number of elements |
| NthChild.AcceptsExactly | Torpedo/web/lib/jquery-ui-1.10.2/jquery-1.9.1.js:4762-4764 | the final test, with JavaScript's remainder, accepts exactly the indices first*n + last with n >= 0 |
| NthChild.TermSteps | Torpedo/web/lib/jquery-ui-1.10.2/jquery-1.9.1.js:4762-4764 | the terms start at last and go up by first |
| NthChild.Siblings.NewRun | Torpedo/web/lib/jquery-ui-1.10.2/jquery-1.9.1.js:5336-5337 | a new run may find any children; what was remembered is no longer used |
| NthChild.Siblings.SeekForward | Torpedo/web/lib/jquery-ui-1.10.2/jquery-1.9.1.js:4719-4737 | the search from the remembered sibling ends and gives the index counted from the first child |
| NthChild.Siblings.SeekBackward | Torpedo/web/lib/jquery-ui-1.10.2/jquery-1.9.1.js:4740-4760 | the remembered or searched index is the one counted from the last child |
| NthChild.Siblings.IsNthChild | Torpedo/web/lib/jquery-ui-1.10.2/jquery-1.9.1.js:4680-4766 | in any order of queries, true exactly for the elements whose index is first*n + last for some n >= 0 |
| NthChild.Siblings.IsNthLastChild | Torpedo/web/lib/jquery-ui-1.10.2/jquery-1.9.1.js:4680-4766 | the same counted from the end |
| Diff.Index | Torpedo/web/lib/jquery-ui-1.10.2/external/qunit.js:2018-2036 | maps exactly the words of a text to their positions in order |
| Diff.LinkRows | Torpedo/web/lib/jquery-ui-1.10.2/external/qunit.js:2043-2050 | linking two equal unlinked words keeps the links mutual and every text unchanged |
| Diff.LinkUniques | Torpedo/web/lib/jquery-ui-1.10.2/external/qunit.js:2038-2052 | in whatever order words are visited, every word written once in each text is linked to itself, and no other word is linked |
| Diff.JoinsRow | Torpedo/web/lib/jquery-ui-1.10.2/external/qunit.js:2054-2082 | a word linked next to a linked one joins the unbroken row of links to a word written once in each text |
| Diff.ExtendLinks | Torpedo/web/lib/jquery-ui-1.10.2/external/qunit.js:2054-2067 | links are kept and no link can be extended forward any more |
| Diff.ExtendBack | Torpedo/web/lib/jquery-ui-1.10.2/external/qunit.js:2069-2082 | links are kept and no link can be extended in either direction any more |
| Diff.LinkWords | Torpedo/web/lib/jquery-ui-1.10.2/external/qunit.js:2013-2088 | after the passes links are mutual between equal words, unique words are linked, no link can be extended, and from every linked word an unbroken row of links to old words in a row leads to a unique one |
| DiffOutput.OnlyOnePrecedes | Torpedo/web/lib/jquery-ui-1.10.2/external/qunit.js:2134-2136 | an old word lies in the run of at most one linked new word |
| DiffOutput.SomeonePrecedes | Torpedo/web/lib/jquery-ui-1.10.2/external/qunit.js:2134-2136 | an unlinked old word behind a linked one lies in the run of some new word |
| DiffOutput.EmitRun | Torpedo/web/lib/jquery-ui-1.10.2/external/qunit.js:2121-2136 | deletes exactly the unlinked words up to the next linked one |
| DiffOutput.Render | Torpedo/web/lib/jquery-ui-1.10.2/external/qunit.js:2114-2142 | without the deletions the output is the new text in order, and an old word is deleted once or not at all: not if it is linked, or lies before the first linked old word while the new text begins with a linked one; each deletion shows its word and space, right behind the old word before it |
| DiffOutput.DiffTexts | Torpedo/web/lib/jquery-ui-1.10.2/external/qunit.js:2011-2143 | for any two texts the undeleted output is the new text, linked words plain and others inserted; an old word is deleted exactly when it is unlinked and not before every linked old word while the new text begins with a linked one, and in its place; links are mutual, unique words linked, nothing extendable, and every link in a row with a unique word |
| Grouping.ZeroPad | Torpedo/web/lib/jquery-ui-1.10.2/external/globalize.js:380-386 | pads with zeros up to the count, in front or behind |
| Grouping.ShiftScales | Torpedo/web/lib/jquery-ui-1.10.2/external/globalize.js:709-714 | moving the decimal point by the exponent multiplies the number written by that power of ten |
| Grouping.ShiftBackScalesIff | Torpedo/web/lib/jquery-ui-1.10.2/external/globalize.js:715-720 | moving the point left for a negative exponent divides by that power of ten if and only if the integer digits are more than the places moved, or all zeros |
| Grouping.ShiftBackExample | Torpedo/web/lib/jquery-ui-1.10.2/external/globalize.js:715-720 | "1e-7" becomes 1.0000000 |
| Grouping.ExpandNumber | Torpedo/web/lib/jquery-ui-1.10.2/external/globalize.js:700-748 | the result is the grouped digits with the point moved by the exponent of either sign, followed by the fraction cut or padded to the precision |
| Grouping.InsertSeparators | Torpedo/web/lib/jquery-ui-1.10.2/external/globalize.js:730-748 | the loop joins the groups with separators, and the return behind it is never reached |
| Grouping.JoinFirst | Torpedo/web/lib/jquery-ui-1.10.2/external/globalize.js:734-746 | one separator stands between each group and the next, and nowhere else |
| Grouping.FractionShows | Torpedo/web/lib/jquery-ui-1.10.2/external/globalize.js:722-728 | exactly `precision` digits are shown behind the point, those of the fraction and then zeros, and none for precision 0 |
| Grouping.GroupLengths | Torpedo/web/lib/jquery-ui-1.10.2/external/globalize.js:734-746 | counted from the right every group but the leftmost has its given size, the last size repeats, 0 leaves the rest ungrouped, and no group is empty |
| Grouping.StripGroups | Torpedo/web/lib/jquery-ui-1.10.2/external/globalize.js:1541-1542 | stripping separators from grouped digits followed by any text gives the digits followed by that text stripped |
| Grouping.StripInvertsGrouping | Torpedo/web/lib/jquery-ui-1.10.2/external/globalize.js:1540-1546 | stripping returns the original digits for all group sizes and separators free of digits, and the grouped text begins with its first digit |

## Left out

- The generated OpenFlow codec is a parameter with stated laws: a writer produces a frame of 8 to 65535 bytes that declares its own length, and the reader looks at the first frame only and refuses a declared length below 8.
- Sockets are objects that move any number of bytes, report -1 or fail. That a send loop ends rests on a stated progress assumption: a socket accepts nothing only finitely often in a row.
- AsyncStream.OFMessageAsyncStream.WriteOne: a message's writer patches only bytes it has written itself, which is one of the laws of the codec.
- Behaviour after an I/O error or a refused frame, when the connection is dropped, beyond what is on the wire and in the buffer at that moment.
- The random-access and conversion helpers of the two channel buffers, which the stream does not use.
- Layout.AdjustXandY: 360 / weight is a number given per node and sine and cosine are an arbitrary function of the angle; floating-point rounding is not modelled.
- The order that `_.sortBy` returns is assumed to be ascending; Underscore is shipped minified.
- Scheduling of timed tasks, module registration and properties of OFController; `protocol.process` is an arbitrary outcome.
- Callback list `empty`: called while the list fires it makes the loop read past the end of the list and throw.
- Callbacks that throw; `then`, `always` and `pipe`, which are built from the operations modelled.
- Progress values of `when`: its master may be notified at any time with anything.
- Sizzle's tokenizer, positional selectors, `:not` and `:has`, XML documents, contexts other than the document, `of-type`, and `uniqueSort`.
- Diff: the word `__proto__`, which the original uses as an object key, and the HTML text of the tags.
- Grouping.ExpandNumber: rounding; the number has been rounded and written out before.
- The switch list of `switches.js`: set differences and unions whose correctness is immediate.
