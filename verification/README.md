# Verification of the uwapp_net application layer

The add-on connects TCP clients to a simulated underwater network. A client frames messages and sends
them to a listener; the listener's thread parses them and queues their payloads; on every tick of a timer
the simulation thread takes one payload off the queue, numbers it and sends it down; the receiving module
drops what is of the wrong type, repeated or late, counts, and frames the rest for its own client. This
project models that pipeline and proves what it promises.

| file | contents |
|---|---|
| `Bytes.dfy` | bytes, little-endian words, subsequences |
| `Framing.dfy` | the message format: printing, parsing, short reads |
| `Receiver.dfy` | one arriving packet, whole streams of arrivals, the counters in drop mode, the verdict as a property of the stream |
| `ReceiverOrder.dfy` | what is delivered, what does not depend on the order of arrival, the packet error rate |
| `Statistics.dfy` | one-pass mean, variance and throughput against their definitions |
| `AppNet.dfy` | the classes `AppNetModule` and `TcpListener`, which update their fields in place as the C++ classes do |
| `Listener.dfy` | the two threads, the mutex, the queue and the stop protocol as interleaved steps |
| `ListenerStop.dfy` | what stop() finds, what becomes of the thread object, how long stop() waits |
| `ListenerRuns.dfy` | undisturbed runs, fair schedules, and which runs exist |
| `Peer.dfy` | the Python client with its partial receives and sends |
| `EndToEnd.dfy` | any number of senders, a network, one receiver: all runs of the whole system, and which outcomes they have |
| `HexDump.dfy` | the hexadecimal printer of the debug output and a reader for it |

`dafny verify dfyconfig.toml` checks everything.

**How the pieces connect.** `Receiver.Step` is what one packet does to the receiver's state and `Receiver.Run`
what a stream does; `AppNetModule.Statistics` is proved to take exactly this step, and `AppNet.RecvAll` to end in
the state of `Run`, so the lemmas about `Run` speak of the object. `Framing.ReceiveChunk` is one call of the
parser; `TcpListener.ReceivePacket` and the loop around it are proved against it, and `Listener` uses the same
function for the step that reads. A schedule of the two threads is a list of moves, a run of the whole system a
list of events, and the theorems are about every such list. That these runs are not empty is proved too:
`ListenerRuns.SendsIntake` and `EndToEnd.EveryArrivalHappens` build the events.

**What the environment decides** is a parameter: the clock value of each arrival, the result of each
`read`, `write`, `recv` and `send`, the outcome of `select` and `accept`, the contents of uninitialised
header variables, and the schedule.

**Where the code differs from its description**, the code is modelled:

- The forward trip time is stored in an `int` (`uwAppNet_module.h:379`) before it becomes a sample, so the mean
  that is reported is that of the times cut to whole seconds. `Statistics.HalfSecondLost` is an input for which it is
  not the mean of the measured times, `Statistics.MeanTripTimeExact` says exactly when it is, and
  `Statistics.MeanTripTime` bounds the error; `Statistics.DeviationOff` bounds that of the standard deviation.
- `hrsn` is described as the highest number received. Outside drop mode it is the last one
  (`Receiver.HighestNotLast`), and the highest only under the condition of `Receiver.HighestOnlyIfLast`.
- `GetPER` takes every non-zero setting of `drop_out_of_order` for drop mode, the receiver only the setting 1
  (`ReceiverOrder.PerOtherModes`). In mode 0 the rate can be negative (`ReceiverOrder.PerNoDropNegative`;
  `ReceiverOrder.PerNoDrop` says exactly when it is a rate).
- Numbering starts at 2, so a loss-free run reports one lost packet (`ReceiverOrder.PerLossless`).
- The guard of the round trip time divides a `bool` by 10000 and is never true (`Statistics.NoRoundTrip`).
- The sample connects several senders to one receiver. They all number from 2 and the receiver keeps one table, so
  they take messages from one another (`EndToEnd.SendersCollide` builds such a run for any two clients;
  `EndToEnd.DeliveredAreLeaders` says which messages get through and `EndToEnd.AllDelivered` when all do).
- A payload read that comes back short is not repeated (`Framing.ChunkedExact` says exactly when the parser still
  recovers the messages, `Listener.QueueFromStreams` when the queue does; `Framing.OneByteRead` and
  `ListenerRuns.ShortReadHappens` are inputs for which they do not), and a send that fails half-way leaves its bytes
  on the wire (`Peer.WireIsFrames`, `Peer.TornByOneByte`).
- `stop()` joins the worker only if `Running()` is still true when it looks. If the worker has finished before, its
  thread object is destroyed without a join, and that terminates the simulator (`ListenerStop.DeletedAfterEnd` says
  when this happens, `ListenerStop.StopTerminates` is a run). Otherwise it waits, as long as the worker sits in
  `accept()` (`ListenerStop.StopCompletes`).
- The client's handler for a broken pipe comes after the one for its base class and is never reached
  (`Peer.BrokenPipeClauseDead`): a broken pipe is raised to the caller (`Peer.SingleNode.SendData`).

## Model

| member | source | states |
|---|---|---|
| Bytes.LE32RoundTrip | tcp_listener.h:161-165 | the four bytes of a word, lowest first, and the word read back from them |
| Bytes.LE32Onto | tcp_listener.h:238-253 | every four bytes are the image of exactly one word |
| Framing.EncodeAppend | tcp_listener.h:155-170 | frames of two lists one after the other are the frames of the joined list |
| Framing.FrameBytes | tcp_listener.h:161-165 | a frame is 69 19 04 20, the four bytes of the size, lowest first, and the message |
| Framing.ReceiveFrame | tcp_listener.h:235-271 | one call of the parser in front of a frame takes the payload, or as much of it as the read delivers, and leaves the rest |
| Framing.ReceiveBytes | tcp_listener.h:235-271 | what one call makes of any bytes, by their values: nothing without 69 19 04 20 and four bytes of size, or for a size above 4096; else the payload, or what the read and the stream give of it |
| Framing.ReceiveStops | tcp_listener.h:244-265 | the call returns 0 exactly for a missing or cut header, a wrong tag, an oversize length, length 0, or no data |
| Framing.ReceiveSome | tcp_listener.h:253-270 | in every other case it returns the payload of a whole frame, or the non-empty rest of a frame the stream ends in |
| Framing.ParseEncoded | tcp_listener.h:155-170 | whole frames come out of the parser as they went in, whatever bytes follow them |
| Framing.RoundTrip | tcp_listener.h:155-170 | parsing the frames of any list of messages of 1 to 4096 bytes gives back that list |
| Framing.UniqueDecoding | README.md:6-13 | two such lists have the same encoding only if they are equal, even if bytes that start no frame follow one of them |
| Framing.ParseOfSplit | tcp_listener.h:273-345 | a stream of whole frames and a tail yields these messages, plus the truncated one if the tail is a cut frame, and nothing behind the first bad frame |
| Framing.ParseSplits | tcp_listener.h:273-345 | every byte stream splits that way, so this describes the parser on all streams |
| Framing.FullReads | tcp_listener.h:266-281 | with reads that are not short, n calls yield the first n messages of the stream |
| Framing.ChunkedExact | tcp_listener.h:266-281 | the parser recovers framed messages if and only if every payload read delivers its payload in one piece |
| Framing.ChunkedFrame | tcp_listener.h:266-281 | in front of a frame a read takes its share of the payload, and the loop goes on behind it, short or not |
| Framing.ChunkedTruncated | tcp_listener.h:266-281 | the same in front of what is left of a frame |
| Framing.ChunkedStops | tcp_listener.h:266-323 | in front of anything else the loop ends |
| Framing.OneByteRead | tcp_listener.h:266-281 | a read of one byte makes the message of two bytes come out as its first byte |
| Framing.WholeIntake | tcp_listener.h:126-149 | whole reads take in a prefix of what all clients framed, one client after the other; with one read for each message and each client, all of it |
| Framing.IntakeOfOne | tcp_listener.h:273-345 | with one client, what is taken in is what its receive loop reads |
| Receiver.TableIsArrivals | uwAppNet_module.cpp:223-269 | in drop mode sn_check marks exactly the numbers that arrived and hrsn is the largest of them |
| Receiver.Conservation | uwAppNet_module.cpp:208-286 | drop mode, all runs: hrsn = received + lost; marked entries = received + out of sequence; every arrival is counted once |
| Receiver.ConservationNoDrop | uwAppNet_module.cpp:208-286 | other modes: nothing lost or out of sequence, received = DATA arrivals, hrsn and esn follow the last two DATA numbers |
| Receiver.HighestOnlyIfLast | uwAppNet_module.cpp:267-269 | outside drop mode hrsn is the highest number received if and only if no earlier DATA packet had a higher one than the last |
| Receiver.HighestNotLast | uwAppNet_module.cpp:267-269 | packets 3 and 2, in this order, leave hrsn at 2 |
| Receiver.NeverArrived | uwAppNet_module.cpp:223-281 | lost - out of sequence is the number of sequence numbers up to hrsn that never arrived (corrected for a packet numbered 0) |
| Receiver.NeverArrivedFromTwo | uwAppNet_module.h:186-188 | with senders that number from 2, lost - out of sequence - 1 is the number of missing packets |
| Receiver.CountersBounded | uwAppNet_module.h:380-403 | the counters of drop mode stay within the table size, so they cannot overflow |
| Receiver.VerdictIsHistory | uwAppNet_module.cpp:214-269 | the verdict on each arrival is a property of the stream: accepted = strict running maximum, duplicate = repeated number, wrong type = not DATA |
| Receiver.NoDropDeliversAll | uwAppNet_module.cpp:226-257 | outside drop mode every DATA packet is passed on, in order of arrival, repetitions included |
| Receiver.TableOnlySplitsDrops | uwAppNet_module.cpp:225-238 | taking out the look-up in sn_check changes nothing of the state but the split between invalid and out of sequence |
| Receiver.ExpectedNumber | uwAppNet_module.cpp:223-223 | drop mode: esn is one above the largest number that arrived before the last DATA packet, 0 if none arrived |
| Receiver.LastTripTime | uwAppNet_module.cpp:260-261 | the trip time that is kept is that of the last packet delivered, 0 before the first |
| Receiver.TruncValue | uwAppNet_module.h:379-379 | a trip time loses its fraction, towards zero for either sign |
| ReceiverOrder.DeliveredIncreasing | uwAppNet_module.cpp:245-269 | the numbers passed on to the client increase strictly from 1 up to hrsn, one per received packet |
| ReceiverOrder.DeliveredAreTheRecords | uwAppNet_module.cpp:223-313 | what is passed on is exactly the subsequence of the running maxima of the arrivals |
| ReceiverOrder.OrderIndependence | uwAppNet_module.cpp:214-286 | any order of the same packets gives the same table, hrsn, received + lost, received + out of sequence, invalid, and lost - out of sequence |
| ReceiverOrder.OrderMatters | uwAppNet_module.cpp:378-392 | received and the error rate do depend on the order (an example) |
| ReceiverOrder.PerDropMode | uwAppNet_module.cpp:378-385 | drop mode: the rate is in [0,1) and is the missing plus the late packets over hrsn |
| ReceiverOrder.PerSmallestInOrder | uwAppNet_module.cpp:378-385 | a stream has the smallest rate among all orders of its packets if and only if nothing came late |
| ReceiverOrder.GaplessRun | uwAppNet_module.cpp:223-286 | numbers 2, 3, 4, ... in order are all delivered, none late, hrsn one above the count |
| ReceiverOrder.PerLossless | uwAppNet_module.cpp:378-385 | n packets without loss report the rate 1/(n+1) |
| ReceiverOrder.PerNoDrop | uwAppNet_module.cpp:386-391 | mode 0: the rate is 1 - n over the last DATA number but one, and lies in [0,1) exactly if n is at most that number or there is none |
| ReceiverOrder.PerNoDropNegative | uwAppNet_module.cpp:386-391 | the same packet three times reports -1/2 |
| ReceiverOrder.PerNoDropInOrder | uwAppNet_module.cpp:386-391 | mode 0, increasing numbers from 2 on: in [0,1), and 0 exactly if nothing is missing before the last arrival |
| ReceiverOrder.OnlyOneDrops | uwAppNet_module.h:171-176 | of the same packet twice one is passed on under the setting 1, both under any other |
| ReceiverOrder.PerOtherModes | uwAppNet_module.h:171-176 | any setting but 0 and 1 reports no errors at all |
| Statistics.RunningSums | uwAppNet_module.cpp:261-288 | after every run the sums are those of the samples, one sample per received packet, and the intervals add up to the time of the last reception |
| Statistics.OnePassIsTwoPass | uwAppNet_module.cpp:367-367 | the one-pass formula equals the sum of squared distances from the mean over n - 1 |
| Statistics.VarianceExact | uwAppNet_module.cpp:362-375 | after every run the variance is the two-pass sample variance, never negative, unchanged by the clamp, 0 exactly if all samples are equal |
| Statistics.FewSamples | uwAppNet_module.cpp:356-375 | without a sample the mean reads 0, with fewer than two the variance |
| Statistics.DeviationOff | uwAppNet_module.cpp:261-267 | the reported standard deviation and that of the measured times differ by at most the root of n/(4(n-1)) seconds, whatever the times are |
| Statistics.MeanTripTime | uwAppNet_module.cpp:261-267 | the reported mean trip time is at most the mean of the measured times and less than a second below it |
| Statistics.MeanTripTimeExact | uwAppNet_module.cpp:261-267 | it is the mean of the measured times if and only if every delivered packet took a whole number of seconds |
| Statistics.HalfSecondLost | uwAppNet_module.cpp:261-267 | one packet that took half a second is reported as 0 |
| Statistics.Throughput | uwAppNet_module.cpp:394-413 | the throughput is all delivered bits over the time of the last delivery |
| Statistics.NoRoundTrip | uwAppNet_module.cpp:262-265 | no round trip is ever sampled, GetRTT is always 0 |
| AppNet.PumpIsParse | tcp_listener.h:276-345 | polls that find nothing to read have no effect on what the loop gets |
| AppNet.ServedIsParseAll | tcp_listener.h:132-145 | connections read to their end yield exactly the messages framed on them, in order |
| AppNet.ServedEach | tcp_listener.h:132-145 | whatever the reads, the i-th client adds what ParseChunked reads of its stream, between what the clients before and after it add |
| AppNet.GrantsEach | tcp_listener.h:276-281 | every poll that finds something to read makes one read, in order; the others make none |
| AppNet.TcpListener.SendData | tcp_listener.h:155-170 | success exactly if three full writes to a connected client; without a client nothing is written, else exactly the bytes that the writes up to the first failing or short one take |
| AppNet.TcpListener.ReceivePacket | tcp_listener.h:235-271 | the buffer and the unread bytes are those of ReceiveChunk, whatever the uninitialised header variables held |
| AppNet.TcpListener.HandleTCPclient | tcp_listener.h:273-351 | the queue grows by exactly what ParseChunked reads, each push is counted, the socket is closed |
| AppNet.ClientIsWorkerSteps | tcp_listener.h:273-351 | the steps of the worker thread over one connection, if nothing comes between them, have the effect of HandleTCPclient |
| AppNet.RunIsWorkerSteps | tcp_listener.h:126-149 | the steps of the worker thread over several connections, accept included, have the effect of Run, whatever the reads deliver |
| AppNet.TcpListener.Run | tcp_listener.h:126-149 | the queue grows by what each accepted connection yields, in order; AppNet.ServedEach says what that is |
| AppNet.TcpListener.InitPacketTCP | tcp_listener.h:171-228 | the oldest message is sent with the next uid and number, the clock, and 10000 times the trip time if that is not negative; an empty queue changes nothing; this is the step of ListenerRuns.Tick |
| AppNet.AppNetModule.constructor | uwAppNet_module.cpp:67-115 | a new module has an empty table of 65535 entries, txsn 1, and 0 everywhere else |
| AppNet.AppNetModule.Sift | uwAppNet_module.cpp:214-258 | the tests that drop a packet give the verdict of Judge and mark the table |
| AppNet.AppNetModule.SampleTripTime | uwAppNet_module.cpp:261-267 | the trip time cut to an int becomes a sample |
| AppNet.AppNetModule.Accept | uwAppNet_module.cpp:261-288 | hrsn, lost, received and the sums after an accepted packet |
| AppNet.AppNetModule.Statistics | uwAppNet_module.cpp:208-315 | the object takes exactly the step of the specification; the bytes the client gets are given exactly, none unless the packet is accepted and a client connected; the queue and the unread bytes are untouched |
| AppNet.RecvAll | uwAppNet_module.cpp:197-206 | a module fed with any stream ends in the state of Run, its client with the frames of what was delivered |
| Listener.Reachable | tcp_listener.h:126-228 | the invariants of mutex, queue, stamps, stop flag and stream hold after every interleaving, whatever the reads deliver |
| Listener.QueueSafety | tcp_listener.h:173-180 | the unlocked look at the queue is still true when the mutex is held: front and pop never meet an empty queue |
| ListenerRuns.TickIsMainSteps | tcp_listener.h:171-228 | seven steps of the simulation thread that nothing interrupts have the effect of taking, stamping and sending one message at once |
| Listener.SentInOrder | tcp_listener.h:171-228 | the packets sent are the first ones enqueued, in order, the i-th from 0 with uid i+1 and sn i+2 modulo 65536 |
| Listener.SentCarriesClock | tcp_listener.h:190-207 | every packet sent carries the clock and the trip time of the very move that numbered it, in every run |
| Listener.QueueConservation | tcp_listener.h:335-343 | pushes counted = packets sent + queue + the one popped but not numbered, with the one in progress between push and count |
| Listener.QueueFromStreams | tcp_listener.h:273-345 | what the worker takes in is what its reads give; it is a prefix of what the clients framed if and only if no payload read was short, and then all of it once their streams are used up |
| Listener.WholeReads | tcp_listener.h:266-270 | no payload read is short if every read may deliver a whole buffer |
| Listener.NumbersInTable | uwAppNet_module.cpp:110-113 | every number sent has an entry in sn_check if and only if at most 65533 packets were sent |
| Listener.StopSafety | stoppable_thread.h:82-95 | a stop request stays, and at most one more packet is pushed after it |
| Listener.NothingAfterEnd | stoppable_thread.h:82-95 | once stop has joined the worker, or found it ended, nothing is pushed any more |
| ListenerStop.LeavesByAccept | tcp_listener.h:126-149 | until stop is requested the worker leaves its loops if and only if an accept() has failed |
| ListenerStop.DeletedAfterTest | uwAppNet_module.cpp:317-329 | every run that gets past the test of Running() in stop() contains that test, at a position that is returned |
| ListenerStop.DeletedAfterEnd | uwAppNet_module.cpp:317-329 | stop() gets to the end of its delete only after the worker ended; the listener is gone if and only if Running() was true at the test, and the process terminated if and only if before the test an accept() had failed and the worker had already finished |
| ListenerStop.StopTerminates | uwAppNet_module.cpp:317-329 | a run in which accept fails, the worker finishes, and stop() destroys a thread that was not joined, which terminates the process |
| ListenerStop.StopCompletes | stoppable_thread.h:82-95 | in every interleaving with nine or more steps of the worker the next step of the simulation thread returns from the join, unless the worker waits in accept and no client connects: then if and only if accept fails before the last of them |
| ListenerRuns.FairRunsSendAll | tcp_listener.h:126-228 | for arbitrary byte streams, every schedule of 13 rounds for each message in them, 6 for each client and one more, with a step of both threads in every round, whole reads and no stop, sends all of them in order |
| ListenerRuns.SendsIntake | tcp_listener.h:126-228 | for all streams and all ways to cut the payload reads, some schedule takes in and sends exactly what these reads give |
| ListenerRuns.ShortReadHappens | tcp_listener.h:266-270 | a run in which the queue gets one byte of a message of two |
| Peer.DecodeEncoded | sample/test_sockets_TCP.py:98-124 | the client decodes every list of non-empty framed messages, of any size |
| Peer.WrongTag | sample/test_sockets_TCP.py:104-107 | a wrong tag ends the listener's connection, the client goes on behind it |
| Peer.RecvStepBytes | sample/test_sockets_TCP.py:98-124 | which bytes make which outcome of a call |
| Peer.DecodeOnward | sample/test_sockets_TCP.py:98-124 | in front of anything a frame gives its message, a frame without data nothing; a stream that ends inside a frame ends the list |
| Peer.DecInjective | sample/test_sockets_TCP.py:129-129 | different counters print differently |
| Peer.DecDigits | sample/test_sockets_TCP.py:129-129 | the counter is printed in decimal digits without a leading zero |
| Peer.NumberedInjective | sample/test_sockets_TCP.py:129-129 | different counters make different messages |
| Peer.NumberedBytes | sample/test_sockets_TCP.py:129-129 | a message is the text, a blank, the character # and the digits of its counter |
| Peer.WireIsFrames | sample/test_sockets_TCP.py:126-146 | the wire holds exactly the frames #1 to #count if and only if no call failed half-way |
| Peer.TornByOneByte | sample/test_sockets_TCP.py:126-146 | a first call that fails after one byte leaves a wire that is no list of frames |
| Peer.ListenerGetsNumbers | sample/test_sockets_TCP.py:126-146 | then the listener's parser gets exactly these messages, pairwise different |
| Peer.SingleNode.RecvWait | sample/test_sockets_TCP.py:87-96 | however the stream is cut, exactly the first siz bytes are returned and the others left, if and only if they were sent and are delivered; otherwise the call raises if and only if the socket fails, and waits for ever if it does not |
| Peer.SupplyAddsUp | sample/test_sockets_TCP.py:87-96 | pieces add up over EAGAIN until the first other failure |
| Peer.SingleNode.RecvData | sample/test_sockets_TCP.py:98-124 | one call takes exactly the step of RecvStep; if the data does not come it raises exactly if the socket fails |
| Peer.SingleNode.SendLoop | sample/test_sockets_TCP.py:132-142 | the bytes out are the prefix of the frame the socket takes before it fails; the loop ends by completion or by the first failure among the events |
| Peer.BrokenPipeClauseDead | sample/test_sockets_TCP.py:137-142 | every failure of send() enters the first except clause, a broken pipe too; in the other order a broken pipe would enter its own |
| Peer.SingleNode.SendData | sample/test_sockets_TCP.py:126-146 | said of the events: the whole frame's size once they have taken it, minus the bytes taken if the first failure is EAGAIN, an exception if it is another one, no return if none of them fails; the bytes out are that prefix of the frame, the counter goes up exactly on completion |
| EndToEnd.Reachable | tcp_listener.h:126-344 | the invariants of the whole system hold after every run |
| EndToEnd.ClientDecodesDelivered | uwAppNet_module.cpp:311-313 | every mode, every run in which no number outside the table arrived: the receiving client decodes exactly the delivered messages, each at its position in what the listener took in, and in what was framed for it unless a payload read was short |
| EndToEnd.DropModeInOrder | uwAppNet_module.cpp:208-315 | any number of senders, every run: no number outside the table, strictly growing positions over all senders, each sender's messages in order and once, at most hrsn - 1 deliveries |
| EndToEnd.DeliveryExact | uwAppNet_module.cpp:223-269 | a packet handed over is delivered if and only if all packets that arrived earlier, of whatever sender, have smaller positions in their senders' lists |
| EndToEnd.DeliveredAreLeaders | uwAppNet_module.cpp:223-269 | every run, any number of senders: the delivered packets are those that are ahead of all that arrived before them, in their order |
| EndToEnd.AllDelivered | uwAppNet_module.cpp:223-269 | everything that arrives is delivered if and only if the positions in order of arrival grow strictly |
| EndToEnd.SendersCollide | sample/uwAppPos_TCP.tmpl:356-361 | two nodes with one receiver: for any two clients there is a run that sends everything and loses nothing in which, of their first messages, only the one that arrives first is delivered |
| EndToEnd.EndToEndSubsequence | uwAppNet_module.cpp:208-315 | one sender: client B decodes a subsequence of what the listener took in, and of what client A framed unless a payload read was short |
| EndToEnd.LosslessDelivered | uwAppNet_module.cpp:208-315 | over a loss-free FIFO channel every stamped packet is delivered, the rate is 1/(n+1) |
| EndToEnd.EndToEndLossless | uwAppNet_module.cpp:208-315 | then client B decodes the first n messages the listener took in, which are the first n of client A unless a payload read was short |
| EndToEnd.EveryArrivalHappens | uwAppNet_module.cpp:208-315 | any number of senders: for arbitrary streams, every way to cut the payload reads and every list of positions there is a run in which all that is taken in is sent and exactly these packets arrive; what is delivered and decoded follows |
| EndToEnd.DecodableExactly | uwAppNet_module.cpp:208-315 | arbitrary streams, any short reads: the receiving client can decode a list if and only if it consists of messages that some reads of the listeners take in, in drop mode at strictly growing positions |
| EndToEnd.DecodableWholeExactly | uwAppNet_module.cpp:208-315 | with whole payload reads, if and only if it consists of framed messages, in drop mode at strictly growing positions |
| EndToEnd.DecodableFromOne | uwAppNet_module.cpp:208-315 | one sender, drop mode, whole payload reads: client B can decode the subsequences of what client A framed, all of them and nothing else |
| EndToEnd.LosslessRun | uwAppNet_module.cpp:208-315 | for every list of up to 65533 messages a loss-free run exists after which client B has decoded the whole list |
| EndToEnd.WholeReads | tcp_listener.h:266-270 | no payload read of the system is short if every read may deliver a whole buffer |
| EndToEnd.ClientToClient | sample/test_sockets_TCP.py:126-146 | from Python client to Python client, if no call failed half-way and no payload read was short: numbered messages, in order, none twice |
| HexDump.ByteShape | string_utils.h:47-61 | two digits below 0x80, eight digits starting with FFFFFF from there on |
| HexDump.DigitChars | string_utils.h:47-61 | the digits are 0 to 9 and A to F |
| HexDump.ByteDump | string_utils.h:47-61 | a byte prints as 0x if wanted, six Fs if negative, its two digits, and a blank if wanted |
| HexDump.HexAppend | string_utils.h:64-79 | bytes are printed in their order |
| HexDump.UnhexHex | string_utils.h:64-79 | every dump can be read back, under all flags |
| HexDump.HexUnhex | string_utils.h:64-79 | the reader accepts nothing but dumps |
| HexDump.HexInjective | string_utils.h:64-79 | different bytes have different dumps |
| HexDump.StringToHexstring | string_utils.h:64-70 | prints the dump of the string, which reads back as the string |
| HexDump.BufferToHexstring | string_utils.h:73-79 | the same for a buffer; nothing for a size of 0 or less |

## Left out

- AppNet.AppNetModule.Statistics: requires a sequence number below 65535, because the source indexes sn_check without a test and number 65535 has no entry; `EndToEnd` proves that it never arrives while senders stay below 65534 packets.
- AppNet.AppNetModule.Sift: requires a sequence number below 65535 for the same reason.
- AppNet.RecvAll: requires sequence numbers below 65535 for the same reason.
- EndToEnd.ClientDecodesDelivered: requires that number 65535 has not arrived, because the source then writes past its table; `EndToEnd.Reachable` proves that it never does while senders stay below 65534 packets.
- EndToEnd.DropModeInOrder: bounded by 65533 packets per sender (Listener.NumbersInTable shows that the bound is exact for the table); what happens after the 16-bit numbers wrap around is not modelled.
- EndToEnd.EndToEndSubsequence: the receiving client is connected and writes to it are complete; AppNet.TcpListener.SendData says what happens otherwise.
- AppNet.TcpListener.ReceivePacket: header reads are short only at the end of the stream, and `read` does not fail; the source does not handle a negative result.
- Peer.SingleNode.RecvData: the two header words arrive whole unless the stream ends in them, and `recv` does not fail on them; a failure there would be raised, as one in the data is.
- ListenerRuns.FairRunsSendAll: for schedules in which `select` always finds something to read; a poll that finds nothing costs the worker two steps and changes nothing else.
- Statistics.DeviationOff: in terms of any two numbers whose squares are the variances, because the square root is not modelled.
- Listener.QueueSafety: the unlocked `queuePckRead.empty()` is an atomic read here. In C++ it races with `push` on a `std::queue`, which is undefined behaviour; what is proved is that the protocol around it is right.
- Statistics.VarianceExact: about the variance, in exact arithmetic; the square root and floating-point rounding are not modelled.
- The trip time field of a packet that is flagged as not valid: the source leaves it as it was, the model sets it to 0.
- Overflow of pkts_invalid, of the uid counter and of the trip times as 32-bit integers.
- The clock may advance between the three readings within one call of statistics; one value stands for all three.
- The race between send_data and the listener's thread for the client's socket descriptor; a client that disconnects while a message is delivered.
- Starting the thread, a second Start, and a stop before the thread has set m_running: the thread model begins with the worker running.
- Setting up sockets, the Tcl commands and bindings, packet headers other than the application's, logging and debug output.
- The Python main program, its position worker and process handling, and the build files.
