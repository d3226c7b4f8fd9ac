# RTMFP flows of Cumulus, modelled and verified

Cumulus (openRTMFP) is a server for RTMFP, the real-time media flow protocol of RFC 7016. This project models
what moves messages through it, in Dafny, and proves what the two ends promise each other:

- **the sender** (`FlowWriter.dfy`, with `Acks.dfy`, `AckScan.dfy`, `Reassembly.dfy`, `Trigger.dfy`): a sliding
  window that cuts messages into numbered fragments ("stages"), decodes acknowledgments with ranges, repeats
  repeatable fragments, lets lost unrepeatable ones go and backs off. The stage of an outstanding fragment is
  stored nowhere; it is recovered by counting from the last acknowledged stage. A ghost log says what each stage
  carried when it was first sent, and every method keeps the window equal to the tail of that log.
- **the receiver** (`Flow.dfy`, with `Receiver.dfy`, `History.dfy`, `InOrder.dfy`): the reorder buffer, the forward skip,
  reassembly and the writing of acknowledgments. `Receiver.dfy` gives the state change as functions, the class is
  proved to make just those changes, and `History.dfy` says what they amount to, told by the stages processed alone.
- **the session** (`ServerSession.dfy`, `Wire.dfy`, `Envelope.dfy`, `Codec.dfy`): chunks 0x10, 0x11 and others in
  packets, the 7-bit integers, and the envelope of checksum, padding, encryption and scrambled id.
- **both ends and the network** (`EndToEnd.dfy`): runs of a whole system. A step of the sender is what the
  contracts of its methods say (`FlushStep`, `AckStep`, `RaiseStep`).
- **beside the protocol**: the key-frame gates of a publication and its listeners (`Publication.dfy`) and the
  loss statistics (`QualityOfService.dfy`).

Four places where the code does less than one would wish, with the exact condition under which it works:

- An acknowledgment is misread when a hole in it begins below the last stage acknowledged since it was written and is
  wider than one stage: the loop that discards such holes is left after one step, and everything outstanding is taken
  for received (`SoundIffLegible`, `LegibleIff`). Acknowledgments that change places on the network do this
  (`StaleExample`), and in a flow with unrepeatable messages so does one and the same acknowledgment read twice
  (`RepeatedExample`). Exactly-once is proved for legible acknowledgments in any order, and those of a repeatable flow
  that keep their order are shown to be legible.
- The 12 bytes asked for before a fragment is begun do not guarantee room for its header (`SliceProperIff`,
  `SliceCanWrap`).
- The length announced for an abandonment is too long from 128 stages on (`DeclaredLengthExactIff`).
- The packet handler finds the chunks behind an echoed time only when the marker ends in 0xD, so it does not read back
  what the session itself sends with an echo, marked 0x4E (`FrameRoundTrip`).

A read past the end of a message gives an unspecified byte, `pad`, and leaves the position where it is. Stages are
naturals; the reliable runs keep them below 2^29, the codec's limit. 32-bit arithmetic is written out (`U32`) where
it can wrap around.

## Model

| member | source | states |
|---|---|---|
| `EndToEnd.ExactlyOnce` | third party/openRTMFP-Cumulus/CumulusLib/sources/FlowWriter.cpp:95-499 | over every run of a flow of repeatable messages, with fragments and acknowledgments lost, doubled and reordered at will, as long as the acknowledgments taken in are legible: what is handed over is a prefix of the messages sent that are not of the empty type (first byte 0), byte for byte; nothing is reported lost; until the sender is closed the flow is never taken for completed, acknowledged stage <= receiver's stage, and once nothing is outstanding everything was delivered; and so it is later unless an end flag completed the flow |
| `EndToEnd.ExactlyOnceInOrder` | third party/openRTMFP-Cumulus/CumulusLib/sources/FlowWriter.cpp:95-499 | acknowledgments that keep their order, lost or doubled, are always legible, so nothing is asked of them; and acknowledged stage <= receiver's stage <= last stage sent whatever the flags |
| `EndToEnd.NeverRefused` | third party/openRTMFP-Cumulus/CumulusLib/sources/FlowWriter.cpp:97-104 | over such a run, as long as no message under way has 0x3F00 fragments or more, no acknowledgment the receiver writes fails the sender |
| `EndToEnd.ReleasedIsPassed` | third party/openRTMFP-Cumulus/CumulusLib/sources/FlowWriter.cpp:106-219 | a legible acknowledgment the receiver once wrote, however late, releases no repeatable stage the receiver has not passed |
| `InOrder.ReceiveKeeps` | third party/openRTMFP-Cumulus/CumulusLib/sources/Flow.cpp:221-247 | a stage the receiver has passed or holds it still has after any fragment that gives up none, unless the flow is completed |
| `EndToEnd.AtMostOnce` | third party/openRTMFP-Cumulus/CumulusLib/sources/Flow.cpp:186-353 | over every run with any mix of messages, any traffic and any bytes taken in as acknowledgments: the deliveries are a subsequence of the messages sent, in order, each at most once and byte for byte |
| `EndToEnd.ProcessedIsDelivered` | third party/openRTMFP-Cumulus/CumulusLib/sources/Flow.cpp:186-353 | over every such run every message all of whose stages were processed is among the deliveries with its bytes and its 16-bit count of fragments, and until the sender is closed the receiver does not take its flow for completed |
| `EndToEnd.RunTruthful` | third party/openRTMFP-Cumulus/CumulusLib/sources/FlowWriter.cpp:132-278 | in every reachable state the outstanding fragments are stages acknowledged + 1 .. last, all fragments on the network are the ones first sent under their stages, and the receiver holds nothing else |
| `EndToEnd.RunReliable` | third party/openRTMFP-Cumulus/CumulusLib/sources/Flow.cpp:199-219 | in every reachable state of such a flow no fragment on the network makes the receiver skip a stage, and what every acknowledgment ever written reports is still true of the receiver |
| `FlowWriters.FlowWriter.Acknowledgment` | third party/openRTMFP-Cumulus/CumulusLib/sources/FlowWriter.cpp:95-289 | for any bytes: terminates, keeps positional numbering and accounting, and only drops fragments in front of the window; a current acknowledgment settles every stage by its verdict, releasing the longest releasable run and repeating exactly the stages due, each as first sent; one that leads astray, being illegible or of stages never sent, releases everything; a negative one changes nothing. The losses counted grow by the stages a current one reports lost; the trigger keeps running exactly while something repeatable is left, and starts afresh after progress or a repetition; everything repeated carries the end flag exactly when the writer is closed |
| `Acks.RepeatedIff` | third party/openRTMFP-Cumulus/CumulusLib/sources/FlowWriter.cpp:211-262 | told by the buffer the acknowledgment describes, without verdicts: exactly these outstanding stages are repeated, once and in order: behind the cumulative one, missing below the highest reported one, repeatable, last sent before that highest stage was, and not followed by a run that ends two stages on; and exactly their dates become the last stage sent |
| `Acks.ReleasedIff` | third party/openRTMFP-Cumulus/CumulusLib/sources/FlowWriter.cpp:145-219 | told by that buffer: the stages released are the longest run of those acknowledged, or below the last hole begun in what was sent and buffered or unrepeatable |
| `Acks.LostIff` | third party/openRTMFP-Cumulus/CumulusLib/sources/FlowWriter.cpp:194-206 | the stages counted as lost are, once each, the released ones behind the cumulative stage that the buffer lacks |
| `Acks.AckSoundness` | third party/openRTMFP-Cumulus/CumulusLib/sources/FlowWriter.cpp:106-219 | under any legible acknowledgment a repeatable fragment leaves the window only if reported received, an unrepeatable one only if reported received or lost |
| `FlowWriters.SoundIffLegible` | third party/openRTMFP-Cumulus/CumulusLib/sources/FlowWriter.cpp:155-192 | whatever is outstanding, an acknowledgment makes the sender give up only repeatable fragments it reports if and only if no hole beginning below the last acknowledged stage is wider than one stage, or it happens to report all the repeatable ones outstanding |
| `FlowWriters.StaleExample` | third party/openRTMFP-Cumulus/CumulusLib/sources/FlowWriter.cpp:171-190 | a concrete late acknowledgment on which the sender drops a stage nobody received |
| `FlowWriters.RepeatedExample` | third party/openRTMFP-Cumulus/CumulusLib/sources/FlowWriter.cpp:171-207 | a concrete acknowledgment that does the same when read twice in a row, in a flow with unrepeatable messages |
| `Acks.LegibleIff` | third party/openRTMFP-Cumulus/CumulusLib/sources/FlowWriter.cpp:155-178 | legibility in terms of the receiver's buffer: it never missed two consecutive stages, the first of them below the last acknowledged one, while it held a later stage |
| `Acks.RepeatableReleasesCumulative` | third party/openRTMFP-Cumulus/CumulusLib/sources/FlowWriter.cpp:184-219 | in a flow of repeatable messages an acknowledgment not older than the sender's knowledge releases exactly its cumulative part |
| `Acks.AckIdempotent` | third party/openRTMFP-Cumulus/CumulusLib/sources/FlowWriter.cpp:120-227 | in such a flow the same acknowledgment taken in twice changes nothing and repeats nothing the second time |
| `Acks.NothingDueTwice` | third party/openRTMFP-Cumulus/CumulusLib/sources/FlowWriter.cpp:211-227 | after an acknowledgment that reports only sent stages no fragment is due to be repeated by it again |
| `Acks.ShiftKeepsConsistent` | third party/openRTMFP-Cumulus/CumulusLib/sources/FlowWriter.cpp:145-152 | dropping fragments in front and changing dates keeps every outstanding fragment at the stage it was first sent under |
| `AckScan.TracksRead` | third party/openRTMFP-Cumulus/CumulusLib/sources/FlowWriter.cpp:155-178 | reading one more pair keeps the range cursor in agreement with the verdicts of the whole acknowledgment, or shows that nothing more is known |
| `AckScan.TracksReceived` | third party/openRTMFP-Cumulus/CumulusLib/sources/FlowWriter.cpp:184-192 | a stage before the hole at hand is a stage reported received |
| `AckScan.TracksLost` | third party/openRTMFP-Cumulus/CumulusLib/sources/FlowWriter.cpp:194-219 | the stage at the hole is reported lost, with the end of the received run behind it |
| `AckScan.StraysRead` | third party/openRTMFP-Cumulus/CumulusLib/sources/FlowWriter.cpp:171-176 | a range cursor caught behind the last acknowledged stage stays there |
| `AckScan.PassedSettles` | third party/openRTMFP-Cumulus/CumulusLib/sources/FlowWriter.cpp:132-278 | what the two cursors established at the end of the loop is the settlement of the acknowledgment, stage by stage |
| `FlowWriters.FlowWriter.ReadLoss` | third party/openRTMFP-Cumulus/CumulusLib/sources/FlowWriter.cpp:155-178 | reads pairs up to the next hole to walk through, keeping the range cursor in agreement with the verdicts, and stops only when nothing is known of the stages left |
| `FlowWriters.FlowWriter.Decide` | third party/openRTMFP-Cumulus/CumulusLib/sources/FlowWriter.cpp:184-262 | releases, passes over or repeats the fragment at the cursor, each as its verdict demands, counting as lost exactly what is released at a hole, and moves both cursors together |
| `FlowWriters.FlowWriter.DropFront` | third party/openRTMFP-Cumulus/CumulusLib/sources/FlowWriter.cpp:146-152 | drops the first outstanding fragment and counts it |
| `FlowWriters.FlowWriter.Discard` | third party/openRTMFP-Cumulus/CumulusLib/sources/FlowWriter.cpp:265-275 | removes a message whose fragments are all gone, takes it out of the repeatable count, and hands both counters over, each to its own sum, leaving them at zero, if anything was acknowledged |
| `FlowWriters.FlowWriter.MaxStage` | third party/openRTMFP-Cumulus/CumulusLib/sources/FlowWriter.cpp:120-125 | the highest stage counted by the ranges, leaving the reader in place |
| `FlowWriters.FlowWriter.RepeatChunk` | third party/openRTMFP-Cumulus/CumulusLib/sources/FlowWriter.cpp:240-257 | lays out one repeated fragment so that the receiver takes it for the stage it was, and sends the packet before it only when there is no room, writing a header then |
| `FlowWriters.FlowWriter.ReadSlice` | third party/openRTMFP-Cumulus/CumulusLib/sources/FlowWriter.cpp:224-238 | flags and content of a repeated fragment are those of the slice its entry stands for |
| `FlowWriters.FlowWriter.Rearm` | third party/openRTMFP-Cumulus/CumulusLib/sources/FlowWriter.cpp:284-288 | the trigger keeps running exactly while something repeatable is outstanding, starts afresh after progress or a repetition and is left alone otherwise |
| `FlowWriters.FlowWriter.Flush` | third party/openRTMFP-Cumulus/CumulusLib/sources/FlowWriter.cpp:427-499 | sends every queued message: each new stage once, in order, carrying what is logged for it; the history grows by exactly the queued messages and positional numbering holds; each new entry is dated with its own stage, the end flag is set exactly when the writer is closed, no packet leaves with 12 bytes to spare but the last one, which leaves only if it is not to wait and then leaves the packet empty; and a trigger is started by the first repeatable message, never restarted |
| `FlowWriters.FlowWriter.SendMessage` | third party/openRTMFP-Cumulus/CumulusLib/sources/FlowWriter.cpp:435-495 | sends one message completely and moves it from the queue to the messages sent |
| `FlowWriters.FlowWriter.SizeSlice` | third party/openRTMFP-Cumulus/CumulusLib/sources/FlowWriter.cpp:460-479 | computes, in 32 bits and for any room, the slice size that SliceProperIff is about, and marks the slice as unfinished exactly when the chunk would not fit |
| `FlowWriters.FlowWriter.PutSlice` | third party/openRTMFP-Cumulus/CumulusLib/sources/FlowWriter.cpp:462-488 | a slice becomes the next stage in the log, the message and the output at once |
| `FlowWriters.SliceProperIff` | third party/openRTMFP-Cumulus/CumulusLib/sources/FlowWriter.cpp:453-476 | with 12 bytes left the 32-bit slice size is proper exactly when the header leaves room or everything fits |
| `FlowWriters.SliceFits` | third party/openRTMFP-Cumulus/CumulusLib/sources/FlowWriter.cpp:460-479 | with room for the header the slice is a non-empty part of the content and its chunk fits, filling the packet exactly when something is left over |
| `FlowWriters.SliceCanWrap` | third party/openRTMFP-Cumulus/CumulusLib/sources/FlowWriter.cpp:453-476 | 12 bytes left are not enough for the header of a new flow: the slice size wraps around |
| `FlowWriters.FlowWriter.RaiseMessage` | third party/openRTMFP-Cumulus/CumulusLib/sources/FlowWriter.cpp:354-425 | repeats the repeatable outstanding fragments from the oldest on, under their own stages and as first sent, at least one if there is any, until all are or the packet has no room for the next one as it would go out; what was waiting is sent before, and nothing else; the end flag is set exactly when the writer is closed, no date and no clock changes, and the trigger stops exactly when nothing is repeatable |
| `FlowWriters.FlowWriter.RaiseFragments` | third party/openRTMFP-Cumulus/CumulusLib/sources/FlowWriter.cpp:381-420 | repeats the fragments of one message in stage order until the packet is full |
| `FlowWriters.FlowWriter.WriteFragment` | third party/openRTMFP-Cumulus/CumulusLib/sources/FlowWriter.cpp:317-352 | appends exactly the chunk of the fragment, of the announced length; with content the receiver takes it for the stage meant, with a delta reaching back to the last acknowledged stage at least and the end flag exactly when the writer is closed |
| `FlowWriters.FlowWriter.Queue` | third party/openRTMFP-Cumulus/CumulusLib/sources/FlowWriter.cpp:520-526 | a message is queued behind the others and nothing else changes |
| `FlowWriters.FlowWriter.constructor` | third party/openRTMFP-Cumulus/CumulusLib/sources/FlowWriter.cpp:31-42 | a new writer is in order and has sent nothing |
| `FlowWriters.DeclaredLengthExactIff` | third party/openRTMFP-Cumulus/CumulusLib/sources/FlowWriter.cpp:306-352 | the length computed for a chunk is the number of bytes written, except exactly for the abandonment of a stage 128 or more past the last acknowledged one |
| `FlowWriters.ChunkIsEncodable` | third party/openRTMFP-Cumulus/CumulusLib/sources/FlowWriter.cpp:317-352 | below the codec limit every chunk of a flow writer can be written and read back |
| `FlowWriters.ChunkIsRead` | third party/openRTMFP-Cumulus/CumulusLib/sources/FlowWriter.cpp:317-352 | over the wire the chunk of a fragment is read with its flags, its stage, its distance from the last acknowledged stage, the end flag exactly when the writer is closed, and with signature and answered flow exactly while nothing is acknowledged |
| `FlowWriters.RunReconstructs` | third party/openRTMFP-Cumulus/CumulusLib/sources/ServerSession.cpp:463-529 | for a run of chunks behind one header the receiver's incremental decoding yields every stage as the sender counts it and its distance from the last acknowledged stage, off by that distance when the run begins with an abandonment |
| `Reassembly.CutThenReassemble` | third party/openRTMFP-Cumulus/CumulusLib/sources/FlowWriter.cpp:443-490 | however a message was cut, reading its slices in order gives it back behind the earlier messages |
| `Reassembly.CutMore` | third party/openRTMFP-Cumulus/CumulusLib/sources/FlowWriter.cpp:486-488 | one more slice continues the cutting of the message without a gap |
| `Reassembly.DropFirst` | third party/openRTMFP-Cumulus/CumulusLib/sources/FlowWriter.cpp:146-152 | dropping the first entry of a message changes no other fragment: the rest keep content and flags |
| `Reassembly.DateEntry` | third party/openRTMFP-Cumulus/CumulusLib/sources/FlowWriter.cpp:224-238 | dating an entry anew changes no fragment and no place |
| `Triggers.BoundedRetry` | third party/openRTMFP-Cumulus/CumulusLib/sources/Trigger.cpp:35-64 | without a reset the outcomes are those of the schedule: raises exactly at ticks 1, 2, 3, 5, 8, 12 and 17 of those that count, so as many as are due, and the failure exactly at the 23rd, after all seven raises |
| `Triggers.RunIsScheduled` | third party/openRTMFP-Cumulus/CumulusLib/sources/Trigger.cpp:48-64 | from any point of the schedule a run of ticks has the outcomes the schedule lists, a tick before the first second being passed over only when the counter stands at zero |
| `Triggers.Trigger.Raise` | third party/openRTMFP-Cumulus/CumulusLib/sources/Trigger.cpp:48-64 | one tick of the trigger is the step of its clock, whose runs RunIsScheduled tells; a stopped one stays quiet |
| `Triggers.Trigger.Start` | third party/openRTMFP-Cumulus/CumulusLib/sources/Trigger.cpp:41-46 | starts afresh unless already running |
| `Flows.Flow.FragmentHandler` | third party/openRTMFP-Cumulus/CumulusLib/sources/Flow.cpp:186-247 | takes the state of the flow, with the record of the stages processed, to the state Receive gives for the fragment, which ReceiveExactly and DeliveredIff describe, and leaves in the buffer only stages behind a gap |
| `Flows.Flow.FragmentSortedHandler` | third party/openRTMFP-Cumulus/CumulusLib/sources/Flow.cpp:249-353 | takes the state of the flow, with the record of the stages processed, to the state Sorted gives for the stage, which SortedFaithful and WholeAlone describe |
| `Flows.Flow.SkipTo` | third party/openRTMFP-Cumulus/CumulusLib/sources/Flow.cpp:204-216 | the forward skip hands over every buffered stage up to the incoming one, in order |
| `Flows.Flow.DrainFrom` | third party/openRTMFP-Cumulus/CumulusLib/sources/Flow.cpp:233-244 | the in-order run behind the incoming stage is handed over |
| `History.DeliveredIff` | third party/openRTMFP-Cumulus/CumulusLib/sources/Flow.cpp:186-353 | over any run of any fragments, told by the stages processed alone: a delivery is made exactly for every run of consecutive stages that is a message from its first fragment to its last and is not empty or of the empty type, with its bytes and count, once and in order; the flow is completed exactly when one of them bore the end flag; and the losses reported are the stages skipped, the fragments with nothing to carry on and the messages broken off |
| `History.SortedFaithful` | third party/openRTMFP-Cumulus/CumulusLib/sources/Flow.cpp:249-353 | handing in any later stage keeps all this |
| `History.WholeAlone` | third party/openRTMFP-Cumulus/CumulusLib/sources/Flow.cpp:254-352 | a message in one fragment is handed over whatever gap it comes behind, unless empty or of the empty type, and exactly the stages skipped are lost |
| `History.ReceiveExactly` | third party/openRTMFP-Cumulus/CumulusLib/sources/Flow.cpp:186-247 | one fragment: the stages processed or waiting become those before with this one, if it is new, the first copy being kept; stages are processed without a gap, unless the fragment gives some up: then all that waits up to it, whatever is missing, and behind it again without a gap |
| `History.PassedIsDelivered` | third party/openRTMFP-Cumulus/CumulusLib/sources/Flow.cpp:279-352 | every message of the sender all of whose stages were processed is among the deliveries, byte for byte |
| `History.ReceiveNoEnd` | third party/openRTMFP-Cumulus/CumulusLib/sources/Flow.cpp:350-351 | without an end flag among the fragments the flow is never completed |
| `Receiver.ReceiveHonest` | third party/openRTMFP-Cumulus/CumulusLib/sources/Flow.cpp:186-247 | whatever fragment of the sender arrives, however old or new, what is delivered are messages their sender completed, from ever later stages |
| `Receiver.StagesConserved` | third party/openRTMFP-Cumulus/CumulusLib/sources/Flow.cpp:40-353 | over any run of any fragments: stages delivered, reported lost, discarded and held add up to the stage reached, short of 65536 for each overflow of the 16-bit fragment count, and exactly if and only if it never overflowed |
| `Receiver.FewFragmentsConserved` | third party/openRTMFP-Cumulus/CumulusLib/sources/Flow.cpp:40-353 | with fewer than 65536 fragments in all, whatever they are, the count never overflows and every stage is accounted for |
| `Receiver.EndlessOverflows` | third party/openRTMFP-Cumulus/CumulusLib/sources/Flow.cpp:40-46 | 65536 fragments of one message in order do overflow it, and again every 65536 |
| `InOrder.ReceiveExact` | third party/openRTMFP-Cumulus/CumulusLib/sources/Flow.cpp:186-247 | a fragment that gives up no stage keeps the deliveries exactly those of the stages reached |
| `InOrder.ExactIsPrefix` | third party/openRTMFP-Cumulus/CumulusLib/sources/Flow.cpp:186-247 | the messages handed over are then a prefix of those sent, and all of them at the last stage |
| `InOrder.ReceiveOneMore` | third party/openRTMFP-Cumulus/CumulusLib/sources/Flow.cpp:221-244 | one more fragment takes the state of a set of stages to the state of the larger set |
| `InOrder.Confluence` | third party/openRTMFP-Cumulus/CumulusLib/sources/Flow.cpp:186-247 | the state and the deliveries depend on which stages arrived, not on their order nor on duplicates; the stage is the longest prefix and the buffer the rest |
| `Flows.Flow.Commit` | third party/openRTMFP-Cumulus/CumulusLib/sources/Flow.cpp:145-184 | the body takes the announced length and says the stage reached, exactly the missing and buffered runs, and the room: none exactly for a flow whose writer has no signature or a message under way of 0x3F00 fragments or more, what is left of 0x3F00 for a shorter one, 0x7F for none |
| `Flows.Flow.ListRanges` | third party/openRTMFP-Cumulus/CumulusLib/sources/Flow.cpp:147-164 | the pairs listed describe the buffer and their encoded size is the one counted |
| `Acks.RangesRoundTrip` | third party/openRTMFP-Cumulus/CumulusLib/sources/Flow.cpp:147-178 | what the sender decodes lets it conclude that exactly the stages missing below the highest buffered one are lost, and that one is the highest it counts |
| `Acks.AckRoundTrip` | third party/openRTMFP-Cumulus/CumulusLib/sources/FlowWriter.cpp:97-160 | the sender reads back the acknowledgment the receiver wrote |
| `Acks.VerdictsAreTrue` | third party/openRTMFP-Cumulus/CumulusLib/sources/FlowWriter.cpp:155-219 | stages judged lost are exactly those missing below the highest reported stage, those judged received exactly the buffered ones below the last hole begun in what was sent, and nothing is concluded of the others |
| `Acks.TopIsGreatest` | third party/openRTMFP-Cumulus/CumulusLib/sources/FlowWriter.cpp:120-125 | the highest stage counted from the ranges is the highest buffered one |
| `Acks.DescriptionUnique` | third party/openRTMFP-Cumulus/CumulusLib/sources/Flow.cpp:153-164 | the ranges of a buffer are determined by it, so they are maximal |
| `Sessions.PacketHandler` | third party/openRTMFP-Cumulus/CumulusLib/sources/ServerSession.cpp:380-549 | each fragment of the flow in the packet reaches it with its stage and delta, and after each run of them the state the flow is in is acknowledged |
| `Sessions.FragmentAnswered` | third party/openRTMFP-Cumulus/CumulusLib/sources/ServerSession.cpp:534-546 | every fragment of the flow is answered behind the last of those that follow it without a break, and not before |
| `Sessions.AnswersFragment` | third party/openRTMFP-Cumulus/CumulusLib/sources/ServerSession.cpp:538-546 | and every answer stands behind a fragment of the flow |
| `Sessions.AnswerIsRead` | third party/openRTMFP-Cumulus/CumulusLib/sources/FlowWriter.cpp:97-104 | the acknowledgment of a flow is read with the flow's id, is taken for a refusal exactly when the flow has no signature or holds 0x3F00 fragments or more, and below the codec limit is read back whole |
| `Sessions.HandleChunk` | third party/openRTMFP-Cumulus/CumulusLib/sources/ServerSession.cpp:463-529 | one chunk moves stage and delta as a header or a following chunk does, and only a fragment of the flow reaches it |
| `Wire.Band.WriteMessage` | third party/openRTMFP-Cumulus/CumulusLib/sources/ServerSession.cpp:310-339 | a chunk of the announced length joins the packet, or a new packet when the present one lacks room, and no output is lost or reordered |
| `Wire.Band.Flush` | third party/openRTMFP-Cumulus/CumulusLib/sources/ServerSession.cpp:263-298 | the packet goes out as it is and an empty one is begun |
| `Wire.PacketRoundTrip` | third party/openRTMFP-Cumulus/CumulusLib/sources/ServerSession.cpp:380-388 | a packet of any chunks followed by any number of 0xFF bytes parses back to its chunks |
| `Wire.SerializedSize` | third party/openRTMFP-Cumulus/CumulusLib/sources/ServerSession.cpp:310-339 | the bytes of a packet are as many as were counted while it was laid out |
| `Wire.BodyLength` | third party/openRTMFP-Cumulus/CumulusLib/sources/FlowWriter.cpp:306-352 | a chunk takes exactly the bytes counted for it |
| `Wire.BodyRoundTrip` | third party/openRTMFP-Cumulus/CumulusLib/sources/ServerSession.cpp:463-517 | a chunk of any kind parses back to itself, flow-opening header part included |
| `Wire.OtherEndsRun` | third party/openRTMFP-Cumulus/CumulusLib/sources/ServerSession.cpp:534-546 | a chunk of another type ends the run: one without a header behind it belongs to no flow |
| `Wire.FlagBits` | third party/openRTMFP-Cumulus/CumulusLib/include/FlowWriter.h:28-32 | each flag has its own bit |
| `Wire.BodyExample` | third party/openRTMFP-Cumulus/CumulusLib/sources/FlowWriter.cpp:317-352 | the bytes of a flow-opening chunk and of the one that follows it |
| `Wire.LayoutExample` | third party/openRTMFP-Cumulus/CumulusLib/sources/ServerSession.cpp:310-339 | type and length in front of each, high byte first |
| `Wire.UnknownPartsExample` | third party/openRTMFP-Cumulus/CumulusLib/sources/ServerSession.cpp:483-500 | header parts nobody knows are stepped over by their length |
| `Acks.AckExample` | third party/openRTMFP-Cumulus/CumulusLib/sources/Flow.cpp:147-178 | the bytes of an acknowledgment for a buffer with two runs |
| `Envelope.DatagramRoundTrip` | third party/openRTMFP-Cumulus/CumulusLib/sources/ServerSession.cpp:263-298 | a packet laid out, framed with any marker that tells the echo truly, padded, stamped, encrypted and packed reaches the right session, is accepted and parses to its chunks |
| `Envelope.EnvelopeRoundTrip` | third party/openRTMFP-Cumulus/CumulusLib/sources/RTMFP.cpp:81-133 | Unpack gives the far id, ReadCRC accepts, and the plain bytes come back followed by 0xFF bytes only, the length being 4 modulo 16 under encryption |
| `Envelope.CheckSumIsOnesComplement` | third party/openRTMFP-Cumulus/CumulusLib/sources/RTMFP.cpp:67-78 | the two-step fold is the one's complement sum, word by word with end-around carry, and the plain sum stays within 31 bits for any datagram |
| `Envelope.OneWordChange` | third party/openRTMFP-Cumulus/CumulusLib/sources/RTMFP.cpp:67-92 | a change of one 16-bit word goes unnoticed if and only if it swaps 0x0000 and 0xFFFF and the rest is not all zeros |
| `Envelope.PaddingFillsBlocks` | third party/openRTMFP-Cumulus/CumulusLib/sources/RTMFP.cpp:97-102 | the padded length is 4 modulo 16 with fewer than 16 bytes of padding |
| `Envelope.PackRoundTrip` | third party/openRTMFP-Cumulus/CumulusLib/sources/RTMFP.cpp:119-133 | the id scrambled into the first word comes out again and nothing else changes |
| `Envelope.FrameRoundTrip` | third party/openRTMFP-Cumulus/CumulusLib/sources/ServerSession.cpp:359-380 | the chunks are found behind marker and time stamps exactly when the last digit of the marker tells the echo truly |
| `Envelope.CheckSum` | third party/openRTMFP-Cumulus/CumulusLib/sources/RTMFP.cpp:67-78 | sums the rest of the packet by words, the odd last byte alone, and puts the reader back |
| `Envelope.Packet.Encode` | third party/openRTMFP-Cumulus/CumulusLib/sources/RTMFP.cpp:95-109 | pads, stamps and encrypts the buffer |
| `Envelope.Packet.WriteCRC` | third party/openRTMFP-Cumulus/CumulusLib/sources/RTMFP.cpp:111-117 | writes the checksum of all that follows it, and nothing else |
| `Envelope.Packet.Decode` | third party/openRTMFP-Cumulus/CumulusLib/sources/RTMFP.cpp:81-92 | decrypts the buffer and accepts it exactly when the checksum is right |
| `Envelope.Packet.Unpack` | third party/openRTMFP-Cumulus/CumulusLib/sources/RTMFP.cpp:119-126 | combines the first three words |
| `Envelope.Packet.Pack` | third party/openRTMFP-Cumulus/CumulusLib/sources/RTMFP.cpp:128-133 | only the first word changes, and the far id comes out again when the three words are combined |
| `Envelope.EnvelopeExample` | third party/openRTMFP-Cumulus/CumulusLib/sources/RTMFP.cpp:67-133 | checksum, id and time stamps with their high bytes first, the marker raised by four for an echo |
| `Codec.ListRoundTrip` | third party/openRTMFP-Cumulus/CumulusLib/sources/BinaryWriter.cpp:80-102 | any list of values below 2^29, encoded one behind the other, decodes to the list with nothing left over |
| `Codec.RoundTripIffBelowLimit` | third party/openRTMFP-Cumulus/CumulusLib/sources/BinaryReader.cpp:59-72 | a value survives encoding and decoding if and only if it is below 2^29 |
| `Codec.DecodeEncode` | third party/openRTMFP-Cumulus/CumulusLib/sources/BinaryReader.cpp:59-72 | decoding an encoded value stops right behind it, whatever follows |
| `Codec.Encode7Length` | third party/openRTMFP-Cumulus/CumulusLib/sources/Util.cpp:54-62 | an encoding takes exactly the number of bytes announced for the value |
| `Codec.EncodingExample` | third party/openRTMFP-Cumulus/CumulusLib/sources/BinaryWriter.cpp:80-102 | the bytes of values at the borders between the four forms |
| `Codec.PacketReader.Read7BitValue` | third party/openRTMFP-Cumulus/CumulusLib/sources/BinaryReader.cpp:59-72 | the loop reads what the decoder gives, for any bytes, and consumes at least one byte if there is any |
| `Codec.BinaryWriter.Write7BitValue` | third party/openRTMFP-Cumulus/CumulusLib/sources/BinaryWriter.cpp:80-102 | appends the encoding of the value |
| `Publications.Publication.PushVideoPacket` | third party/openRTMFP-Cumulus/CumulusLib/sources/Publication.cpp:177-208 | every listener sees the loss and then the fate of the frame at both gates, and still never got an inter frame without the key frame before it unbroken; the statistics get one sample |
| `Publications.Publication.Start` | third party/openRTMFP-Cumulus/CumulusLib/sources/Publication.cpp:91-117 | closes both gates and restarts every listener, unless someone publishes already or it is refused |
| `Publications.Publication.Stop` | third party/openRTMFP-Cumulus/CumulusLib/sources/Publication.cpp:119-137 | ends a publication of this publisher only, and forgets its statistics |
| `Publications.Publication.AddListener` | third party/openRTMFP-Cumulus/CumulusLib/sources/Publication.cpp:43-63 | adds a listener waiting for its first key frame, with nothing forwarded yet, unless it is there already or refused |
| `Publications.Publication.RemoveListener` | third party/openRTMFP-Cumulus/CumulusLib/sources/Publication.cpp:65-75 | removes that listener and no other |
| `Publications.Listener.PushVideoPacket` | third party/openRTMFP-Cumulus/CumulusLib/sources/Listener.cpp:192-213 | forwards a key frame always, an inter frame only behind an open gate |
| `Publications.Listener.StartPublishing` | third party/openRTMFP-Cumulus/CumulusLib/sources/Listener.cpp:164-167 | closes the gate of the listener, whose video is broken then whatever the gate of the publication |
| `Publications.FateKeepsLinked` | third party/openRTMFP-Cumulus/CumulusLib/sources/Publication.cpp:188-206 | a frame meeting both gates keeps this: both are open exactly when the video since the last key frame is unbroken, and every inter frame forwarded could be decoded |
| `Publications.BreakKeepsLinked` | third party/openRTMFP-Cumulus/CumulusLib/sources/Publication.cpp:184-199 | a closed gate matches a restart, a loss or a dropped frame |
| `Quality.QualityOfService.Add` | third party/openRTMFP-Cumulus/CumulusLib/sources/QualityOfService.cpp:43-85 | the window after the sample is the one the whole history gives, numerator and denominator are its sums with num <= den, the lost rate is recomputed from it whenever anything was counted, and the latency drifts by what elapsed beyond the time stamps |
| `Quality.QualityOfService.EraseOlder` | third party/openRTMFP-Cumulus/CumulusLib/sources/QualityOfService.cpp:68-76 | erases from the front up to the first recent sample and takes just those out of the sums |
| `Quality.QualityOfService.Reset` | third party/openRTMFP-Cumulus/CumulusLib/sources/QualityOfService.cpp:87-96 | forgets everything |
| `Quality.KeptIsRecent` | third party/openRTMFP-Cumulus/CumulusLib/sources/QualityOfService.cpp:64-76 | for samples in time order the window holds exactly the samples of the whole history that are at most ten seconds older than the last |
| `Quality.KeptIsTenSeconds` | third party/openRTMFP-Cumulus/CumulusLib/sources/QualityOfService.cpp:66-76 | in numbers: a sample of the history is in the window exactly when it is not older than the last by more than 10000 milliseconds |
| `Quality.LatencyIsGreatestDrift` | third party/openRTMFP-Cumulus/CumulusLib/sources/QualityOfService.cpp:45-54 | after a run of samples in time order the latency is the greatest drift of elapsed time beyond the time stamps: since the start on top of the first latency, or since any later sample, the last included |
| `Quality.RateExample` | third party/openRTMFP-Cumulus/CumulusLib/sources/QualityOfService.cpp:79-82 | one fragment lost out of four gives a rate of a quarter |
| `Quality.LossesAmongTotals` | third party/openRTMFP-Cumulus/CumulusLib/sources/QualityOfService.cpp:58-60 | no more fragments are lost than counted |

## Left out

- FlowWriters.FlowWriter.Acknowledgment: a negative acknowledgment is reported and changes nothing here; failing, clearing and renewing the writer are not modelled. Of a current acknowledgment whose ranges add up to 2^32 stages or more only the shift of the window is said.
- FlowWriters.FlowWriter.Discard: the acknowledged memory given back to the application is not modelled.
- FlowWriters.FlowWriter.Flush: asks for `RoomFor` when a header is written first, the exact condition of `SliceProperIff`; without it the code writes a chunk of a wrapped length, which is not modelled.
- FlowWriters.FlowWriter.SendMessage: asks for `RoomFor` like Flush.
- FlowWriters.FlowWriter.WriteFragment: asks that the announced length be the length written, the exact condition of `DeclaredLengthExactIff`; a chunk shorter than announced is not modelled.
- FlowWriters.FlowWriter.Queue: asks for a message that is not empty and whose chunk sizes stay within 32 bits. An empty message is sent as an abandonment with delta 0, which the receiver passes over without a message.
- Flows.Flow.Commit: the flush of the flow's writer behind it is not part of it here.
- Sessions.PacketHandler: one existing flow; its creation by a header, its erasing when consumed and the failing of the session on an error are not modelled.
- Sessions.HandleChunk: the opening part of a header is parsed, but creates no flow.
- Wire.Band.WriteMessage: asks for the true length of a chunk that fits in a packet; the truncation of a longer one is not modelled, and is excluded by the proof that announced lengths fit.
- Wire.Band.Flush: marker, time stamps and echo are in `Envelope`; the dead session, which sends nothing, is not modelled.
- Publications.Publication.Stop: the listeners are not told, as nothing of theirs that is modelled would change.
- Publications.Publication.Start: the status messages written to controllers and listeners are not part of this model.
- Quality.QualityOfService.Add: sums are naturals; the 32-bit wrap-around of counters and latency is not modelled.
- `close`, `clear`, `cancel` and `fail` of a flow writer and the 0x18 and 0x5E chunks: terminal paths outside the window invariant. The end flag goes with the field `closed`, which a run may set at any time; the empty last fragment that closing may send is not modelled.
- Exactly-once is about one flow object on each side: the erasing of a completed flow by the session and its re-creation by a late header are not modelled.
- Messages are values in the lists of the writer, their fragment maps ordered sequences of entries; the content stream a message repositions is a slice of its bytes, so a stream out of step with `available` is not captured.
- A packet under construction is a list of chunks; that its bytes are the chunks laid out one behind the other is `Wire.Serialize`, not a buffer updated in place.
- The session handles one flow at a time in the model of `packetHandler`; other chunk types (0x0C, 0x4C, 0x01, 0x41, 0x5E, 0x18, 0x51) only end a run of fragments there.
- Handlers of messages, exceptions thrown by them, AMF, audio and data paths, acknowledged memory given back to applications: a delivered message is recorded, nothing more.
- Clocks: elapsed seconds and milliseconds are inputs. The lost rate is a real number.
- AES, Diffie-Hellman and HMAC: encryption is any pair of functions that undo each other on blocks of 16 bytes.
- Handshake, cookies, edges, `Middle`, groups, sockets, threads and configuration.
