# Compression, transport and buffers

A model of three stateful cores of this repository, and of the smaller ones they lean on, with proofs about it.
`dafny verify dfyconfig.toml` checks everything.

**The compressor** (`enet/compress.c`). `RangeCoder` is the carry-less 32-bit range coder over a list of slots,
`Frequencies` the table of byte counts of one context, `PpmModel` the contexts of up to two bytes with what they
learn, and `RoundTrip` the law they are for. The C code keeps none of these tables: it keeps 4096 slots, each a node
of a binary indexed tree and a context at once. `Arena*`, `ContextWalk`, `Compressor` and `Decompressor` are that
code over one array, updated in place, and each method is proved to do to the array what the tables say. Encoder and
decoder insert symbols in different orders, so their arenas hold equal tables in different slots. A stream that no
encoder wrote can put values out of order; what the array and the interval keep even then is in `ArenaTwigs`,
`ArenaGrowth`, `ArenaLevels` and `RangeCoder.Loose`, and the flag `exact` of the methods says whether the tables hold.

**Reliable transport** (`enet/peer.c`, `enet/protocol.c`). `ReliableReceiver` is one channel's receiving side, as a
class and as functions on its state; `PacketStream` and `ReliableSender` cut packets into numbered commands;
`ReliableRuns` lets a network deliver these commands in any order, any number of times or never, and states what
arrives; `ReliableArrivals` adds that nothing else does. `ReliableLink` closes the circle: the sender's windows decide
what is sent, acknowledgements come back late or never, and what the sender is done with has been handed over. `InFlight` is the sender's lists of commands with its per-window counters. `Unsequenced`, `DispatchQueue`
and `PacketReferences` are the window of unsequenced groups, the queue of peers with something to report, and the
packets' reference counts.

**evbuffer** (`libevent2/buffer.c`). `EvbufferChains` is the linked list of chains, each with memory of its own, a
misalignment and a length; `EvbufferRemoval`, `EvbufferMoves`, `EvbufferPullup`, `EvbufferSearch` and
`EvbufferLines` are its operations; `EvbufferSession` runs any sequence of them on two buffers. A ghost list of
pieces says what every chain holds, and the content is the pieces one after the other (`ByteLists`).

**Arithmetic.** `HostBandwidth` is the sharing of bandwidth in `enet/host.c`, `TokenBucket` the rate limits of one
bufferevent in `libevent2/bufferevent_ratelim.c`, `Checksum` and `PacketChecksum` the table-driven CRC-32 of
`enet/packet.c` against section 8 of RFC 1952.

Constants of ENet are those of `enet/include/enet/enet.h`: 16 reliable windows of 4096 numbers, 8 of them free;
32 free unsequenced windows of 1024 groups. Time, arrivals and other events are parameters.

## Where the code does less than it promises

Each of these has an input that shows it and the exact condition under which the code does what it should.

- `evbuffer_strchr` reports a byte too far on, by how far into its chain it was started (`EvbufferLines.StrchrWrong`,
  `EvbufferLines.StrchrRight`, and `EvbufferLines.SearchEol` for its caller).
- `evbuffer_remove_buffer` takes care of `last_with_datap` on neither side. When it takes part of a source whose
  data is all in the last of several chains, the source's is left at an empty chain; when it moves chains of which
  one is empty, other than the first into a buffer without chains, the receiver's is left in front of that one
  (`EvbufferMoves.Misplaced`, `EvbufferMoves.Overtaken`, and both conditions in `EvbufferMoves.RemoveBuffer`).
- A token bucket above its maximum is not clipped but grows, and its limit can wrap around below zero without the
  bufferevent being held (`TokenBucket.AboveMaximumGrows`, `TokenBucket.RefilledIsClipped`,
  `TokenBucket.SinksAtTheEnd`, `TokenBucket.Bufferevent.ReadMax`).
- The sender's windows let a command stay in flight until the receiver has come to the eighth window after its own,
  and exactly then no copy of it is acknowledged any more (`ReliableLink.Unanswered`,
  `ReliableLink.InFlightAnswered`).
- The sender's test looks around the end of the numbers by a shift of 4096 less the window, which C leaves undefined
  for a word of 32 bits. With it the channel keeps its promise (`ReliableLink.SentIsHandedOver`); if it comes to
  nothing, a copy of an old command is taken for a new packet (`ReliableLink.Lapped`).
- A number that is old enough is taken for a new one (`ReliableRuns.OldTakenForNew`, `ReliableRuns.TakenForNew`;
  `Unsequenced.DeliveredTwice`, `Unsequenced.TakenAgain`).
- An acknowledgement of a command that waits to be sent again takes its data off the count in transit though the
  timeout has done so already. The count goes below zero in 32 bits, and then shorter packets wait for ever
  (`InFlight.TakenOffTwice`, `InFlight.StalledExactly`). `InFlight.Peer.CheckTimeouts`, `InFlight.Peer.SendReliable`
  and `InFlight.Peer.RemoveSent` say of every step whether the count stays right.
- The decoder does not check a code read from the root against its total, and computes on with it in 8, 16 and 32
  bits (`RoundTrip.UncheckedCode`). Whether a read gives such a code is a condition on the interval, the code and the
  total before it (`RoundTrip.ReadsOutOfRange`); for the first read it is that the stream begins with four bytes 255
  (`RoundTrip.FirstReadOutOfRange`), and with a stream the compressor wrote it never happens
  (`RoundTrip.OwnStreamsInRange`). On any stream the decoder ends, stays within its arena and its output, and never
  divides by 0 (`Decompressor.Decompress`).

## Model

| member | source | states |
|---|---|---|
| `RangeCoder.TurnShrinks` | enet/compress.c:121-137 | one turn of the normalising loop leaves a valid interval inside the scaled old one; an interval that ends at 2^32 is only ever cut back to there |
| `RangeCoder.CutMeetsBoundary` | enet/compress.c:128-132 | where the loop cuts a small range, the cut is not empty, is no longer than the range and ends exactly at the next multiple of 2^24 |
| `RangeCoder.NarrowInside` | enet/compress.c:121-125 | the interval of a slot lies inside the interval before it, and a unit of the range is never 0 |
| `RangeCoder.EncodeContains` | enet/compress.c:344-371 | a decoder whose code is in the interval behind an encoded slot had it in the interval before, and the code it read lay in that slot |
| `RangeCoder.FlushWindow` | enet/compress.c:139-146 | at the start of the flushed bytes a decoder's 32 bits are the encoder's low, with only zeros behind |
| `RangeCoder.NormalizeKeepsLow` | enet/compress.c:354-371 | a code equal to low stays equal to low through normalising, as nothing but zeros follows |
| `RangeCoder.TurnBack` | enet/compress.c:358-370 | an interval across 2^32 that the loop does not leave as it is is valid again after one turn, so the loop ends |
| `RangeCoder.NarrowLoose` | enet/compress.c:354-371 | whatever slot the decoder takes, if it leaves one part in 256 or is the lowest part, the interval stays non-empty and short of 2^32 by a top byte, though it may lie across 2^32; for a slot in range it is the encoder's |
| `Frequencies.LearnKeepsTableOk` | enet/compress.c:309-330 | an update keeps every count in a byte with room for one more, the total within the coder's bound, and counts the byte and no byte not counted before |
| `Frequencies.RaisedFits` | enet/compress.c:309-330 | before a rescale every count still fits a byte and the total 16 bits |
| `Frequencies.RescaledFits` | enet/compress.c:90-112 | the total that rescaling sums up again is that of the halved counts and escapes, in 16 bits |
| `Frequencies.SlotFits` | enet/compress.c:286-308 | the slot of a byte is not empty and lies within a total of 16 bits; a context that has counted a byte has room for an escape beside it |
| `Frequencies.FindUnique` | enet/compress.c:373-413 | a code inside the slot of a byte falls in no other slot |
| `Frequencies.LookupUnique` | enet/compress.c:373-438 | looking up any code the encoder may have meant for a byte gives that byte |
| `Frequencies.SlotOrder` | enet/compress.c:389-403 | comparing a code with the two ends of a node's slot is comparing the byte it stands for with the node's value |
| `PpmModel.LearnChainAt` | enet/compress.c:286-330 | exactly the contexts walked over learn the byte, each once, and no other context changes |
| `PpmModel.CreatedBound` | enet/compress.c:148-157 | a byte creates no more symbols than contexts walked over, which is what the arena's check leaves room for |
| `PpmModel.UnitsOf` | enet/compress.c:286-330 | until its first rescale a context that has seen a byte n times gives it 2n units beside 5 escapes for every different byte, and the root 1 + 3n of 257 + 3 for every byte |
| `RoundTrip.ReadsBack` | enet/compress.c:529-596 | from any tables and interval the decoder reads the very byte that was encoded, in the context that held it, and ends with the encoder's interval at the next byte |
| `RoundTrip.ReadsEnd` | enet/compress.c:529-580 | behind the last byte the decoder reads an escape in every context down to the root, and so stops |
| `RoundTrip.Follows` | enet/compress.c:520-625 | in the middle of a stream, with equal models and intervals, the decoder reads all remaining bytes and then the end |
| `RoundTrip.DecompressUndoesCompress` | enet/compress.c:498-627 | for every input and every limit that suffices, decompressing what was compressed gives the input back, though no end is coded |
| `RoundTrip.DecompressRefusesSmallLimit` | enet/compress.c:498-627 | with a limit below the input's length the result is a refusal, never a shortened or wrong text |
| `RoundTrip.NonEmpty` | enet/compress.c:246-342 | a non-empty input gives at least one byte, so a size of 0 always means failure |
| `RoundTrip.ReadsOutOfRange` | enet/compress.c:529-593 | a byte's reading ends out of range exactly when every context that can be escaped gives an escape and, at the root, the code's distance from low around 32 bits, in units and in 16 bits, is at or above the total |
| `RoundTrip.FirstReadOutOfRange` | enet/compress.c:344-352 | the first code read is out of range exactly when the stream begins with four bytes 255 |
| `RoundTrip.OwnStreamsInRange` | enet/compress.c:529-593 | a stream the compressor wrote never makes the decoder read a code at or above the root's total, whatever the limit |
| `RoundTrip.UncheckedCode` | enet/compress.c:570-593 | the stream of four bytes 255 makes the decoder read a code that no slot of the root holds |
| `RangeStreams.TopTestInBits` | enet/compress.c:128 | the exclusive or of both ends, taken bit by bit, is at least 2^24 exactly when their top bytes differ |
| `RangeStreams.RangeEncoder.Renormalize` | enet/compress.c:126-136 | the loop writes the bytes and reaches the interval of normalising, or the output has no room for them |
| `RangeStreams.RangeEncoder.Encode` | enet/compress.c:121-137 | as 32-bit words, a slot is narrowed and normalised as the coder on numbers does, or the output has no room |
| `RangeStreams.RangeEncoder.Flush` | enet/compress.c:139-146 | low is written without its trailing zeros, or the output has no room |
| `RangeStreams.RangeDecoder.Read` | enet/compress.c:352 | on any stream the range becomes one unit, never 0, and the answer is the unit the code is in, in 16 bits |
| `RangeStreams.RangeDecoder.Decode` | enet/compress.c:354-371 | for any slot that leaves a part of the interval the loop ends with a range of 16 bits or more; for a slot in range the interval goes where the encoder's went, and the code is the window of the input as many bytes further on |
| `Arena.ContextArena.CreateRoot` | enet/compress.c:82-88 | an arena whatever it held before holds no tables but the root's fresh one, and is sound |
| `Arena.ContextArena.ContextEncode` | enet/compress.c:159-199 | on any stream the context's tree grows by one count or one symbol and no other tree changes; where the arena holds tables, it reports the sum of the smaller counts plus value times the minimum and the old count plus the minimum, and afterwards the tree holds the counts with that byte raised and the others theirs |
| `Arena.ContextArena.RescaleTree` | enet/compress.c:90-105 | every count of the tree is halved, rounding up, no other changes, and the total is the sum of the halved counts; where the arena holds tables these are the counts in the node's range, and every sum below is that of the halved ones |
| `Arena.ContextArena.Rescale` | enet/compress.c:107-112 | counts and totals are within their bounds again, in 8 and 16 bits; where the arena holds tables, it holds the rescaled table of that context and all others unchanged |
| `Arena.ContextArena.Reinforce` | enet/compress.c:309-330 | on any stream the totals fit 16 bits and come to the counts again; where the arena holds tables the context has learned the byte |
| `Arena.ContextArena.ContextTryDecode` | enet/compress.c:373-417 | for any code, it fails or raises one count of the tree; where the arena holds tables it fails exactly for a code above all slots, and otherwise finds the byte whose slot holds the code, with its sum and count |
| `Arena.ContextArena.ContextRootDecode` | enet/compress.c:373-438 | for any code the root's tree grows by one count or one symbol; for one in range it finds the byte whose slot holds the code also where the tree has a gap or nothing, creates its symbol there, and raises it |
| `ArenaShape.DescentCreates` | enet/compress.c:159-199 | a symbol linked where the search stops keeps every tree ordered, its sums right and its links pointing forward |
| `ArenaSearch.SearchByCode` | enet/compress.c:386-403 | at a node of the search the ends computed from the sums are those of the node's slot in the table |
| `ArenaHalving.ForestHalved` | enet/compress.c:90-112 | halving one tree and its totals leaves an arena that holds the rescaled table |
| `ArenaGrowth.Attaches` | enet/compress.c:159-199 | a symbol linked at a free side of any node of the tree keeps every slot in one tree once and the totals the sums of the counts, in whatever order the values are |
| `ArenaGrowth.Rescales` | enet/compress.c:90-112 | a rescale brings any tree of up to 4096 slots back under the bound of the totals |
| `ArenaLevels.UpLevel` | enet/compress.c:529-534 | on any stream every chain of parents loses one byte a step and ends in the root |
| `ArenaLevels.PatchingStep` | enet/compress.c:598-615 | a step of the patch loop relinks a slot above all contexts still ahead, so that following parents comes to the same context as before |
| `Compressor.EncodeByte` | enet/compress.c:286-330 | one byte through the contexts: the output and interval are those of its slots, the arena has learned it along the chain, or the output has no room for it all |
| `Compressor.NextContext` | enet/compress.c:332-337 | the next context is the one of the last two bytes, and the arena starts again exactly when the model does |
| `Compressor.Compress` | enet/compress.c:246-342 | the output is the stream of the input exactly if it fits, and nothing otherwise |
| `Decompressor.LearnedInAnyOrder` | enet/compress.c:598-615 | learning in a shorter context before the longer ones comes to the same tables and the same number of new symbols |
| `Decompressor.PatchContexts` | enet/compress.c:598-615 | on any stream the loop ends at the context that gave the byte and leaves all parents linked; where the tables hold, the arena is what coding the byte from the longest context leaves |
| `Decompressor.FindByte` | enet/compress.c:529-596 | on any stream the contexts are walked to their end and what was found is a byte, the end or a rejected code; it is what the reading of the tables gives unless a root code is out of range |
| `Decompressor.DecodeByte` | enet/compress.c:529-615 | the same with the arena brought to the model that has learned the byte |
| `Decompressor.Decompress` | enet/compress.c:498-627 | for every stream and every limit it ends, in at most 4096 slots and with no more bytes than the limit; they are what the stream stands for, and none where that is refused, unless a code above the root's total is read |
| `Decompressor.RoundTripped` | enet/compress.c:246-627 | a text packed with one arena and unpacked with another is the same text, or the room was too small and the size 0 |
| `ReliableReceiver.LaterIsFarther` | enet/peer.c:684-706 | the wrap-around comparison of the queue scan orders numbers by distance from the last one handed over |
| `ReliableReceiver.NoneClear` | enet/protocol.c:584-599 | no fragments remain exactly when every fragment's bit is set |
| `ReliableReceiver.DispatchKeepsValid` | enet/peer.c:617-651 | handing over what is in order keeps every waiting packet's count of fragments right, and leaves nothing that is ready at the head |
| `ReliableReceiver.Channel.DispatchIncomingReliableCommands` | enet/peer.c:617-651 | the loop over the queue hands over what the function on states does |
| `ReliableReceiver.Channel.FindPlace` | enet/peer.c:680-712 | the backward scan finds the place, or the duplicate, of the function on states |
| `ReliableReceiver.Channel.QueueIncomingCommand` | enet/peer.c:653-814 | a command is dropped, found to be a duplicate, or queued and dispatched as the function on states says |
| `ReliableReceiver.Channel.HandleSendReliable` | enet/protocol.c:392-414 | the state and the success of handling a reliable command are those of the function on states |
| `ReliableReceiver.Channel.QueueAcknowledgement` | enet/peer.c:486-516 | exactly the commands the function on states acknowledges get an acknowledgement queued, behind those waiting |
| `ReliableReceiver.Channel.HandleSendFragment` | enet/protocol.c:490-602 | and for a fragment: refused, out of the window, repeated, or written into its packet |
| `PacketStream.PieceWritten` | enet/protocol.c:584-595 | writing a fragment puts its bytes in and leaves those of all other fragments |
| `PacketStream.AllPiecesIn` | enet/protocol.c:584-599 | with every fragment in, the rebuilt packet is the one that was sent |
| `ReliableRuns.WindowVerdict` | enet/peer.c:667-678 | no further ahead than half the numbers and no further behind than TakenForNew allows, nothing old is in the window, nothing in it is old, and what is ahead of it is never acknowledged |
| `ReliableRuns.ScanFinds` | enet/peer.c:680-712 | for timely numbers the scan finds a packet where it waits, or the gap between those sent before and after it |
| `ReliableRuns.DispatchInOrder` | enet/peer.c:617-651 | handing over continues the packets handed over before, in the order they were sent, and loses none that waits |
| `ReliableRuns.ReliableStep` | enet/protocol.c:392-414 | a timely reliable command, early, late or repeated, keeps the order and is kept itself if in the window; one out of the window changes nothing |
| `ReliableRuns.FragmentStep` | enet/protocol.c:490-602 | and so does a timely fragment, first of its packet or not |
| `ReliableRuns.CommandStep` | enet/peer.c:486-516 | any command that is acknowledged is handed over, queued or marked in its packet; which ones are acknowledged is in the next three rows |
| `ReliableRuns.AcknowledgedByDistance` | enet/peer.c:492-501 | for all numbers, however far apart: one is acknowledged exactly if its distance ahead around the 2^16 numbers does not end in the seventh or eighth window |
| `ReliableRuns.AcknowledgedNearby` | enet/peer.c:492-501 | a number up to 7 windows behind the last one handed over is acknowledged again, and so is any in the window |
| `ReliableRuns.DeliveredIsAcknowledged` | enet/peer.c:486-516 | over every run exactly which delivery is acknowledged: any command, new, waiting or handed over, but in the seventh and eighth window ahead; so one of the window and one up to 7 windows old always is |
| `ReliableRuns.RunSound` | enet/peer.c:486-516 | every run of deliveries keeps this of all commands acknowledged so far, and what was handed over only grows |
| `ReliableRuns.NextPacketNotComplete` | enet/peer.c:617-651 | of the packet due next some command has not arrived: nothing complete is held back |
| `ReliableRuns.ExactlyOnceInOrder` | enet/peer.c:617-814 | whatever the network loses, repeats or reorders, the packets handed over are the first ones sent, each once and whole; and all packets up to one whose commands are all acknowledged have been handed over |
| `ReliableRuns.AcknowledgedIsKept` | enet/protocol.c:988-1013 | a command once acknowledged stays kept however the run goes on, until its packet is handed over |
| `ReliableRuns.TakenForNew` | enet/peer.c:667-678 | for all numbers, however far apart: one is taken for new exactly if it is as far behind around the 2^16 numbers as stated, or not behind at all |
| `ReliableRuns.OldTakenForNew` | enet/peer.c:667-678 | with 40961 handed over, a repeated command 1 is queued as new and acknowledged |
| `ReliableArrivals.SameRun` | enet/peer.c:617-814 | two streams that differ in one command are told apart by no run that does not deliver it |
| `ReliableArrivals.HandedOverArrived` | enet/peer.c:617-814 | over every run, each command of a packet handed over has been delivered |
| `ReliableLink.AcrossWindows` | enet/protocol.c:1273-1281 | the first number of a window goes only when the receiver has come to the seventh window before and nothing is in flight more than 8 windows back |
| `ReliableLink.SendNear` | enet/protocol.c:1273-1281 | the test on the first command of a window keeps what is sent within 7 windows of what the receiver has handed over, and what is in flight within 8 windows of what is sent |
| `ReliableLink.DeliveryIsTimely` | enet/protocol.c:1273-1281 | so every copy of a command in flight arrives in time for the receiver to tell old from new |
| `ReliableLink.DeliverNear` | enet/peer.c:494-501 | what the receiver acknowledges is never more than 6 windows ahead of what it has handed over |
| `ReliableLink.PlayLinked` | enet/protocol.c:1255-1357 | every run of the link is a run the receiver's theorems are about, and keeps these distances |
| `ReliableLink.SentIsHandedOver` | enet/protocol.c:1255-1357 | over every run of sender, network, receiver and acknowledgements, what is handed over are the first packets sent, whole and once each, and once none of their commands is in flight for the sender the first p packets have been handed over |
| `ReliableLink.InFlightAnswered` | enet/peer.c:494-501 | a copy of a command in flight that was handed over before is never taken for new, and is acknowledged exactly unless the receiver has come to the eighth window after its own |
| `ReliableLink.Unanswered` | enet/peer.c:494-501 | a run ends with command 1 in flight and handed over and no copy of it acknowledged any more |
| `ReliableLink.Lapped` | enet/protocol.c:1277-1279 | if the windows around the end of the numbers are left out of the test, a run ends with command 1 in flight and handed over and a copy of it queued as a new packet |
| `ReliableLink.HeldIsHeldBack` | enet/protocol.c:1273-1281 | the test of the counts and windows of the sender's lists is that test of the numbers in flight |
| `ReliableLink.MatchesSent` | enet/protocol.c:1305-1325 | a first sending adds its number to those the counts stand for |
| `ReliableLink.MatchesSentAgain` | enet/protocol.c:1305-1325 | another sending, or one on another channel, changes none of them |
| `ReliableLink.MatchesTimeout` | enet/protocol.c:1202-1253 | commands whose time is up change none either |
| `ReliableLink.MatchesTaken` | enet/protocol.c:206-224 | and an acknowledgement takes its number out |
| `ReliableSender.FragmentsCover` | enet/peer.c:110-155 | the pieces one after the other are the packet, all of full length but the last, which is not empty |
| `ReliableSender.StreamPosition` | enet/peer.c:110-170 | in the stream of all commands piece k of packet i is where its true number says |
| `ReliableSender.Sender.SetupReliable` | enet/peer.c:519-567 | the next number modulo 2^16 is given out, and the numbers of unreliable commands start again |
| `ReliableSender.Sender.CutFragments` | enet/peer.c:110-155 | the loop cuts the pieces of the packet, with count, offset, length and start number of each |
| `ReliableSender.Sender.Send` | enet/peer.c:99-203 | which packets go reliably, that the queued commands stay the stream of the packets sent so far, and that an unsequenced or unreliable packet gets the next group or number after the last one given out |
| `InFlight.MovedBack` | enet/protocol.c:1234-1246 | moving a timed-out command behind the other resends changes no counter and no key |
| `InFlight.SentFirst` | enet/protocol.c:1305-1325 | a first sending counts in the command's window, and only there |
| `InFlight.SentAgain` | enet/protocol.c:1305-1325 | another sending counts nowhere |
| `InFlight.Removed` | enet/protocol.c:206-220 | taking a sent command out of either list takes its counter down, from more than 0, and its window out of the used ones at 0 |
| `InFlight.Peer.Queue` | enet/peer.c:519-567 | a new command joins the end |
| `InFlight.Peer.CheckTimeouts` | enet/protocol.c:1202-1253 | the peer is given up exactly if there is a reason at some command, and then at the first; the commands before it whose time is up are at the front of the queue, in order and with twice the time, their data no longer in transit, and the next timeout is that of the first command left; counters are untouched |
| `InFlight.EarliestIs` | enet/protocol.c:1219-1221 | within a day the earliest timeout is the oldest of the time kept from before and the times of the commands whose time is up, and 0 exactly if there are none |
| `InFlight.GivenUpExactly` | enet/protocol.c:1219-1231 | within a day the reason is, in plain times: a command whose time is up, and one up to it or the time kept from before is 30 seconds old, or 5 seconds and the command has reached its limit |
| `InFlight.Peer.SendHead` | enet/protocol.c:1305-1353 | the head goes behind the sent commands, stamped, with its counter, the data in transit and the next timeout if it is the first |
| `InFlight.Peer.SendReliable` | enet/protocol.c:1255-1357 | the first n commands go, in order, because every test lets them, and command n does not, because one does not; another datagram must follow exactly if that is one of room; sizes, data in transit, timeout and counters come out exactly, no command is lost, and the datagram is no larger than the MTU |
| `InFlight.FitsDatagram` | enet/protocol.c:1286-1303 | while sizes stay in 16 bits, the commands that go fit what the MTU leaves |
| `InFlight.FullExactly` | enet/protocol.c:1286-1303 | a datagram is called full only if the next command would be one command, one buffer or some bytes too many |
| `InFlight.TransitLimited` | enet/protocol.c:1296-1298 | sending never brings the data in transit above the window |
| `InFlight.TimeoutBalances` | enet/protocol.c:1234-1241 | putting commands back whose time is up takes their data off the count of data in transit, so it stays as far as it was from the data of the commands sent |
| `InFlight.SendingBalances` | enet/protocol.c:1327-1350 | so does sending, which adds it |
| `InFlight.TakingBalances` | enet/protocol.c:226-229 | so does the acknowledgement of a command sent |
| `InFlight.TakingTwice` | enet/protocol.c:226-229 | the acknowledgement of a command waiting to be sent again takes its data off a second time |
| `InFlight.StalledExactly` | enet/protocol.c:1296-1298 | with nothing in flight, d bytes taken off twice and room in the datagram, a packet that no window holds back goes exactly if its piece is no shorter than d and by no more than the transit limit longer |
| `InFlight.TakenOffTwice` | enet/protocol.c:169-242 | a packet of 1000 bytes that times out and is acknowledged before it goes again leaves a count of 2^32 - 1000, and a packet of 500 bytes waits with nothing in flight |
| `InFlight.Peer.RemoveSent` | enet/protocol.c:169-242 | an acknowledged command is found exactly if one with its number was ever sent and not yet acknowledged, though the search stops at the first new one; the first such command is taken out of the list it is in, both lists stay as they are otherwise, its data is taken off the count in transit, which was right for it exactly if it was in the list of those sent, and the next timeout is that of the first command left |
| `EvbufferChains.Chain.New` | libevent2/buffer.c:154-181 | a chain has the room asked for, and less than twice that unless it is the smallest |
| `EvbufferChains.Chain.Align` | libevent2/buffer.c:1639-1646 | moving the data to the front of the memory keeps it |
| `EvbufferChains.Evbuffer.ChainInsert` | libevent2/buffer.c:257-286 | a chain goes behind the last one with data, and empty ones behind that go |
| `EvbufferChains.Evbuffer.Add` | libevent2/buffer.c:1479-1562 | the content gains the data at the end, unless the end is frozen; ends, length and last chain with data stay right |
| `EvbufferChains.Evbuffer.Prepend` | libevent2/buffer.c:1564-1636 | the content gains the data at the front, unless the front is frozen |
| `EvbufferRemoval.Drain` | libevent2/buffer.c:902-969 | the first bytes go, or all there are; a frozen front keeps a content that is not empty |
| `EvbufferRemoval.Copyout` | libevent2/buffer.c:986-1030 | the first bytes are copied across chains, no more than there are, and nothing else is written |
| `EvbufferRemoval.Remove` | libevent2/buffer.c:972-984 | what is copied out and what is left are the content before |
| `EvbufferMoves.AddBuffer` | libevent2/buffer.c:810-854 | all of the one content goes behind the other, and the chains of both stay apart; a frozen end leaves both |
| `EvbufferMoves.PrependBuffer` | libevent2/buffer.c:856-900 | all of the one content goes in front of the other |
| `EvbufferMoves.AdvanceLastWithData` | libevent2/buffer.c:597-611 | the pointer moves on over chains with data, and stops at the last chain or in front of an empty one |
| `EvbufferMoves.RemoveBuffer` | libevent2/buffer.c:1035-1116 | the first bytes of the one content go behind the other, whole chains moved and the rest copied; the source stays valid exactly unless part is taken and all its data is in the last of several chains, the receiver exactly unless chains with an empty one among them are moved behind others |
| `EvbufferMoves.Misplaced` | libevent2/buffer.c:1068-1094 | adding nothing to a buffer and moving one chain to it, and then one byte of that chain away, leaves its `last_with_datap` wrong |
| `EvbufferMoves.Overtaken` | libevent2/buffer.c:1068-1094 | moving an empty chain and one with data behind another one leaves the receiver's `last_with_datap` in front of the empty one |
| `EvbufferPullup.Pullup` | libevent2/buffer.c:1119-1229 | the content is what it was, and its first bytes lie in the first chain; no answer exactly for 0 bytes or more than there are |
| `EvbufferSearch.PtrMemcmp` | libevent2/buffer.c:2389-2425 | 0 exactly if the bytes occur at that position, across chains |
| `EvbufferSearch.SearchRange` | libevent2/buffer.c:2433-2496 | the least position from the start on where the pattern occurs in the content, within the end given, or -1 if there is none |
| `EvbufferLines.FindEol` | libevent2/buffer.c:1290-1310 | the first CR or LF from a position on, or none up to the end |
| `EvbufferLines.Strchr` | libevent2/buffer.c:1241-1261 | what it answers for the first such byte, in the chain it starts from and behind it |
| `EvbufferLines.StrchrRight` | libevent2/buffer.c:1241-1261 | that is the place of the byte exactly if the search starts at a chain's first byte or the rest of that chain has no such byte; and there is none exactly if no byte from there on is it |
| `EvbufferLines.StrchrWrong` | libevent2/buffer.c:1252 | from the second byte of "A LF" on, the LF at position 1 is reported at 2 |
| `EvbufferLines.StrSpn` | libevent2/buffer.c:1312-1349 | the length of the longest run of bytes in a set from a position on, across chains |
| `EvbufferLines.PtrSet` | libevent2/buffer.c:2347-2387 | a position is set from the start or moves on by so many bytes, or there is none exactly if that is the end or past it |
| `EvbufferLines.FindCrlf` | libevent2/buffer.c:1396-1413 | the first LF, with a CR before it or not, from a position on, and its length |
| `EvbufferLines.SearchEol` | libevent2/buffer.c:1361-1434 | the first terminator of each style and its length, or none; and exactly when the position reported is the terminator's |
| `EvbufferLines.Readln` | libevent2/buffer.c:1436-1473 | the content is split into the line, returned with a zero behind it, the first terminator of the style, and the rest that stays; nothing happens exactly if there is none or the front is frozen |
| `EvbufferSession.Perform` | libevent2/buffer.c:747-1229 | one call does to the chains what it does to a byte sequence with two frozen ends |
| `EvbufferSession.Move` | libevent2/buffer.c:778-1117 | and so does a transfer between two buffers |
| `EvbufferSession.Play` | libevent2/buffer.c:747-1636 | any run of adds, prepends, drains, removals, pullups, freezes and transfers on two buffers does to them what it does to two byte sequences |
| `EvbufferSession.PipeKeepsOrder` | libevent2/buffer.c:810-1117 | bytes added to one buffer, moved on and removed from the other come out in order, none lost or repeated |
| `HostBandwidth.FairThrottle` | enet/host.c:358-361 | the throttle keeps the data to send within the bandwidth, and the next greater one would not |
| `HostBandwidth.Host.OutgoingPass` | enet/host.c:363-394 | a pass settles exactly the open peers that would be sent more than they take in, each at what it takes in, pays for them exactly, keeps data and divisor positive, and ends with fewer open peers or with none left to settle |
| `HostBandwidth.Host.SettleOutgoing` | enet/host.c:346-395 | the loop ends; what settled peers take and what the throttle allots to the others is within the budget, none of the others gets more than it can take, and the throttle is the greatest for which that is so |
| `HostBandwidth.Host.LimitOpen` | enet/host.c:397-410 | every peer left over gets that throttle |
| `HostBandwidth.RegulatedFits` | enet/host.c:374-409 | no peer is sent more than it takes in, but for the least throttle there is, and a peer held below the common throttle would be at the next greater one |
| `HostBandwidth.NothingHeldBack` | enet/host.c:358-409 | at the full throttle a peer that can take its data is limited by nothing |
| `HostBandwidth.Host.IncomingPass` | enet/host.c:428-445 | a pass grants their own bandwidth to exactly the peers below the limit, pays for it exactly, and makes progress or is the last |
| `HostBandwidth.Host.GrantIncoming` | enet/host.c:416-446 | the loop ends with grants that sum up to no more than the host takes in, the peers granted their own are those below the limit, and the limit is an equal part of what they leave for each of the rest |
| `HostBandwidth.GrantTotal` | enet/host.c:448-465 | the limits told to the peers sum up to the granted bandwidths and the limit for each of the rest |
| `HostBandwidth.Host.BandwidthThrottle` | enet/host.c:314-477 | nothing within a second or without peers; otherwise every peer is regulated within the budget, the totals restart, and when bandwidths changed the limits told sum up to at most the incoming bandwidth; the throttle is the greatest that fits what settled shares leave, the limit an equal part of what grants leave, and a host whose demand is under its budget throttles nobody that can take its data |
| `Checksum.ReflectTwice` | enet/packet.c:96-108 | mirroring the low bits twice gives them back |
| `Checksum.StepReflects` | enet/packet.c:110-132 | one high-bit-first step with the polynomial is a low-bit-first step with the mirrored one |
| `Checksum.TableEntryIsSteps` | enet/packet.c:110-132 | the table entry of a byte is eight low-bit-first steps |
| `Checksum.TableUpdate` | enet/packet.c:134-156 | taking in a byte by table is taking it in bit by bit |
| `Checksum.UpdatesConcat` | enet/packet.c:134-156 | how the bytes are split into buffers does not matter |
| `PacketChecksum.CrcTable.ReflectCrc` | enet/packet.c:96-108 | the loop over bits mirrors them |
| `PacketChecksum.CrcTable.InitializeCrc32` | enet/packet.c:110-132 | the loops fill the table with the entries above |
| `PacketChecksum.CrcTable.Crc` | enet/packet.c:134-156 | the table-driven checksum of any buffers is the bit-at-a-time CRC-32 of their bytes |
| `PacketChecksum.UpdatesInjective` | enet/packet.c:134-156 | different states stay different behind the same bytes |
| `PacketChecksum.BurstDetected` | enet/packet.c:134-156 | a change within four bytes next to each other always changes the checksum |
| `Unsequenced.Peer.HandleSendUnsequenced` | enet/protocol.c:432-462 | the handler on the bitmap does what the function on the window does |
| `Unsequenced.ArriveOk` | enet/protocol.c:432-462 | a timely packet is delivered exactly if it is new and within the free windows, and the base only moves on |
| `Unsequenced.AtMostOnce` | enet/protocol.c:432-462 | in any run of timely arrivals no packet is delivered twice, and none that did not arrive |
| `Unsequenced.TakenAgain` | enet/protocol.c:432-462 | exactly when a packet delivered before is delivered again |
| `Unsequenced.DeliveredTwice` | enet/protocol.c:432-462 | arrivals 1, 20480, 33792 and 1 are all delivered |
| `DispatchQueue.Host.DispatchIncomingCommands` | enet/protocol.c:34-89 | a call reports for the first queued peer that has something, takes that off it and nothing else, and no event means an empty queue; what the calls of a run come to is in the rows below |
| `DispatchQueue.Host.DispatchState` | enet/protocol.c:91-102 | a peer changes state and is on the queue once |
| `DispatchQueue.Host.NotifyConnect` | enet/protocol.c:104-119 | the connection is reported to the caller or queued for the next |
| `DispatchQueue.Host.NotifyDisconnect` | enet/protocol.c:121-144 | a peer that never was connected goes quietly; the end of any other is reported or queued |
| `DispatchQueue.Host.HandleDisconnect` | enet/protocol.c:641-668 | what becomes of a peer in every state, with what it had received, and its place in the queue |
| `DispatchQueue.Host.Deliver` | enet/peer.c:604-650 | packets made ready put the peer on the queue unless it is there |
| `DispatchQueue.Host.ReceivePacket` | enet/peer.c:210-234 | the first packet is handed over, and the others stay |
| `DispatchQueue.Host.Reset` | enet/peer.c:324-371 | a peer leaves the queue with all it had |
| `DispatchQueue.Host.DisconnectPeer` | enet/peer.c:432-463 | a peer not leaving yet leaves the queue, and is told if it was connected |
| `DispatchQueue.Host.DisconnectLaterPeer` | enet/peer.c:471-484 | a peer with commands pending waits with its queue entry; any other is disconnected |
| `DispatchQueue.DispatchKeeps` | enet/protocol.c:34-89 | a call keeps this: the queue holds every peer marked for dispatch once and no other, and every connected peer with packets is marked |
| `DispatchQueue.ReportedInTurn` | enet/protocol.c:34-89 | the peer in place j of the queue is reported within j + 1 calls |
| `DispatchQueue.NoLostWakeup` | enet/protocol.c:34-144 | whatever is due at a peer is reported within as many calls as are queued, which is no more than there are peers |
| `DispatchQueue.PacketsConserved` | enet/protocol.c:34-89 | over any number of calls, the packets reported of a peer followed by those it has left are the packets it had |
| `DispatchQueue.AllPacketsCome` | enet/protocol.c:61-83 | all packets a connected peer has are reported, in order, within as many calls as are queued for each of them |
| `DispatchQueue.NothingElse` | enet/protocol.c:34-89 | nothing is ever reported of a peer with nothing due |
| `TokenBucket.NewConfig` | libevent2/bufferevent_ratelim.c:140-170 | rates are accepted exactly from 1 up to their burst, and bursts up to the largest signed size |
| `TokenBucket.RefilledIsClipped` | libevent2/bufferevent_ratelim.c:85-103 | the form with a division is the naive one exactly under the condition it names |
| `TokenBucket.AboveMaximumGrows` | libevent2/bufferevent_ratelim.c:94-97 | a limit of 150 with maximum 100 becomes 160 |
| `TokenBucket.RefillSinks` | libevent2/bufferevent_ratelim.c:94-97 | exactly when a refill turns a positive limit into none, which takes one above its maximum |
| `TokenBucket.SinksAtTheEnd` | libevent2/bufferevent_ratelim.c:94-97 | at the largest limit a refill of 2^62 leaves a negative one |
| `TokenBucket.RefillsCompose` | libevent2/bufferevent_ratelim.c:71-109 | refilling after some ticks and then more is refilling after all of them |
| `TokenBucket.ElapsedIs` | libevent2/bufferevent_ratelim.c:71-109 | going forward by n ticks, wrapping around 32 bits, refills for n, and going back or by more than an int holds for none |
| `TokenBucket.TakenBounded` | libevent2/bufferevent_ratelim.c:71-109 | over any run no more bytes are taken than the limit at the start and the rate of the ticks, less the limit at the end, which is never above the maximum |
| `TokenBucket.DebtIsPaid` | libevent2/bufferevent_ratelim.c:379-425 | an exhausted bucket has bytes again exactly when the ticks are worth more than the debt |
| `TokenBucket.Bufferevent.Update` | libevent2/bufferevent_ratelim.c:71-109 | both limits are refilled for the ticks since the last update, unless time went back; and exactly when one sinks |
| `TokenBucket.Bufferevent.ReadMax` | libevent2/bufferevent_ratelim.c:195-262 | what may be read is what the refilled bucket holds; what is exhausted is held still, exactly unless a limit sank |
| `TokenBucket.Bufferevent.DecrementReadBuckets` | libevent2/bufferevent_ratelim.c:270-300 | bytes read are taken off, and an exhausted bucket holds the bufferevent with its timer running |
| `TokenBucket.Bufferevent.DecrementWriteBuckets` | libevent2/bufferevent_ratelim.c:302-332 | the same for bytes written |
| `TokenBucket.Bufferevent.RefillCallback` | libevent2/bufferevent_ratelim.c:379-425 | exactly the directions with bytes again are released, and the timer runs on exactly if one is still held |
| `TokenBucket.Bufferevent.SetRateLimit` | libevent2/bufferevent_ratelim.c:542-618 | a new limit clips a bucket in use or fills a new one, holds exactly what is exhausted, and none releases everything |
| `TokenBucket.Bufferevent.DecrementReadLimit` | libevent2/bufferevent_ratelim.c:869-895 | taking or giving back bytes holds and releases at the crossing of 0, and the timer stays for the other direction |
| `TokenBucket.Bufferevent.DecrementWriteLimit` | libevent2/bufferevent_ratelim.c:897-923 | the same for writing |
| `PacketReferences.Queues.Insert` | enet/peer.c:569-586 | an entry more, a reference more |
| `PacketReferences.Queues.Release` | enet/protocol.c:222-230 | an entry less, and the packet goes exactly with its last one |
| `PacketReferences.Queues.Receive` | enet/peer.c:210-234 | the packet handed to the application is not gone, and counts the entries still naming it |
| `PacketReferences.Queues.Move` | enet/protocol.c:1239-1241 | an entry changes queues and no count changes |
| `PacketReferences.Queues.InsertFragments` | enet/peer.c:157-167 | as many entries and references as fragments |
| `PacketReferences.Queues.Send` | enet/peer.c:99-203 | one entry, or one for each piece, for a connected peer, and none for any other |
| `PacketReferences.Queues.Broadcast` | enet/host.c:246-263 | every connected peer's pieces are counted, and the packet is gone exactly if no peer took it |
| `PacketReferences.Queues.QueueIncoming` | enet/peer.c:653-814 | an arriving packet is queued, or dropped and gone exactly if nothing else names it |
| `PacketReferences.Queues.ResetQueue` | enet/peer.c:236-279 | a queue is emptied, and of its packets exactly those go that no other names |
| `PacketReferences.Queues.ResetQueues` | enet/peer.c:281-317 | the same for all queues of a peer, leaving all others |

## Left out

- Decompressor.Decompress: once a code above the root's total has been read, which bytes come out is not stated.
- Compressor.Compress: the input is one flat sequence, not a list of buffers; `ENET_CONTEXT_EXCLUSION` is undefined in the source and not modelled.
- ReliableLink.SentIsHandedOver: that no copy of a command arrives long after its acknowledgement, further behind than TakenForNew allows, is the network's promise, and so is that no acknowledgement is older than the numbers are long: it names its command by the true number here. The pieces of a packet behind the first 4097 fall under that promise even while they are in flight. Which command is sent or repeated when is left open.
- ReliableRuns.ExactlyOnceInOrder: the bound on how old a command is and how far ahead is a condition here; ReliableLink derives it from the sender's windows. Data that arrives while a peer is leaving is dropped and not covered. Unreliable delivery is not modelled, nor what the application takes from the packets handed over.
- ReliableReceiver.Channel.HandleSendFragment: lists are sequences, the bitmap a sequence of flags, offsets and lengths exact numbers.
- InFlight.Peer.SendReliable: the part of the window mask that wraps around is shifted by 4096 less the number of the window, which C leaves undefined for a word of 32 bits; it is a parameter here. Counters are unbounded, and the mask of used windows is a set.
- InFlight.Peer.CheckTimeouts: that the peer is then disconnected is only reported.
- EvbufferMoves.RemoveBuffer: copying part of a chain behind a receiver whose `last_with_datap` has just been left in front of an empty chain is not modelled. An empty chain arises only by adding or prepending nothing to a buffer without chains and moving chains behind it.
- EvbufferSession.Play: no zero-length adds to an empty buffer, and no searching calls.
- evbuffer: reserving, committing and expanding space, files, references, pinned and immutable chains, callbacks and their counters, locks, the width of lengths. A chain that is freed is dropped from the list.
- HostBandwidth.Host.BandwidthThrottle: exact numbers without 32-bit wrap-around. A peer whose outgoing bandwidth is unlimited counts as 0 in the sum, as it does in the source.
- PacketChecksum.CrcTable.Crc: the byte order of the result and the connection number that stands in for the checksum are not modelled.
- Unsequenced.AtMostOnce: that no packet arrives more than 2^15 groups behind the base is the network's promise; TakenAgain says exactly what happens otherwise.
- DispatchQueue.NoLostWakeup: outgoing queues, event data and `enet_host_flush` are not modelled. Packets of a peer in the state of leaving later are not reported, as in the source.
- TokenBucket.Bufferevent.SetRateLimit: rate-limit groups, failing timers and other reasons to be suspended are not modelled. A limit that leaves 64 bits wraps around, which C leaves undefined for signed numbers.
- PacketReferences.Queues.Broadcast: allocation failures, and packets the application destroys itself, are not modelled. Queues are known by number.
- The throttle's own statistics, round-trip times, sockets, clocks, threads, byte order and allocation failure.
- HTTP, IRC, rendering, game modes, bots, scripts and the number codecs of the game protocol.
