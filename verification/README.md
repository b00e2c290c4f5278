# TAS client: a verified model

TAS (Tool Access Socket) lets a client read and write the memory of a microcontroller through a server.
The client turns a list of read, write and fill transactions into packets, sends them, and turns the
packets that come back into results. This project models that client in Dafny and proves what it promises.

## What is modelled

* **Request builder** (`Encoder`, and in place `RwHandler`; `Acceptance`, `Packing`). A transaction of any 64-bit address, length,
  access mode and address map is split into PL0 accesses: an unaligned head, blocks of up to 1 KB, a tail.
  Commands are delta-encoded against the open packet's context and packed into PL1 frames inside PL2
  packets, under limits on request size, reply size and number of accesses.
* **Decoder and server** (`Protocol`, `Semantics`, and `Serve` in `EndToEnd`). The server is not in the
  repository; its decoder is written from the layouts in `tas_pkt.h` alone, its executor works on a memory
  keyed by address map and address, and it answers as the layouts say.
* **Reply parser and aggregation** (`Reply`, `ReplyParsing`, `DeniedReply`, `StaleReply`, `Delivery`,
  `Aggregate`, `ResultSize`), and runs of requests (`RequestRun`).
* **Mailbox** (`Mailbox`) and **client** (`RwClient`, `Fill32`, `FillThrough`, `LateReply`): framing by length
  words, `execute_trans`, `mExecuteSingleTrans`, `fill32`, and answers that come late.
* **Connection limits** (`Limits`, `FillLimits`, `Ping`).
* **Channels** (`ChlPacket`, `Channel`), **target list** (`Targets`), **CRC** (`Crc`).

Code that changes state is a class whose fields are those of the C++ object. The methods are proved
against functions on the abstract state (`Enc` of the builder, `Parse` of the reply parser, `ChlState`
of the channel client), and the main results are lemmas about these functions. `rw_add_rd`, `rw_add_wr` and
`rw_add_fill` share one method here (`AddTrans`), and so do `mPktAdd_Rd`, `mPktAdd_Wr` and `mPktAdd_Fill`
(`PktAdd`): their texts differ only where the model asks for the kind of access. The model follows the
release build: an `assert` of the C++ code does nothing.

## Main results

* *Compilation preserves meaning* (`Compiler.CompilePreserves`): the decoder recovers every packet of an
  accepted request; the PL0 accesses recorded perform byte for byte, in order and with the same maps and access
  modes, what the caller's transactions ask for (map 132 means 15); and the decoder sees exactly these if the request fits its buffer.
* *Acceptance* (`Acceptance.OneAccepted`, `Acceptance.NextAccepted`, `Acceptance.ListAccepted`): which
  transactions and lists are accepted, in terms of length, map and the sizes reported.
* *Round trip* (`EndToEnd.RoundTrip`, `RwClient.Client.ExecuteTrans`): request, server, reply and parser
  together change device and client memory exactly as running the transactions directly.
* *Replies stay in sync* (`EndToEnd.ReplyAccepted`, `Delivery.Delivered`): every reply whose frames are
  executed, with any mix of failing accesses, is consumed exactly; each record gets its own answer, and each read
  buffer starts with the bytes answered to its own transaction, as many as the result counts.
* *Denied access* (`DeniedReply.AnswersTaken`, `RwClient.Client.ExecuteTrans`): a reply in which a START denies
  device access ends in a device access error, with the records answered before it kept and the link in step.
* *Replies of other requests are refused* (`StaleReply.OtherReplyRefused`, `RequestRun.LateRefused`): a conforming
  reply whose PL1 count is not the awaited one is never accepted, whatever it answers.
* *PL1 counts* (`RequestRun.RunInStep`): they stay in step over every run of requests, refused lists included.
* *`fill32`* (`RwClient.Client.Fill`, `FillThrough.FillAccepted`): exactly when its list is accepted; then it
  fits both buffers, and memory is as after a loop that stores the word at every fourth address.
* *Late answers* (`LateReply.LateExactly`): the read/write client stays in step exactly if no answer comes late.
* *Channel safety* (`Channel.RunSafe`, `Channel.FreshRun`): over every run without a late reply, each reply read
  belongs to the request just sent, and device messages are neither lost nor reordered on the link. The session is
  open exactly if a session start of the run succeeded (`Channel.SessionExactly`), and what every call returns is
  said in plain codes (`Channel.SubscribeReturns`, `Channel.MessageHandedOut` and the like).

## Where the code does less than it promises, and exactly when

* A write block that would end at or behind the last word of the request buffer is not copied, although
  `rw_add_wr` returns true: `Compiler.WireIsRecords` says exactly when the request carries the data,
  `Limits.AcceptedButLost` gives an accepted write that does not, `Compiler.FitsIsCopied` the size check
  that rules it out.
* Request packets of reads and writes keep to the limit exactly if it is at least 1060 bytes
  (`Limits.BoundExactly`). Fills are charged 4 bytes too few: from 1060 bytes on, the packets of a list keep to the
  limit exactly if no fill was added to a packet that had just the room charged for it
  (`FillLimits.FillsExactly`). If no 32-bit sum of the buffer check wraps, all lists keep to the limit exactly if
  the request buffer is at most 980 bytes larger than it, wherever accesses and reply let fills fill a packet
  (`FillLimits.UnwrappedExactly`). With a smaller buffer, so in every handler whose limits are its buffer sizes, it
  takes a wrapped sum, that is a length of nearly 2^32 bytes, to exceed it (`FillLimits.FillsExceed` gives a list
  for either case, below 1060 bytes too). Packets exceed the limit by 4 bytes at most (`Limits.PacketSizes`).
* Blocks on the exclusive address maps 12 to 15 are documented as never split. For the 32-bit addresses these maps
  have, that holds exactly if a fresh packet has room for a block of 1 KB, or for every block that can be admitted
  (`Limits.ExclusiveExactly`): for writes, if the server announces at least 1048 bytes and the limit with the buffer
  is at least 1044; for reads, if it announces at least 1048; or if announced limit and buffer are so close that
  no longer block is admitted (`Limits.WriteRoomIs`). The release build takes 64-bit addresses there too; then the
  request limit has to be at least 1052.
* A refused ping clears the packet limits of the handler it was sent with. The configuration is legal after a ping
  exactly if it was accepted; after a refused one, no transfer that holds an aligned 8-byte block ever ends
  (`Ping.LegalAfterPing`).
* `rw_get_trans_rsp` computes an end address in 64 bits. It is right for every reply exactly if no
  transaction that was split ends at 2^64 (`Aggregate.AggregateExactly`).
* The buffer check sums in 32 bits. With buffers of at most 64 KB all lengths of an accepted list fit the 16 bits
  of its results exactly if no sum wrapped (`ResultSize.ResultsFit`).
* An answer to a read/write request that comes after the time-out stays in the link, and the code never gets rid of
  it: until 2^16 PL1 counts later, every request reads packets of older ones and fails, although the device
  executes it (`LateReply.LateExactly`).
* A channel reply that comes after the time-out stays in the link: whatever request comes next reads it instead
  of its own (`Channel.SafeExactly`, both directions).
* `rw_set_rsp` does not notice that packets are missing at the end of a reply: if nothing failed in the packets that are
  there, it returns no error, although the other records are not answered (`DeniedReply.ShortReply`). Behind the
  mailbox this cannot happen, which reads as many packets as it sent.
* Channel messages of up to 1024 bytes can be negotiated, but the receive limit of 1024 bytes counts the
  packet header too: at most 1012 arrive (`ChlPacket.MessageReceived`). The length check of `send_msg`
  wraps at 16 bits (`ChlPacket.SendLimit`).
* `get_targets` cuts the list at 64 entries and then succeeds only if a page ends there
  (`Targets.GetTargets`). A total that changes between pages is refused exactly if the first page announced
  fewer than 64 targets (`Targets.ChangedTotalExactly`); `Targets.ChangedTotalAccepted` gives an input.
* END carries the running total of accesses of the request, where `tas_pkt.h` describes the number of accesses: it
  is the frame's own number exactly if the accesses of the frames before it add up to a multiple of 2^16
  (`Limits.EndCountExactly`). In every legal configuration a request of two writes shows the difference
  (`Limits.EndCountDiffers`).

## Hypotheses

Packet limits are multiples of 4, at least 128 (`Encoder.Legal`; `Limits.PingLegal` and `Ping.LegalAfterPing`
show when a ping leads to that), and buffers are smaller than 256 MB; `addr + num_bytes` does not pass 2^64; write data has the announced length.
An accepted request that fits its buffers exists in every legal configuration (`Limits.AccessGoesThrough`).
The server conforms to `tas_pkt.h`, and sends device messages only to receive and bidi subscribers.

## Model

| member | source | states |
|---|---|---|
| `Protocol.ParsePacketOk` | src/tas_client/tas_pkt.h:895-1050 | a decoder written from the layouts reads a packet's words back as the packet: length word, START, every command, END |
| `Protocol.StreamRoundTrip` | src/tas_client/tas_pkt.h:895-1050 | following the length words of a request from its start cuts it into exactly its packets, and each decodes to itself |
| `Protocol.CommandCodes` | src/tas_client/tas_pkt.h:146-165 | length and command code of every command's header, with its map, mode, address field |
| `Semantics.TileOps` | src/tas_client/tas_pkt_handler_rw.cpp:675-716 | pieces that tile bytes lo to hi of a transaction perform exactly its byte accesses lo to hi, in order, for reads, writes and fills |
| `Encoder.BlkRoundProgress` | src/tas_client/tas_pkt_handler_rw.cpp:691-700 | a round of the block loop that moves no bytes leaves a packet with less used, so the loop ends although block size 0 is possible |
| `Packing.SwitchExactly` | src/tas_client/tas_pkt_handler_rw.cpp:194-378 | no packet is closed early: an access joins the open packet if and only if with it packet, reply and access count are within their limits, where a read of up to 8 bytes is charged 4 bytes more and a fill 4 less than it has |
| `Packing.BlockLargest` | src/tas_client/tas_pkt_handler_rw.cpp:596-641 | a block is the largest multiple of 8, up to 1024 bytes and the announced size less 24, that fits what is left of the packet with its frame; unless the room for a 64-bit base is taken off less than 16 bytes |
| `Packing.OpensExactly` | src/tas_client/tas_pkt_handler_rw.cpp:499-558 | the number of accesses a transaction is expected to need, and that it is compared with the room for records |
| `Packing.JoinsExactly` | src/tas_client/tas_pkt_handler_rw.cpp:655-673 | a transaction begins in the open packet if and only if its map may join and there is room for all of it, if it is short or on an exclusive map, or for a first part |
| `Tiling.CompileCovers` | src/tas_client/tas_pkt_handler_rw.cpp:643-867 | for every builder state, an admitted transaction becomes pieces that tile it in ascending order without gap or overlap, each naturally aligned or an 8-aligned block of at most 1024 bytes |
| `Simulation.CtxExec` | src/tas_client/tas_pkt_handler_rw.cpp:126-177 | the context commands emitted for an access bring the decoder from any context to the access's map and mode and the builder's new base |
| `Simulation.BaseOffset` | src/tas_client/tas_pkt_handler_rw.cpp:157-176 | the base stays 64 KB aligned, and base plus the 16-bit offset is the full 64-bit address |
| `Simulation.EmitDecoder` | src/tas_client/tas_pkt_handler_rw.cpp:194-258 | after every emitted access the decoder's context is the builder's, and it has seen exactly the accesses sent |
| `Simulation.FinalizeDecoder` | src/tas_client/tas_pkt_handler_rw.cpp:380-432 | at a packet switch builder and decoder both restart from map 0, mode 0, base 0 |
| `Simulation.FrameStep` | src/tas_client/tas_pkt_handler_rw.cpp:463-482 | an access the address map rules admit keeps the START mask equal to the set of maps used, and keeps maps 12 to 15 exclusive |
| `Simulation.RulesExactly` | src/tas_client/tas_pkt_handler_rw.cpp:463-482 | an access may join the maps used so far if and only if there are none, or its own map is the only one, or all are below 12, its own included |
| `Invariant.ApplyInv` | src/tas_client/tas_pkt_handler_rw.cpp:194-432 | every run of packet switches and accesses keeps sizes, counters, decoder state, masks, records and packet bounds in agreement |
| `Request.TryAddInv` | src/tas_client/tas_pkt_handler_rw.cpp:643-867 | adding any admitted transaction keeps the builder's invariant, and gives the transaction its own run of PL0 records that tile it |
| `Request.AddAllInv` | src/tas_client/tas_pkt_handler_rw.cpp:869-899 | so does adding any list; the transactions recorded are those of the list itself, except that map 132 is recorded as 15 (`Meant`, `MeantIs`) |
| `Request.MeantIs` | src/tas_client/tas_pkt_handler_rw.cpp:651-742 | the maps sent and recorded are those of the caller's list: 0 to 15 and all others unchanged, 132 as 15 |
| `Request.PlainMeant` | src/tas_client/tas_pkt_handler_rw.cpp:651-742 | a list without map 132 stands for itself: records, bytes moved and final memory in the theorems below are then those of the caller's own transactions |
| `Request.AddAllNonEmpty` | src/tas_client/tas_pkt_handler_rw.cpp:869-899 | the last packet of an accepted request is never empty |
| `Compiler.WireIsRecords` | src/tas_client/tas_pkt_handler_rw.cpp:308-316 | the accesses the decoder sees are the recorded ones exactly if every write block ended before the last buffer word or equals what the buffer held |
| `Compiler.FitsIsCopied` | src/tas_client/tas_pkt_handler_rw.cpp:901-908 | a request whose reported size is within the buffer limit has all its block data copied |
| `Compiler.CompilePreserves` | src/tas_client/tas_pkt_handler_rw.cpp:126-432 | for every accepted list: decoding the words gives the packets; the records perform byte for byte what the list itself asks for, map 132 meaning 15, and the recorded transactions are that list; the decoded accesses are the records under the exact condition above |
| `Compiler.TakesIs` | src/tas_client/tas_pkt_handler_rw.cpp:434-445 | a transaction is admitted exactly if its length is not 0, its map is 0 to 15 or 132, and 32-bit sums of payload and the sizes so far are less than both buffers; a fill needs an 8-aligned address and length, mode 0 and a map below 12 |
| `Acceptance.OneAccepted` | src/tas_client/tas_pkt_handler_rw.cpp:869-899 | a list of one is accepted exactly if that holds from 16 bytes of request and 12 of reply on; an empty list is refused |
| `Acceptance.ShortAccepted` | src/tas_client/tas_pkt_handler_rw.cpp:643-653 | a read or write of any alignment and length whose sums do not wrap is accepted on its own if and only if it has bytes, its map is 0 to 15 or 132, and its payload leaves room in its buffer |
| `Acceptance.NextAccepted` | src/tas_client/tas_pkt_handler_rw.cpp:869-899 | a list with one transaction more is accepted if and only if the list before it is, and the transaction is taken at the sizes reported for that list |
| `Acceptance.ListAccepted` | src/tas_client/tas_pkt_handler_rw.cpp:869-899 | every list of transactions of the right form is accepted if 113 bytes for each byte and 820 for each transaction are less than both buffers; only lists of that form are |
| `Acceptance.RefusedLeavesNothing` | src/tas_client/tas_pkt_handler_rw.cpp:880-893 | of a refused list no packet, record or transaction is left, whatever was added before the refusal |
| `Limits.FramesDisciplined` | src/tas_client/tas_pkt_handler_rw.cpp:400-482 | every frame of an accepted request: mask is exactly the maps used, exclusive maps alone, at most pl0_max_num_rw accesses, PL1 counts consecutive modulo 2^16, END carries the number of accesses of all frames so far, last frame not empty |
| `Limits.EndCountExactly` | src/tas_client/tas_pkt.h:915-922 | END carries the number of accesses of its own frame if and only if those of the frames before it add up to a multiple of 2^16 |
| `Limits.EndCountDiffers` | src/tas_client/tas_pkt_handler_rw.cpp:400-423 | in every legal configuration, two writes to different exclusive maps: the END of the second frame says 2 for its single access |
| `Limits.PacketSizes` | src/tas_client/tas_pkt_handler_rw.cpp:560-594 | request packets are within max(limit, 1060) bytes, 4 more with fills; reply packets are within their limit for every legal configuration; the predicted reply size is the sum of the error-free replies |
| `Limits.BoundExactly` | src/tas_client/tas_pkt_handler_rw.cpp:115-117 | all lists of reads and writes keep the request limit if and only if it is at least 1060 bytes |
| `Limits.BoundFails` | src/tas_client/tas_pkt_handler_rw.cpp:596-619 | below 1060 bytes, for every legal configuration, a single block write exceeds the limit |
| `FillLimits.EmitLen` | src/tas_client/tas_pkt_handler_rw.cpp:346-361 | from 1060 bytes on, an access makes the open packet longer than the limit if and only if it is a fill and the packet has exactly the room the builder asks for |
| `FillLimits.FillsExactly` | src/tas_client/tas_pkt_handler_rw.cpp:825-867 | every packet of an accepted list, fills included, keeps to the limit if and only if no such fill was added |
| `FillLimits.FillsExceed` | src/tas_client/tas_pkt_handler_rw.cpp:346-361 | in every legal configuration whose access counts and reply limit let fills fill a packet, an accepted list with a packet longer than the limit; if the request buffer is more than 980 bytes larger than the limit, no sum wraps for it |
| `FillLimits.UnwrappedKeeps` | src/tas_client/tas_pkt_handler_rw.cpp:434-445 | with a request buffer at most 980 bytes larger than the limit, every accepted list whose sums do not wrap keeps to the limit, fills included |
| `FillLimits.UnwrappedExactly` | src/tas_client/tas_pkt_handler_rw.cpp:825-867 | the lists whose sums do not wrap all keep to the limit if and only if the request buffer is at most 980 bytes larger |
| `Limits.ExclusiveWhole` | src/tas_client/tas_pkt_handler_rw.cpp:660-663 | in such a configuration an admitted 8-aligned read or write of a multiple of 8 up to 1 KB on an exclusive map is one PL0 access, whatever was packed before |
| `Limits.ExclusiveExactly` | src/tas_client/tas_am15_am14.h:33-39 | blocks on address maps 12 and higher with 32-bit addresses are never split, whatever was packed before, if and only if a fresh packet takes 1 KB, or every block that can be admitted; the same for the 64-bit addresses the code takes |
| `Limits.ExclusiveSplit` | src/tas_client/tas_pkt_handler_rw.cpp:610-640 | in every other legal configuration a block, at address 0, that is admitted and split |
| `Limits.WriteRoomIs` | src/tas_client/tas_pkt_handler_rw.cpp:596-619 | what that room is in bytes of the limits |
| `Limits.SmallPiecesBound` | src/tas_client/tas_pkt_handler_rw.cpp:499-508 | the estimate of 1, 2 or 4 pieces for transfers of at most 8 bytes is an upper bound of the real number |
| `Limits.AccessGoesThrough` | src/tas_client/tas_pkt_handler_rw.cpp:643-823 | in every legal configuration an aligned 64-bit read or write, to any map the code takes, is accepted on its own and fits request and reply buffer |
| `Limits.AcceptedButLost` | src/tas_client/tas_pkt_handler_rw.cpp:308-319 | a legal configuration and an accepted 168-byte write whose second block is not in the request |
| `Limits.PingLegal` | src/tas_client/tas_pkt_handler_base.cpp:81-98 | every connection description the ping check lets through gives a legal configuration; all packets of all its lists of reads and writes keep to the limit if and only if it announces at least 1060 |
| `Ping.BaseHandler.SetPktRspPing` | src/tas_client/tas_pkt_handler_base.cpp:35-113 | the checks on a ping reply with their error codes; what was announced is cleared first and set only if all pass |
| `Ping.PingCodes` | src/tas_client/tas_pkt_handler_base.cpp:39-113 | a ping is accepted if and only if it is a full reply to the request, of a server that speaks version 1, without error, announcing sizes in range; the error code of every other one |
| `Ping.LegalAfterPing` | src/tas_client/tas_pkt_handler_base.cpp:39-98 | a handler's configuration is legal after a ping if and only if the ping was accepted; and then, and only then, the block loop of a transfer gets past its first block |
| `Reply.AnswerStep` | src/tas_client/tas_pkt_handler_rw.cpp:1066-1159 | one round of the parser takes any conforming answer to an access, also a partial or failed one and the 1 KB form with length 0, and notes exactly its result |
| `Reply.StartExactly` | src/tas_client/tas_pkt_handler_rw.cpp:1018-1040 | whatever the words are, the only START taken is one of length 0 with no error or a reset, which is counted; denied access has its own code, all else is a connection error |
| `Reply.EndExactly` | src/tas_client/tas_pkt_handler_rw.cpp:1045-1064 | END is taken if and only if its length is 0 and its count the awaited one; it ends the reply if and only if all records are done |
| `Reply.WriteExactly` | src/tas_client/tas_pkt_handler_rw.cpp:1072-1107 | which answers to a write or fill are taken, and what the record holds then, also if the answer is refused |
| `Reply.ReadExactly` | src/tas_client/tas_pkt_handler_rw.cpp:1108-1156 | which answers to a read are taken, the 1 KB form included, what the record holds and which bytes reach the read buffer |
| `ReplyParsing.PacketParsed` | src/tas_client/tas_pkt_handler_rw.cpp:1016-1064 | the parser consumes one packet's reply exactly, counts a reported reset, and ends or moves the awaited PL1 count on |
| `ReplyParsing.StreamParsed` | src/tas_client/tas_pkt_handler_rw.cpp:1016-1164 | a reply of any number of packets, empty ones included, is consumed exactly, and the results are absorbed record by record |
| `EndToEnd.StreamReplySize` | src/tas_client/tas_pkt_handler_rw.cpp:910-917 | no conforming reply is longer than predicted; an error-free one has exactly the predicted size |
| `EndToEnd.ReplyAccepted` | src/tas_client/tas_pkt_handler_rw.cpp:994-1164 | any reply to any accepted request that answers every frame, whatever accesses fail, is parsed to its end, in step with the PL1 counts |
| `EndToEnd.AbsorbRecords` | src/tas_client/tas_pkt_handler_rw.cpp:1066-1156 | afterwards each record holds its own error and byte count |
| `EndToEnd.AbsorbError` | src/tas_client/tas_pkt_handler_rw.cpp:1224-1267 | the error returned tells the first failing access: 0x0410 for a locked device, 0x0400 for denied access, else 0x0600 for a read and 0x0610 for a write or fill; none if nothing fails |
| `EndToEnd.ReplyTold` | src/tas_client/tas_pkt_handler_rw.cpp:1224-1267 | so `rw_set_rsp` for every conforming reply to every accepted request |
| `StaleReply.PacketRefused` | src/tas_client/tas_pkt_handler_rw.cpp:1045-1053 | a packet's reply with another PL1 count than the awaited one is refused, whatever it answers and whatever the records are |
| `StaleReply.OtherReplyRefused` | src/tas_client/tas_pkt_handler_rw.cpp:994-1164 | a conforming reply to another request, told by its first PL1 count, is never accepted: it ends in a server connection error |
| `DeniedReply.AccessDenied` | src/tas_client/tas_pkt_handler_rw.cpp:1028-1030 | the first k packets answered, then a START with the device access error, then anything: a device access error; the records of the k packets hold their own answers, all others are untouched |
| `DeniedReply.DeniedNotLonger` | src/tas_client/tas_pkt.h:906-930 | a conforming reply that denies one packet is no longer than predicted |
| `DeniedReply.ShortReply` | src/tas_client/tas_pkt_handler_rw.cpp:994-1164 | `rw_set_rsp` takes a reply that ends after its first packets like a whole one: the records of these hold their answers, all others are untouched, and the error is that of the first failing access, so none if nothing fails |
| `DeniedReply.AnswersTaken` | src/tas_client/tas_pkt_handler_rw.cpp:994-1164 | whatever a conforming server answers to an accepted request, packet by packet, failing accesses and denied packets included: results are those of the answers before the first denial; the error is that of the first failing access by these codes, else 0x0400 if a packet was denied, else none |
| `Delivery.ReadDelivered` | src/tas_client/tas_pkt_handler_rw.cpp:1108-1156 | the answers to the pieces of a read put their bytes in order at the start of its buffer, up to the first failing access, and change nothing outside it |
| `Delivery.Delivered` | src/tas_client/tas_pkt_handler_rw.cpp:1066-1207 | after any reply that answers every frame of an accepted request with separate read buffers, every buffer holds the bytes answered to its transaction, rw_get_trans_rsp returns exactly their number in 16 bits unless a split transaction ends at 2^64, and the rest of the client's memory is as before |
| `RequestRun.RunInStep` | src/tas_client/tas_pkt_handler_rw.cpp:869-1064 | over every run of accepted and refused lists: counts in 16 bits and consecutive, any reply to an accepted request is accepted, and the count awaited is where the next list goes on |
| `RequestRun.LateRefused` | src/tas_client/tas_pkt_handler_rw.cpp:1045-1053 | a reply to an earlier request of the run is refused while a later one is awaited, if the counts they start from differ |
| `EndToEnd.ServeAbsorbed` | src/tas_client/tas_pkt.h:1052-1093 | serving accesses and delivering the answers is running their byte operations on device and client memory |
| `EndToEnd.RoundTrip` | src/tas_client/tas_pkt_handler_rw.cpp:643-1164 | compile, decode, execute, answer, parse: no error, every record fully done, device and client memory as if the caller's transactions had run directly, map 132 meaning 15 |
| `Aggregate.AggregateCorrect` | src/tas_client/tas_pkt_handler_rw.cpp:1166-1207 | address matching gives each transaction exactly its own pieces: first piece error and bytes up to and including that piece |
| `Aggregate.AggregateExactly` | src/tas_client/tas_pkt_handler_rw.cpp:1178-1202 | that holds for all results if and only if no split transaction ends at 2^64 |
| `Aggregate.RequestAggregated` | src/tas_client/tas_pkt_handler_rw.cpp:1166-1207 | the same for every accepted request |
| `Aggregate.FineAggregated` | src/tas_client/tas_pkt_handler_rw.cpp:1166-1207 | if nothing fails every transaction reports all its bytes |
| `Aggregate.WrappedAggregated` | src/tas_client/tas_pkt_handler_rw.cpp:1178-1202 | except that a single transaction that was split and ends at 2^64 reports its first piece only |
| `ResultSize.TransCost` | src/tas_client/tas_pkt_handler_rw.cpp:643-867 | a transaction of n bytes adds at most 112 n + 820 bytes to request and reply together, from every builder state |
| `ResultSize.ResultsFit` | src/tas_client/tas_pkt_handler_rw.cpp:434-445 | with buffers of at most 64 KB all lengths of an accepted list fit 16 bits if and only if no 32-bit sum of the check wrapped |
| `ResultSize.FullLengths` | src/tas_client/tas_pkt_handler_rw.cpp:1166-1207 | then, if nothing fails, every result is the length asked for |
| `RwHandler.RwPacketHandler.Sized` | src/tas_client/tas_pkt_handler_rw.cpp:40-84 | packet limits and buffers are the sizes given, each less 64 bytes, requests and replies apart: a legal configuration; nothing built, the first PL1 count |
| `RwHandler.RwPacketHandler.FromConInfo` | src/tas_client/tas_pkt_handler_rw.cpp:31-38 | buffers of 65472 bytes with the packet limits announced: legal if the ping check accepts these |
| `RwHandler.RwPacketHandler.StartRequest` | src/tas_client/tas_pkt_handler_rw.cpp:95-124 | whatever was built before, an empty request; the awaited PL1 count is the one after the last sent |
| `RwHandler.RwPacketHandler.PktInit` | src/tas_client/tas_pkt_handler_rw.cpp:380-398 | three words kept free for length and START, context and mask zero, reply size 8 bytes more |
| `RwHandler.RwPacketHandler.ClosePacket` | src/tas_client/tas_pkt_handler_rw.cpp:400-423 | filling in START, END and length in place makes the buffer exactly the words of all packets so far |
| `RwHandler.RwPacketHandler.PktFinalize` | src/tas_client/tas_pkt_handler_rw.cpp:400-432 | packet switch: refines `Encoder.Finalize` and keeps the buffer in agreement |
| `RwHandler.RwPacketHandler.DataBlkSize` | src/tas_client/tas_pkt_handler_rw.cpp:596-641 | a multiple of 8, at most 1024 and the rest; with header and END, and a 64-bit base where a write needs one, a block of that size fits what is left of the packet, except where subtracting the room for the base wraps as coded |
| `RwHandler.RwPacketHandler.SetAddrMapAccModeBaseAddr` | src/tas_client/tas_pkt_handler_rw.cpp:126-177 | appends the words of exactly the context commands that are needed, and moves the context |
| `RwHandler.RwPacketHandler.WriteCmd` | src/tas_client/tas_pkt_handler_rw.cpp:279-320 | appends the words of each kind of command as they are laid out; a block that would reach the buffer's last word keeps what the buffer held |
| `RwHandler.RwPacketHandler.PktWrite` | src/tas_client/tas_pkt_handler_rw.cpp:211-257 | one access written and recorded: refines `Encoder.Emit` |
| `RwHandler.RwPacketHandler.PktAdd` | src/tas_client/tas_pkt_handler_rw.cpp:194-378 | at most two packet switches, then the access: refines `Encoder.AddPiece` |
| `RwHandler.RwPacketHandler.AddHead` | src/tas_client/tas_pkt_handler_rw.cpp:679-690 | the three ifs of the head cut exactly its pieces |
| `RwHandler.RwPacketHandler.AddBlock` | src/tas_client/tas_pkt_handler_rw.cpp:693-699 | one round of the do-while loop |
| `RwHandler.RwPacketHandler.AddBlocks` | src/tas_client/tas_pkt_handler_rw.cpp:691-700 | the whole loop, which terminates |
| `RwHandler.RwPacketHandler.AddTail` | src/tas_client/tas_pkt_handler_rw.cpp:701-713 | the three ifs of the tail |
| `RwHandler.RwPacketHandler.AddLadder` | src/tas_client/tas_pkt_handler_rw.cpp:675-716 | head, blocks and tail together are `Encoder.Ladder` |
| `RwHandler.RwPacketHandler.AddFills` | src/tas_client/tas_pkt_handler_rw.cpp:845-851 | the loop that cuts a fill into accesses of at most 1 KB |
| `RwHandler.RwPacketHandler.AddTrans` | src/tas_client/tas_pkt_handler_rw.cpp:643-867 | adds a whole transaction, or refuses it and changes nothing; accepted exactly by length, map and room as in `Compiler.TakesIs`, at the sizes the handler reports |
| `RwHandler.RwPacketHandler.SetTransactions` | src/tas_client/tas_pkt_handler_rw.cpp:869-899 | all or nothing: the request of the list, or an empty one with the PL1 counts still in step; an empty list is refused, and one of a single transaction by the same conditions |
| `RwHandler.RwPacketHandler.GetRq` | src/tas_client/tas_pkt_handler_rw.cpp:901-931 | the words of all packets, their size as announced before, the predicted reply size, the number of packets |
| `RwHandler.RwPacketHandler.ParseStart` | src/tas_client/tas_pkt_handler_rw.cpp:1018-1040 | length and START of a reply packet, or the error it leads to |
| `RwHandler.RwPacketHandler.ParseEnd` | src/tas_client/tas_pkt_handler_rw.cpp:1045-1064 | END: the PL1 count must be the awaited one; done, or on to the next packet |
| `RwHandler.RwPacketHandler.ParseWrite` | src/tas_client/tas_pkt_handler_rw.cpp:1072-1107 | the answer to a write or fill, noted in its record |
| `RwHandler.RwPacketHandler.ParseRead` | src/tas_client/tas_pkt_handler_rw.cpp:1108-1156 | the answer to a read, noted in its record and delivered |
| `RwHandler.RwPacketHandler.SetResponse` | src/tas_client/tas_pkt_handler_rw.cpp:994-1164 | the parsing loop in place: results, client memory, reset count, awaited count and error code are those of `EndToEnd.SetRsp`, whose error codes `EndToEnd.ReplyTold` and `Reply.StartExactly` spell out |
| `RwHandler.RwPacketHandler.GetTransRsp` | src/tas_client/tas_pkt_handler_rw.cpp:1166-1207 | the aggregation loop in place is `Aggregate.TransRsp` |
| `Mailbox.RequestPackets` | src/tas_client/tas_pkt_mailbox_socket.cpp:54-66 | the length words of a request lead in exactly as many steps as it has packets to its end, and cut out precisely these |
| `Mailbox.RecvFramed` | src/tas_client/tas_pkt_mailbox_socket.cpp:99-138 | well framed replies are received, and nothing beyond them read, if and only if together they fit the receive limit; otherwise the connection is closed |
| `Mailbox.RecvAny` | src/tas_client/tas_pkt_mailbox_socket.cpp:99-138 | when only a part of the replies is there: unless the connection is closed, whole packets are taken in order, and a time-out is one at a packet boundary |
| `Mailbox.RecvExactly` | src/tas_client/tas_pkt_mailbox_socket.cpp:111-138 | whatever is in the inbox: when a packet is received, when the connection is closed, and when it is a time-out |
| `Mailbox.SocketMailbox.Send` | src/tas_client/tas_pkt_mailbox_socket.cpp:47-68 | sends exactly the packets of the request, in order; if the socket fails, those before and then no more, and the connection is closed |
| `Mailbox.SocketMailbox.ReceivePl2Pkt` | src/tas_client/tas_pkt_mailbox_socket.cpp:111-138 | one packet by its length word, with every way to fail |
| `Mailbox.SocketMailbox.Execute` | src/tas_client/tas_pkt_mailbox_socket.cpp:88-109 | sends num packets and reads as many |
| `RwClient.TimelyTurn` | src/tas_client/tas_client_rw_base.cpp:211-248 | a client in step and any conforming answer in time: results and error of the answers, and still in step; or, if the answer is too long, an error and a closed connection |
| `RwClient.FaultlessCollected` | src/tas_client/tas_client_rw_base.cpp:211-248 | if the request fits its buffer and nothing fails, the answer has the predicted size and leaves every record done and memory as after the caller's transactions |
| `RwClient.CollectedExactly` | src/tas_client/tas_pkt_handler_rw.cpp:1224-1267 | no error is returned if and only if every packet was executed and every access done |
| `RwClient.Exchanged` | src/tas_client/tas_client_rw_base.cpp:237-242 | the replies of a conforming server are received if and only if together they are within the receive limit |
| `RwClient.LastBound` | src/tas_client/tas_pkt_handler_rw.cpp:869-893 | PL1 counts stay in 16 bits after any list |
| `RwClient.Client.ExecuteTrans` | src/tas_client/tas_client_rw_base.cpp:211-248 | a refused list sends nothing; any conforming answer, denied packets included, is taken with its errors, whose codes are told as above, and the link left in step; a reply too long ends in an error with the device changed; without failures the caller's transactions are done |
| `RwClient.Client.ExecuteSingleTrans` | src/tas_client/tas_client_rw_base.cpp:191-209 | the same for one transaction, with the same codes: no error if and only if everything was executed, then its number of bytes, or that of its first piece if it was split and ends at 2^64; 0 with an error |
| `RwClient.Client.Fill` | src/tas_client/tas_client_rw_base.cpp:131-171 | wrong address or length is refused; a list that is refused sends nothing; in usable configurations the call goes through if and only if its fill leaves the last buffer word free, and memory is then as after the word loop |
| `LateReply.QueueTurn` | src/tas_client/tas_client_rw_base.cpp:237-245 | a request on a link with unread packets reads the oldest first, fails if the first is not its own, and leaves unread what it did not read |
| `LateReply.NeverRecovers` | src/tas_client/tas_client_rw_base.cpp:211-248 | a client with unread packets: every further call of every run fails, as long as the counts do not get 2^16 ahead |
| `LateReply.LateExactly` | src/tas_client/tas_pkt_mailbox_socket.cpp:111-121 | a client in step stays in step if and only if no word of the answer comes late; else this call and every later one fails |
| `Fill32.Split` | src/tas_client/tas_client_rw_base.cpp:142-166 | the write/fill/write decomposition in place is `Fill32.FillList` |
| `Fill32.FillListStores` | src/tas_client/tas_client_rw_base.cpp:142-166 | these one to three transactions equal the loop that stores the word at every fourth address, and the fills are 8-aligned |
| `FillThrough.FillAccepted` | src/tas_client/tas_pkt_handler_rw.cpp:434-445 | the list of fill32 is accepted if and only if its fill, counted in full, leaves the last word of the request buffer free; it then fits the request buffer, and its reply has at most 48 bytes and 16 more a kilobyte |
| `Fill32.StoredWords` | src/tas_client/tas_client_rw_base.h:128-135 | that loop changes the bytes of the range to those of the word, and nothing else |
| `Crc.NibbleIsShift4` | src/tas_client/tas_utils.h:250-251 | a table look-up is four steps of the bit-wise reflected CRC-32 register, on complements |
| `Crc.TableIsShift4` | src/tas_client/tas_utils.h:238-244 | entry i is entry 15 - i of the standard table with the top four bits flipped |
| `Crc.Crc32` | src/tas_client/tas_utils.h:232-254 | for every byte sequence the result is the CRC-32 of IEEE 802.3, although the register starts at zero and is not inverted |
| `Crc.CheckValue` | src/tas_client/tas_utils.h:234-236 | the bit-wise definition gives the published check value |
| `ChlPacket.MessageRoundTrip` | src/tas_client/tas_pkt_handler_chl.cpp:155-246 | a message sent back unchanged is read as the same bytes, length and init word, for every length and any padding, except the one without bytes and init word |
| `ChlPacket.ReadExactly` | src/tas_client/tas_pkt_handler_chl.cpp:187-246 | which packets are taken as a message for a channel, which as a reset notification, and when a reset is counted |
| `ChlPacket.MessageReceived` | src/tas_client/tas_client_chl.cpp:253-260 | a message arrives exactly if it has at most 1012 bytes with its init word; a longer one breaks the connection |
| `ChlPacket.SendLimit` | src/tas_client/tas_client_chl.cpp:227-233 | when the length check of send_msg is the intended comparison |
| `ChlPacket.ChlPacketHandler.Copy` | src/tas_client/tas_pkt_handler_chl.cpp:172-182 | copies bytes over the buffer in place; bytes behind them in the last word stay |
| `ChlPacket.ChlPacketHandler.GetPktSendMsg` | src/tas_client/tas_pkt_handler_chl.cpp:155-185 | the buffer starts with the packet of the message |
| `ChlPacket.ChlPacketHandler.SetPktRcvMsg` | src/tas_client/tas_pkt_handler_chl.cpp:187-246 | verdict on a received packet, reset notifications included; a reset is counted even if the packet is then refused |
| `Channel.ExecuteInTime` | src/tas_client/tas_client_chl.cpp:148-170 | with nothing unread a request in time gets its own reply and leaves nothing unread |
| `Channel.UnsubscribeInTime` | src/tas_client/tas_client_chl.cpp:190-217 | an unsubscribe in time drops every pending message, reads its own reply, and leaves the inbound queue empty |
| `Channel.StepSafe` | src/tas_client/tas_client_chl.cpp:51-278 | every call keeps the invariant: type, number, receive flag and the server's subscription agree; unread are only device messages, and none while the flag is off; replies match requests; messages keep their order |
| `Channel.RunSafe` | src/tas_client/tas_client_chl.cpp:51-278 | the same over every run of calls without a late reply |
| `Channel.LateBreaks` | src/tas_client/tas_client_chl.cpp:151-152 | after any late reply or unfinished unsubscribe, whatever request or subscribe is allowed next reads a packet that is not its own |
| `Channel.SafeExactly` | src/tas_client/tas_client_chl.cpp:51-278 | every request or subscribe that comes next, and is served in time, gets its own reply if and only if the call before got its reply in time |
| `Channel.FreshRun` | src/tas_client/tas_client_chl.cpp:51-278 | the same after every run of a new client without a late reply |
| `Channel.SessionExactly` | src/tas_client/tas_client_server_con.cpp:225 | over every run of a new client: the session is open if and only if some session start of the run returned no error |
| `Channel.FreshSubscribes` | src/tas_client/tas_client_chl.cpp:106-171 | a new client whose session start is answered without error in time, and then subscribes: the server's verdict, and if that is no error, type, number and receive flag asked for |
| `Channel.RequestReturns` | src/tas_client/tas_client_server_con.cpp:137-287 | what a request in time returns: a usage error in the states in which its kind is not allowed, else the server's verdict; and what it changes |
| `Channel.SubscribeReturns` | src/tas_client/tas_client_chl.cpp:106-171 | a subscribe in time returns the server's verdict if a session is open, no channel is subscribed, and channel and type are valid; the errors otherwise; and the fields are set only on success |
| `Channel.UnsubscribeReturns` | src/tas_client/tas_client_chl.cpp:173-217 | an unsubscribe in time returns the server's verdict, and the subscription is gone whatever that is |
| `Channel.DrainStops` | src/tas_client/tas_client_chl.cpp:190-217 | on any link, the wait ends with the first reply to an unsubscribe among the packets read, and what comes behind it stays unread |
| `Channel.DrainGivesUp` | src/tas_client/tas_client_chl.cpp:190-217 | without one it drops these packets and ends in a connection error |
| `Channel.SendReturns` | src/tas_client/tas_client_chl.cpp:219-239 | what send_msg returns |
| `Channel.NoReplyReturns` | src/tas_client/tas_client_server_con.cpp:200-287 | no reply in time, a closed connection or a reply to another kind of request: a connection error that leaves the subscription and the session as they are |
| `Channel.ReceiveReturns` | src/tas_client/tas_client_chl.cpp:262-278 | rcv_msg when the oldest unread packet is a message of the device: none for its channel up to the agreed length, a general error for a longer one, a connection error for another channel; the packet is gone |
| `Channel.MessageHandedOut` | src/tas_client/tas_client_chl.cpp:262-278 | if there is no error, exactly the message's bytes, length and init word are handed out, and nothing otherwise |
| `Channel.OtherHandedOut` | src/tas_client/tas_client_chl.cpp:262-278 | any other packet: no error for a reset notification, else a connection error; nothing is handed out |
| `Channel.NothingReturns` | src/tas_client/tas_client_chl.cpp:241-261 | rcv_msg without a receive channel, with nothing to read, and with a reply in place of a message |
| `Channel.ChlClient.Request` | src/tas_client/tas_client_server_con.cpp:137-287 | the guards of the calls that wait for a reply, then one exchange, after which the session is open if a session start returned no error |
| `Channel.ChlClient.DoSubscribe` | src/tas_client/tas_client_chl.cpp:106-171 | guards, exchange, and the three fields set together only on success |
| `Channel.ChlClient.DoUnsubscribe` | src/tas_client/tas_client_chl.cpp:173-217 | fields cleared first, then the loop that drops messages until the reply or the time-out |
| `Channel.ChlClient.SendMsg` | src/tas_client/tas_client_chl.cpp:219-239 | only for send and bidi channels; the 16-bit length with the init word is compared with the agreed one; nothing is read |
| `Channel.ChlClient.RcvMsg` | src/tas_client/tas_client_chl.cpp:241-278 | only for receive and bidi channels; takes the oldest unread packet, and hands out the message if it is one for this channel and not longer than agreed, nothing otherwise |
| `Targets.PageAccepted` | src/tas_client/tas_pkt_handler_server_con.cpp:145-160 | a later page is accepted if and only if it has the start index asked for, stays below the total of the first page and, if that was below 64, announces it again |
| `Targets.ContinuesExactly` | src/tas_client/tas_pkt_handler_server_con.cpp:139-160 | which pages are taken, first and later ones |
| `Targets.ErrorPage` | src/tas_client/tas_pkt_handler_server_con.cpp:149-176 | an empty page with an error is taken if and only if the error says that the server is locked |
| `Targets.ChangedTotalExactly` | src/tas_client/tas_pkt_handler_server_con.cpp:152-153 | changed totals are always refused if and only if the first page announced fewer than 64 |
| `Targets.ChangedTotalAccepted` | src/tas_client/tas_pkt_handler_server_con.cpp:152-153 | a page of a 100-entry list continues a list first announced as 64 |
| `Targets.TargetHandler.SetPktRspGetTargets` | src/tas_client/tas_pkt_handler_server_con.cpp:133-181 | an accepted page is copied to its place in the array and nothing else; a refused one copies nothing; error codes 0x0200, and 0x0210 for a locked server |
| `Targets.GetTargets` | src/tas_client/tas_client_server_con.cpp:137-164 | the loop ends and returns exactly the server's list of at most 64 targets, in order; a longer list gives its first 64 if a page ends there, else an error |

## Left out

- Mailbox.SocketMailbox.ReceivePl2Pkt: the socket hands over all bytes asked for, or none; the code also takes a part of them for the whole.
- RwHandler.RwPacketHandler.ParseStart: a START cut off by the end of the reply is refused; the code reads on in its buffer.
- RwHandler.RwPacketHandler.ParseRead: read data cut off by the end of the reply are refused; the code reads on in its buffer.
- RwHandler.RwPacketHandler.SetResponse: accesses answered beyond the last record are refused; the code goes on behind its records.
- FillThrough.FillAccepted: states the reply size as a bound; a fill whose reply might not fit the reply buffer is outside `FillCall`.
- Request buffer and record arrays grow with the request; the C++ arrays are fixed and `mCheckLimits` counts payload only, so writing past them is not part of this model.
- PL1 counts are 16 bits, the sums of `mCheckLimits`, block sizes and end addresses are of their width; the other counters are unbounded.
- Replies of servers that do not conform: every single round of the parser is characterised for any words, but whole replies only if they conform, are denied, end early or have wrong PL1 counts.
- Unaligned pointers, aliasing of read buffers and the lifetime of write data: data are values.
- `mNumTransManageableRd` and `mNumTransManageableWr` above 8 bytes are modelled but not compared with the real number of pieces: they do not bound it.
- `rw_get_num_pl2_pkt`, `rw_get_pl0_trans`, the single-access functions and `fill64`: they only pass on what is proved here. `read8` uses access mode 1, the other single accesses 0.
- con_id of START is the constant the builder writes; routing in a dispatcher is not modelled.
- Connection set-up, time and sleeping are parameters of the calls, and so are the message lengths agreed at the start of a session.
- Channel packets longer than the receive limit are in `ChlPacket.MessageReceived`, not in the runs of `Channel`.
- Error texts, device resets as unsolicited packets to read/write clients, session and device information.
- `get_target_clients`, `server_unlock`, `device_unlock_get_challenge` and the trace client: unfinished in the source.
- Channel priorities and subscription options other than their checks.
