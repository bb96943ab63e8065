# Verified model of the radio bridge

The bridge joins a local P25 system to the BrandMeister and TETRAPACK BREW networks. This project models the
parts of it that carry state, parsing or arithmetic, and proves what they promise: that a text survives every
layer between sender and receiver, that two parties' views of a table stay equal, that queues lose and repeat
nothing, that writers and readers of one format agree, and that a multi-file change happens whole or not at all.

`dafny verify dfyconfig.toml` checks everything. Objects whose methods update fields are classes; each method is
proved against a function of the old state, and the theorems about runs are about those functions.

## The pieces

| modules | what they model |
|---|---|
| `Checksum`, `Ipv4Udp`, `TmsText`, `MarkedTms`, `Lrrp` | Internet checksum, IPv4/UDP packets, Motorola text messages and location reports |
| `Dmr`, `PacketEncoder`, `Reassembler`, `ReassemblerRuns`, `EndToEnd` | packets as DMR bursts, their reassembly per session, and the whole path |
| `Homebrew`, `BmNetwork`, `BmLink` | the DMRD packet, the BrandMeister session with its timers, and the paced transmitter |
| `BrewRouting`, `JitterBuffer`, `TetraBlock` | BREW talkgroup affiliation, the downlink jitter buffer, the packing of voice blocks |
| `Bits`, `SdsText` | the bit writer and the SDS text PDU |
| `ServiceReplies`, `ServiceReplyRuns` | routes for service replies, written by one process and consumed by another |
| `TextLines`, `SettingsText`, `SettingsLaws`, `SettingsEdits`, `SettingsWrites`, `MappingBlocks` | line edits of a YAML file and their reader |
| `SettingsCommit` | the multi-file settings transaction with rollback |
| `DynamicTalkgroups` | the life of a dynamic talkgroup route |
| `Common`, `Decimal` | machine-width numbers, sequences, decimal numerals |

## What the proofs found

Each of these is stated exactly, with the condition under which the code does what its name suggests.

- A blank text, the empty one included, does not arrive blank: the message header's own words are taken for text
  (`TmsText.BlankTextBecomesHeaderWords`).
- A message of the older, marked format is read with the id it was sent with exactly for ids that are 0 modulo 32,
  as long as its text holds no CR LF (`MarkedTms.IdReturnedIff`). With one it is taken for the other format: only what
  follows the CR LF is read, under an id made of the sender's first digit (`MarkedTms.CrlfMakesItAnother`); radio 23's
  message with id 5 is read with id 18 (`MarkedTms.CrlfMisread`). A message whose length is 32774 reads as an empty one,
  since its length field holds the marker's bytes (`MarkedTms.AsciiMessageIsRead`).
- `parseIpv4Address` accepts one dot behind the fourth octet, and leading zeros; exactly what it accepts is
  `Ipv4Udp.ParsesIff`, and `Ipv4Udp.AddressRoundTrip` has every address with such a dot.
- The preamble's one-byte countdown wraps once header and blocks exceed 255 frames (`PacketEncoder.PreamblesCountDown`).
- A packet of more than 64 blocks is encoded and sent but never arrives whole. What becomes of it depends on how wide the
  header's block count is: if the wrapped count reads 1 to 64, one frame delivers the packet cut after that many
  blocks, which the message handler refuses; otherwise no frame delivers anything (`EndToEnd.OverlongPacketIsLost`,
  `EndToEnd.PacketOutcome`).
- A reply on the group that answers an uplink comes back to the caller's talkgroup, unless the caller is an unmapped
  number that is the BREW side of another mapping (`BrewRouting.ReplyReturnsToCaller`): with 91 mapped to 92, a call on
  92 is answered on 91 (`BrewRouting.ReplyGoesElsewhere`).
- The smaller rebuffering threshold of the jitter buffer is never the one in effect (`JitterBuffer.PlayoutStartsBuffered`).
- An ended downlink call leaves the table if and only if it is the one playing or still has a frame queued
  (`JitterBuffer.EndedCallLeavesIff`). A call that is announced and ends before its first voice frame is neither, and stays
  in the table for good (`JitterBuffer.CallWithoutVoiceStays`).
- A downlink call first ignored, say because the channel was busy, stays unheard until the network idles it, even when a
  later transmission opens it (`JitterBuffer.IgnoredStaysUnheard`).
- Between the end of a dynamic talkgroup's timeout and the next tick none of its frames passes; after that tick frames pass
  again while they follow one another within three seconds (`DynamicTalkgroups.PassedIff`).
- If two settings files are configured to be the same file, the earlier of two edits is lost
  (`SettingsCommit.SharedFileLosesEdit`).
- A login message that cannot be written while waiting is tried again on every clock call, not after ten seconds like a failed
  lookup or socket (`BmNetwork.AttemptOutcome`).
- The dashboard shows no position for a location report with a direction or velocity before the position, though the
  bridge forwards it (`Lrrp.ReadersAgree`); its own range test can never fail (`Lrrp.AlwaysInRange`).
- A service route whose file cannot be removed answers again (`ServiceReplyRuns.StuckRouteIsUsedAgain`), and only such a
  route does (`ServiceReplyRuns.RouteUsedOnce`).
- Upserting a new field at the end of a file without a final line break loses the field to the reader; a section header
  with blanks behind it hides the section the writer edits (`SettingsEdits.UpsertIsRead`). In a file that is just an
  unterminated header the section itself is lost (`SettingsEdits.LoneHeaderIsLost`, `SettingsEdits.UpsertLosesSection`).
- A route BrandMeister has never used starts at the clock's epoch, not at the minimum the source compares with, so that
  comparison never tells anything; the model has the epoch, and the theorems ask for a clock more than three seconds past it.

## Model

| member | source | states |
|---|---|---|
| Checksum.Accumulate | src/SmsSubsystem.cpp:229-238 | the loop sums big-endian words, an odd last byte in the high half, without 32-bit overflow for any datagram |
| Checksum.Finalize | src/SmsSubsystem.cpp:240-246 | folding terminates for every 32-bit sum and yields the complement of the folded sum |
| Checksum.FoldedIsOnesSum | src/SmsSubsystem.cpp:240-246 | folding once at the end equals ones'-complement addition word by word (section 2 of RFC 1071) |
| Checksum.ChecksumCharacterised | src/SmsSubsystem.cpp:229-246 | the checksum is the one value, up to the two zeros, that makes the total verify |
| Checksum.ChecksumVerifies | src/SmsSubsystem.cpp:229-246 | a sum with its checksum added verifies, zero sent as 0xFFFF included |
| Ipv4Udp.ParseIpv4Address | src/SmsSubsystem.cpp:73-94 | the loop over dot-separated parts computes the specified parse of any string, with every rejection |
| Ipv4Udp.ParsesIff | src/SmsSubsystem.cpp:73-94 | a string is accepted with value a if and only if it is four parts of one to three digits with those values, at most 255, joined by dots, with or without one dot behind |
| Ipv4Udp.AddressRoundTrip | src/SmsSubsystem.cpp:73-94 | every address is parsed back from its dotted form, with or without one more dot behind it |
| Ipv4Udp.RadioIpInjective | src/SmsSubsystem.cpp:209-221 | two radio ids never share an address |
| Ipv4Udp.BuildIpv4UdpPacket | src/SmsSubsystem.cpp:1212-1262 | fills header and datagram in place to the specified packet; empty exactly for a bad address or an over-long payload |
| Ipv4Udp.PacketVerifies | src/SmsSubsystem.cpp:1230-1259 | IP header and UDP checksum of every built packet verify, at every payload length (section 3.1 of RFC 791, RFC 768) |
| Ipv4Udp.PacketRoundTrip | src/SmsSubsystem.cpp:476-500 | the receiver's checks admit every built packet and recover both ports and the payload |
| TmsText.BuildMotorolaTmsPayload | src/SmsSubsystem.cpp:1186-1210 | the payload in both formats: length, the sender's digits in the older one alone, message id modulo 32, and the text as little-endian units, behind a CR LF in the BrandMeister one |
| TmsText.ParseMotorolaTms | src/SmsSubsystem.cpp:1096-1168 | both formats, their searches and their rejections, for every byte string |
| TmsText.TmsRoundTrip | src/SmsSubsystem.cpp:1096-1139 | a printable text comes back trimmed, with its message id modulo 32 |
| TmsText.BestRunIsEarliestLongest | src/SmsSubsystem.cpp:1005-1047 | the run chosen is the earliest among the longest maximal runs of printable units |
| TmsText.ExtractText | src/SmsSubsystem.cpp:1005-1047 | the in-place scan returns that run, and nothing below three units |
| TmsText.HandledTextIsClean | src/SmsSubsystem.cpp:503-526 | whatever arrives, a text handed on is non-empty, trimmed and printable |
| TmsText.MessageRoundTrip | src/SmsSubsystem.cpp:476-526 | a printable text in a built packet is handled as itself, trimmed, if and only if it is not blank |
| TmsText.BlankTextBecomesHeaderWords | src/SmsSubsystem.cpp:510-526 | every blank text, the empty one included, is handled as the header words, trimmed, without the length word where that is unprintable; never as nothing |
| TmsText.AcknowledgementIsNotAnswered | src/SmsSubsystem.cpp:556-592 | an acknowledgement goes back between the same endpoints, verifies, and is itself consumed unanswered |
| MarkedTms.IdReturnedIff | src/SmsSubsystem.cpp:1096-1168 | an older-format message comes back with its id if and only if it holds three units and either no CR LF and id 0 modulo 32, or a CR LF, readable text behind it and the id of the sender's first digit |
| MarkedTms.CrlfMakesItAnother | src/SmsSubsystem.cpp:1096-1139 | with a CR LF in its text, exactly what follows that is read, under the id of the sender's first digit, or nothing |
| MarkedTms.CrlfMisread | src/SmsSubsystem.cpp:1186-1210 | the concrete message: id 5 from radio 23 is read as id 18 |
| MarkedTms.AsciiMessageIsRead | src/SmsSubsystem.cpp:1140-1168 | what any ASCII message of the older format is read as: sender, text and id, nothing, or an empty message, for every length and id |
| MarkedTms.AsciiRoundTrip | src/SmsSubsystem.cpp:1140-1168 | a seven-digit radio's non-blank ASCII message with id 0 comes through with its sender and its text trimmed; with another id not at all |
| PacketEncoder.Encode | src/BmPacketDataEncoder.cpp:76-135 | the two loops produce preambles, header and blocks as specified |
| PacketEncoder.EncodedKinds | src/BmPacketDataEncoder.cpp:97-135 | preambles first, then the header with block count, padding and sequence number, then the blocks of packet, zero padding and CRC in order, on one route |
| PacketEncoder.FramesAreNumbered | src/BmPacketDataEncoder.cpp:108-135 | each frame carries its position; no two share a number while header and blocks are at most 255 |
| PacketEncoder.PreamblesCountDown | src/BmPacketDataEncoder.cpp:45-74 | as many preambles as asked for and as 256 frames leave room for, each naming target and source; every one announces exactly the frames behind it, if and only if header and blocks are at most 255 frames or no preamble is sent |
| Reassembler.SessionKeyInjective | src/BmPacketDataReassembler.cpp:24-29 | for 24-bit ids and slots 1 and 2, different sessions have different keys |
| Reassembler.SignatureTellsApart | src/BmPacketDataReassembler.cpp:31-50 | packets of the same radios that differ in one byte, or in the slot alone, have different signatures |
| Reassembler.SignedInjective | src/BmPacketDataReassembler.cpp:31-50 | the bytes signed are equal if and only if ids, slot and contents are |
| Reassembler.BmPacketDataReassembler.Expire | src/BmPacketDataReassembler.cpp:52-69 | both tables keep exactly the entries that have not timed out |
| Reassembler.BmPacketDataReassembler.Push | src/BmPacketDataReassembler.cpp:71-191 | the new tables and the result are those of the specified step |
| ReassemblerRuns.NonInterference | src/BmPacketDataReassembler.cpp:71-168 | under a monotone clock each key's session and completions are the same in any interleaving as alone |
| ReassemblerRuns.ConfirmedCompletesExactly | src/BmPacketDataReassembler.cpp:136-168 | confirmed blocks in any order and repetition complete exactly when the last missing serial arrives, joined in serial order |
| ReassemblerRuns.ConfirmedCompletesInterleaved | src/BmPacketDataReassembler.cpp:71-191 | the same for header and blocks inside any interleaving with other sessions, whatever their own session did earlier, with the state of the table and the delivery that follow |
| ReassemblerRuns.UnconfirmedCompletes | src/BmPacketDataReassembler.cpp:136-168 | the last in-order block completes unconfirmed packet data, or short data nobody acknowledges, with all blocks joined |
| ReassemblerRuns.StoredSessionsAreIncomplete | src/BmPacketDataReassembler.cpp:71-168 | every stored session misses a block, counts its flags exactly and has at most 64 blocks |
| ReassemblerRuns.UpdatedByLatest | src/BmPacketDataReassembler.cpp:82-135 | an open session bears the time of its latest accepted header or block; no other frame refreshes it |
| ReassemblerRuns.SessionLivesIff | src/BmPacketDataReassembler.cpp:52-60 | a block finds no session exactly if more than 5 s have passed since |
| ReassemblerRuns.HeaderOpensIff | src/BmPacketDataReassembler.cpp:83-110 | which headers open a session, exactly - packet data, or short data, of 1 to 64 blocks - and of what kind |
| ReassemblerRuns.TrimmedExactly | src/BmPacketDataReassembler.cpp:170-182 | the payload is passed on without padding, in bits for short data, and CRC; or as long as an IPv4 header says |
| ReassemblerRuns.DuplicatesAreApart | src/BmPacketDataReassembler.cpp:170-191 | two deliveries with equal ids, slot and bytes are never less than 30 s apart |
| ReassemblerRuns.SuppressedIffRecent | src/BmPacketDataReassembler.cpp:170-191 | a completed packet is withheld if and only if one of its signature was delivered within 30 s |
| EndToEnd.PacketSurvives | src/BmPacketDataReassembler.cpp:71-191 | a packet of at most 64 blocks, under a count field that holds 64, is delivered once, byte for byte, on its last frame |
| EndToEnd.PacketOutcome | src/BmPacketDataReassembler.cpp:71-191 | for every packet length and every width of the count: with c = 1 to 64 blocks announced, block c delivers the bytes of those c blocks and no other frame delivers; with any other count none does |
| EndToEnd.OverlongPacketIsLost | src/BmPacketDataEncoder.cpp:89-106 | a longer packet never arrives whole: no frame delivers anything if and only if the count, wrapped to its field, is not 1 to 64; else what is delivered is a proper cut that the handler refuses |
| EndToEnd.TextSurvives | src/SmsSubsystem.cpp:1186-1262 | under a count field that holds 64, every printable, non-blank text that fits 764 packet bytes is handled at the far end as itself, trimmed, with ports and message id modulo 32 |
| Lrrp.SkipMotorolaVlq | src/SmsSubsystem.cpp:102-111 | passes over one to five bytes up to the first below 0x80, or fails, without leaving the report |
| Lrrp.WalkReport | src/SmsSubsystem.cpp:157-202 | the token loop terminates in bounds on any bytes and decides as specified |
| Lrrp.ExtractMotorolaLrrpPayload | src/SmsSubsystem.cpp:113-207 | the whole acceptance test, for every packet |
| Lrrp.DecodeMotorolaLrrpPosition | dashboard/app.py:67-114 | the dashboard's decoder, for every packet |
| Lrrp.AcceptedIffGrammar | src/SmsSubsystem.cpp:157-202 | a report is accepted with a position if and only if it is skipped tokens, then a position token with eight bytes, then anything |
| Lrrp.ExtractedIff | src/SmsSubsystem.cpp:113-207 | what is extracted, exactly: a UDP payload between equal location ports that is framed as a report, with or without request id, and whose tokens the walk accepts |
| Lrrp.ShownOnlyIf | dashboard/app.py:67-114 | whatever the dashboard shows stood behind a position token in a report of an IPv4 UDP packet |
| Lrrp.ReadersAgree | dashboard/app.py:89-114 | on every packet the bridge accepts, the dashboard shows a position if and only if there is one with no direction or velocity before it, and then that very token's |
| Lrrp.ForwardedReadsAlike | src/SmsSubsystem.cpp:834-851 | the rebuilt, forwarded packet is read by both exactly like the original |
| Lrrp.AlwaysInRange | dashboard/app.py:108-112 | every eight coordinate bytes are a place on the globe |
| Lrrp.PlaceRoundTrip | dashboard/app.py:99-112 | any latitude and longitude, given as two big-endian signed words, decode to just these |
| Homebrew.HomebrewRoundTrip | src/BMNetwork.cpp:132-175 | a frame comes back whole from its packet if and only if its ids fit 24 bits, its slot is 1 or 2 and its burst number fits |
| Homebrew.PacketLayout | src/BMNetwork.cpp:199-236 | where every field stands in the 55 bytes, ids as 24-bit numbers, slot and call type as flags |
| BmNetwork.InvariantThroughout | src/BMNetwork.cpp:58-125 | in every run after an open, retry runs, timeout runs exactly outside WaitingConnect, such a status has a socket, the queue is at most 512 and the bucket at most 60 ms |
| BmNetwork.SilentMasterTimesOut | src/BMNetwork.cpp:517-521 | a silent master leads back to WaitingConnect on the very clock call that completes 60 s |
| BmNetwork.WaitingIsRetried | src/BMNetwork.cpp:342-360 | while waiting, an open or login attempt comes no later than the call that completes 10 s, and leads to the login when lookup, socket and message succeed |
| BmNetwork.AttemptOutcome | src/BMNetwork.cpp:342-360 | which attempt is made when 10 s are over, with and without a socket, and every outcome; a login that cannot be written is tried again on the next call, anything else after another 10 s |
| BmNetwork.CloseGivesUpSocket | src/BMNetwork.cpp:101-118 | whenever a session ends its socket is given up, the queue is emptied and the wait starts over |
| BmNetwork.WaitsForSession | src/BMNetwork.cpp:293-297 | outside a running session nothing is sent from the queue, and only a close empties it |
| BmNetwork.SilentMasterIsContactedAgain | src/BMNetwork.cpp:321-523 | with calls at most g ms apart, a master silent for 70 s plus g is given up on and contacted again |
| BmNetwork.SessionEndsIff | src/BMNetwork.cpp:361-523 | a session ends exactly by a read error, the master's close, or the call that completes 60 s since a pong, a rejection, promoting traffic or a login step |
| BmNetwork.PacketMoves | src/BMNetwork.cpp:410-474 | a rejection leads to the login, traffic to running, each acknowledgement to the next state with that state's request, restarting both timers; nothing else moves the session |
| BmNetwork.RequestIsRepeated | src/BMNetwork.cpp:487-515 | with a silent master the request of the present state, or a ping when running, goes out again no later than the call that completes 10 s |
| BmNetwork.RequestIffDue | src/BMNetwork.cpp:487-515 | with a silent master the request of the present state goes out exactly on the calls that complete 10 s, which start over |
| BmNetwork.AcknowledgedLogin | src/BMNetwork.cpp:425-462 | one acknowledgement per state takes the session to running, with or without options |
| BmNetwork.WrittenOutputs | src/BMNetwork.cpp:238-291 | a burst is queued whole and contiguous exactly if the session runs, it is usable, and 512 packets are not exceeded; or else not at all |
| BmNetwork.TransmitterConserves | src/BMNetwork.cpp:293-319 | over every run packets leave in order, none lost or repeated, and 60 times sent plus elapsed is bounded by 60 per busy period plus clocked time |
| BmNetwork.TickSends | src/BMNetwork.cpp:293-319 | while the session goes on and sends succeed, a clock call sends exactly the head, exactly if the elapsed time in 32 bits makes up 60 ms, and carries over at most 60 ms |
| BmNetwork.QueueDrains | src/BMNetwork.cpp:293-319 | in every run of clock calls of at most 60 ms and writes, all packets queued at its start have left in order once elapsed and clocked time exceed 60 ms for each |
| BmNetwork.BurstStartsAtOnce | src/BMNetwork.cpp:276-280 | the first packet of a burst into an empty queue leaves on the next clock call |
| BmNetwork.FailedSendKeepsQueue | src/BMNetwork.cpp:305-311 | a failed send keeps the queue and its head, which is due on the next call |
| BmNetwork.DiscardedOnlyByClose | src/BMNetwork.cpp:101-118 | packets are thrown away only in a close, which empties the queue and ends the session |
| BmLink.BMNetwork.Open | src/BMNetwork.cpp:58-99 | the new state for every outcome of lookup, socket and login |
| BmLink.BMNetwork.Close | src/BMNetwork.cpp:101-118 | the closed state, with the queue emptied |
| BmLink.BMNetwork.Receive | src/BMNetwork.cpp:410-474 | the reaction to every kind of packet in every state |
| BmLink.BMNetwork.ClockQueue | src/BMNetwork.cpp:293-319 | the token bucket and the queue after one clock call, wrap-around included |
| BmLink.BMNetwork.Tick | src/BMNetwork.cpp:321-523 | one clock call is one step of the session and the transmitter |
| BmLink.BMNetwork.WritePacketData | src/BMNetwork.cpp:238-291 | when a burst is accepted, exactly; the queue and the source's sequence number after it |
| BmLink.BurstReadsBack | src/BMNetwork.cpp:199-236 | every queued packet reads back as its frame, if and only if both ids fit 24 bits |
| BmLink.NsCountsOwnPackets | src/BMNetwork.cpp:254-256 | each source has its own sequence numbers: its packets are numbered on from 1 modulo 8 whatever other sources send between |
| BrewRouting.ParseMappings | deploy/scripts/tetrapack_brew_audio.py:559-570 | a mapping list is accepted exactly if in range and unique both ways, and gives its forward and backward tables |
| BrewRouting.TablesOfValid | deploy/scripts/tetrapack_brew_audio.py:559-570 | the tables of an accepted list are inverse to each other and hold exactly its pairs |
| BrewRouting.ReplyReturnsToCaller | deploy/scripts/tetrapack_brew_audio.py:692-711 | traffic on the activated group comes back to the caller if and only if the caller is mapped or no BREW side of a mapping |
| BrewRouting.ReplyGoesElsewhere | deploy/scripts/tetrapack_brew_audio.py:692-711 | the concrete exception: with 91 mapped to 92 a call on 92 is answered on 91 |
| BrewRouting.RestoredIff | deploy/scripts/tetrapack_brew_audio.py:764-787 | a saved group comes back if and only if a line of it is in range, not static and younger than the timeout, as old as the last such line says |
| BrewRouting.StartConsistent | deploy/scripts/tetrapack_brew_audio.py:718-726 | whatever was saved, the bridge starts with static and dynamic groups apart |
| BrewRouting.StepConsistent | deploy/scripts/tetrapack_brew_audio.py:1270-1376 | every step keeps static and dynamic groups apart and the server's mirror equal |
| BrewRouting.MirrorHoldsThroughout | deploy/scripts/tetrapack_brew_audio.py:687-744 | in every run from the start, with any saved routes, while the link is up, the server has exactly the local radios, each with exactly the router's groups |
| BrewRouting.DynamicIff | deploy/scripts/tetrapack_brew_audio.py:711-744 | in every run a group is dynamic if and only if RF activity opened it or it was restored, and since its latest activity no expiry found that out of time, no disconnect and no reload making it static came |
| BrewRouting.ReloadRoutesAsListed | deploy/scripts/tetrapack_brew_audio.py:2181-2232 | after a reload in range and unique, calls on each listed group go to its counterpart both ways, and statics, timeout and disconnect group are the section's; any other reload changes nothing |
| BrewRouting.StepRadios | deploy/scripts/tetrapack_brew_audio.py:1340-1376 | what each event does to the local radios and the link |
| BrewRouting.OverlapWouldBreakMirror | deploy/scripts/tetrapack_brew_audio.py:722-735 | a group both static and dynamic would break the mirror when it expires |
| BrewRouting.BrewAudioBridge.constructor | deploy/scripts/tetrapack_brew_audio.py:1105-1116 | the start state: the saved routes loaded, nothing sent yet |
| BrewRouting.BrewAudioBridge.LoadDynamicRoutes | deploy/scripts/tetrapack_brew_audio.py:764-787 | the loop over the saved lines restores exactly the specified routes |
| BrewRouting.BrewAudioBridge.Restore | deploy/scripts/tetrapack_brew_audio.py:718-726 | a route is restored if in range, not static and younger than the timeout; a later line for the group replaces an earlier one |
| BrewRouting.BrewAudioBridge.OnConnected | deploy/scripts/tetrapack_brew_audio.py:1270-1285 | after connecting the server has every local radio with every group |
| BrewRouting.BrewAudioBridge.RefreshSubscribers | deploy/scripts/tetrapack_brew_audio.py:1287-1329 | the state after a refresh of some or all radios |
| BrewRouting.BrewAudioBridge.EnsureLocalIssi | deploy/scripts/tetrapack_brew_audio.py:1340-1359 | the state after a radio is learnt |
| BrewRouting.BrewAudioBridge.BeginUplink | deploy/scripts/tetrapack_brew_audio.py:1911-1924 | the route opened and the affiliation sent |
| BrewRouting.BrewAudioBridge.ReloadRouting | deploy/scripts/tetrapack_brew_audio.py:2181-2242 | a valid section replaces the tables and sends exactly the differences; an invalid one changes nothing |
| JitterBuffer.PickIsFirstEligible | deploy/scripts/tetrapack_brew_audio.py:2020-2040 | the call picked is the first eligible in order of creation, and none only if none is eligible |
| JitterBuffer.StepConserves | deploy/scripts/tetrapack_brew_audio.py:1790-1809 | each step accounts for every frame; a drop takes the oldest of a full queue; a call leaves only ended and empty |
| JitterBuffer.RunConserves | deploy/scripts/tetrapack_brew_audio.py:2016-2058 | over every run and call, the blocks of the voice events taken are those that left (played or dropped, in order) followed by those queued, and the table stays sound |
| JitterBuffer.VoiceIsQueued | deploy/scripts/tetrapack_brew_audio.py:1790-1809 | a voice event of 36 bytes or more, for a call of the table neither our own nor ignored, puts its first 36 bytes behind all frames queued, of 24 all but the oldest; any other changes nothing |
| JitterBuffer.CallPlaysThrough | deploy/scripts/tetrapack_brew_audio.py:1722-2058 | a call announced to an empty table, given up to 24 voice blocks and idled, is played whole, in order, one block a round, and leaves the table |
| JitterBuffer.RoundStartsFirstReady | deploy/scripts/tetrapack_brew_audio.py:2020-2045 | with no call playing a round plays the first frame of the ready call created first, and rests exactly if none is ready |
| JitterBuffer.TransmissionOutcome | deploy/scripts/tetrapack_brew_audio.py:1722-1777 | a transmission opens or reopens its call, its queue kept, exactly if it is routed, neither our own nor an echo, and no other call is open unless this one is known; else it is ignored |
| JitterBuffer.IgnoredStaysUnheard | deploy/scripts/tetrapack_brew_audio.py:1722-1777 | an ignored call stays unheard until the network idles it, even if a later transmission puts it in the table |
| JitterBuffer.OwnCallIsUnheard | deploy/scripts/tetrapack_brew_audio.py:1790-1793 | no voice of a call of our own is taken until its time has come |
| JitterBuffer.OwnedExpire | deploy/scripts/tetrapack_brew_audio.py:2149-2154 | which of our own calls are forgotten, exactly, and with them that they were ignored |
| JitterBuffer.IdleOutcome | deploy/scripts/tetrapack_brew_audio.py:1779-1788 | an idle releases an ignored call or else ends the call, its queue kept |
| JitterBuffer.PlayoutStartsBuffered | deploy/scripts/tetrapack_brew_audio.py:2020-2040 | playout of a call starts only at the full jitter threshold or once it has ended |
| JitterBuffer.EndedCallLeavesIff | deploy/scripts/tetrapack_brew_audio.py:2016-2058 | with no further event, an ended call leaves the table if and only if it is the active one or has a frame queued, and then plays exactly its queue, in order, first |
| JitterBuffer.StrandedCallStays | deploy/scripts/tetrapack_brew_audio.py:2041-2058 | an ended, empty, inactive call stays unchanged and unheard through every run without a transmission or voice for it |
| JitterBuffer.DueCallPlaysOut | deploy/scripts/tetrapack_brew_audio.py:2016-2058 | any other ended call, through every such run, keeps or has played exactly its queue in order and is removed only once that is done |
| JitterBuffer.CallWithoutVoiceStays | deploy/scripts/tetrapack_brew_audio.py:1779-1787 | the concrete run: announced, then idle before its first voice frame, a call is never removed |
| JitterBuffer.ActiveCallDrains | deploy/scripts/tetrapack_brew_audio.py:2041-2058 | the active ended call plays its n frames on the next n rounds and is removed on the one after |
| JitterBuffer.BrewDownlink.QueueVoice | deploy/scripts/tetrapack_brew_audio.py:1790-1809 | the call table after a voice frame |
| JitterBuffer.BrewDownlink.Round | deploy/scripts/tetrapack_brew_audio.py:2016-2058 | the call table and the block played after one round |
| TetraBlock.SplitTmdBlock | deploy/scripts/tetrapack_brew_audio.py:130-143 | the bit loop yields the two frames of a 35- or 36-byte block, and refuses every other length |
| TetraBlock.JoinTmdBlock | deploy/scripts/tetrapack_brew_audio.py:146-154 | the bit loop yields the joined block, and refuses frames of another length |
| TetraBlock.SplitOfJoin | deploy/scripts/tetrapack_brew_audio.py:130-154 | splitting a joined block gives both frames with their padding cleared |
| TetraBlock.JoinOfSplit | deploy/scripts/tetrapack_brew_audio.py:130-154 | joining a split block keeps all 274 significant bits and clears header and padding; it is the block itself exactly if those were clear |
| TetraBlock.JoinInjective | deploy/scripts/tetrapack_brew_audio.py:146-154 | two pairs of frames join alike if and only if they agree on every significant bit |
| TetraBlock.JoinLayout | deploy/scripts/tetrapack_brew_audio.py:146-154 | bit by bit: a zero byte, the first frame's 137 bits, the second's, six zeros |
| Bits.BitWriter.Push | deploy/scripts/tetrapack_brew_bridge.py:295-297 | the value's bits are appended, most significant first |
| Bits.BitWriter.ToBytes | deploy/scripts/tetrapack_brew_bridge.py:303-315 | the bits packed into bytes, zeros filled in behind |
| Bits.SetPackedBit | deploy/scripts/tetrapack_brew_audio.py:125-127 | a 1 sets its own bit and no other; a 0 changes nothing |
| Bits.UnpackOfPack | deploy/scripts/tetrapack_brew_bridge.py:303-315 | packed bits unpack to themselves and zeros |
| Bits.PushesReadBack | deploy/scripts/tetrapack_brew_bridge.py:291-315 | in any sequence of pushes every field reads back at its offset, modulo its width |
| SdsText.BuildTextSds | deploy/scripts/tetrapack_brew_bridge.py:318-329 | the PDU is the header's pushes and the text in UTF-16; none for a lone surrogate |
| SdsText.ParseTextSds | deploy/scripts/tetrapack_brew_bridge.py:361-407 | for any bytes and claimed length the parser stays in bounds and its answer depends on the claimed bits alone |
| SdsText.Utf16RoundTrip | deploy/scripts/tetrapack_brew_bridge.py:328 | every text without lone surrogates is decoded back whole, surrogate pairs included |
| SdsText.SdsRoundTrip | deploy/scripts/tetrapack_brew_bridge.py:318-407 | parsing what was built gives the stripped text, under no, the exact or a longer claimed length |
| SdsText.SdsTextSurvives | deploy/scripts/tetrapack_brew_bridge.py:318-407 | a text comes back unchanged if and only if it is encodable, not empty, and stripping leaves it alone |
| SdsText.ParsedExactly | deploy/scripts/tetrapack_brew_bridge.py:361-407 | what is parsed of any text PDU, exactly, for every kind, time stamp, coding and odd bits behind the text |
| SdsText.SdsFrameRoundTrip | deploy/scripts/tetrapack_brew_bridge.py:343-349 | the BREW frame carries a text exactly up to its 16-bit length field, and the receiver reads it from there |
| ServiceReplies.NamesSortByCreation | deploy/scripts/tetrapack_brew_bridge.py:595-601 | route file names sort by creation time, for times of up to 13 digits |
| ServiceReplies.RouteLifetime | src/SmsSubsystem.cpp:369-384 | a route is live for its own service alone, up to the time it names, or else fifteen minutes from creation, or never |
| ServiceReplies.ReplyKeyInjective | src/SmsSubsystem.cpp:408 | the duplicate key tells any two replies apart |
| ServiceReplies.SmsSubsystem.FindServiceReplyRoute | src/SmsSubsystem.cpp:345-394 | finds the first live route in name order and removes exactly the expired ones before it that can be removed |
| ServiceReplies.SmsSubsystem.QueueBrandmeisterText | src/SmsSubsystem.cpp:396-474 | routes, memory and outcome after a reply, for every failure |
| ServiceReplies.SmsSubsystem.HandleBrandmeisterPacketData | src/SmsSubsystem.cpp:476-538 | a packet's text is queued, and acknowledged unless that failed or its header was not understood |
| ServiceReplyRuns.TextBridge.FlushPendingText | deploy/scripts/tetrapack_brew_bridge.py:647-725 | the directory and the result for every case and any change to the directory during the send: written before the send, withdrawn exactly when that fails |
| ServiceReplyRuns.FlushLeavesRouteIff | deploy/scripts/tetrapack_brew_bridge.py:647-725 | the text's own route is there afterwards if and only if the text goes to a service, over BREW was sent, and no reply took it meanwhile |
| ServiceReplyRuns.QueuedFollowsFirstRoute | src/SmsSubsystem.cpp:416-465 | a queued reply follows the first live route of its source and uses up that one alone, if its file can be removed |
| ServiceReplyRuns.ReplyOutcome | src/SmsSubsystem.cpp:396-474 | in every run a reply is queued if and only if it is published and no equal one was queued within a minute, failed if and only if it is no such duplicate and not published; queued, it goes by the first live route to its requester or else to the radio addressed |
| ServiceReplyRuns.WaitingRouteIsFollowed | src/SmsSubsystem.cpp:366-386 | while a route is not withdrawn, used or out of time, a queued reply of its service goes by it or by one before it in name order |
| ServiceReplyRuns.ScanRemoves | src/SmsSubsystem.cpp:366-377 | a scan removes exactly the expired removable files with no live route of the service before them |
| ServiceReplyRuns.RoutedToRequester | src/SmsSubsystem.cpp:374-386 | in every run a routed reply goes to the radio whose request wrote the route, for this service, before its time was up |
| ServiceReplyRuns.RouteUsedOnce | src/SmsSubsystem.cpp:460-466 | no route answers twice unless its file could not be removed at its first use |
| ServiceReplyRuns.StuckRouteIsUsedAgain | src/SmsSubsystem.cpp:460-466 | a route whose file could not be removed is the one the next reply of its service takes, while it lives |
| ServiceReplyRuns.AnsweredInOrder | src/SmsSubsystem.cpp:363 | of two routes to a service the one used first is not the younger, in every run |
| ServiceReplyRuns.RouteStays | src/SmsSubsystem.cpp:366-387 | a route stays until it is withdrawn, used or out of time |
| ServiceReplyRuns.OthersConsumeNothing | src/SmsSubsystem.cpp:408-458 | duplicates and failed publications use up no live route |
| ServiceReplyRuns.DuplicateIffRecent | src/SmsSubsystem.cpp:399-414 | a reply is dropped if and only if an equal one was queued within the last minute |
| ServiceReplyRuns.EqualRepliesApart | src/SmsSubsystem.cpp:399-414 | two equal replies are never queued within a minute of each other |
| TextLines.LinesOfJoin | dashboard/app.py:2415 | well-formed lines come back from their text |
| TextLines.JoinOfLines | dashboard/app.py:2415 | every text is its lines, and they are well formed |
| SettingsText.SectionBounds | dashboard/app.py:2382-2396 | the section's header and its end |
| SettingsText.UpsertSectionScalar | dashboard/app.py:2412-2424 | the edited text: one line replaced or one inserted |
| SettingsText.ReplaceSectionScalar | dashboard/app.py:2399-2409 | the same, refused where the field is missing |
| SettingsLaws.ReplacedIff | dashboard/app.py:2399-2409 | a replacement is the upsert, refused exactly where the section has no line for the key |
| SettingsText.ReplaceMappingBlock | dashboard/app.py:2436-2465 | the text with the block replaced |
| SettingsText.SectionLines | deploy/scripts/runtime_config.py:6-21 | the specified body: the lines behind the reader's header up to the next line that ends a section |
| SettingsText.SectionScalar | deploy/scripts/runtime_config.py:24-33 | the reader's answer for every text, section and key |
| SettingsLaws.KeyPatternIff | dashboard/app.py:2412-2424 | the writer's line for a key is two blanks, the key, any blanks, a colon and anything |
| SettingsLaws.CleanedExactly | deploy/scripts/runtime_config.py:24-33 | the reader cuts a comment off, strips blanks and takes off one pair of equal quotes |
| SettingsEdits.UpsertIsRead | dashboard/app.py:2412-2424 | the value written is read if and only if the key exists, another section follows, or the text ends in a break; behind an earlier header with trailing blanks the reader reads what it read before |
| SettingsEdits.LoneHeaderIsLost | dashboard/app.py:2412-2424 | a text that is only an unterminated header: any upsert loses the section to the reader |
| SettingsEdits.UpsertLosesSection | dashboard/app.py:2412-2424 | the concrete text for it |
| SettingsEdits.ReadOthersAfterUpsert | deploy/scripts/runtime_config.py:24-33 | every other key and section reads as before |
| SettingsWrites.LastEditIsRead | dashboard/app.py:2643-2700 | after any list of edits each field reads as its last edit left it, and every other as originally |
| SettingsWrites.LastUpsertWins | dashboard/app.py:2412-2424 | upserting twice is upserting the second value alone, to the character |
| MappingBlocks.BlockLinesAre | dashboard/app.py:2436-2465 | every line before the key and from the block's end on is kept |
| MappingBlocks.BlockReadsBack | dashboard/app.py:2436-2465 | a replaced block stands under its key up to where the old one ended, and reads back as the pairs written |
| MappingBlocks.ReadOthersAfterBlock | dashboard/app.py:2436-2465 | every other field reads as before a replacement of the block |
| MappingBlocks.LastBlockWins | dashboard/app.py:2436-2465 | replacing the block twice is replacing it by the second mappings alone, to the character |
| SettingsCommit.PlanCovers | dashboard/app.py:2643-2756 | on every combination of changes each file to be written has its original saved |
| SettingsCommit.AllOrNothing | dashboard/app.py:2764-2777 | for every pattern of failures: committed if and only if nothing fails, else all files as before if restoring succeeds; never a third content |
| SettingsCommit.CommitWritesEdits | dashboard/app.py:2638-2767 | which outcome an update has, exactly: nothing to do, busy, rejected, or rolled back; it commits if and only if something changed, radio traffic is quiet, every changed file takes its edit, backup and restart work, every new content loads and as many writes as files touched succeed; then each file holds the last of its edits, made on its old content, and every other its old content |
| SettingsCommit.EachFileItsOwnEdit | dashboard/app.py:2638-2767 | with six different files a committed update leaves in each its own edit of its old content if that was asked for, and every other file alone |
| SettingsCommit.SharedFileLosesEdit | dashboard/app.py:2704-2735 | two settings configured to the same file, concretely: the earlier edit is lost |
| SettingsCommit.RestartedExactly | dashboard/app.py:2617-2633 | each service is restarted if and only if a change concerns it, once, and in the order of the source |
| SettingsCommit.ChangesRestart | dashboard/app.py:2617-2633 | every change restarts something, and every file written has its service restarted |
| SettingsCommit.SettingsManager.Update | dashboard/app.py:2607-2785 | files and outcome after an update, for every failure |
| DynamicTalkgroups.LoadedTablesArePaired | src/AppConfig.cpp:104-114 | whatever the list, each table's targets are keys of the other |
| DynamicTalkgroups.Bridge.ExpireRoutes | src/main.cpp:808-849 | the routes after a tick and the releases it asks for |
| DynamicTalkgroups.Bridge.HandleUplink | src/main.cpp:968-1044 | the routes after a frame from RF, disconnect included |
| DynamicTalkgroups.Bridge.HandleDownlink | src/main.cpp:1223-1268 | whether a frame is passed on, and the route after it |
| DynamicTalkgroups.LastSeenIsLastUplink | src/main.cpp:1030-1038 | in every run a route bears the time of its latest uplink frame, with no disconnect since |
| DynamicTalkgroups.PassedOnlyInChain | src/main.cpp:1226-1234 | a frame of an unmapped, non-static talkgroup passes only in a chain, gaps of at most 3 s, from one passed while the route was live |
| DynamicTalkgroups.PassedIff | src/main.cpp:1223-1268 | in every run a frame of an unmapped, non-static talkgroup passes if and only if RF traffic for it is within the timeout, or a tick has found that out of time and a frame was passed at most 3 s ago, with no counted disconnect since |
| DynamicTalkgroups.MappedOrStaticPasses | src/main.cpp:1225-1227 | a frame of a mapped or static talkgroup always passes |
| DynamicTalkgroups.AnswerPasses | src/main.cpp:968-1038 | after an RF frame every BrandMeister frame of the talkgroup it went to passes within the timeout, unless a disconnect counts in between |
| DynamicTalkgroups.ChainReachesLive | src/main.cpp:1226-1268 | the links of that chain, given one by one |
| DynamicTalkgroups.SilentRouteIsRemoved | src/main.cpp:808-849 | with no RF for the timeout and no BrandMeister for 3 s, two ticks remove a route |
| DynamicTalkgroups.DisconnectCutsOff | src/main.cpp:975-993 | after a disconnect nothing passes until RF opens the route again |
| DynamicTalkgroups.DisconnectIff | src/main.cpp:975-985 | in every run a disconnect counts if and only if it is a header at least 2 s behind every one that counted |
| DynamicTalkgroups.ReleaseRequestedOnce | src/main.cpp:810-831 | a release is requested once per expiry |
| DynamicTalkgroups.ReleaseIff | src/main.cpp:808-831 | in every run a release is requested exactly by the first tick that finds the latest RF frame out of time, unless a disconnect came first |

## Left out

- DVMHost's assembler, data blocks, BPTC and CRC: represented by contract (12-byte blocks of packet, zero padding and four CRC bytes; a header that carries block count and pad length). The width of the header's count field is a parameter, `PacketEncoder.Assembler.counts`.
- FNV hash collisions: packets that differ in one byte, or in the slot alone, have different signatures (`Reassembler.SignatureTellsApart`); others may collide, and `ReassemblerRuns.SuppressedIffRecent` speaks of signatures.
- The mmdvm-gateway mode of BMNetwork and of the main loop: only direct mode is modelled.
- The receive queue of BMNetwork, its stream ids and the contents of its login messages: values from the network or a random source.
- UTF-8: texts are code units or code points; the conversion to and from bytes is a parameter where a method needs it.
- 8-bit character sets of the SDS parser: a function parameter.
- The dashboard rounds coordinates to seven places after the point; the model stops at the coordinate bytes and their exact real values, which doubles represent exactly up to that rounding.
- YAML, JSON, sockets, directory scans, process restarts: parameters of the steps, which succeed or fail.
- Thread interleavings between releasing a lock and sending: every step of `BrewRouting` and `JitterBuffer` is atomic; the order in which messages of one step are sent does not show.
- The BREW server: taken to forget a bridge's radios when the connection ends, and to apply each message it receives.
- Saving of the BREW router's routes and the reading of a line's two numbers: what was saved enters as a list of lines that parse.
- SettingsCommit.AllOrNothing: the text edits are arbitrary functions here; what they write is the subject of SettingsText.
- The dashboard's validation of values, login, pages and scripts, and the filters of the uplink audio: no state or law beyond single tests, or floating-point signal processing.
- Delayed terminators, echo and duplicate suppression of voice frames in src/main.cpp: frames they drop are not events of `DynamicTalkgroups`.
- The asynchronous BrandMeister API calls behind a release: the model stops at the request.
