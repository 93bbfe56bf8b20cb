# Verification of the WebRTC data-channel stack

A Dafny model of the stack that carries WebRTC data channels, and proofs of what it promises.

The main part is the SCTP association (`src/sctp`): setup, fragmentation onto wrapping 32-bit TSNs, the bounded gap buffer, reassembly, SACKs, the chunk codec, the table-driven CRC-32C, and the DCEP/PPID layer above. The second part is the DTLS 1.2 handshake (`src/dtls`): two state machines that must hold identical transcripts although each builds its own differently. Around them stand STUN messages and stream framing, ICE pair bookkeeping, and `ByteBufferQueue`.

## How it is laid out

| files | what they hold |
|---|---|
| `Bytes`, `Serial`, `Crc`, `Chunks` | integers and buffers, serial-number arithmetic, CRC-32, the SCTP codec |
| `Association`, `Setup` | the association's data path and setup as functions on its state |
| `Delivery`, `Fragmentation`, `GapBlocks`, `EndToEnd` | invariants and theorems about one direction of a link |
| `Acceptance`, `Acknowledgement` | exactly which arrivals are taken in, and exactly what a SACK takes off the queue |
| `LiteralComparison` | what the comparison as written changes, with exact conditions |
| `Interruption`, `Reception`, `Lifetime`, `BrokenRuns` | listeners that throw and ends that close; one direction with both; the whole association in one run; runs in which something goes missing |
| `SctpAssociation`, `Wire` | the association object, proved against those functions; from packet bytes to effects |
| `Dcep`, `DataChannels`, `ChannelLimits`, `DataChannelManager` | channels, two managers, what running out of ids does, the objects |
| `ChannelsOverSctp`, `ChannelOpening` | the managers over the whole association; exactly when a channel opens |
| `DtlsRecords`, `DtlsMessages`, `DtlsReassembly` | records and their numbering, message bodies, fragments |
| `DtlsHandshake`, `DtlsAgreement`, `DtlsRuns`, `DtlsConnection` | both roles' handlers, the honest handshake, runs over a network, the connection object |
| `DtlsAuthentication` | what an end has checked by the time it connects, over records from anyone |
| `StunMessage`, `StunStream`, `IceAgent`, `IceSelection`, `ByteBufferQueue` | the smaller parts |
| `KnownValues` | bytes on the wire written out from the documents that define them |

The specification of each stateful object is a function on a value that holds its fields. The classes (`Endpoint`, `DataChannelManager`, `RTCDataChannel`, `DtlsConnection`, `StunMessageBuilder`, `StreamReader`, `IceAgent`, `ByteBufferQueue`) update their fields as the source does, and every method's postcondition equates the new state with that function of the old one. The theorems over runs are about the functions.

A network is the record of everything ever sent in each direction: an event may deliver any of it, any number of times, in any order, or never. Resending what is in the network as it was is therefore delivery of something already sent. One resend is not: after its ChangeCipherSpec the client resends its second DTLS flight under the new cipher, so those copies are events of their own, and `StuckWithoutKeyExchange` says what they cannot do; HelloVerifyRequest is in no flight that is resent. Nothing in the source retransmits DATA, so delivery of everything is conditional on every chunk sent being taken in, and `CanAlwaysDeliver` and `CanAlwaysComplete` say that later deliveries can always finish what is under way.

## The comparison of TSNs

`snLt` (`src/sctp/association.ts:71-73`) is documented as RFC 1982 but evaluates a signed 32-bit value against 0x80000000, which no such value exceeds: it is constantly false. Both forms are modelled (`Comparison = Literal | Intended`).

- Both forms: in-order delivery, refinement of the accepted set, conservation, the frame theorems. The literal form needs fewer than 2^32 chunks sent; the documented one needs no copy 2^31 chunks old and a sender less than 2^31 ahead, and then TSNs may wrap any number of times.
- Documented form only: `SacksAreExact`, `SortingAscends`, `FullSackEmptiesQueue`. `LiteralComparison` says exactly when the literal form departs from each: which arrivals it buffers, when writing a SACK throws, when a full SACK empties the queue.
- Where the comparator orders nothing, the language leaves the sort's result open, so the statements about the literal form hold for every order of the keys.

## Other points where code and comments differ

- The cap on the gap buffer is said to rely on the peer retransmitting dropped chunks (`src/sctp/association.ts:28-32`); no code retransmits DATA.
- Opening a channel whose id exceeds 65535 throws after the association has spent a TSN and a stream number on it. That TSN is on no packet, so nothing sent later in that direction comes out: `RefusedOpenStalls`, `StallsForGood` and `FrameIsLost` show it, and `EverythingArrivesIff` and `FramesSurviveTheNetwork` say exactly when a direction still brings out everything.
- The server may send once it has the client's COOKIE_ECHO (`src/transport-stack.ts:125-141` builds the manager before the association is established). A client still waiting for the COOKIE_ACK consumes its OPEN, answering throws, the drain loop is left, and the throw fails the DTLS connection that handed the packet up. `OpensIff` says exactly when a channel opens; `FirstOpenLost`, `OpensLeftBehind` and `LostForGood` show what goes wrong.
- An association that closes is said to drop buffers that "can never be drained" (`src/sctp/association.ts:520-530`), but DATA is handled in every state: `TornByGivingUp` loses a message that way, and `SetupThenDelivery` and `BrokenIff` say exactly what comes out.
- The reassembler says it ignores overlap "simply" (`src/dtls/connection.ts:389`); it counts a message complete once its last byte is there. `DispatchedExactlyIff` states exactly when what it dispatches is what was sent.
- With the policy 'relay' "only relay candidates are kept" (`src/ice/ice-agent.ts:287-288`), but pairs formed earlier are: `OnlyRelayPairsIff`. A controlled agent can still select another transport: `SelectedOnIff`.

## Assumptions

- Cryptography is function parameters. HMAC has its digest length; both ECDH ends agree; an end's own signatures verify under its certificate; each fingerprint callback accepts the peer; sealed records open under equal keys and no others. `DtlsAuthentication` uses none of this.
- Setup: no INIT is delivered once DATA has moved the server's cursor, since `#handleInit` resets it in any state. `start` is called once.
- What an end whose DTLS connection has failed passes to `sendData` goes nowhere; the model lets it arrive as well, so nothing proved depends on its loss.
- Handshake runs: each message is whole when its turn comes, which `DispatchedExactlyIff` shows to be exactly what dispatching it unchanged takes; sealed messages travel in one record.

## Model

| member | source | states |
|---|---|---|
| EndToEnd.EndToEndDelivery | src/sctp/association.ts:343-497 | Over every run of one direction (any messages on any streams, any loss, repetition and reordering of DATA and SACK packets, both comparisons): messages emitted are a prefix of those passed to `sendData`, in order, with stream, PPID and bytes; the receiver refines its simple specification; nothing sent leaves the sender's queue before the receiver took it in; once every chunk sent is taken in, exactly the messages before the first refused one are out, and all of them if and only if every message was for a stream up to 65535 |
| EndToEnd.CanAlwaysDeliver | src/sctp/association.ts:382-444 | From every reachable state of the association taken alone, whatever each sort leaves, delivering chunks already sent brings out every message before the first that `sendData` refused; that with the literal comparison a SACK that cannot be written also fails the DTLS connection below is in `Lifetime`, and `LiteralNeverThrows` says when it cannot happen |
| EndToEnd.StallsForGood | src/sctp/association.ts:352-368 | After a refused message nothing passed to `sendData` later ever comes out, whatever is sent and delivered: its TSN is spent and on no packet |
| EndToEnd.RefusedOpenStalls | src/sctp/association.ts:352-368 | A concrete run: a message for stream 65536 and then one for a stream in use; the only chunk sent arrives and is accepted, and nothing is emitted |
| EndToEnd.PrefixOfMessages | src/sctp/association.ts:390-444 | In every reachable state the emitted messages are a prefix of those before the first refused one, and exactly those once every chunk sent is taken in |
| EndToEnd.SendKeepsInv | src/sctp/association.ts:343-380 | Sending, or being refused, keeps the link invariant: TSNs number the log, the pieces reassemble to the messages sent, every unaccepted chunk is queued under its own TSN, and every queued TSN is a logged chunk's |
| EndToEnd.DataKeepsInv | src/sctp/association.ts:382-418 | Any copy of any chunk arriving, with whatever order the sort then leaves, keeps the link invariant, and the SACK built acknowledges only what was taken in |
| EndToEnd.SackKeepsInv | src/sctp/association.ts:482-497 | Any SACK ever built, however stale, repeated or reordered, keeps every unaccepted chunk in the queue |
| EndToEnd.SackTakesAcceptedOnly | src/sctp/association.ts:482-497 | A chunk a SACK acknowledges, cumulatively or by gap block, has been accepted by the receiver |
| EndToEnd.SacksAreExact | src/sctp/association.ts:446-497 | Under the documented comparison, in every reachable state the SACK can be written, its blocks are increasing, disjoint and not adjacent, and expanding them gives exactly the buffered TSNs in 16-bit reach |
| EndToEnd.FullSackEmptiesQueue | src/sctp/association.ts:482-497 | After any run, a SACK for everything sent leaves nothing queued if and only if no queued chunk is 2^31 chunks old (documented comparison) |
| Acceptance.TakenIff | src/sctp/association.ts:390-418 | For every reachable receive state and every chunk in range: after a copy of it arrived it is among those taken in if and only if it already was, it is the next one, or the chunks buffered, at 1200 bytes each, do not fill 2^20 bytes |
| Acceptance.RunTakesIff | src/sctp/association.ts:390-418 | Over every run, the chunks taken in are exactly those of which a copy arrived while it was the next one or there was such room |
| Acceptance.ArrivalsDeliver | src/sctp/association.ts:390-444 | Over every run, in terms of its arrivals alone: if every chunk sent arrived so, exactly the messages before the first refused one have come out |
| Acceptance.OneCopyEach | src/sctp/association.ts:390-444 | If no arrival but that of the next chunk ever finds the buffer full, one copy of every chunk sent is enough, in any order and among any other arrivals |
| Acknowledgement.SackClears | src/sctp/association.ts:482-497 | For every queue and SACK: no TSN that a gap block names, counting from the cumulative one, is queued afterwards; a queued TSN stays if and only if neither the cumulative TSN covers it nor a block names it, and it stays with its bytes |
| Acknowledgement.AcknowledgedIff | src/sctp/association.ts:446-497 | In every reachable receive state (documented comparison) the receiver's SACK acknowledges the latest chunk of a TSN if and only if that was consumed less than 2^31 chunks ago or is buffered in a run that ends within 0xffff |
| Acknowledgement.CurrentSackClears | src/sctp/association.ts:446-497 | After any run (documented comparison), handling the SACK for the receiver's present state leaves a chunk queued, with its bytes, if and only if it was queued and the receiver neither consumed it less than 2^31 chunks ago nor can report it |
| ChannelsOverSctp.FramesSurviveTheNetwork | src/sctp/datachannel-manager.ts:75-213 | Two managers over the whole association, from two closed ends on (any loss, repetition and reordering of setup packets, DATA and SACKs, either end giving up or closing, listeners and SACKs that throw): unless an end closed in the middle of a message and then completed it, on every stream and in both directions the frames received are a prefix of the frames sent, none before the channel's opening; once every chunk sent in a direction has been taken in and none was left behind by a throw, every call to `sendData` has come out if and only if that end never tried a writable OPEN with an id above 65535, and every frame if and only if it sent none after one |
| ChannelsOverSctp.QuietIsIntact | src/sctp/association.ts:511-552 | If no chunk reaches an end that has closed, no message is torn |
| ChannelsOverSctp.RunBlocks | src/sctp/datachannel-manager.ts:75-213 | Over every run a direction is stuck exactly if such an OPEN was tried, and holds back a frame exactly if one was sent after it; answers to packets change neither |
| ChannelsOverSctp.StepKeepsInv | src/sctp/datachannel-manager.ts:168-213 | One packet may complete several messages, each handled in turn with its answer sent in between, up to the one the listener throws on; the managers, the setup, both links and their coupling keep their invariants |
| ChannelsOverSctp.DataKeeps | src/sctp/association.ts:382-444 | What a chunk makes due at the manager are the next messages of the other end's log |
| ChannelsOverSctp.NewlyIs | src/sctp/datachannel-manager.ts:168-199 | Of the messages a chunk completes, the manager deals with all but the one its listener throws on |
| ChannelOpening.OpensIff | src/sctp/datachannel-manager.ts:75-213 | Over every run from two closed ends: a channel of the other end's is open at both ends only if an end that was established took its OPEN before its own `sendData` first refused anything; and once everything that end said that can arrive has, if and only if |
| ChannelOpening.RunAcks | src/sctp/datachannel-manager.ts:181-202 | Over every run, an ACK that can get through is in an end's log exactly if the end took the OPEN that way |
| ChannelOpening.EveryChannelOpens | src/sctp/datachannel-manager.ts:75-213 | When both ends have dealt with everything and nothing was refused, every channel whose OPEN was sent is open at both |
| ChannelOpening.ThrowLoses | src/sctp/datachannel-manager.ts:181-199 | An arrival at which the listener throws loses the channel of the OPEN it threw on: the end has no entry for it and has never said anything on its stream |
| ChannelOpening.LostForGood | src/transport-stack.ts:100-138 | Over every later run such a channel never opens at either end, since the throw has failed the connection below |
| ChannelOpening.FirstOpenLost | src/transport-stack.ts:123-141 | A run from two closed ends that loses a channel: the server opens one as soon as it is established and the OPEN overtakes the COOKIE_ACK |
| Wire.DataPacketDelivers | src/sctp/association.ts:163-191 | The bytes of a DATA packet pass the checksum and do to the receiving end exactly what delivering the chunk does; unless a listener threw, one packet goes back under the other end's tag, whose SACK reads as what was received in some order the sort may leave, or writing that SACK throws |
| Wire.SackPacketAcknowledges | src/sctp/association.ts:163-206 | The bytes of a SACK packet do to the sender's queue exactly what the SACK that was built says |
| Wire.CorruptPacketDropped | src/sctp/association.ts:163-166 | A packet with any one byte changed fails the checksum test, so no chunk of it is handled |
| Wire.ChunksAppend | src/sctp/association.ts:163-171 | The chunks of one packet, wherever they are cut in two: the second part is handled in the state the first led to, unless the first threw |
| Wire.AnswersCarryThePeersTag | src/sctp/association.ts:152-209 | Whatever chunk is handled, at most one packet goes out, and its header carries the tag the other end chose (section 8.5 of RFC 4960) |
| Wire.SetupAnswers | src/sctp/association.ts:173-187 | The setup chunks by number have the effect the setup model gives them, and leave of the data path everything but the cursor, or, when the client gives up for want of a cookie, empty its buffers |
| Wire.ControlAnswers | src/sctp/association.ts:192-206 | By chunk number: a HEARTBEAT is echoed body for body as a HEARTBEAT_ACK, a SHUTDOWN answered and the association closed with its buffers empty, an ABORT closes it without an answer, anything unknown changes nothing |
| Wire.DataPacketsCarry | src/sctp/association.ts:376-379 | The pieces of a message go out in order, one packet each, each reading back as its chunk under the given tag |
| Wire.SetupStartsTheLink | src/sctp/association.ts:256-325 | Whatever happened to the setup packets, the data path starts in the state the delivery theorems start from: towards the client from its COOKIE_ECHO on, towards the server once that is established |
| Lifetime.SetupThenDelivery | src/sctp/association.ts:141-552 | Over every run from two closed ends, setup and both directions of data in one, in whatever state DATA finds an end, either end giving up or closing, listeners and SACKs that throw: tags, cursors and TSNs agree and are those the data path uses; an end that may send DATA or has been sent DATA it answers holds the tag the other end chose; in both directions exactly the completed messages come out, in order, but for those torn by a close, and all up to the first refused one under exact conditions; while neither end has closed nothing sent is forgotten before it is taken in |
| Lifetime.BrokenIff | src/sctp/association.ts:390-444 | Over every run something is missing in a direction exactly if an arrival threw with the next chunk buffered or completed a message that was half in at a close; otherwise all completed messages have come out, and once every chunk sent is taken in, everything before the first refused one |
| Lifetime.CalmIsUnbroken | src/sctp/association.ts:382-552 | Nothing is missing if no DATA arrives at an end after it has closed and no OPEN before it is established |
| Lifetime.StepKeepsInv | src/sctp/association.ts:141-552 | Every event of either end keeps the joint invariant of setup, both directions, and the fields they share |
| Reception.SoundDelivers | src/sctp/association.ts:390-552 | What comes out is what has been completed without the torn messages; it is all of it, and everything sent, exactly under the stated conditions |
| Interruption.DeliverUndisturbed | src/sctp/association.ts:390-408 | With a listener that does not throw, delivery is the plain one |
| Interruption.OnlyNextMoves | src/sctp/association.ts:390-418 | With the next chunk left in the buffer, no chunk but another copy of it moves the cursor or completes anything |
| Interruption.ArrivalMatches | src/sctp/association.ts:420-444 | Whatever arrives after a close, reassembly is that of an end that never closed, less the torn messages |
| BrokenRuns.OpensLeftBehind | src/sctp/association.ts:397-408 | A run in which two OPENs reach a client before the COOKIE_ACK, the second first: every chunk is taken in and one message comes out |
| BrokenRuns.TornByGivingUp | src/sctp/association.ts:511-530 | A run in which the client gives up when half of a message has arrived: every chunk is taken in and only the next message comes out |
| Delivery.ReceiveInvRefines | src/sctp/association.ts:390-418 | The cumulative TSN ends the longest contiguous run of accepted chunks, the gap buffer is exactly the accepted chunks beyond it, the next TSN is never buffered, the buffer holds at most 874 |
| Delivery.DataArrivalKeeps | src/sctp/association.ts:390-418 | Any copy of any chunk in range keeps the receive invariant, and consumption never goes back |
| Delivery.DrainKeeps | src/sctp/association.ts:400-408 | Draining keeps the receive invariant and stops with the next TSN not buffered |
| Delivery.IndexOfTsn | src/sctp/association.ts:390-394 | Within the range allowed, a TSN names one chunk of the log, across wraparound |
| Fragmentation.PiecesReassemble | src/sctp/association.ts:343-444 | Consuming the pieces of a message of any length, 0 included, emits exactly that message and leaves no fragment behind |
| Fragmentation.PartialPieces | src/sctp/association.ts:420-444 | After some of its pieces the buffer holds exactly their payloads, under the message's PPID |
| Fragmentation.EmittedGrows | src/sctp/association.ts:420-444 | Consuming more chunks only appends to the messages emitted |
| Fragmentation.StreamNumbersCount | src/sctp/association.ts:349-368 | Every piece of an ordered message carries the number of ordered messages sent before it on its stream, in 16 bits; unordered pieces carry 0 |
| Fragmentation.PiecesSay | src/sctp/association.ts:343-375 | Each piece names its message's stream, PPID, ordering and place in consecutive TSNs, begins only the first and ends only the last, and holds 1200 bytes unless it is the last |
| GapBlocks.BlocksExact | src/sctp/association.ts:446-480 | For keys in ascending order ahead of the cursor: the SACK fits its encoding and its blocks expand to exactly the keys whose run ends within 0xffff |
| GapBlocks.BlocksCoverKeysOnly | src/sctp/association.ts:446-497 | In whatever order the keys are listed, a TSN covered by a block is one of the keys |
| GapBlocks.RunsExact | src/sctp/association.ts:461-470 | The single pass cuts ascending keys into their maximal runs |
| GapBlocks.OffsetsArePrefix | src/sctp/association.ts:453-460 | Blocks that do not fit are a suffix of the runs, so what remains is in increasing order |
| GapBlocks.SortingAscends | src/sctp/association.ts:461 | With the documented comparison the sort puts keys inside the window in order of distance from the cursor |
| GapBlocks.StaysWindowed | src/sctp/association.ts:390-418 | Buffered keys stay within 2^31 ahead of the expected TSN, whatever arrives |
| LiteralComparison.DeliverDiffersIff | src/sctp/association.ts:71-73 | The comparison as written and as documented treat an arriving chunk differently exactly when it is stale, not yet buffered, and there is room |
| LiteralComparison.StaleDuplicateIsBuffered | src/sctp/association.ts:390-418 | A concrete stale duplicate that enters the gap buffer as written and is dropped as documented |
| LiteralComparison.SackThrowsIff | src/sctp/association.ts:446-480 | Writing the SACK throws exactly when, in the order the sort left, the TSN before the cursor is directly followed by the cursor |
| LiteralComparison.SomeOrderThrowsIff | src/sctp/association.ts:446-480 | As written, some order the sort may leave makes writing the SACK throw if and only if the last two delivered TSNs are both buffered again |
| LiteralComparison.StaleCopiesThrow | src/sctp/association.ts:390-480 | Copies of the last two delivered chunks lead to such a buffer in two deliveries |
| LiteralComparison.LiteralNeverThrows | src/sctp/association.ts:390-480 | As written, whatever each sort leaves, a run in which no two neighbouring chunks both come again after they were consumed never makes writing a SACK throw |
| LiteralComparison.StaleRunThrows | src/sctp/association.ts:453-460 | A concrete run ending at the cursor whose start offset is 0xffffffff |
| LiteralComparison.GaplessSackEmptiesIff | src/sctp/association.ts:482-497 | As written, a gapless SACK empties the queue exactly when nothing but its own TSN is queued |
| LiteralComparison.EarlierChunkStaysQueued | src/sctp/association.ts:482-489 | A concrete acknowledged chunk that stays queued as written |
| Serial.LiteralIsNeverLess | src/sctp/association.ts:71-73 | The comparison as written is constantly false |
| Serial.LiteralMissesNeighbours | src/sctp/association.ts:70-73 | A concrete pair of neighbours on which the code and its comment disagree |
| Serial.IntendedIsIntegerOrder | src/sctp/association.ts:70-76 | The documented comparison is integer order on numbers less than 2^31 apart before wrapping (section 3.2 of RFC 1982) |
| Serial.ComparatorIsTotalOrder | src/sctp/association.ts:461 | Within 2^31 ahead of a TSN the sort comparator is a strict total order |
| Serial.NotBeforeIsInWindow | src/sctp/association.ts:390-396 | A TSN passes the stale test exactly when it lies in that window, whatever the network did |
| Serial.NoOrderOnTheCircle | src/sctp/association.ts:461 | Outside such a window the comparator has cycles |
| Setup.SetupAgrees | src/sctp/association.ts:141-331 | Over every run of the four-way setup under loss, repetition and reordering, closes included: an established client means the server has been established and is unless it closed since, each remote tag is the other's local tag, each initial cursor is the peer's initial TSN minus one, no honest cookie is rejected, and every packet ever sent has the right tag: INIT 0, COOKIE_ECHO the server's, INIT_ACK and COOKIE_ACK the client's (section 8.5.1 of RFC 4960) |
| Setup.LateInitAckIgnored | src/sctp/association.ts:289-290 | Once the server's TSN has moved, every INIT_ACK in the network that the client could receive leaves it unchanged |
| Setup.StepKeepsInv | src/sctp/association.ts:256-331 | Every event of the setup keeps the invariant relating both ends and both directions of the network |
| Setup.CanAlwaysEstablish | src/sctp/association.ts:216-331 | From every reachable state of a setup whose client has not given up or closed, however badly the network has behaved, delivering packets already sent establishes both ends |
| Setup.InitAckRoundTrip | src/sctp/association.ts:256-304 | The client reads from an INIT_ACK exactly the body and the cookie the server put in |
| Setup.InitAnswered | src/sctp/association.ts:256-287 | In whatever state an end is, a readable INIT is answered under the tag it names by an INIT_ACK with this end's numbers and a cookie this end will accept; the state and an earlier secret stay |
| Setup.CookieDecides | src/sctp/association.ts:306-319 | At an end that holds a secret, a cookie of full length establishes and is acknowledged under the other end's tag exactly if its code is that of its data; otherwise nothing changes and nothing is sent |
| Setup.TamperedCookieRejected | src/sctp/association.ts:306-314 | A cookie changed in any one byte changes nothing, unless two cookies share a code |
| Setup.CookieSaysAll | src/sctp/association.ts:262-271 | The bytes under the code read back as both tags and both initial TSNs |
| Setup.FindCookieIff | src/sctp/association.ts:296-298 | The cookie is the value of the first parameter of type 7, wherever it stands, and there is none exactly if no parameter has that type |
| Setup.NoCookieAborts | src/sctp/association.ts:289-304 | A waiting client echoes the cookie under the tag it was just given if the INIT_ACK has one, and otherwise closes without a packet |
| SctpAssociation.Endpoint.constructor | src/sctp/association.ts:116-138 | A closed association with no cursor, no remote tag and empty queues |
| SctpAssociation.Endpoint.SendData | src/sctp/association.ts:343-380 | For any stream id: throws and changes nothing unless established; above 65535 throws after spending a TSN and a stream number, with nothing queued or sent; otherwise the transmit state and the packets are those of sending the message |
| SctpAssociation.Endpoint.QueuePieces | src/sctp/association.ts:355-375 | The fragmentation loop yields the pieces of the message, numbers them on, and queues each under its TSN, or stops at the first piece when the stream id cannot be written |
| SctpAssociation.Endpoint.HandleData | src/sctp/association.ts:382-388 | A DATA chunk is delivered and answered by a SACK for the resulting state, unless its body is too short, a listener throws, or the SACK cannot be written |
| SctpAssociation.Endpoint.DeliverData | src/sctp/association.ts:390-418 | The receive state becomes that of delivering the chunk, the drain loop included; a listener that throws leaves the loop with the cursor moved and the rest still buffered |
| SctpAssociation.Endpoint.Consume | src/sctp/association.ts:421-444 | The fragment map and the emitted messages become those of consuming the chunk, and the listener's throw passes through |
| SctpAssociation.Endpoint.SendSack | src/sctp/association.ts:446-480 | For some order the sort may leave: the SACK of that order goes out, or writing it throws |
| SctpAssociation.Endpoint.RunBlocks | src/sctp/association.ts:452-471 | The start/prev loop computes the blocks of the maximal runs |
| SctpAssociation.SortKeys | src/sctp/association.ts:461 | A list of the keys in comparator order when the comparator orders them |
| SctpAssociation.Endpoint.HandleSack | src/sctp/association.ts:482-497 | The nested deletion loops leave exactly the entries the SACK does not acknowledge; a malformed SACK throws and changes nothing |
| SctpAssociation.Endpoint.Start | src/sctp/association.ts:141-148 | A closed client sends INIT with tag 0 and waits for the answer; anyone else does nothing |
| SctpAssociation.Endpoint.HandleInit | src/sctp/association.ts:256-287 | The setup state and the INIT_ACK are those of the setup model; a short body throws first |
| SctpAssociation.Endpoint.HandleInitAck | src/sctp/association.ts:289-304 | Ignored unless waiting; otherwise echoes the cookie, or aborts and releases the buffers when there is none |
| SctpAssociation.Endpoint.HandleCookieEcho | src/sctp/association.ts:306-319 | Establishes and answers unless a full-length cookie fails the check |
| SctpAssociation.Endpoint.HandleCookieAck | src/sctp/association.ts:321-331 | Establishes only after a cookie has been echoed |
| SctpAssociation.Endpoint.Close | src/sctp/association.ts:511-552 | Closes once, dropping the three buffers and keeping the rest |
| SctpAssociation.Endpoint.Shutdown | src/sctp/association.ts:533-542 | Announces the cumulative TSN if established, then closes |
| SctpAssociation.Endpoint.HandleChunk | src/sctp/association.ts:173-206 | Each chunk type has the effect of its handler, unknown types none |
| SctpAssociation.Endpoint.ReceivePacket | src/sctp/association.ts:163-171 | Short or corrupt packets change nothing; otherwise the chunks are handled in order up to the first that throws; the packet's bytes are left as they were |
| Chunks.ChunksRoundTrip | src/sctp/chunks.ts:169-203 | Parsing a header followed by encoded chunks returns exactly those types, flags and bodies |
| Chunks.ParseChunks | src/sctp/chunks.ts:184-203 | The loop returns the chunks framed from offset 12 on, on arbitrary bytes |
| Chunks.EncodeChunk | src/sctp/chunks.ts:169-178 | The buffer filled is header, body and zero padding to four bytes |
| Chunks.ParamsRoundTrip | src/sctp/chunks.ts:205-240 | Parsing encoded parameters returns exactly those types and values |
| Chunks.ParseParams | src/sctp/chunks.ts:219-240 | The loop returns the parameters framed from the start, on arbitrary bytes |
| Chunks.InitRoundTrip | src/sctp/chunks.ts:242-276 | An INIT body with parameters parses back to its fields and parameters |
| Chunks.DataRoundTrip | src/sctp/chunks.ts:278-317 | A DATA chunk parses back to its flags, numbers and payload |
| Chunks.ParseSack | src/sctp/chunks.ts:336-350 | The loops read the SACK's fields, or throw when the body is short |
| Chunks.SackRoundTrip | src/sctp/chunks.ts:319-350 | A SACK body parses back to its fields, blocks and duplicates |
| Chunks.PacketRoundTrip | src/sctp/association.ts:152-158 | An emitted packet passes the checksum and parses to the chunks and the tag put in |
| Crc.TableStep | src/sctp/crc32c.ts:10-33 | One table lookup is eight bit-serial steps of the register |
| Crc.KnownChecksums | src/sctp/crc32c.ts:10-35 | Known values of both CRCs, which fix the polynomials, the preset and the complement |
| Crc.BuildTable | src/sctp/crc32c.ts:10-20 | The nested loops fill the table with the register after each byte |
| Crc.ComputeChecksum | src/sctp/crc32c.ts:26-33 | For every packet the byte loop computes the bit-serial CRC |
| Crc.ApplyChecksum | src/sctp/crc32c.ts:41-46 | The packet's field holds the checksum of the packet with the field zero, and nothing else changes |
| Crc.VerifyChecksum | src/sctp/crc32c.ts:51-57 | The answer is the comparison of field and recomputed checksum, and the packet is left unchanged |
| Crc.AcceptsOwnChecksum | src/sctp/crc32c.ts:41-57 | A packet accepts the checksum applied to it |
| Crc.BurstChangesRegister | src/sctp/crc32c.ts:26-33 | Two messages that differ within 32 bits, wherever, leave different registers |
| Crc.RejectsBurstInData | src/sctp/crc32c.ts:51-57 | Changing up to four consecutive bytes outside the field of an accepted packet, of any length, makes it rejected |
| Crc.RejectsForgedField | src/sctp/crc32c.ts:51-57 | Changing only the field makes an accepted packet rejected |
| Crc.RejectsChangedByte | src/sctp/crc32c.ts:51-57 | Changing any single byte makes an accepted packet rejected |
| Dcep.OpenRoundTrip | src/sctp/dcep.ts:54-94 | An OPEN message decodes to its type, priority, reliability, label and protocol |
| Dcep.EncodeOpen | src/sctp/dcep.ts:54-67 | The buffer filled is the message, and only over-long strings make it throw |
| ChannelRuns.ChannelsDeliver | src/sctp/datachannel-manager.ts:75-213 | Over every run of two managers with in-order message delivery: frames delivered are a prefix of frames sent, those before the first refused call once everything that can arrive has; a channel opens before its first frame; both ends agree on label, protocol and ordering |
| ChannelLimits.EverythingArrivesIff | src/sctp/datachannel-manager.ts:75-105 | Over every run and in both directions, once every message that can arrive has: all calls to `sendData` have come out if and only if this end never tried a writable OPEN with an id above 65535, and all frames on every stream if and only if none was sent after one |
| ChannelLimits.RunBlocks | src/sctp/datachannel-manager.ts:75-105 | Over every run a log holds a refused call exactly if such an OPEN was tried, and a frame behind it exactly if one was sent later |
| ChannelLimits.CanSettle | src/sctp/datachannel-manager.ts:168-206 | From every reachable state delivery brings in all that can arrive |
| ChannelLimits.LimitIsReached | src/sctp/datachannel-manager.ts:100-105 | After 32768 opens the next id is 65536 |
| ChannelLimits.FrameIsLost | src/sctp/datachannel-manager.ts:75-105 | A run in which a frame sent on an open channel after such an OPEN is not received although all that can arrive has |
| ChannelRuns.IdsNeverReused | src/sctp/datachannel-manager.ts:100-105 | The next id either end chooses has its parity, is taken at neither end, and is on no message ever sent (section 6 of RFC 8832) |
| ChannelRuns.StepsKeepParity | src/sctp/datachannel-manager.ts:75-105 | A channel known to the accepting end is known to the end whose parity its id has |
| ChannelRuns.StepKeepsInv | src/sctp/datachannel-manager.ts:75-213 | Opening, sending and delivering keep the invariant of both managers and both logs |
| ChannelRuns.NextMessage | src/sctp/datachannel-manager.ts:168-206 | The next message always finds what it needs: an OPEN a free id, an ACK an unacknowledged channel, a frame an open one |
| ChannelRuns.MessageEffects | src/sctp/datachannel-manager.ts:168-202 | Whatever a manager holds and a message says, stream by stream: only a readable OPEN is answered, by one ACK on its stream; which channels exist and are open afterwards; and which frame, if any, a channel receives |
| DataChannels.FrameRoundTrip | src/sctp/datachannel-manager.ts:132-146 | Bytes and kind of every frame, empty ones included, survive the mapping to PPIDs, and something is always on the wire (section 6.6 of RFC 8831) |
| DataChannels.OpenTellsInitIff | src/sctp/datachannel-manager.ts:107-126 | What an OPEN says of ordering and reliability, read by section 5.1 of RFC 8832, is what the channel was opened with if and only if not both limits were given and the one given fits 32 bits |
| DataChannels.FirstFree | src/sctp/datachannel-manager.ts:100-105 | The least id not taken, from a start, in steps of two |
| DataChannelObjects.DataChannelManager.OpenChannel | src/sctp/datachannel-manager.ts:75-98 | Registers a channel under an id not in use before; throws, leaving the entry, when the OPEN cannot be written, the association is not established, or the id is above 65535, and in the last case the association's TSN is spent all the same |
| DataChannelObjects.DataChannelManager.AllocateStreamId | src/sctp/datachannel-manager.ts:100-105 | The loop returns the first free id and moves the counter past it |
| DataChannelObjects.DataChannelManager.Sender | src/sctp/datachannel-manager.ts:132-146 | A frame goes out under the PPID of its kind, an empty one as one byte; throws with nothing changed while the association is not established, and with the channel's ordering option |
| DataChannelObjects.DataChannelManager.OnSctpMessage | src/sctp/datachannel-manager.ts:168-179 | A message has the effect of the model's step, or throws with nothing changed exactly when it is an OPEN that cannot be read or answered yet |
| DataChannelObjects.DataChannelManager.OnDcep | src/sctp/datachannel-manager.ts:181-202 | An OPEN is acknowledged and accepted, or throws before anything changes when malformed or not yet answerable; a first ACK opens the channel; the rest is ignored |
| DataChannelObjects.DataChannelManager.AcceptChannel | src/sctp/datachannel-manager.ts:208-213 | The channel is registered as acknowledged and opened |
| DataChannelObjects.RTCDataChannel.Send | src/datachannel/RTCDataChannel.ts:285-342 | Throws unless open and connected and the transport takes it; the buffered amount is as before either way; a transport failure announces 'error' and success 'bufferedamountlow' exactly at or below the threshold |
| DataChannelObjects.RTCDataChannel.SetState | src/datachannel/RTCDataChannel.ts:364-385 | Every change is announced exactly once |
| DataChannelObjects.RTCDataChannel.OnOpenInternal | src/datachannel/RTCDataChannel.ts:149-152 | Opens from every state but closed, closing included |
| DataChannelObjects.MonotoneIff | src/datachannel/RTCDataChannel.ts:149-152 | Over every run the ready state never goes back exactly when no open arrives while closing |
| DataChannelObjects.ClosingReopens | src/datachannel/RTCDataChannel.ts:149-152 | A concrete run from closing back to open |
| DataChannelObjects.ClosedIsFinal | src/datachannel/RTCDataChannel.ts:364-392 | A closed channel stays closed |
| DataChannelObjects.ClosedIff | src/datachannel/RTCDataChannel.ts:347-362 | Over any run a channel ends closed exactly if some close is finished before the transport opens the channel again |
| DataChannelObjects.OpenIff | src/datachannel/RTCDataChannel.ts:149-152 | A new channel ends open exactly if it has not been closed and the transport was the last to have its say |
| DtlsRuns.HandshakeAgrees | src/dtls/connection.ts:380-969 | Over every run in which fragments may be lost, repeated, reordered, cut in any way and resent under the new cipher so long as each message is whole when its turn comes: neither honest end fails; the bytes hashed or signed at the session hash, CertificateVerify and both Finished are equal at both ends wherever both made the check; each dispatches a prefix of what the other sent; a connected client means a connected server; two connected ends hold the same keys |
| DtlsRuns.StuckWithoutKeyExchange | src/dtls/connection.ts:255-299 | Over every run in which the end of the ClientKeyExchange as first sent never arrives, the server never has keys and neither end is ever connected, however often the client resends its flight |
| DtlsRuns.ResentDropped | src/dtls/connection.ts:333-341 | What the client resends after its ChangeCipherSpec is dropped by a server without keys |
| DtlsRuns.CanAlwaysComplete | src/dtls/connection.ts:380-969 | From every state a run can reach, later messages with holes in them included, delivering messages already sent leads to both ends being connected |
| DtlsRuns.NoDeadlock | src/dtls/connection.ts:380-401 | When neither end has a message of the other's left to dispatch, both are connected |
| DtlsRuns.Advances | src/dtls/connection.ts:386-400 | If what has begun to arrive behind it is whole, delivering the next message whole gets it dispatched, whatever had arrived of it before, and its keys, if sealed, are there |
| DtlsRuns.FillsHole | src/dtls/connection.ts:386-400 | Delivering a later message whole dispatches nothing yet and leaves fewer messages with holes |
| DtlsRuns.SkippedVerifyHashesFirstHello | src/dtls/connection.ts:433-530 | The session hash starts at the first ClientHello when HelloVerifyRequest is skipped, and at the second otherwise (section 4.2.1 of RFC 6347) |
| DtlsRuns.StepKeepsInv | src/dtls/connection.ts:380-401 | Any deliverable fragment keeps each end in the state that a prefix of its peer's messages leads to, with every inbox entry showing exactly what has arrived |
| DtlsRuns.ClientStep | src/dtls/connection.ts:505-659 | Each server message takes the client from one state of the honest handshake to the next, for all four kinds of peer |
| DtlsRuns.ServerStep | src/dtls/connection.ts:661-766 | Each client message takes the server from one state of the honest handshake to the next; only the first hello restarts its numbering |
| DtlsHandshake.PredictionsMatch | src/dtls/connection.ts:592-659 | In any state, the numbers the client predicts for Certificate and ClientKeyExchange are those the flight then gets, so what it hashed and signed is what it records |
| DtlsHandshake.FlightAdds | src/dtls/connection.ts:223-231 | A flight's messages are numbered consecutively and recorded under those numbers |
| DtlsAuthentication.ConnectsIff | src/dtls/connection.ts:505-698 | For every state of either role and every message, honest or not: handling it takes an end from handshaking to connected if and only if a master secret is there and the message is a Finished whose body is the verify data of that secret, the peer's role and the transcript held (and a server can answer) |
| DtlsAuthentication.ConnectsOnlyOnFinished | src/dtls/connection.ts:333-401 | Over any sequence of handshake records from anyone: an end that has connected dispatched such a Finished at one moment, and what it held then had been checked |
| DtlsAuthentication.FinishedEndsHandshake | src/dtls/connection.ts:333-401 | The other way: an end that comes by such a Finished is handshaking no more after any further records |
| DtlsAuthentication.ConnectingReleases | src/dtls/connection.ts:957-987 | For every state and message: the message that connects an end leaves it with its keys and its peer's certificate, and without transcript, randoms, secrets or peer point |
| DtlsAuthentication.OnlyCheckedIsKept | src/dtls/connection.ts:333-401 | Over any sequence of handshake records from anyone: a client's certificate is trusted, its peer point is one that a trusted certificate signed with the client's own random, its server random came with suite 0xc02b, its keys come from such a point; a server's recorded CertificateVerify signatures verified under a trusted certificate, and without the right cookie it has drawn nothing, derived nothing and sent only HelloVerifyRequests |
| DtlsAuthentication.ClientHandleChecks | src/dtls/connection.ts:505-559 | Every message the client handles keeps what it holds checked |
| DtlsAuthentication.ServerHandleChecks | src/dtls/connection.ts:661-698 | Every message the server handles keeps what it holds checked |
| DtlsAuthentication.TakeServerKeyChecks | src/dtls/connection.ts:896-919 | The peer's point is kept only if the signature over both randoms and the point verified under the certificate held |
| DtlsAuthentication.CertificateTaken | src/dtls/connection.ts:873-892 | For every state of either role: a Certificate message leaves its first certificate if the fingerprint callback trusts it, none if the list is empty, and fails the end exactly otherwise |
| DtlsAuthentication.HelloNeedsCookie | src/dtls/connection.ts:740-781 | For every state of a server that verifies: a hello is refused exactly if its cookie is missing or not the one made for its random; then one HelloVerifyRequest with that cookie goes out as message 0, numbering restarts at 1, and transcript, share and keys stay |
| DtlsAuthentication.ServerAnswersOffer | src/dtls/connection.ts:700-766 | Any accepted hello is answered by a ServerHello with the one suite, and with the extended master secret and renegotiation_info exactly if the hello offered them |
| DtlsAuthentication.DerivedKeysAgree | src/dtls/connection.ts:621-636 | Two ends that exchanged points derive equal keys: from the session hash with the extended master secret, and from client and server random, in that order, without it |
| DtlsAgreement.HelloDoneTaken | src/dtls/connection.ts:592-659 | On ServerHelloDone the client derives the common keys, signs the common session bytes and finishes over the common transcript |
| DtlsAgreement.ClientDoneTaken | src/dtls/connection.ts:661-698 | The server accepts the client's Finished, answers with its own over the common transcript, and is connected |
| DtlsAgreement.ServerDoneTaken | src/dtls/connection.ts:545-553 | The client accepts the server's Finished and is connected |
| DtlsAgreement.ClientKeyTaken | src/dtls/connection.ts:669-681 | The server derives the same master secret from the same session hash |
| DtlsAgreement.VerifyTaken | src/dtls/connection.ts:682-685 | The server accepts the client's CertificateVerify over its own transcript |
| DtlsAgreement.HelloTaken | src/dtls/connection.ts:700-766 | A ClientHello with the right cookie starts the transcript and the server's flight |
| DtlsAgreement.FirstHelloTaken | src/dtls/connection.ts:740-748 | A hello without a cookie is answered by HelloVerifyRequest, with nothing recorded |
| DtlsAgreement.ServerHelloTaken | src/dtls/connection.ts:516-528 | ServerHello completes the client's transcript whichever hello opened it |
| DtlsReassembly.DispatchedExactlyIff | src/dtls/connection.ts:380-401 | For every flight and every sequence of fragments (lost, repeated, reordered, interleaved, stale): dispatching stops at the first message whose last byte has not arrived, and the messages dispatched are those sent, once each and in order, if and only if each message's non-zero bytes had all arrived when its turn came (section 4.2.3 of RFC 6347) |
| DtlsReassembly.DrainExactIff | src/dtls/connection.ts:394-400 | One drain goes as far as the arrivals say, and adds exactly the messages sent if and only if those ready are whole |
| DtlsReassembly.MiddleFirstIsExact | src/dtls/connection.ts:390-391 | Second, first, third: a body cut in three is dispatched exactly although its middle comes first |
| DtlsReassembly.DispatchedWhenAllArrived | src/dtls/connection.ts:394-400 | Once every byte below a message has arrived, all messages below it have been dispatched |
| DtlsReassembly.HoleDispatchesZeros | src/dtls/connection.ts:390-391 | A concrete overtaking fragment that dispatches a wrong body |
| DtlsReassembly.GaplessIsWholeInTurn | src/dtls/connection.ts:386-391 | It is enough that the bytes before each fragment reached up to it earlier |
| DtlsReassembly.FlightRoundTrip | src/dtls/connection.ts:223-248 | Fragmenting a flight and reassembling it in order gives back every message, empty ones included |
| DtlsRecordLayer.IncreasingIff | src/dtls/connection.ts:255-283 | Over every run, (epoch, sequence number) strictly increases if and only if no record follows a second ChangeCipherSpec |
| DtlsRecordLayer.NoncesDistinct | src/dtls/cipher.ts:148-167 | With one ChangeCipherSpec and fewer than 2^48 records no explicit nonce repeats, retransmissions included (section 3 of RFC 5288) |
| DtlsNonces.HonestNoncesDistinct | src/dtls/connection.ts:255-283 | Over every run of the handshake, a connection object in the state of one of the run's ends has put out no two records with the same nonce, retransmissions and application data included (fewer than 2^48 records) |
| DtlsWire.RecordsRoundTrip | src/dtls/protocol.ts:132-168 | A datagram of any encoded records parses to exactly those records |
| DtlsWire.ParseRecords | src/dtls/protocol.ts:153-168 | The loop returns the whole records from the start, on arbitrary bytes |
| DtlsWire.FragmentRoundTrip | src/dtls/protocol.ts:178-204 | A fragment header and its data parse back |
| DtlsMessages.ClientHelloRoundTrip | src/dtls/connection.ts:460-496 | The server reads from the client's hello its random, cookie and extension flags |
| DtlsMessages.ServerHelloRoundTrip | src/dtls/connection.ts:561-590 | The client reads from the server's hello its random, suite and extended-master-secret flag |
| DtlsMessages.ReadTypes | src/dtls/connection.ts:576-589 | The extension loop returns the types in order, or throws past the body |
| DtlsMessages.OffersSuiteIff | src/dtls/connection.ts:721-723 | A suite is found exactly if it stands at an even position of the list |
| DtlsMessages.CertificateRoundTrip | src/dtls/connection.ts:866-886 | The first certificate of a Certificate message is the one put in |
| DtlsMessages.KeyExchangeRoundTrip | src/dtls/connection.ts:896-915 | Public point, signed parameters and signature of a ServerKeyExchange read back |
| DtlsMessages.VerifyRequestRoundTrip | src/dtls/connection.ts:505-514 | The cookie of a HelloVerifyRequest reads back |
| DtlsMessages.ClientKeyRoundTrip | src/dtls/connection.ts:669-673 | The public point of a ClientKeyExchange reads back |
| DtlsMessages.VerifyRoundTrip | src/dtls/connection.ts:851-854 | The signature of a CertificateVerify reads back |
| DtlsConnectionObject.DtlsConnection.SendRecord | src/dtls/connection.ts:275-283 | The record is stamped with the current epoch and number, sealed after the change of cipher, and the numbering stays that of the operations so far |
| DtlsConnectionObject.DtlsConnection.SendChangeCipherSpec | src/dtls/connection.ts:262-268 | A record in the old epoch, then epoch 1 from number 0 |
| DtlsConnectionObject.DtlsConnection.FlushFlight | src/dtls/connection.ts:255-259 | Every datagram of the last flight goes out under the next numbers |
| DtlsConnectionObject.DtlsConnection.SendFlight | src/dtls/connection.ts:223-252 | Records and numbers the messages and sends exactly their fragments; throws when the numbers run out |
| DtlsConnectionObject.DtlsConnection.FragmentMessage | src/dtls/connection.ts:232-247 | The inner loop cuts a body into pieces of at most 1200 bytes, an empty one into one |
| DtlsConnectionObject.PieceParses | src/dtls/connection.ts:232-247 | Each piece parses to the fragment of the bytes it was cut from |
| DtlsConnectionObject.DtlsConnection.HandleHandshakeFragment | src/dtls/connection.ts:380-401 | The inbox, the counter and the handshake state become those of taking the fragment, or the method throws where that fails |
| DtlsConnectionObject.DtlsConnection.DrainInbox | src/dtls/connection.ts:394-400 | The dispatch loop does what the model's drain does, restarts and completion included |
| DtlsConnectionObject.DtlsConnection.SendClientHello | src/dtls/connection.ts:433-458 | The first hello is remembered, the second recorded |
| DtlsConnectionObject.DtlsConnection.ClientHandle | src/dtls/connection.ts:505-559 | Each message type has the effect of the model's client step |
| DtlsConnectionObject.DtlsConnection.SendClientSecondFlight | src/dtls/connection.ts:592-659 | Keys, signature, flight, change of cipher and Finished as in the model, or a throw where it fails |
| DtlsConnectionObject.DtlsConnection.ServerHandle | src/dtls/connection.ts:661-698 | Each message type has the effect of the model's server step |
| DtlsConnectionObject.DtlsConnection.HandleClientHello | src/dtls/connection.ts:700-766 | A missing or wrong cookie is answered and the inbox cleared; a right one starts the flight |
| DtlsConnectionObject.DtlsConnection.SendServerFlight | src/dtls/connection.ts:783-825 | The flight is the model's, with or without a CertificateRequest |
| DtlsConnectionObject.DtlsConnection.SendFinished | src/dtls/connection.ts:941-948 | The Finished covers the transcript so far, is recorded, and goes out sealed |
| DtlsConnectionObject.DtlsConnection.OnHandshakeComplete | src/dtls/connection.ts:957-987 | Connects once and drops what only the handshake needed |
| DtlsConnectionObject.DtlsConnection.HandleRecord | src/dtls/connection.ts:333-373 | Sealed records without keys are dropped and ones that do not open fail the connection; handshake records have the model's effect or fail it; application data is handed up only when connected; a close_notify closes, a fatal alert fails, and every other record changes nothing |
| DtlsConnectionObject.DtlsConnection.Close | src/dtls/connection.ts:1000-1017 | Closes once, announcing it under the cipher in use |
| DtlsConnectionObject.DtlsConnection.SendData | src/dtls/connection.ts:993-998 | Throws unless connected; otherwise one record under the cipher in use |
| StunMessage.BuildVerifiesIff | src/ice/stun-message.ts:157-260 | For attributes without MESSAGE-INTEGRITY, a message built with one password verifies under another exactly when both give the covered bytes the same digest, so always under its own (section 15.4 of RFC 5389) |
| StunMessage.RewrittenIsCovered | src/ice/stun-message.ts:157-172 | The verifier's rewritten header and body are byte for byte what the builder digested |
| StunMessage.BuildParses | src/ice/stun-message.ts:157-225 | A built message parses to its type, id and every attribute, the last of each type standing |
| StunMessage.BuildIff | src/ice/stun-message.ts:157-186 | A message can be built exactly if every attribute fits and all of it, 24 bytes of integrity if there is a password and 8 of fingerprint, fits the length field; these come last, in that order |
| StunMessage.FingerprintCoversMessage | src/ice/stun-message.ts:174-186 | The last attribute is the masked CRC-32 of everything before it, with the header length of the finished message (section 15.5 of RFC 5389) |
| StunMessage.TamperedFails | src/ice/stun-message.ts:233-260 | A byte changed in what the integrity covers, or in its digest, makes verification fail unless two messages share a digest |
| StunMessage.NoIntegrityFails | src/ice/stun-message.ts:233-252 | A message without the integrity attribute is never accepted |
| StunMessage.ParsesIff | src/ice/stun-message.ts:206-211 | What counts as a STUN message is decided exactly by its size, its magic cookie and its length field |
| StunMessage.AttributesRoundTrip | src/ice/stun-message.ts:128-225 | Attributes of any lengths are read back and parsing goes on behind them |
| StunMessage.TableIsLast | src/ice/stun-message.ts:212-223 | The parser's map holds the last value of each type |
| StunMessage.SearchPasses | src/ice/stun-message.ts:239-249 | The search for integrity passes over attributes of other types |
| StunMessage.StunMessageBuilder.BuildMessage | src/ice/stun-message.ts:157-186 | The bytes built are the model's, or None where a length cannot be written |
| StunMessage.StunMessageBuilder.EncodeBody | src/ice/stun-message.ts:128-139 | The loop encodes the attributes in order, padded |
| StunMessage.ParseMessage | src/ice/stun-message.ts:206-225 | The parse loop fills the model's map, on arbitrary bytes |
| StunMessage.VerifyIntegrity | src/ice/stun-message.ts:233-260 | The search loop and comparison give the model's answer, on arbitrary bytes |
| StunStream.ChunkingDoesNotMatter | src/stun/stun-client.ts:322-332 | However the stream is cut into reads, the messages and the residue are those of framing the whole |
| StunStream.SameStreamSameMessages | src/stun/stun-client.ts:322-332 | Any two ways of cutting one stream give the same messages and residue |
| StunStream.FramingPartitions | src/stun/stun-client.ts:322-332 | Messages and residue together are the input, each message is complete, the residue is not (section 7.2.2 of RFC 5389) |
| StunStream.FramingIsUnique | src/stun/stun-client.ts:322-332 | No other split into complete messages and an incomplete residue exists |
| StunStream.StreamReader.OnStreamData | src/stun/stun-client.ts:322-332 | The loop dispatches exactly the messages framing gives and keeps the residue |
| ByteBufferQueues.ByteBufferQueue.Append | src/foundation/ByteBufferQueue.ts:120-132 | Appends the bytes and keeps the four invariants |
| ByteBufferQueues.ByteBufferQueue.ReadInto | src/foundation/ByteBufferQueue.ts:73-112 | Moves exactly the longest prefix that fits, across buffers, and leaves the rest of the output alone |
| ByteBufferQueues.ByteBufferQueue.Read | src/foundation/ByteBufferQueue.ts:151-167 | Takes exactly n bytes off the front, or throws and changes nothing |
| ByteBufferQueues.ByteBufferQueue.Peek | src/foundation/ByteBufferQueue.ts:175-199 | Copies the first n bytes, or all there are, without change |
| ByteBufferQueues.PeekThenRead | src/foundation/ByteBufferQueue.ts:151-199 | For 0 <= n <= size a peek returns what the following read does |
| ByteBufferQueues.ByteBufferQueue.CheckInvariants | src/foundation/ByteBufferQueue.ts:206-233 | Throws exactly when one of the four invariants is broken |
| ByteBufferQueues.ByteBufferQueue.Clear | src/foundation/ByteBufferQueue.ts:137-142 | Leaves an empty queue |
| ByteBufferQueues.CopyOut | src/foundation/ByteBufferQueue.ts:182-196 | The copying loop gives a prefix of the contents |
| IceChecks.ChecksStayBounded | src/ice/ice-agent.ts:437-601 | Over every run, restarts included and whatever ids are drawn: keys distinct, pending transactions belong to the pair that last sent them and never outnumber pairs, succeeded pairs are never checked again, a selection never changes |
| IceChecks.PairsComplete | src/ice/ice-agent.ts:456-464 | Every combination of candidates has exactly one pair, and old pairs stay where they were |
| IceChecks.StepKeeps | src/ice/ice-agent.ts:437-601 | Every event keeps the invariant and the promises to later states |
| IceChecks.OnlyRelayPairsIff | src/ice/ice-agent.ts:319-325 | Under the policy 'relay', whatever happens after the other local candidates are dropped: all pairs use relay candidates if and only if no other pair had been formed by then |
| IceChecks.HostPairSurvives | src/ice/ice-agent.ts:319-325 | A concrete host pair that outlives its dropped candidate |
| IceChecks.SelectedOnIff | src/ice/ice-agent.ts:541-601 | With all candidates and pairs on some transports, what the agent selects is on one of them if and only if no USE-CANDIDATE request reached it on another while it was controlled and had not selected |
| IceChecks.SendKeeps | src/ice/ice-agent.ts:495-518 | Sending a check retires the pair's previous one and keeps the invariant even if an id is drawn twice |
| IceChecks.PendingNeverExceedsPairs | src/ice/ice-agent.ts:495-518 | There are at most as many pending transactions as pairs |
| IceSelection.SuccessSelects | src/ice/ice-agent.ts:566-578 | A success for a pending check marks its pair and no other; a controlling agent that had not selected has then selected that pair, its checks are stopped and nothing is pending |
| IceSelection.RequestSelects | src/ice/ice-agent.ts:541-564 | A nomination of a controlled agent that had not selected selects the transport and address the request came on, as a listed pair exactly if one matches, and stops the checks |
| IceSelection.RequestLearns | src/ice/ice-agent.ts:552-556 | At either role, a request from an unknown usable sender makes it a candidate, paired with every local one |
| IceSelection.ControllingSelects | src/ice/ice-agent.ts:566-601 | Over every run a controlling agent has selected if and only if some success answered a check pending at that moment, and it selected the pair of the first such check |
| IceSelection.ControlledSelects | src/ice/ice-agent.ts:541-601 | Over every run a controlled agent has selected if and only if a request with USE-CANDIDATE reached it, and it sends to the address the first such request came from, on its transport |
| IceSelection.RoundSends | src/ice/ice-agent.ts:487-518 | Whatever ids are drawn, a round sends one check for each pair that has not succeeded, in order |
| IceSelection.RoundChecksAll | src/ice/ice-agent.ts:487-518 | With ids not drawn before, one round leaves every pair that has not succeeded pending under its own id and the others as they were |
| IceSelection.CandidateIsChecked | src/ice/ice-agent.ts:437-518 | A usable candidate at an idle agent has a pair with every local candidate, checked at once, whose answer selects it at a controlling agent that had not selected |
| IceSelection.ClosedSendsNothing | src/ice/ice-agent.ts:487-493 | Over every run a closed agent sends no check |
| IceSelection.LateAnswersIgnored | src/ice/ice-agent.ts:470-485 | After the timeout or the close an answer selects nothing |
| IceSelection.UsableCandidates | src/ice/ice-agent.ts:437-441 | A name ending in .local, no address or no port makes a candidate unusable; other names and addresses are used |
| IceAgentObject.IceAgent.KeepRelayCandidates | src/ice/ice-agent.ts:322-325 | Keeps exactly the relay candidates |
| IceAgentObject.IceAgent.FormPairs | src/ice/ice-agent.ts:456-464 | The nested loops form exactly the model's pairs |
| IceAgentObject.IceAgent.Tick | src/ice/ice-agent.ts:487-493 | One check for each pair that has not succeeded, in order |
| IceAgentObject.IceAgent.SendCheck | src/ice/ice-agent.ts:495-518 | The pair, the pending map and the history change as in the model |
| IceAgentObject.IceAgent.AddRemoteCandidate | src/ice/ice-agent.ts:437-447 | Unusable candidates are ignored, others paired, and checks started if they can be |
| IceAgentObject.IceAgent.HandleBindingRequest | src/ice/ice-agent.ts:541-564 | Learns an unknown sender and lets the controlling peer nominate the first matching pair, or one made up |
| IceAgentObject.IceAgent.HandleBindingSuccess | src/ice/ice-agent.ts:566-578 | Marks the pair of a pending transaction, and selects it if controlling; other ids change nothing |
| IceAgentObject.IceAgent.Select | src/ice/ice-agent.ts:589-601 | The first selection stands and stops the checks |
| IceAgentObject.IceAgent.StartChecks | src/ice/ice-agent.ts:466-476 | Starts once, with a first round of checks |
| IceAgentObject.IceAgent.Close | src/ice/ice-agent.ts:621-627 | Closes once and stops the checks |
| KnownValues.PacketStart | src/sctp/chunks.ts:139-151 | Both ports are 5000 and the tag follows |
| KnownValues.DataOnTheWire | src/sctp/chunks.ts:278-294 | The bytes of a DATA chunk (section 3.3.1 of RFC 4960) |
| KnownValues.InitOnTheWire | src/sctp/association.ts:216-231 | The bytes of an INIT: a window of 2^20 bytes, 65535 streams each way, FORWARD-TSN supported |
| KnownValues.SackOnTheWire | src/sctp/association.ts:473-479 | The bytes of a SACK with one gap block and that window |
| KnownValues.SackAdvertises | src/sctp/association.ts:473-479 | Every SACK built has the cursor, that window and no duplicates |
| KnownValues.OpenOnTheWire | src/sctp/dcep.ts:54-67 | The bytes of an OPEN and of an ACK (section 5 of RFC 8832) |
| KnownValues.FrameIdentifiers | src/sctp/datachannel-manager.ts:134-144 | The PPIDs of text, binary, empty and DCEP messages (section 8 of RFC 8831) |
| KnownValues.RecordOnTheWire | src/dtls/protocol.ts:132-151 | The bytes of a handshake record (section 4.1 of RFC 6347) |
| KnownValues.FinishedOnTheWire | src/dtls/protocol.ts:178-194 | The header of a Finished (section 4.2.2 of RFC 6347) |
| KnownValues.ServerFlightTypes | src/dtls/connection.ts:783-825 | The server's flight by message type, and its CertificateRequest byte for byte |
| KnownValues.ClientHelloOnTheWire | src/dtls/connection.ts:460-496 | The bytes of a ClientHello up to its extensions, whose 26 bytes are `ClientExtensionsOnTheWire` |
| KnownValues.ClientExtensionsOnTheWire | src/dtls/connection.ts:480-496 | The four extensions of a ClientHello byte for byte |
| KnownValues.BindingRequestStart | src/ice/stun-message.ts:157-170 | The header of a Binding request with the magic cookie |
| KnownValues.AttributeOnTheWire | src/ice/stun-message.ts:128-139 | An attribute's bytes, padded with its own length, and the numbers of the two that seal a message |

## Left out

- Sockets, timers, TLS, DNS, interface enumeration, TURN requests: I/O. Retransmission timers appear as repeated delivery, and the setup timer's last attempt as an event.
- SDP, candidate lines, URL parsing, certificates and DER: text and foreign formats.
- `RTCPeerConnection` and the transport stack: wiring. That `acceptChannel` runs inside the open request is built into the manager's step.
- Channel close and reuse in the manager, negotiated channels, caller-supplied ids, association restart, partial reliability: the code has no stream reset or overwrites entries silently, so no clean statement holds.
- Listeners that call back into the association from a 'message' event: such a call is a later step of the model. The ACK of an OPEN is the exception and is inside the step.
- Listeners of the application's own, behind the manager, are taken not to throw.
- The manager's table holds channel states as values; that the application holds the same channel object is not modelled.
- Fragment payloads and reassembly buffers are values: that the parser's slices share memory with the packet is not modelled.
- Array encoders other than `EncodeChunk`, `EncodeOpen` and the checksum field: other encoders are modelled by the bytes they write.
- AES-GCM, the PRF and key derivation: a seal names the master secret, the randoms and the writer instead of computing keys. Record sequence numbers at 2^48, where the writer throws, are not reached.
- Checking a FINGERPRINT: nothing in the source does. The XOR-MAPPED-ADDRESS encoding has no decoder there.
- The text of the binding response and of a check: only their bookkeeping is modelled.
- `createMessage` in the STUN client: its length does not match its digest size.
- Candidate priorities: one line of arithmetic.
- EndToEnd.EndToEndDelivery: does not promise delivery without every chunk sent being taken in, because nothing retransmits DATA.
- Setup.SetupAgrees: does not say that only valid cookies establish, because one shorter than 48 bytes is accepted; `CookieDecides` is about the full-length ones.
- DtlsAuthentication.ConnectsOnlyOnFinished: does not say that a client has proved to hold its certificate's key, because the server does not ask that a CertificateVerify came before the Finished.
- DtlsRuns.HandshakeAgrees: does not promise completion when messages stay lost, because ChangeCipherSpec and Finished are not part of the retransmitted flight.
- DtlsConnectionObject.DtlsConnection.HandleRecord: a record that fails or closes the connection leaves the handshake fields unspecified, since it takes no more packets.
