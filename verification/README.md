# A verified model of the LAN chat and file transfer

The repository is a chat system for a local network: message codecs and a framed session layer over TCP, a server that
relays messages and arbitrates file transfers, and a client that cuts a file into blocks and rebuilds it. This project
models those parts in Dafny, in the form the C++ code has, and proves what holds over all inputs, runs and
interleavings. `dafny verify dfyconfig.toml` checks everything.

## How it is organised

Each component is written twice. A specification on values says what a step does; a class with the fields of the C++
class does it in place, and its methods' contracts equate the new abstract value with the specification applied to the
old one. The theorems are about the specification and hence about every method that refines it.

| file | content |
|---|---|
| `Bytes.dfy`, `Messages.dfy` | bytes, little-endian integers, C strings; the seven messages, their wire format, and the parser for the head of a receive buffer |
| `Framing.dfy` | the receiving half of a session: a sliding buffer of 1448 bytes, at most one message per `recv` |
| `MessageObjects.dfy`, `SessionBase.dfy` | the message classes over arrays, and the session class with its buffer and two queues |
| `ServerModel.dfy`, `Relays.dfy`, `TransferLock.dfy`, `Sessions.dfy` | the server as a state machine, and its theorems: queues and relays, the single-transfer lock and the start decision, the session automaton and the default names |
| `History.dfy` | the server without its data structures: connections, lock, statuses, names, states and queues from the events alone |
| `ChatServer.dfy` | the classes `Server`, `SessionData` and `SessionClient` refining that state machine |
| `ClientModel.dfy`, `Splitting.dfy`, `Reassembly.dfy`, `Polling.dfy` | the client: cutting, rebuilding, and the polling loop |
| `ClientHistory.dfy` | the client over whole runs: when it cuts blocks, what ends an offer, what it is called |
| `LoopHistory.dfy` | the polling loop over whole runs: a run of the client on the messages its stream holds |
| `SessionServer.dfy` | the client's session class refining them |
| `Chats.dfy` | chats from client to client: the relay composed with the byte streams at both ends |
| `Transfer.dfy`, `EndToEnd.dfy` | the composition of everything above into one system, and end-to-end file integrity |
| `Completion.dfy`, `Quiescence.dfy`, `Termination.dfy` | progress: exactly when a transfer can be carried through; and where nothing but blocks travels, that it ends, and ends with the file at the peer |
| `Disturbances.dfy` | what each assumption about a transfer is there for: what happens without it |
| `Negotiation.dfy` | from an offered file to the start of its transfer, and what the verdict to the sender is worth |
| `Refusal.dfy` | an offer that is refused, as frames on the links, and everything that comes later |

## The main results

* **A file arrives intact.** `EndToEnd.FileArrivesIntact`: over every run of the sender, the links in both directions, the
  server with all its sessions and the peer, with any cutting of the byte streams and any interleaving, the peer's file is
  at every moment the source up to the end of some block, and the source itself once the last block has been handled. The
  run starts with the go-ahead to the sender, which in a second transfer may come before the peer has read the request.
* **Exactly when a transfer can be carried through.** `Completion.ArrivalExactly`: a state such a run has reached, with
  whatever is in queues, on wires and half-received in buffers, can be continued to where the peer has the file if and
  only if the last block is behind the server, or the sender's program still runs, or it has written the last block and
  at least as many bytes are unread as messages are in front of the server up to that block
  (`Completion.DeadSenderExactly`: a `recv` takes at most one message off the buffer).
* **A transfer ends by itself.** `Termination.TransferTerminates`: where nothing but blocks travels, no run, whatever
  its order, its pieces and what else happens in between, makes more productive steps (cutting, writing, reading) than
  there is work at the start; and one is possible until the file has arrived, if the sender's program runs. So every run
  of productive steps ends, and ends with the file at the peer (`Termination.EveryMaximalRunArrives`), whatever the
  pieces (`Quiescence.QuietMeansArrived`).
* **It can start, and it can be lost.** `Negotiation.NegotiationEndsReady` gives the seven steps, as frames on the
  links, that lead from an offer by one of any number of sessions to a state from which all of this holds
  (`Negotiation.OfferedFileIsCertain`). `Negotiation.OfferedFileIsLost` continues them by four: the sender of a small
  file cuts its one block, a third session with a status from an earlier transfer answers late, the server repeats its
  go-ahead, and the sender's program ends on it with the block unsent; then the file can never arrive. A program ends
  exactly if it reads a go-ahead after it has cut the last block (`Disturbances.GoAheadEndsProgram`).
* **Chats arrive in order.** `Chats.ChatsReachReaders`: for every cutting of all byte streams and every run of the server,
  the chats a client reads are the first of those relayed to it, in order and under the names their authors had, and those
  of each author are in order some of the texts it has written. `Chats.RelaysAreQueued` says what is relayed;
  `Chats.AllChatsArrive` that, with everything read, an author's chats have all arrived exactly if none was refused.
* **The server is its history.** `History.LockIsHistory`, `History.SessionIsHistory` and `History.QueueIsHistory`: after every
  run from the start, who is connected, who holds the lock, and the status, name, state and queue of every session are what
  short definitions over the events alone say, replies, goodbyes and verdicts included. So whoever is told a verdict has an
  answer or a granted request from everybody who is connected, since each of them joined (`History.VerdictMeansAllSpoke`);
  each chat carries the last name its author had accepted (`Chats.ChatsCarryNames`), which is the name its client was told
  last (`ClientHistory.NameIsTold`, `ClientHistory.NameIsLastHeard`).
* **A refusal is kept.** `Refusal.OfferIsRefused` and `Refusal.RefuserGetsNothing`: the client whose user refuses says exactly
  that, and in every later run in which it neither accepts nor offers a file no block is queued for it and its files stay as
  they are. `ClientHistory.NothingBeforeGoAhead` and `ClientHistory.RefusalEndsOffer`: a sender cuts nothing before it is told
  to start, and nothing after it is refused.
* **The loop is a run of the client.** `LoopHistory.LoopIsRun` and `LoopHistory.LoopSends`: whatever `ppoll` reports, the
  client hears the messages the framing cuts out of the bytes read, each once and in order, and what is sent is the frames
  of the messages that leave its queue; so what holds over all runs of the client (`ClientHistory.dfy`) holds of its loop.
* **Sessions end as they should.** `Polling.LoopEnds` says exactly when the loop of a session ends;
  `Polling.ClosingWritesAll` that after a disconnection everything queued is written first. The end of the stream and bytes
  that are no header end the reading (`Framing.EndOfStreamFails`, `Framing.BadFrameFails`), and the loop with it
  (`Polling.FaultEndsLoop`), unless something is to be written, which hides it (`Polling.FaultIsNoticedLate`).
* **Framing refines decoding.** `Framing.RunRefinesDecode` holds for every byte stream, well-formed or not;
  `Framing.StreamIsDeliveredInOrder` for the streams `writeData` produces, with `Framing.RecvAlwaysHasRoom`: a `recv` of
  zero bytes, which would read as the end of the stream, is never asked for. Delivery is prompt exactly if a read does not
  complete more than one message (`Framing.PromptRead`; `Framing.SecondFrameWaits` is a read that does), and it always is
  on a stream of full frames (`Framing.FullFramesArePrompt`), which is what the blocks of a file are.
* **Every message round-trips**, whatever follows it and whatever the padding holds: `Messages.RoundTrip`. The bytes of one
  frame of each type are written out (`Messages.WireOfBlock` and its like), and `Messages.ExactlyTheseParse` says which bytes
  are a message.
* **Relays.** `Relays.ChatRelay`, `Relays.ChatsInOrder` and `Relays.FileRelay` say exactly what enters a session's queue
  over any run; `Relays.QueueConservation` that it leaves in the same order.
* **The transfer lock** always has a live owner (`TransferLock.LockIsOwned`). That it has exactly one is false of the
  code: a session that is not the sender can end the transfer (`TransferLock.ForeignEndBreaksLock` is such a run), and
  `TransferLock.ExactStep` proves that this is the only way, step by step, in both directions.
* **The start decision**, a loop with an early exit, equals its declarative form: `TransferLock.StartDecision`. The
  comment beside it promises the sender an Accept only if somebody who was asked said yes. That is false of the code:
  `Negotiation.RefusedButStarted` is a run in which everybody refuses and the sender is told to start, and
  `Negotiation.VerdictKeepsPromise` proves exactly when the verdict is the promised one.
* **The session automaton** accepts exactly one language of histories: `Sessions.ServerAcceptsLanguage`.
* **Splitting and reassembly** are inverse: `Splitting.SplitsInOrder`, `Reassembly.OrderDoesNotMatter`. With blocks lost,
  `Reassembly.LostBlocks` says exactly when the saved file is still the source.

## Modelling decisions

* A handler call, a join, a leave and the writing of one message are atomic steps, interleaved arbitrarily. `send` takes
  the whole frame; `recv` returns any piece that fits the free space, or nothing at the end of the stream.
* `long` has 64 bits, as on the 64-bit builds, and integers are little-endian. File sizes are below 2^63. The connection
  counter stays below 2^31, where the C++ `int` would overflow.
* A mark of a last block other than 0 and 1 reads as true, as compiled code has it; C++ does not define it.
* The three padding bytes behind `isLast` are a parameter of serialization, because the compiler may leave anything there.
* Length fields that point outside the frame or the receiving array are an outcome of their own, `Overrun`, at which the
  model's session stops. Most of them are undefined behaviour in C++. A file block whose size points past its frame but
  not past the received bytes is not: the source copies the bytes that follow and uses them up. The model excludes it by
  choice, because what such a block holds depends on how much happened to have been received.
* The outcome of opening a file, the user's answer to a file request, the results of `ppoll` and the verdict of the
  nickname check are parameters.
* Reading from a file opened with "w" yields neither bytes nor the end of the file, so a client that is told to start
  sending while its handle is open for writing emits blocks of its stale buffer. The model does that too.
* The comment at `src/server/server.cpp:393-394` says that at least one client must have agreed. The code looks at the
  status of everybody but the responder, the requesting session's own Accept included; the model follows the code.
* On leaving, the cancel statuses go to the departing client, once per peer, as the code has it
  (`src/server/server.cpp:512`).
* No proof relies on automatic induction: every inductive lemma spells its induction out.
* Sessions are keyed by the address of the session object, in whose order `std::map` iterates. C++ inheritance is a field
  `base`. Where a C++ method is long, its Dafny counterpart is split into several small methods.
* Ghost fields record every message parsed and written; subset types bound queues and buffers; the server's ghost field
  `model` is its abstract value.

## Model

| member | source | states |
|---|---|---|
| EndToEnd.FileArrivesIntact | src/client/sessionserver.cpp:184-329 | For every file, every cutting of the streams and every allowed interleaving from the go-ahead on, whether or not the peer has read the request by then, the peer never aborts, its file is always a whole number of blocks of the source, and it equals the source once the last block was handled. |
| EndToEnd.StepKeeps | src/server/server.cpp:238-286 | Each single step of sender, links, server or peer keeps the invariant that saved blocks, blocks behind the server, blocks in front of it and blocks queued are together the blocks cut so far, in order, or completes the file. |
| EndToEnd.ServerStep | src/server/sessionclient.cpp:44-161 | During a transfer any server step gives the peer only harmless messages and exactly the sender's block, if that is what was handled, and the lock stays with the sender until its last block. |
| EndToEnd.SenderIsToldGently | src/server/server.cpp:338-410 | During a transfer no server step tells the sender anything that changes it: at most that it may start, which it already knows. |
| EndToEnd.BothKeepAccepting | src/server/sessionclient.cpp:78-153 | Until the last block the sender alone holds the lock, and it and the peer stay in Accept status. |
| EndToEnd.HearsGently | src/client/sessionserver.cpp:78-109 | What a sender is told ends its program exactly if it is a go-ahead after the last block was cut, and otherwise leaves its transfer and its queue alone. |
| EndToEnd.InvariantHolds | src/common/sessionbase.cpp:187-286 | The invariant holds after every allowed run, until the peer has the file. |
| Completion.ArrivalExactly | src/common/sessionbase.cpp:187-286 | A state reached by an allowed run can be continued to where the peer has the file if and only if the last block is behind the server, or the sender still runs, or no block is in its queue and at least as many bytes are unread as messages are in front of the server up to the last block. |
| Completion.ArrivalStaysPossible | src/common/sessionbase.cpp:187-286 | Every allowed run can be continued, by what client programs do, to where the peer has the file, if the sender still runs, the last block is behind the server, or it is written with bytes enough. |
| Quiescence.QuietMeansArrived | src/common/sessionbase.cpp:289-342 | In every run in which nothing but blocks travels towards the peer, the file has arrived as soon as nothing is left to cut, to write or to read, for every cutting of the streams. |
| Termination.TransferTerminates | src/common/sessionbase.cpp:187-286 | In every run in which nothing but blocks travels there are at most as many productive steps as there is work at the start, and one is possible, which keeps it so, until the file has arrived or the sender's program has ended. |
| Termination.EveryMaximalRunArrives | src/common/sessionbase.cpp:187-286 | Every run of productive steps from a start with nothing but blocks on the way is allowed and no longer than the work; and if no productive step is left, the file has arrived. |
| Termination.GoingOn | src/client/sessionserver.cpp:184-329 | Each productive step leaves less work and nothing but blocks on the way, no other step leaves more work, and a whole block never waits in a buffer. |
| Disturbances.ForeignBlockSpoils | src/server/server.cpp:252-285 | A last block of a session that is not the sender is relayed to an accepting peer and ends its transfer with a file that is not the source. |
| Disturbances.DepartureStrands | src/server/server.cpp:486-524 | Once the sender has left, no peer gets a block any more in any run in which nobody else sends blocks. |
| Disturbances.DepartureDrops | src/server/server.cpp:515-519 | A block in the queue of a departing peer is lost: if the peer joins again, it is never written to it in any run in which nobody sends that block once more. |
| Disturbances.BlockIsLost | src/server/server.cpp:264-278 | A block reaches a peer exactly if the peer accepts and its queue has room at that moment. |
| Disturbances.WithdrawalStrands | src/server/sessionclient.cpp:88-102 | A peer that answers Reject during a transfer gets no further block in any run in which it neither accepts nor offers a file again. |
| Disturbances.RequestEndsTransfer | src/server/sessionclient.cpp:121-129 | A request during a transfer is answered with the cancel status; a client that is sending never cuts and never saves a block after it, and any other ends its program. |
| Disturbances.PeerCannotOpen | src/client/sessionserver.cpp:309-321 | A peer that cannot open its file at the first block saves nothing, whichever blocks follow. |
| Disturbances.SenderCannotOpen | src/client/sessionserver.cpp:191-204 | A sender that cannot open its file never cuts a block, whatever its cycles and its queue do later. |
| Disturbances.GoAheadEndsProgram | src/client/sessionserver.cpp:78-88 | During a transfer the sender's program ends exactly if it reads a go-ahead after it has cut the last block. |
| Disturbances.LateAnswerEndsProgram | src/server/server.cpp:338-410 | Once the sender has cut all its blocks and nobody else is in Canceled status, another answer of the peer or of a third session, the server's go-ahead to the sender and its reading are three steps after which the program has ended, with whatever is in its queue. |
| Disturbances.LateAnswerLosesFile | src/client/sessionserver.cpp:78-88 | From the start of the transfer of a one-block file, the cutting of that block and those three steps lead to where it is in the queue of the ended program and the file can never arrive. |
| Completion.DeadSenderStrands | src/client/sessionserver.cpp:78-88 | If a sender whose program ended left a block in its queue, or too few bytes behind the last block, no run brings the file to the peer. |
| Completion.DeadSenderExactly | src/common/sessionbase.cpp:289-342 | The file of such a sender can still arrive if and only if no block was left in its queue and at least as many bytes are unread as messages are in front of the server up to the last block. |
| Negotiation.OfferedFileArrives | src/client/sessionserver.cpp:333-339 | From an offer by one of any number of sessions, when of the others only the peer has not answered, or only another one and the peer is in Accept status, steps of client programs lead to the start of the transfer, from which the file can be received byte for byte. |
| Negotiation.OfferedFileIsCertain | src/common/sessionbase.cpp:187-286 | After the negotiation every run of cutting, writing and reading, in any order and in any pieces, is finite, and when nothing is left to do the file is at the peer. |
| Negotiation.OfferedFileIsLost | src/server/server.cpp:356-407 | From an offer of a one-block file, the seven steps of the negotiation lead to the start of the transfer, and then four steps, of which the late answer of a third session is one, to where the sender has ended its program with the block unsent and the file can never arrive. |
| Negotiation.NegotiationEndsReady | src/server/server.cpp:290-410 | Seven steps, request, relayed copy and verdict as frames on the links, and the answer handled by the server, lead both clients and the server to the state from which end-to-end integrity is proved. |
| Negotiation.StaleAcceptStarts | src/server/sessionclient.cpp:147-151 | Where the peer's Accept is from an earlier transfer, the last missing answer, whatever it is, starts the transfer while the request is still in the peer's queue. |
| Negotiation.VerdictGrants | src/server/server.cpp:338-410 | In every run from the start in which only the sender ends its transfer, with any number of sessions: whoever is told something in response to another session's status holds the lock alone, before and after. |
| Negotiation.RequestOpens | src/server/server.cpp:290-334 | A request takes the lock, marks its session as accepting sender, reaches everybody else who has room, and changes nothing else. |
| Negotiation.ResponseOpens | src/server/server.cpp:356-407 | When the last of the others responds, whatever it answers, an accepting sender is told to start and nobody else is told anything. |
| Negotiation.PeerAccepts | src/client/sessionserver.cpp:135-146 | A client that reads the copy of a request and whose user accepts answers so and waits for the first block under the chosen path. |
| Refusal.RefusalIsSaid | src/client/sessionserver.cpp:135-146 | A client whose user refuses an offer queues exactly one Reject status, expects no file and leaves its files alone, whatever name was typed. |
| Refusal.OfferIsRefused | src/client/client.cpp:330-333 | From an offer, five steps with frames on the links: the peer reads the copy and refuses, has queued exactly the Reject status, and the server holds Reject for it. |
| Refusal.RefuserGetsNothing | src/server/server.cpp:264-278 | In every later run in which that client neither accepts nor offers a file, no block is queued for it and its files stay as they are, whatever the others do. |
| Negotiation.SenderStarts | src/client/sessionserver.cpp:78-88 | The client that reads the go-ahead for its request is about to cut its first block. |
| Negotiation.VerdictKeepsPromise | src/server/server.cpp:372-407 | The verdict is the one the comment promises if and only if a third session accepts, or the answer and the sender's own status agree. |
| Negotiation.RefusedButStarted | src/server/server.cpp:393-407 | A concrete run in which the only session asked refuses and the sender is told to start. |
| Negotiation.PeerSeesOffer | src/server/server.cpp:307-327 | The peer gets a request with the bare name of the file and the name of the session offering it. |
| Messages.RoundTrip | src/common/sessionbase.cpp:77-178 | Parsing a written frame followed by any bytes gives the message back and uses up exactly the frame, for all seven types and any padding. |
| Messages.CutFrameWaits | src/common/sessionbase.cpp:118-122 | A proper prefix of a frame that contains the header is neither refused nor taken for a message. |
| Messages.VerdictIsFinal | src/common/sessionbase.cpp:101-183 | What the parser decides about the head of the buffer never changes with bytes that arrive later, for every byte sequence. |
| Messages.KindOfCommand | src/common/messages/message.cpp:51-70 | The seven commands are told apart by their zero-padded four header bytes: each is found as its own type. |
| Messages.KindExactly | src/common/sessionbase.cpp:89-98 | A type is found if and only if the four bytes of the header, up to the first NUL, are its command. |
| Messages.WireOfGreetings | src/common/messages/message.cpp:56-58 | The eight bytes of the frames without payload. |
| Messages.WireOfStatus | src/common/errors.h:34-39 | The twelve bytes of five status frames: the code, lowest byte first. |
| Messages.WireOfName | src/common/messages/message.cpp:57 | The 45 bytes of a name frame. |
| Messages.WireOfChat | src/common/messages/chatmessage.cpp:114-123 | The bytes of a chat frame with a size and a length of two bytes each. |
| Messages.WireOfRequest | src/common/messages/filetransfermessage.cpp:105-113 | The 108 bytes of a request frame. |
| Messages.WireOfBlock | src/common/messages/filedatamessage.cpp:122-131 | The bytes of a block frame: offset, mark, padding, length and data at their positions. |
| Messages.ExactlyTheseParse | src/common/sessionbase.cpp:101-164 | Which bytes are a message, which wait for more and which are no header, as conditions on command, announced size and length field. |
| Messages.BytesRoundTrip | src/common/messages/filedatamessage.cpp:60-76 | Whatever bytes are read as a message, the payload of that message is those bytes again, but that any mark of a last block other than zero reads as one. |
| Messages.Parse | src/common/sessionbase.cpp:77-183 | A parsed message is well-formed, and the bytes used up are the header and its own recomputed size, within the buffer. |
| Messages.DecodeBody | src/common/sessionbase.cpp:128-164 | Decoding a payload yields a well-formed message of the announced type that fits the received bytes, or refuses it. |
| Messages.Body | src/common/messages/filedatamessage.cpp:113-131 | A serialized payload has `size()` bytes and fits the largest packet. |
| Messages.NicknameSurvives | src/common/messages/nicknamemessage.cpp:59-72 | A name of up to 36 bytes is read back from the wire unchanged. |
| Messages.ChatSurvives | src/common/messages/chatmessage.cpp:46-110 | Text shorter than 1024 bytes and the sender's name are read back unchanged. |
| Messages.FileRequestSurvives | src/common/messages/filetransfermessage.cpp:45-94 | A path of up to 64 bytes and the sender's name are read back unchanged. |
| Bytes.FieldKeepsString | src/common/messages/chatmessage.cpp:94-101 | Copying a string into a zeroed field with `strncpy` and reading it back can only truncate it. |
| Bytes.BaseName | src/server/server.cpp:308 | The base name is the part of the path behind its last slash. |
| Bytes.Int64RoundTrip | src/common/messages/filedatamessage.cpp:60-77 | A signed offset survives its eight little-endian bytes. |
| Bytes.DigitsRoundTrip | src/common/sessionbase.cpp:84-85 | Bytes read as an integer and written again are the same bytes, so the order of the digits is fixed. |
| Framing.ReadPreservesDecoding | src/common/sessionbase.cpp:289-342 | One read of arbitrary bytes loses, repeats and invents nothing, relative to decoding the whole stream. |
| Framing.RunRefinesDecode | src/common/sessionbase.cpp:289-342 | For any bytes in any pieces, the messages delivered followed by those still decodable from buffer and unread bytes are the decoding of the whole stream. |
| Framing.RunIsMonotone | src/common/sessionbase.cpp:338-357 | Reads take no delivery back, deliver at most one message each, and never outgrow the buffer. |
| Framing.DeliveredIsPrefix | src/common/sessionbase.cpp:289-342 | What a fresh session has delivered is a prefix of the decoding of all bytes, now or later. |
| Framing.DecodeUndoesStream | src/common/sessionbase.cpp:375-421 | Decoding the bytes `writeData` sends gives exactly the messages written, with nothing left over. |
| Framing.ReadOnStream | src/common/sessionbase.cpp:289-342 | On a well-formed stream a read makes no error, delivers at most the next message, and leaves free space in the buffer. |
| Framing.StreamIsDeliveredInOrder | src/common/sessionbase.cpp:77-342 | Over whole runs on a well-formed stream exactly the first messages written have been delivered, in order, and buffer and unread bytes hold exactly the frames of the others. |
| Framing.RecvAlwaysHasRoom | src/common/sessionbase.cpp:293-309 | After any such run the next `recv` asks for at least one byte: no false end of stream. |
| Framing.SecondFrameWaits | src/common/sessionbase.cpp:323-339 | Of two whole frames received at once only the first is delivered; the second waits for a further read. |
| Framing.PromptRead | src/common/sessionbase.cpp:323-339 | A read leaves a whole message waiting if and only if it completed more than one. |
| Framing.FullFramesArePrompt | src/common/sessionbase.cpp:289-342 | A stream of full frames and a last one of any length has been delivered completely, with an empty buffer, once all its bytes are received, for every cutting. |
| Framing.BarrierIsPermanent | src/common/sessionbase.cpp:156-164 | Once a payload is refused no later bytes lead to a delivery, every byte stays in the buffer, and the session fails at the end of the stream and not before. |
| Framing.BarrierFails | src/common/sessionbase.cpp:293-301 | A barred session can receive no more than its free space, and then the next read is an error. |
| Framing.EndOfStreamFails | src/common/sessionbase.cpp:298-302 | Every run that contains a read of nothing ends there, failed, with exactly what the pieces before it deliver and leave in the buffer. |
| Framing.BadFrameFails | src/common/sessionbase.cpp:102-182 | On a stream of packets followed by a frame that is refused, a read fails if and only if all packets were delivered before it and it completes a header that is none or a frame that points outside itself; a refused payload is no error. |
| Framing.BadFrameFailsAtLast | src/common/sessionbase.cpp:332-336 | So over whole runs such a session delivers only messages in front of the bad frame, and all of them if it has failed. |
| SessionBase.SessionBase.ParseMessage | src/common/sessionbase.cpp:77-183 | The method on the array takes off exactly the message the parser finds at the head and moves the rest to the front, and changes nothing otherwise. |
| SessionBase.SessionBase.FindKind | src/common/sessionbase.cpp:89-99 | The command loop finds a matching type, or there is none. |
| SessionBase.SessionBase.Make | src/common/sessionbase.cpp:128-164 | A new object of the announced type decodes the payload as the wire format says. |
| SessionBase.SessionBase.Shift | src/common/sessionbase.cpp:166-178 | The bytes behind the message become the start of the buffer, and zeros fill its end. |
| SessionBase.SessionBase.ReadData | src/common/sessionbase.cpp:289-342 | A read refines the framing step; the receive queue then holds just the new message, if any. |
| SessionBase.SessionBase.ReceiveMessage | src/common/sessionbase.cpp:346-357 | A message is taken from the back of the receive queue. |
| SessionBase.SessionBase.SendMessage | src/common/sessionbase.cpp:361-370 | It succeeds exactly when `canSendMessages` says so, and then the message is last in the queue. |
| SessionBase.SessionBase.WriteData | src/common/sessionbase.cpp:375-421 | The front message leaves the queue and its frame is what `send` is given; accepted messages stay written ones plus the queue. |
| SessionBase.SessionBase.constructor | src/common/sessionbase.cpp:37-43 | A new session has an empty buffer, empty queues and is connected. |
| MessageObjects.StatusMessage.FromRawBytes | src/common/messages/statusmessage.cpp:50-64 | Accepts exactly four bytes, and decodes them as the wire format says. |
| MessageObjects.StatusMessage.ToRawBytes | src/common/messages/statusmessage.cpp:75-84 | Produces the payload of the message's value. |
| MessageObjects.NicknameMessage.SetNickName | src/common/messages/nicknamemessage.cpp:66-72 | Leaves the truncated, zero-padded and terminated name in the array. |
| MessageObjects.NicknameMessage.FromRawBytes | src/common/messages/nicknamemessage.cpp:43-55 | Accepts exactly 37 bytes, and decodes them as the wire format says. |
| MessageObjects.NicknameMessage.ToRawBytes | src/common/messages/nicknamemessage.cpp:83-90 | Produces the payload of the message's value. |
| MessageObjects.FileTransferMessage.FromRawBytes | src/common/messages/filetransfermessage.cpp:45-58 | Accepts at least 100 bytes and decodes the first 100. |
| MessageObjects.FileTransferMessage.SetFileName | src/common/messages/filetransfermessage.cpp:76-83 | Leaves the truncated and zero-padded path in the array. |
| MessageObjects.FileTransferMessage.ToRawBytes | src/common/messages/filetransfermessage.cpp:105-113 | Produces the payload of the message's value. |
| MessageObjects.ChatMessage.SetMessage | src/common/messages/chatmessage.cpp:85-90 | The stored size is the length of the text, cut at 1024 bytes, and the array holds it. |
| MessageObjects.ChatMessage.SetSender | src/common/messages/chatmessage.cpp:94-101 | Leaves the truncated and zero-padded name in the array. |
| MessageObjects.ChatMessage.FromRawBytes | src/common/messages/chatmessage.cpp:46-67 | Accepts exactly 40 bytes and the announced text, and decodes them as the wire format says. |
| MessageObjects.ChatMessage.ToRawBytes | src/common/messages/chatmessage.cpp:114-123 | Produces the payload of the message's value. |
| MessageObjects.FileDataMessage.SetBuffer | src/common/messages/filedatamessage.cpp:95-102 | The message holds a copy of the bytes in an array of its own. |
| MessageObjects.FileDataMessage.FromRawBytes | src/common/messages/filedatamessage.cpp:60-77 | Accepts at least 16 bytes and takes as many data bytes as its own size field says. |
| MessageObjects.FileDataMessage.ToRawBytes | src/common/messages/filedatamessage.cpp:122-131 | Produces the payload of the message's value, whatever the padding. |
| Relays.QueueIsBounded | src/common/sessionbase.cpp:361-370 | Over every run no outbound queue of the server outgrows 41 messages. |
| Relays.QueueConservation | src/common/sessionbase.cpp:361-390 | Over every run, what was queued and accepted is what was written followed by what is queued: first in, first out, nothing lost. |
| Relays.OtherQueue | src/server/sessionclient.cpp:44-161 | Handling a message that is no status changes another session in nothing but the relayed copy at the end of its queue. |
| Relays.GainIs | src/server/sessionclient.cpp:44-161 | A session's own messages, and statuses of others, put only names, statuses and goodbyes into its queue. |
| Relays.ChatRelay | src/server/server.cpp:197-234 | Over every interleaving, the chats of one session queued for another are exactly those it had room for, in order, each under the name the author had when it was handled; nobody gets a chat of their own back. |
| Relays.ChatsInOrder | src/server/server.cpp:197-234 | Their texts are a subsequence of the texts received, and equal to all of them if and only if none was refused. |
| Chats.RelaysAreQueued | src/server/server.cpp:197-234 | Over every run, the chats that enter a session's queue are exactly the copies of the chats of others handled while it had room, in the order of their handling over all authors, each under the name its author had then. |
| Chats.ChatsCarryNames | src/server/sessionclient.cpp:70-72 | In every run each relayed chat carries the last free name its author had asked for since it joined, or its default name, computed from the events alone. |
| Chats.RelaysInOrder | src/server/server.cpp:197-234 | Over every run, the texts of one author among them are, in order, some of those the server handled of that author, and all of them if and only if no chat of that author was refused; none is the reader's own. |
| Chats.ChatsReachReaders | src/common/sessionbase.cpp:289-342 | For every cutting of all byte streams and every run of the server, the chats a client reads are the copies of the first of those relayed to it, and those of each author are, in order, some of the texts the author's client has written. |
| Chats.AllChatsArrive | src/common/sessionbase.cpp:361-421 | Where everything is handled, written and read, a client has read all copies relayed to it, and of another author every text written if and only if the queue never refused one. |
| Relays.FileRelay | src/server/server.cpp:252-279 | Over every run, the blocks queued for a session are exactly those of others handled while it was in Accept status with room, in order and unchanged. |
| TransferLock.LockStep | src/server/server.cpp:238-333 | For every step: who is marked as sender afterwards, and whether the lock is held. |
| TransferLock.LockIsOwned | src/server/server.cpp:486-515 | In every reachable state an active transfer has a connected sender. |
| TransferLock.ExactStep | src/server/server.cpp:281-285 | A step loses the property that active means exactly one sender if and only if a session that is not the sender ends the transfer. |
| TransferLock.LockIsExact | src/server/server.cpp:238-333 | In runs without such a step the lock is active exactly while one session is its sender, across joins, leaves and refused requests. |
| TransferLock.ForeignEndBreaksLock | src/server/server.cpp:281-285 | A concrete run of four events after which the transfer is over while its sender is still marked. |
| TransferLock.StartDecision | src/server/server.cpp:338-410 | A verdict goes out if and only if nobody else is in Canceled status and somebody else is a sender; one, to a sender, Accept exactly if somebody else accepts; then nobody is in Canceled status. |
| TransferLock.VerdictNeedsEverybody | src/server/sessionclient.cpp:90-102 | Over runs from the start, a session gets a status out of another's message only as the sender of the active transfer, with every session in Accept or Reject status. |
| TransferLock.AnswersAlways | src/server/sessionclient.cpp:78-153 | In every reachable state each session's status is Accept, Reject or Canceled. |
| History.LockIsHistory | src/server/server.cpp:238-334 | After every run from the start, the sessions are those that joined and have not left, the marked senders those with a granted request and neither a last block since nor a departure, and the lock is held from a granted request to anybody's last block or a marked sender's departure. |
| History.SessionIsHistory | src/server/sessionclient.cpp:28-158 | After every run from the start, each session's status is its last answer during a transfer, Accept since its last granted request, or Canceled since its last block or its join; its name the last free one it asked for, cut at 35 bytes, or "User " and the number of its join; its state the one its state messages lead to. |
| History.QueueIsHistory | src/server/sessionclient.cpp:44-172 | After every run from the start, each session's queue is what the events since its join make it: the reply to each of its messages, a goodbye when its state messages leave the language, copies of the others' chats, requests and blocks, and verdicts, each if at most 40 messages were queued, less what was written. |
| History.VerdictMeansAllSpoke | src/server/server.cpp:356-407 | Whenever a session is told something in response to somebody else's status, every connected session has, since it joined, answered during a transfer or had a request granted, and sent no last block after that. |
| Sessions.AutomatonLanguage | src/server/server.cpp:95-153 | The state check refuses nothing if and only if the state messages are nothing, or HELLO and then names, with an optional BYE at the end; the state is then the one the word determines. |
| Sessions.InvalidAbsorbs | src/server/server.cpp:123-148 | The invalid state is never left, and refuses every further state message. |
| Sessions.SessionFollowsWord | src/server/server.cpp:95-153 | Whatever else the server handles, a session's state is what its own state messages lead to, and it was disconnected exactly if one was refused. |
| Sessions.ServerAcceptsLanguage | src/server/server.cpp:67-153 | From its join on, a session stays connected exactly as long as its history is in that language. |
| Sessions.DefaultNamesAreDistinct | src/server/server.cpp:67-82 | No two sessions ever added in a run get the same default name. |
| Sessions.DefaultNameIsKept | src/server/sessionclient.cpp:190-194 | The truncation of `setNickName` leaves a default name alone. |
| Sessions.DecimalRoundTrip | src/server/server.cpp:67-82 | The digits of a default name, highest first, are those of its number. |
| ChatServer.Server.AddSession | src/server/server.cpp:67-91 | A new session with the next number, its default name and status Canceled is registered; the others are unchanged. |
| ChatServer.Server.RemoveSession | src/server/server.cpp:486-524 | The session is gone, and the lock with it if it was the sender's; the others are untouched, and the departing sender's own queue gets the cancel statuses. |
| ChatServer.Server.CancelTransfer | src/server/server.cpp:497-514 | The loop puts a cancel status into the departing client's queue for every other session, and into no other queue. |
| ChatServer.Server.CountCancels | src/server/server.cpp:502-513 | That is one status per other session, as far as the queue has room. |
| ChatServer.Server.CheckSessionStateChange | src/server/server.cpp:95-153 | Refines the automaton: the state moves, or the client is disconnected and its state is unchanged. |
| ChatServer.Server.ClientSentChatMessage | src/server/server.cpp:197-234 | The loop over the map queues a copy for everybody but the author, and fails exactly for an author who is alone. |
| ChatServer.Server.ClientSentFileData | src/server/server.cpp:238-286 | The loop queues the block for everybody else in Accept status; a last block clears the sender mark and the lock. |
| ChatServer.Server.ClientSentFileTransferRequest | src/server/server.cpp:290-334 | Takes the lock, marks the sender and queues the request for everybody else, unless the session is alone. |
| ChatServer.Server.Survey | src/server/server.cpp:356-386 | The loop with the early exit finds out whether anybody else is in Canceled status, and if not, whether anybody else accepts and which other sender comes last. |
| ChatServer.Server.ClientSentFileTransferResponse | src/server/server.cpp:338-410 | Sends exactly the verdict of the declarative decision. |
| ChatServer.SessionClient.Handle | src/server/sessionclient.cpp:46-158 | Handling one message refines the step of the state machine. |
| ChatServer.SessionClient.AvailableMessages | src/server/sessionclient.cpp:44-161 | The loop over the stack-like receive queue handles its message, if there is one, and leaves the queue empty. |
| ChatServer.SessionClient.ReadData | src/common/sessionbase.cpp:289-342 | The bytes a session of the server receives refine the framing step, and lead to at most one step of the server: the handling of the message they complete. It gives back all it asks for, so reads can follow one another. |
| ChatServer.SessionClient.WriteData | src/common/sessionbase.cpp:375-421 | Writing is the step of the server that takes the front message off the session's queue, and sends its frame; with an empty queue it is no step and sends nothing. |
| ChatServer.SessionClient.Disconnect | src/server/sessionclient.cpp:165-172 | A goodbye is queued the first time only. |
| ChatServer.SessionClient.SetNickName | src/server/sessionclient.cpp:190-194 | The first 35 bytes of the name are kept. |
| ClientModel.BlocksTile | src/client/sessionserver.cpp:215-244 | The payloads of the first blocks put together are the file up to where the last of them ends. |
| ClientModel.AllBlocks | src/client/sessionserver.cpp:206-244 | All floor(n/1424)+1 blocks give the whole file, and only the final one is marked last. |
| ClientModel.BlockSizes | src/client/sessionserver.cpp:209-236 | Every block but the final one is full, each begins where the one before it ends, and the final one is empty if and only if 1424 divides the size. |
| ClientModel.Overwrite | src/client/sessionserver.cpp:323-324 | Writing behind the end of a file zero-fills the gap; every byte of the result is the new one, the old one or zero. |
| Splitting.CycleSendsNext | src/client/sessionserver.cpp:184-247 | A cycle with room queues exactly the next block; without room it reads nothing. |
| Splitting.SplitsInOrder | src/client/sessionserver.cpp:184-247 | Over any run of cycles, writes and other messages, the cycles queue exactly the first blocks of the file, each once and in order, and end the transfer after the last. |
| Splitting.TurnSendsNext | src/common/sessionbase.cpp:56-59 | After a write the queue always has room, so a turn of the loop queues one more block. |
| ClientHistory.NothingBeforeGoAhead | src/client/sessionserver.cpp:186-189 | A client that has not been told to start cuts no block, whatever it offers, says, hears and does, until it is told. |
| ClientHistory.RefusalEndsOffer | src/client/sessionserver.cpp:87-106 | A client whose offer is refused or canceled goes on with all transfer fields reset, and cuts no block any more until its user offers a file again, and not before a new go-ahead. |
| ClientHistory.UnaskedVerdictEndsProgram | src/client/sessionserver.cpp:76-106 | A verdict ends the program of a client that offers nothing, and Accept or Reject that of one that offers a file without a name. |
| ClientHistory.OnlyVerdictsEndProgram | src/client/sessionserver.cpp:57-173 | No other message ends the program, and no verdict on a named offer. |
| ClientHistory.OfferNamesItsFile | src/client/sessionserver.cpp:333-339 | For a path of any length, the path in the request is the path that will be opened: the first 64 bytes. |
| ClientHistory.AnswerRetargetsOffer | src/client/sessionserver.cpp:135-146 | A client that answers a file request, with yes or no, while its own offer is open sends, once it is told to start, the file named in the answer. |
| ClientHistory.OpensOnce | src/client/sessionserver.cpp:191-209 | The file is opened at the first cycle after the go-ahead, with room in the queue or without; whether it could still be opened makes no difference in any run up to the next go-ahead. |
| ClientHistory.SharedHandleNeverEnds | src/client/sessionserver.cpp:191-246 | A client that is told to start while it has a file open for writing sends full blocks of stale bytes with growing offsets, none of them the last, over any run of cycles and writes. |
| ClientHistory.SharedHandleSavesNothing | src/client/sessionserver.cpp:309-326 | A client that receives while it has a file open for reading saves nothing and moves its reading position. |
| ClientHistory.BufferHolds | src/client/sessionserver.cpp:215-228 | While a file is cut and when its last block is out, the block buffer holds the bytes of the block cut last and, behind them, those of the block before: nothing clears it. |
| ClientHistory.BadOffsetAppends | src/client/sessionserver.cpp:325-326 | A block whose offset cannot be sought to is saved behind the one before it. |
| ClientHistory.OffsetsWrap | src/client/sessionserver.cpp:236 | The offset of a block equals that in the file modulo 2^64. |
| ClientHistory.NameIsLastHeard | src/client/sessionserver.cpp:114-124 | Over every run a client is called what it has heard last, cut at 35 bytes. |
| ClientHistory.NameIsTold | src/server/sessionclient.cpp:53-76 | After every run of the server, the last name it has sent a session that has said hello is the name that session has in the server. |
| Reassembly.OrderDoesNotMatter | src/client/sessionserver.cpp:302-329 | If every other block arrives at least once, in any order and with any repetition, and the final one last, the saved file is the source. |
| Reassembly.LostBlocks | src/client/sessionserver.cpp:302-329 | With blocks in any order, repeated or missing, and then the final block, the saved file is the source if and only if the missing bytes are zeros and none of them is the last; if blocks do not fill the file, if and only if they are zeros. |
| Reassembly.NextInOrder | src/client/sessionserver.cpp:148-165 | Saving the next block extends the saved file to the end of that block, and the final one completes it. |
| Polling.LoopCompletesTransfer | src/common/sessionbase.cpp:212-281 | On a writable socket each iteration of the loop writes a message and queues the next block, without an error. |
| Polling.LoopEndsOnTime | src/common/sessionbase.cpp:212-281 | The transfer has ended if and only if as many iterations have passed as the file had blocks left. |
| Polling.GoAheadQueuesFirstBlock | src/client/sessionserver.cpp:78-88 | The iteration that reads the server's go-ahead also queues the first block, so the loop never waits with an empty queue. |
| Polling.LoopEnds | src/common/sessionbase.cpp:210-212 | The loop makes its iterations until the first time that there is an error, the program has ended, or the session is closing with an empty queue, and not one more. |
| Polling.ClosingWritesAll | src/common/sessionbase.cpp:210-281 | After a disconnection the loop writes the frames of the whole queue in order, one an iteration, adds nothing, and ends without an error. |
| Polling.GoodbyeIsSent | src/client/sessionserver.cpp:270-277 | So a client that leaves with room in its queue sends everything it has queued, and its goodbye last. |
| Polling.FaultEndsLoop | src/common/sessionbase.cpp:249-280 | A read of nothing, or an error condition, ends the loop at once with an error if nothing is to be written, whatever the buffer holds. |
| Polling.FaultIsNoticedLate | src/common/sessionbase.cpp:264-276 | A session with something to write writes its whole queue first, because the result of the write replaces the error, and then ends with it. |
| Polling.ReadHidesCondition | src/common/sessionbase.cpp:249-267 | An error condition makes no difference in an iteration in which there is something to read. |
| Polling.TimeoutsDoNothing | src/common/sessionbase.cpp:237-242 | A timeout changes nothing about the loop. |
| LoopHistory.LoopIsRun | src/common/sessionbase.cpp:210-281 | Whatever `ppoll` reports, the loop is a run of the client: it hears the messages that the bytes read make, each once and in order, writes and cycles in between, and ends where that run ends; the session is closing if it was before or there was an error. |
| LoopHistory.LoopSends | src/common/sessionbase.cpp:375-421 | What a loop sends is the frames of the messages that leave the queue in that run, in order. |
| SessionServer.SessionServer.constructor | src/client/sessionserver.cpp:29-41 | A new session has HELLO queued and no transfer. |
| SessionServer.SessionServer.FillBlock | src/client/sessionserver.cpp:215-228 | The byte-wise loop leaves the next up to 1424 bytes in the buffer, and reports the end exactly if there are fewer. |
| SessionServer.SessionServer.Cycle | src/client/sessionserver.cpp:184-247 | Refines the cycle on values. |
| SessionServer.SessionServer.DisableFileTransferMode | src/client/sessionserver.cpp:251-266 | Closes the file and resets offset, modes and name. |
| SessionServer.SessionServer.SendFile | src/client/sessionserver.cpp:333-339 | Enters sending mode and queues the request. |
| SessionServer.SessionServer.SaveData | src/client/sessionserver.cpp:302-329 | Refines seek-and-write on values. |
| SessionServer.SessionServer.HandleStatus | src/client/sessionserver.cpp:59-112 | The statuses of a transfer start it, end it, or abort the program, as on values. |
| SessionServer.SessionServer.Handle | src/client/sessionserver.cpp:52-173 | Handling one message refines the client's step, including the statuses that abort the program. |
| SessionServer.SessionServer.AvailableMessages | src/client/sessionserver.cpp:52-173 | The loop over the stack-like receive queue handles its message, if there is one, and leaves the queue empty. |
| SessionServer.SessionServer.Disconnect | src/client/sessionserver.cpp:270-277 | A goodbye is queued the first time only. |
| SessionServer.SessionServer.PollOnce | src/common/sessionbase.cpp:221-280 | One iteration refines the one on values: read, write, then close or cycle. |
| SessionServer.SessionServer.PollForData | src/common/sessionbase.cpp:187-286 | The loop refines the one on values, with its exits on an error and on a written-out disconnection. |

## Left out

- EndToEnd.FileArrivesIntact: starts with the go-ahead read by the sender, the peer in Accept status, and the request read and accepted or the only one on its way. It assumes that the peer accepts it, can open its file and stays connected, and, until the server has handled the last block, that the sender can open its file, cuts no other file's blocks, stays connected and neither requests nor refuses, that only it sends blocks, that the peer neither withdraws nor requests, and that the peer's queue has room when a block is relayed to it. `Disturbances.dfy` says what such steps do to a transfer. The peer's own messages to the server are steps of the server, not frames on a link.
- Completion.ArrivalExactly: existence of a completing continuation; that runs do complete is proved where nothing but blocks travels (`Termination.dfy`). The continuation may use a request for a name by the sender or the peer, to push a waiting frame out of a buffer, and a session that the server has disconnected is taken to stay until it leaves.
- Termination.TransferTerminates: for runs in which the sender queues nothing but blocks, nothing else is sent to the peer, and nobody else sends blocks. With other messages a frame may wait in a buffer behind another one until a further byte comes (`Framing.SecondFrameWaits`).
- Chats.ChatsReachReaders: starts where the reader's queue is empty and the byte streams are fresh.
- Messages.DecodeBody: stops at a file block whose size field points past its frame but not past the received bytes, where the source copies the bytes that follow.
- MessageObjects.FileDataMessage.FromRawBytes: the same.
- MessageObjects.ChatMessage.SetMessage: for a text of 1024 bytes or more `strlen` reads a byte the constructor does not initialise; it is taken to be zero, so the text is cut at 1024 bytes.
- ChatServer.Server.CheckSessionStateChange: the lookup of an unknown session, which ends the program, cannot occur in the model.
- ChatServer.SessionClient.Handle: the nickname check is a parameter. It overwrites the terminator of the string it compares and never looks at default names, so uniqueness of chosen names is not claimed.
- TransferLock.StartDecision: speaks of the statuses sessions have at that moment; they are not reset after a transfer, so nothing says that everybody answered this request.
- SessionBase.SessionBase.WriteData: queues hold message values, not heap objects, so `toRawBytes` appears as the payload each class is proved to produce; partial results of `send` and the freeing of messages are not modelled.
- SessionServer.SessionServer.PollForData: the results of `ppoll` are a finite list given in advance, so nothing is said about time; a failing `ppoll` counts as an error condition. The server runs the same loop; it is modelled for the client, where `cycle` does something.
- Sockets, threads, semaphores, signals, allocation, logging, the hex dump, the command line and the user interface.
- Interleavings inside a handler: the server's mutex covers only insertion and erasure, so handlers are taken as atomic. The thread of a session that starts before its registration is not modelled either.
- Read errors of `fread` and write errors of `fwrite`.
- The destructor of the server, and the chat history of the client.
