# IPK24-CHAT client protocol engine

This project models the protocol engine of a client for the IPK24-CHAT chat
protocol. The protocol has two transports:

- **Binary datagram variant (UDP).** Frames are a one-byte tag, a 16-bit
  message id sent most significant byte first, and NUL-terminated ASCII
  fields. Every frame but CONFIRM must be confirmed by the peer. The sender
  retransmits until the peer does so or until it runs out of attempts.
- **Text stream variant (TCP).** Messages are CRLF-terminated keyword lines
  such as `MSG FROM <name> IS <contents>\r\n`.

The model covers these parts:

- **Bounded recency queue** (`FixedSizeQueues`). It has a fixed capacity, evicts
  its oldest item when full, and never holds the same item twice. It is used
  for message-id deduplication and to queue received stream lines.
- **Datagram codec** (`UdpMessageGenerator`, `UdpMessageParser`).
- **Text codec** (`TcpMessageGenerator`, `TcpMessageParser`). The
  regular-expression checks are written out as predicates. The two .NET splits
  the codec uses are defined in `Text`.
- **Stream line reassembler** (`TcpMessageReceivers`). It splits a read on CRLF,
  carries an unfinished last line over to the next read, and hands out queued
  lines one at a time.
- **Connection state machines.** The live datagram engine is `UdpConnections`;
  the stream engine is `TcpConnections`.
- **Earlier generation of the datagram client** (the `vut_ipk1.UdpClient`
  namespace). It has its own static encoder, decoder, instance encoder and
  engine: `LegacyUdpMessageGenerator`, `LegacyUdpMessageParser`,
  `LegacyUdpInstanceGenerator` and `LegacyUdpConnections`. Its engine calls
  the static encoder under a name that the namespace binds to the instance
  encoder, so those calls are reconstructed (see "## Left out"). Otherwise it
  is modelled as written. Where it disagrees with the protocol, the
  disagreement is proved (see "## Findings").

## How the engines are modelled

Each datagram engine (`UdpConnections`, `LegacyUdpConnections`) is a class
whose fields are the source's fields:

- the FSM state, display name and message counter;
- the awaited ids;
- the queues, with the received-id queue as a `FixedSizeQueue`.

Every method of a datagram engine is proved against a specification function
on a value snapshot of that state: `State() == AfterX(old(State()), …)`. The properties the
protocol promises are lemmas about those functions. In the live datagram
engine two steps the source writes inline are methods of their own: the
retransmission loop of `SendAndAwaitConfirmResponse` (`Retransmit`) and
`ServerError` followed by exit code 1 (`ServerErrorAndExit`).

The stream engine (`TcpConnections.TcpConnection`) has no counter and no
queues. It keeps the FSM state, the display name, the connected and
released flags, the lines written to the stream and the console log. Its methods give their new state directly in two-state
`ensures` clauses.

The outside world is represented as follows:

- **Socket.** Sending a datagram appends it, with its destination, to an
  outbox. A connect records the endpoint. A close sets a flag.
- **Console.** Writes become a log of lines, with the standard error stream
  kept apart from standard output.
- **Handlers.** Each asynchronous handler runs as one atomic step.
- **Confirmation waits.** The CONFIRMs that arrive during each wait are
  given by the oracle `arrivals`. Its entry k lists the ids recorded during
  the k-th wait. Waits after the oracle runs out see nothing. The oracle
  stands for the receive loop, which records these CONFIRMs. That loop runs
  beside a sender started from the console or from a REPLY or MSG handler.
  It does not run beside the handlers it awaits itself: ERR, an unknown
  frame, and the exception handler. Those handlers run with no arrivals
  (`Suspended`), so their waits can never be confirmed (see "## Findings").
- **Unconnected socket.** The socket is connected exactly when the state
  leaves Start. Before that, a send without an endpoint throws. In the live
  engine the throw inside a MSG task is swallowed, so the task changes
  nothing. Inside the receive loop the throw goes to the exception handler.
  In the earlier engine it ends the receive loop (`SocketNotConnected`).
- **Process exit.** `Environment.Exit(code)` is the `run` field of the live
  engine.

The live engine's failure path can recurse without bound: a silent peer sends
the sender to `ServerError`, which sends an ERR and waits again. A `fuel`
parameter bounds how many such nested waits are followed.

Frame tags are the protocol's values: CONFIRM 0x00, REPLY 0x01, AUTH 0x02,
JOIN 0x03, MSG 0x04, ERR 0xFE and BYE 0xFF. The enumeration that defines them
is not part of this model.

Integers follow the source's widths:

- Message ids are `ushort` (0 to 65535), and the counter increment wraps
  modulo 2^16 (`Common.Increment`).
- Bytes are a `byte` newtype.
- Text is ASCII. The encoders require ASCII input. The decoders map every
  byte above 0x7F to `?`, as `Encoding.ASCII` does.

## Model

| member | source | states |
|---|---|---|
| FixedSizeQueues.FixedSizeQueue.constructor | Common/Structures/FixedSizeQueue.cs:15-23 | A queue built with a positive capacity is empty and keeps that capacity. |
| FixedSizeQueues.FixedSizeQueue.Create | Common/Structures/FixedSizeQueue.cs:15-23 | The constructor together with its argument check: the capacity is rejected exactly when it is <= 0. Otherwise the result is a fresh, valid, empty queue. |
| FixedSizeQueues.FixedSizeQueue.Enqueue | Common/Structures/FixedSizeQueue.cs:25-38 | The new contents are `Enqueued(old contents, capacity, item)`: the oldest item is evicted when the queue is full, then the item is added unless it is present. Validity is kept: no duplicates, size within the capacity. |
| FixedSizeQueues.FixedSizeQueue.EnqueueAll | Common/Structures/FixedSizeQueue.cs:25-38 | Enqueuing a sequence one by one in a loop gives `EnqueuedAll` of the old contents. |
| FixedSizeQueues.FixedSizeQueue.Dequeue | Common/Structures/FixedSizeQueue.cs:41-49 | An empty queue gives an error and stays empty. Otherwise the result is the oldest item, which is removed: first in, first out. |
| FixedSizeQueues.FixedSizeQueue.Count | Common/Structures/FixedSizeQueue.cs:51 | The count is the number of items and never exceeds the capacity. |
| FixedSizeQueues.FixedSizeQueue.Contains | Common/Structures/FixedSizeQueue.cs:53-56 | True exactly when some position of the queue holds the item. |
| FixedSizeQueues.EnqueuedBounded | Common/Structures/FixedSizeQueue.cs:25-38 | Enqueuing never takes the size above the capacity. |
| FixedSizeQueues.EnqueuedContains | Common/Structures/FixedSizeQueue.cs:25-38 | After enqueuing x, x is present. This includes the case where x was the oldest item of a full queue and was evicted first, in which case it is re-added last. |
| FixedSizeQueues.EnqueuedNoDuplicates | Common/Structures/FixedSizeQueue.cs:32-37 | Enqueuing keeps the queue free of duplicates. |
| FixedSizeQueues.EnqueuedSubset | Common/Structures/FixedSizeQueue.cs:25-38 | An item held after an enqueue was held before or is the new item. |
| FixedSizeQueues.EnqueuePresentNotFull | Common/Structures/FixedSizeQueue.cs:32-35 | Enqueuing an item that is present into a queue that is not full changes nothing. |
| FixedSizeQueues.EnqueuePresentFull | Common/Structures/FixedSizeQueue.cs:27-35 | Enqueuing a present item into a full queue still evicts the oldest, because eviction comes before the membership test. The queue shrinks by one. |
| FixedSizeQueues.EnqueuedAllCons | Common/Structures/FixedSizeQueue.cs:25-38 | Enqueuing x and then xs is the same as enqueuing [x] + xs. |
| FixedSizeQueues.EnqueuedAllDistinct | Common/Structures/FixedSizeQueue.cs:25-38 | Distinct items enqueued into an empty queue leave exactly the last `capacity` of them, oldest first. |
| FixedSizeQueues.OldestEvictedAfterCapacityPlusOne | Common/Structures/FixedSizeQueue.cs:25-38 | After capacity+1 distinct items, the first is gone and the other capacity items are present. |
| UdpMessageGenerator.ConvertStringToAsciiBytes | Udp/Messages/UdpMessageGenerator.cs:102-109 | The ASCII bytes of the string followed by exactly one NUL, of length \|s\|+1, whose first \|s\| bytes decode back to the string. |
| UdpMessageGenerator.ConvertedIndexOf | Udp/Messages/UdpMessageGenerator.cs:102-109 | For a NUL-free string the first NUL of the converted bytes is the appended terminator, at index \|s\|. |
| UdpMessageGenerator.GenerateConfirmMessage | Udp/Messages/UdpMessageGenerator.cs:11-19 | Three bytes: the CONFIRM tag, then the id most significant byte first, which reads back as the id. |
| UdpMessageGenerator.GenerateAuthMessage | Udp/Messages/UdpMessageGenerator.cs:21-37 | Length 6+\|u\|+\|d\|+\|s\|, the AUTH tag, and the id big-endian. |
| UdpMessageGenerator.GenerateJoinMessage | Udp/Messages/UdpMessageGenerator.cs:39-53 | Length 5+\|c\|+\|d\|, the JOIN tag, and the id big-endian. |
| UdpMessageGenerator.GenerateMsgMessage | Udp/Messages/UdpMessageGenerator.cs:55-69 | Length 5+\|d\|+\|c\|, the MSG tag, and the id big-endian. |
| UdpMessageGenerator.GenerateErrMessage | Udp/Messages/UdpMessageGenerator.cs:71-85 | Length 5+\|d\|+\|c\|, the ERR tag, and the id big-endian. |
| UdpMessageGenerator.GenerateByeMessage | Udp/Messages/UdpMessageGenerator.cs:87-95 | Exactly three bytes: the BYE tag and the id big-endian. |
| UdpMessageGenerator.FieldsOfConverted | Udp/Messages/UdpMessageGenerator.cs:102-109 | A converted NUL-free field, followed by anything, splits off as exactly that field under the reference field reading. |
| UdpMessageGenerator.AuthLayout | Udp/Messages/UdpMessageGenerator.cs:21-37 | After the header, an AUTH frame is exactly the fields username, display name and secret, each NUL-terminated. |
| UdpMessageGenerator.JoinLayout | Udp/Messages/UdpMessageGenerator.cs:39-53 | After the header, a JOIN frame is exactly the fields channel id and display name. |
| UdpMessageGenerator.MsgLayout | Udp/Messages/UdpMessageGenerator.cs:55-69 | After the header, a MSG frame is exactly the fields display name and contents. |
| UdpMessageGenerator.MsgAndErrDifferOnlyInTag | Udp/Messages/UdpMessageGenerator.cs:55-85 | MSG and ERR frames for the same arguments agree everywhere but byte 0. |
| UdpMessageGenerator.ConfirmTestVector | UnitTests/Udp/UdpMessageGeneratorUnitTests.cs:9-15 | CONFIRM 0x1234 is `00 12 34`. |
| UdpMessageGenerator.AuthTestVector | UnitTests/Udp/UdpMessageGeneratorUnitTests.cs:17-37 | AUTH 1 with "username", "displayName", "secret" is `02 00 01`, then each name's ASCII bytes followed by `00`. |
| UdpMessageGenerator.JoinTestVector | UnitTests/Udp/UdpMessageGeneratorUnitTests.cs:39-57 | JOIN 1 with "channelId", "displayName" is `03 00 01`, then both fields NUL-terminated. |
| UdpMessageGenerator.MsgTestVector | UnitTests/Udp/UdpMessageGeneratorUnitTests.cs:59-77 | MSG 1 with "displayName", "contents" is `04 00 01`, then both fields NUL-terminated. |
| UdpMessageGenerator.ErrTestVector | UnitTests/Udp/UdpMessageGeneratorUnitTests.cs:79-97 | ERR 1 with the same fields is `FE 00 01`, then both fields NUL-terminated. |
| UdpMessageGenerator.ByeTestVector | UnitTests/Udp/UdpMessageGeneratorUnitTests.cs:99-113 | BYE 1 is `FF 00 01`. |
| UdpMessageParser.TextStart | Udp/Messages/UdpMessageParser.cs:48 | The first index at or after i that holds no NUL, or the end. Every character it skips is NUL. |
| UdpMessageParser.TextEnd | Udp/Messages/UdpMessageParser.cs:48 | The index just past the last non-NUL character below hi, but not below lo. Every character it drops is NUL. |
| UdpMessageParser.TrimNul | Udp/Messages/UdpMessageParser.cs:48 | `Trim('\0')`: the result is empty, or it starts and ends with a character that is not NUL. |
| UdpMessageParser.ConvertAsciiBytesToString | Udp/Messages/UdpMessageParser.cs:33-36 | A start index at or past the end of the frame is the index-out-of-range error. |
| UdpMessageParser.ConvertReadsField | Udp/Messages/UdpMessageParser.cs:33-49 | Succeeds exactly when the reference field `FieldAt` exists, and then is its ASCII text. The field is read as follows: skip one NUL at the start; take the bytes up to the next NUL; with no NUL, take all bytes but the last. A start past the end or a negative length is an error. |
| UdpMessageParser.TrimNulFree | Udp/Messages/UdpMessageParser.cs:48 | The trim leaves a NUL-free string alone. |
| UdpMessageParser.TrimTerminated | Udp/Messages/UdpMessageParser.cs:48 | The trim removes a single terminating NUL. |
| UdpMessageParser.TrimmedField | Udp/Messages/UdpMessageParser.cs:45-48 | The slice the decoder cuts and then trims is the field without its terminator. |
| UdpMessageParser.ParseReplyMessage | Udp/Messages/UdpMessageParser.cs:10-22 | A result byte other than 0 or 1 is rejected. Success holds exactly when the header is there, byte 3 is 0 or 1, and the contents field exists. Then: the id is bytes 1-2 big-endian, the result is (byte 3 == 1), the reference id is bytes 4-5 big-endian, and the contents are the field at offset 6. |
| UdpMessageParser.ParseMsgMessage | Udp/Messages/UdpMessageParser.cs:24-31 | Frames shorter than 4 bytes fail. On success the id is bytes 1-2 read big-endian. |
| UdpMessageParser.ParseMsgReadsFields | Udp/Messages/UdpMessageParser.cs:24-31 | Succeeds exactly when the field at 3 and the field at 3 + \|display name\| both exist. The display name and contents are then the ASCII text of those two fields. |
| UdpMessageParser.LeadingNulSkippedOnce | Udp/Messages/UdpMessageParser.cs:36-40 | A NUL at the start position is skipped once: two NULs there read as the empty string. |
| UdpMessageParser.UnterminatedFieldLosesLastByte | Udp/Messages/UdpMessageParser.cs:45-46 | A field with no NUL before the end of the frame loses its last byte. |
| UdpMessageParser.ReplyWithOnlyTerminatorFails | Udp/Messages/UdpMessageParser.cs:36-48 | A REPLY whose only byte after the header is the NUL fails: after the skip nothing is left and the length is -1. |
| UdpMessageParser.TruncatedFramesFail | Udp/Messages/UdpMessageParser.cs:13-18 | Frames too short for the header are errors, not out-of-bounds reads. |
| UdpMessageParser.ReadConvertedField | Udp/Messages/UdpMessageParser.cs:33-49 | A converted non-empty NUL-free string reads back as itself, whatever surrounds it. |
| UdpMessageParser.ReadFieldAfterTerminator | Udp/Messages/UdpMessageParser.cs:36-40 | Reading from the previous field's terminator skips it and lands on the next field. |
| UdpMessageParser.MsgRoundTrip | Udp/Messages/UdpMessageParser.cs:24-31 | A MSG frame built from a non-empty NUL-free display name and NUL-free contents parses back to the same id, name and contents. |
| UdpMessageParser.ErrRoundTrip | Udp/Messages/UdpMessageParser.cs:24-31 | The same round trip for ERR frames, which are parsed with the MSG decoder. |
| UdpMessageParser.EmptyDisplayNameMisread | Udp/Messages/UdpMessageParser.cs:24-31 | With an empty display name, the contents are read as the name and their last character as the contents. This is why the round trip needs a non-empty name. |
| TcpMessageGenerator.GenerateAuthMessage | Tcp/Messages/TcpMessageGenerator.cs:5-8 | Ends in CRLF, starts "AUTH ", of length 18+\|u\|+\|d\|+\|s\|. |
| TcpMessageGenerator.GenerateJoinMessage | Tcp/Messages/TcpMessageGenerator.cs:10-13 | Ends in CRLF, starts "JOIN ", of length 11+\|c\|+\|d\|. |
| TcpMessageGenerator.GenerateMsgMessage | Tcp/Messages/TcpMessageGenerator.cs:15-18 | Ends in CRLF, starts "MSG FROM ", of length 15+\|d\|+\|c\|. |
| TcpMessageGenerator.GenerateErrMessage | Tcp/Messages/TcpMessageGenerator.cs:20-23 | Ends in CRLF, starts "ERR FROM ", of length 15+\|d\|+\|c\|. |
| TcpMessageGenerator.GenerateByeMessage | Tcp/Messages/TcpMessageGenerator.cs:25-28 | The constant line "BYE" + CRLF. |
| TcpMessageGenerator.AuthWords | Tcp/Messages/TcpMessageGenerator.cs:5-8 | Without its CRLF, an AUTH line splits on spaces into exactly AUTH, u, AS, d, USING, s, when the arguments hold no space. |
| TcpMessageGenerator.JoinWords | Tcp/Messages/TcpMessageGenerator.cs:10-13 | Without its CRLF, a JOIN line splits into exactly JOIN, c, AS, d. |
| TcpMessageGenerator.MsgAndErrDifferOnlyInKeyword | Tcp/Messages/TcpMessageGenerator.cs:15-23 | MSG and ERR lines differ only in their first three characters. |
| Text.Split | Tcp/Messages/TcpMessageParser.cs:13 | At least one piece, and no piece contains the separator. |
| Text.UpTo | Tcp/Messages/TcpMessageParser.cs:17 | A separator-free prefix, followed in the input by the separator unless it is the whole input. |
| Text.JoinSplit | Tcp/Messages/TcpMessageParser.cs:13 | Joining the pieces of a split with the separator gives the string back. |
| Text.SplitAt | Tcp/Messages/TcpMessageParser.cs:13 | A separator-free prefix followed by the separator splits off as one piece. |
| Text.SplitNone | Tcp/Messages/TcpMessageParser.cs:13 | A string without the separator is one piece. |
| Text.SplitHead | Tcp/Messages/TcpMessageParser.cs:13 | The first piece is the text up to the first separator. |
| Text.SplitCrLf | Tcp/Facades/TcpMessageReceiver.cs:25 | At least one piece, the first a prefix of the input, and no piece contains CRLF. |
| Text.JoinSplitCrLf | Tcp/Facades/TcpMessageReceiver.cs:25 | Joining the CRLF pieces with CRLF gives the read back. |
| Text.SplitCrLfAt | Tcp/Facades/TcpMessageReceiver.cs:25 | A CRLF-free line followed by CRLF splits off as one piece. |
| Text.SplitCrLfNone | Tcp/Facades/TcpMessageReceiver.cs:25 | A CRLF-free string is one piece. |
| TcpMessageParser.LineBody | Tcp/Messages/TcpMessageParser.cs:9 | The line end the pattern's `\r\n$` accepts is a final CRLF, or a CRLF followed by one final line feed. |
| TcpMessageParser.ParseReplyMessage | Tcp/Messages/TcpMessageParser.cs:7-18 | Fails with the format error exactly when the REPLY pattern does not match. Otherwise the result is true iff the line starts "REPLY OK IS ", and the contents are the fourth space-separated token. |
| TcpMessageParser.ParseFromLine | Tcp/Messages/TcpMessageParser.cs:20-46 | The MSG/ERR decoder for a three-letter keyword. It fails with the format error exactly when the keyword FROM pattern does not match. Otherwise the name is the word after FROM and the contents are the first word after IS. |
| TcpMessageParser.ParseMsgMessage | Tcp/Messages/TcpMessageParser.cs:20-32 | Fails exactly when the MSG pattern does not match: a name of 1-20 characters in 0x21-0x7E and contents of 1-1400 characters in 0x20-0x7E, then CRLF. The name is the third token. The contents are the fifth token only. |
| TcpMessageParser.ParseErrMessage | Tcp/Messages/TcpMessageParser.cs:34-46 | The same for ERR lines. |
| TcpMessageParser.ReplyParts | Tcp/Messages/TcpMessageParser.cs:13-17 | A matching REPLY line has at least four tokens. The second is OK or NOK as written, and the fourth is the first word of the contents. |
| TcpMessageParser.FromParts | Tcp/Messages/TcpMessageParser.cs:26-29 | A matching MSG/ERR line has at least five tokens. The third is the display name, and the fifth is the first word of the contents. |
| TcpMessageParser.MsgRoundTrip | Tcp/Messages/TcpMessageParser.cs:20-32 | A generated MSG line with a valid name and contents parses back to that name. The contents come back as their first word. When they hold no space, that word is the whole contents plus the trailing CRLF. |
| TcpMessageParser.FromRoundTrip | Tcp/Messages/TcpMessageParser.cs:20-46 | For either keyword, a line built as keyword FROM name IS contents CRLF, with a valid name and contents, parses back to that name and to the first word of the contents with the CRLF. |
| TcpMessageParser.ErrRoundTrip | Tcp/Messages/TcpMessageParser.cs:34-46 | The same round trip for ERR lines. |
| TcpMessageParser.ReplyLines | Tcp/Messages/TcpMessageParser.cs:7-18 | A REPLY line built as the pattern describes parses to its result and the first word of its contents. |
| TcpMessageParser.BareLineFeedRejected | Tcp/Messages/TcpMessageParser.cs:22 | A line ending in a bare LF is rejected. |
| TcpMessageParser.LowerCaseKeywordRejected | Tcp/Messages/TcpMessageParser.cs:22 | Keywords are case-sensitive. |
| TcpMessageParser.TrailingLineFeedAccepted | Tcp/Messages/TcpMessageParser.cs:22 | A line with one extra LF after the CRLF is accepted, as `$` allows. |
| TcpMessageReceivers.HoldsLastPiece | Tcp/Facades/TcpMessageReceiver.cs:23 | The last piece is held back exactly when the read filled the whole buffer, its last byte is not LF, and the byte before it is not CR. Such a read never ends in CRLF. A full read that ends in LF alone, or has CR second to last, is not held back either. |
| TcpMessageReceivers.TcpMessageReceiver.constructor | Tcp/Facades/TcpMessageReceiver.cs:13-14 | A receiver starts with an empty line queue of capacity 50 and no carried text. |
| TcpMessageReceivers.TcpMessageReceiver.QueueLines | Tcp/Facades/TcpMessageReceiver.cs:27-56 | The loop over the pieces leaves the queue and the carried text as `Reassemble` describes: stop at an empty piece; queue the last piece or carry it; prefix the carried text onto the next piece and clear it. |
| TcpMessageReceivers.TcpMessageReceiver.ReceiveMessage | Tcp/Facades/TcpMessageReceiver.cs:16-59 | With lines queued, the oldest is handed out and nothing is read. Otherwise the read is split on CRLF and queued as `Reassemble` says, and the oldest queued line is handed out. The call fails when nothing was queued. |
| TcpMessageReceivers.SplitLines | Tcp/Facades/TcpMessageReceiver.cs:25 | Lines joined with CRLF terminators split back into those lines, then whatever follows. |
| TcpMessageReceivers.ReassembleRun | Tcp/Facades/TcpMessageReceiver.cs:27-56 | With nothing carried, a run of non-empty pieces is queued in order. Then an empty last piece is dropped, a held one carried, and any other queued. |
| TcpMessageReceivers.ReassemblePrefix | Tcp/Facades/TcpMessageReceiver.cs:27-56 | With nothing carried, the non-empty pieces up to a point are queued one by one. |
| TcpMessageReceivers.ReassembleStep | Tcp/Facades/TcpMessageReceiver.cs:52-55 | A non-empty piece before the last, with nothing carried, is queued on its own. |
| TcpMessageReceivers.CompleteLinesQueuedInOrder | Tcp/Facades/TcpMessageReceiver.cs:25-58 | A read of complete, distinct lines, at most 50 of them, queues exactly those lines in order. |
| TcpMessageReceivers.UnfinishedLineCarried | Tcp/Facades/TcpMessageReceiver.cs:40-44 | A held read queues its complete lines and carries the unfinished last one. |
| TcpMessageReceivers.CarriedTextPrefixesNextLine | Tcp/Facades/TcpMessageReceiver.cs:46-51 | Carried text is put in front of the first line of the next read and queued with it, and the rest follows in order. |
| TcpMessageReceivers.LeadingCrLfQueuesNothing | Tcp/Facades/TcpMessageReceiver.cs:29-32 | A read starting with CRLF queues nothing: the empty first piece stops the loop. |
| TcpMessageReceivers.NoEmptyLineQueued | Tcp/Facades/TcpMessageReceiver.cs:29-32 | No empty line is ever queued. |
| UdpConnections.UdpConnection.Retransmit | Udp/UdpConnection.cs:323-331 | The for loop ends in the state `Retransmitted` gives for attempt 0, and returns its flag. The loop invariant ties each send-and-wait step to `Retransmitted`. |
| UdpConnections.AfterTransmit | Udp/UdpConnection.cs:321-338 | The message is sent at least once. The process keeps running exactly when the loop saw a confirmation. Otherwise the no-response line is logged and the server-error path and exit follow. |
| UdpConnections.AfterServerError | Udp/UdpConnection.cs:307-319 | Outside Start, an ERR frame with the current id goes first. A clean end needs that frame confirmed; the counter is then two further on (ERR, then BYE). From Start nothing is sent: the server-error line is logged, the socket closes and the state is End. Surviving this means the state is End, the socket is closed, and the server-error line is logged. |
| UdpConnections.ServerErrorClosing | Udp/UdpConnection.cs:316-318 | The server-error line, then the end of the session. From Start only that line, the close and End. Outside Start a clean end advances the counter by one. |
| UdpConnections.AfterEndSession | Udp/UdpConnection.cs:172-182 | Outside Start, a BYE frame with the current id goes first. The session ends cleanly exactly when that BYE is confirmed, and the counter is then one further on. From Start, only the socket closes and the state becomes End. A clean end is always in End with the socket closed. |
| UdpConnections.AfterSendMessage | Udp/UdpConnection.cs:109-119 | Outside Open, only the wrong-state line is logged: nothing sent, counter and state unchanged. In Open, a MSG frame with the current counter is sent and the counter advances by one, modulo 2^16. |
| UdpConnections.AfterAuth | Udp/UdpConnection.cs:122-139 | Refused outside Start/Auth. Otherwise the display name is recorded and the awaited id is the id sent. The AUTH frame goes to the server endpoint from Start and to the connected peer from Auth. The counter advances. |
| UdpConnections.AfterJoin | Udp/UdpConnection.cs:142-157 | Refused outside Open. Otherwise a JOIN frame is sent with the current counter, which becomes the awaited id, and the counter advances. |
| UdpConnections.AfterRename | Udp/UdpConnection.cs:160-169 | Outside Open, only the wrong-state line is logged. In Open, only the display name changes. |
| UdpConnections.AfterMsg | Udp/UdpConnection.cs:190-199 | In Start the CONFIRM throws on the unconnected socket and nothing changes. Otherwise it always sends a CONFIRM without an endpoint, and prints and records the id only when it is new. A repeated id leaves the log and the received ids as they were. |
| UdpConnections.AfterErr | Udp/UdpConnection.cs:207-221 | Confirms outside Start. A new id is printed as "ERR FROM …" and ends the session. A repeated id changes neither the log nor the state. |
| UdpConnections.AfterAuthReply | Udp/UdpConnection.cs:232-269 | Always confirms. A fresh reply answering another id than the awaited one is fatal. A matching one clears the awaited id. From Start it connects to the replying endpoint and moves to Auth. A positive reply then opens the session; a negative one stays in Auth. |
| UdpConnections.AfterJoinReply | Udp/UdpConnection.cs:278-305 | As the auth reply, but the FSM state and connection never change. |
| UdpConnections.Fatal | Udp/UdpConnection.cs:241-247 | The server-error path, then exit: the process no longer runs. |
| UdpConnections.UdpConnection.ServerErrorAndExit | Udp/UdpConnection.cs:241-247 | Ends in `Fatal` of the old state: `ServerError`, then exit code 1 unless the process already stopped. |
| UdpConnections.AfterReceive | Udp/UdpConnection.cs:38-104 | One received datagram, each tag to its handler. An empty frame, a short CONFIRM and a REPLY, MSG or ERR that does not parse go to `Failed`. A CONFIRM id (read big-endian) is enqueued into the awaited queue, with eviction when it is full, and nothing else changes. A REPLY goes to the auth handler in Start/Auth and to the join handler in Open. A MSG goes to `AfterMsg` and the loop goes on. An ERR goes to `AfterErr`, run `Suspended`, and the loop returns 1. BYE closes and returns 0. AUTH, JOIN, an unknown tag or a REPLY in End goes to `Failed` when the frame is short or the state is Start. Otherwise the loop sends a CONFIRM for the frame's id and returns 1, in End if still running. `UnexpectedFrameTakesServerErrorPath` states that this branch is exactly the server-error path. |
| UdpConnections.Failed | Udp/UdpConnection.cs:95-104 | The exception handler: confirms the frame's id when one can be read outside Start, then the server-error path, run `Suspended`; returns 1. From Start the result is exactly the server-error line, the close and End. A clean end is in End with the server-error line logged. |
| UdpConnections.AfterReceiveAll | Udp/UdpConnection.cs:38-106 | The loop over received datagrams: the only exit values are 0 and 1, and 0 means the socket was closed. While it goes on and runs, End is not reached from another state. |
| UdpConnections.UdpConnection.constructor | Udp/UdpConnection.cs:18-35 | Start state, counter 0, nothing awaited, and the two id queues of capacity 200 empty. |
| UdpConnections.UdpConnection.IsItNewMessage | Udp/UdpConnection.cs:347-350 | True exactly when the id has not been handled. |
| UdpConnections.UdpConnection.SendConfirmMessage | Udp/UdpConnection.cs:340-345 | Sends one CONFIRM of the id to the given endpoint and changes nothing else. |
| UdpConnections.UdpConnection.SendAndAwaitConfirmResponse | Udp/UdpConnection.cs:321-338 | Ends in the state `AfterTransmit` describes: when the loop succeeds, its end state; otherwise the no-response line, then the server-error path and exit code 1. |
| UdpConnections.UdpConnection.ServerError | Udp/UdpConnection.cs:307-319 | Ends in `AfterServerError` of the old state. |
| UdpConnections.UdpConnection.EndSession | Udp/UdpConnection.cs:172-182 | Ends in `AfterEndSession` of the old state. |
| UdpConnections.UdpConnection.SendMessage | Udp/UdpConnection.cs:109-119 | Ends in `AfterSendMessage` of the old state. |
| UdpConnections.UdpConnection.Auth | Udp/UdpConnection.cs:122-139 | Ends in `AfterAuth` of the old state. |
| UdpConnections.UdpConnection.Join | Udp/UdpConnection.cs:142-157 | Ends in `AfterJoin` of the old state. |
| UdpConnections.UdpConnection.Rename | Udp/UdpConnection.cs:160-169 | Ends in `AfterRename` of the old state. |
| UdpConnections.UdpConnection.Msg | Udp/UdpConnection.cs:190-199 | Ends in `AfterMsg` of the old state. In Start it returns at once, as the throwing CONFIRM ends the task. |
| UdpConnections.UdpConnection.Err | Udp/UdpConnection.cs:207-221 | Ends in `AfterErr` of the old state. |
| UdpConnections.UdpConnection.AuthReplyRetrieval | Udp/UdpConnection.cs:232-269 | Ends in `AfterAuthReply` of the old state. |
| UdpConnections.UdpConnection.JoinReplyRetrieval | Udp/UdpConnection.cs:278-305 | Ends in `AfterJoinReply` of the old state. |
| UdpConnections.UdpConnection.Recover | Udp/UdpConnection.cs:95-104 | Clears the arrivals, since the loop reads nothing while it runs. Then it ends as `Failed` says. |
| UdpConnections.UdpConnection.ReceiveDatagram | Udp/UdpConnection.cs:38-104 | Ends as `AfterReceive` says, with the same exit value. The ERR and unknown-frame branches clear the arrivals before the handler they await. |
| UdpConnections.UdpConnection.MainLoop | Udp/UdpConnection.cs:38-106 | The while loop ends as `AfterReceiveAll` says. |
| UdpConnections.RetransmittedSends | Udp/UdpConnection.cs:323-325 | The loop sends the message at least once. |
| UdpConnections.RetransmittedKeeps | Udp/UdpConnection.cs:321-331 | The loop changes only the outbox, the awaited ids and the oracle. |
| UdpConnections.WaitsIgnoreOutbox | Udp/UdpConnection.cs:327 | Waiting does not depend on the outbox. |
| UdpConnections.RetransmissionLaw | Udp/UdpConnection.cs:321-338 | The loop sends the frame k times, 1 <= k <= 1 + maxRetransmissions, with a wait after each. It stops at the first wait after which the id is confirmed. It runs out only after all 1 + maxRetransmissions sends with no confirmation. |
| UdpConnections.RetransmissionShift | Udp/UdpConnection.cs:323-331 | The induction step of the law: k further attempts after one unconfirmed attempt are k + 1 attempts from the start, and the id stays absent after each earlier wait. |
| UdpConnections.MsgTwicePrintsOnce | Udp/UdpConnection.cs:190-199 | The same MSG twice is printed once and recorded once. Outside Start it is confirmed twice. |
| UdpConnections.AuthThenPositiveReplyOpens | Udp/UdpConnection.cs:122-139 | From Start, a confirmed AUTH answered by a fresh positive REPLY to its id opens the session and connects the socket to the replying endpoint. |
| UdpConnections.ConformingConfirmRecorded | Udp/UdpConnection.cs:51-54 | A CONFIRM laid out as the protocol prescribes is enqueued into the awaited queue under the id it confirms. Nothing else changes, and the loop goes on. |
| UdpConnections.UnexpectedFrameTakesServerErrorPath | Udp/UdpConnection.cs:87-92 | AUTH, JOIN, an unknown tag or a REPLY in End, outside Start and at least three bytes long: the result is exactly a CONFIRM for the frame's id, then `AfterServerError` run suspended, and the loop returns 1. |
| UdpConnections.MismatchedReplyIsFatal | Udp/UdpConnection.cs:241-247 | A fresh REPLY whose reference id is not the awaited id ends the process. |
| UdpConnections.SilentRetransmissionRunsOut | Udp/UdpConnection.cs:321-331 | With no CONFIRM arriving, a retransmission loop for an id not yet confirmed runs out. |
| UdpConnections.UnheardServerErrorFails | Udp/UdpConnection.cs:307-319 | Outside Start, with no arrivals and the current id unconfirmed, the server-error path never ends with the process running. |
| UdpConnections.UnheardEndSessionFails | Udp/UdpConnection.cs:172-182 | The same for `EndSession` and its BYE. |
| UdpConnections.AwaitedHandlersNeverEndCleanly | Udp/UdpConnection.cs:77-104 | In Auth or Open with the current id unconfirmed, every datagram on which the loop returns 1 leaves the process stopped, except a repeated ERR. This covers a fresh ERR, AUTH, JOIN, an unknown tag, a REPLY in End, and a frame that does not parse. |
| UdpConnections.ErrInOpenMissesConfirm | Udp/UdpConnection.cs:77-82 | Concretely: in Open with id 7 next and a peer that confirms 7 in the first wait, ERR 5 from "s" still stops the process. |
| UdpConnections.HeardErrEndsSession | Udp/UdpConnection.cs:207-221 | A fresh ERR in Auth or Open, whose BYE is confirmed in the first wait, ends the session cleanly: End, closed, counter one further on. |
| TcpConnections.TcpConnection.constructor | Tcp/TcpConnection.cs:23-27 | Start state, not connected, nothing written. |
| TcpConnections.TcpConnection.SendMessage | Tcp/TcpConnection.cs:37-47 | Outside Open, writes nothing and logs the wrong-state line. In Open, writes one MSG line under the current name. Every written line ends in CRLF. |
| TcpConnections.TcpConnection.Auth | Tcp/TcpConnection.cs:49-66 | Refused unless in Start or Auth. Otherwise records the name, connects if needed, and writes exactly one AUTH line. |
| TcpConnections.TcpConnection.Join | Tcp/TcpConnection.cs:68-81 | Outside Open, writes nothing. In Open, writes one JOIN line. |
| TcpConnections.TcpConnection.Rename | Tcp/TcpConnection.cs:83-92 | Only in Open, and only the display name changes. |
| TcpConnections.TcpConnection.EndSession | Tcp/TcpConnection.cs:94-108 | From Start, writes nothing, stays in Start and releases the socket. Otherwise writes BYE, releases the socket and moves to End. |
| TcpConnections.TcpConnection.AuthReplyRetrieval | Tcp/TcpConnection.cs:110-124 | The state becomes Auth, then Open only on success, with the Success/Failure line logged. |
| TcpConnections.TcpConnection.JoinReplyRetrieval | Tcp/TcpConnection.cs:126-137 | Logs Success/Failure and never changes the state. |
| LegacyUdpMessageGenerator.IdBytes | UdpClient/Messages/UdpMessageGenerator.cs:19-20 | The two truncating casts of the id shifted right by 8 and of the id give the id big-endian, which reads back as the id. |
| LegacyUdpMessageGenerator.ConvertStringToAsciiBytes | UdpClient/Messages/UdpMessageGenerator.cs:91-98 | Byte for byte the current converter: the ASCII bytes and one NUL. |
| LegacyUdpMessageGenerator.GenerateAuthMessage | UdpClient/Messages/UdpMessageGenerator.cs:10-27 | Byte for byte the current AUTH frame. |
| LegacyUdpMessageGenerator.GenerateJoinMessage | UdpClient/Messages/UdpMessageGenerator.cs:29-44 | Byte for byte the current JOIN frame. |
| LegacyUdpMessageGenerator.GenerateMsgMessage | UdpClient/Messages/UdpMessageGenerator.cs:46-61 | Byte for byte the current MSG frame. |
| LegacyUdpMessageGenerator.GenerateErrMessage | UdpClient/Messages/UdpMessageGenerator.cs:63-78 | Byte for byte the current ERR frame. |
| LegacyUdpMessageGenerator.GenerateByeMessage | UdpClient/Messages/UdpMessageGenerator.cs:80-89 | Three bytes, byte for byte the current BYE frame. |
| LegacyUdpMessageGenerator.IdHighByteFirst | UdpClient/Messages/UdpMessageGenerator.cs:19-20 | Every frame carries the id high byte first in bytes 1-2. |
| LegacyUdpMessageGenerator.MsgAndErrDifferOnlyInTag | UdpClient/Messages/UdpMessageGenerator.cs:46-78 | MSG and ERR frames differ in byte 0 only. |
| LegacyUdpMessageParser.AsciiCharNul | UdpClient/Messages/UdpMessageParser.cs:33-34 | A byte decodes to NUL exactly when it is 0. |
| LegacyUdpMessageParser.ConvertAsciiBytesToString | UdpClient/Messages/UdpMessageParser.cs:30-37 | Fails exactly when the start is at or past the end. With a NUL ahead, the result runs up to and including the first NUL. Without one, it is every remaining byte but the last. |
| LegacyUdpMessageParser.ParseReplyMessage | UdpClient/Messages/UdpMessageParser.cs:10-19 | Succeeds exactly for frames of 7 or more bytes, with the failure kinds of the source for shorter ones. Both ids are read least significant byte first. The result is true iff byte 3 is 1. The contents are the field at 6. |
| LegacyUdpMessageParser.ParseMsgMessage | UdpClient/Messages/UdpMessageParser.cs:21-28 | The id is read little-endian. The display name is the field at 3, NUL included. The contents start at 3 + that length. |
| LegacyUdpMessageParser.ResultNotValidated | UdpClient/Messages/UdpMessageParser.cs:14 | A result byte other than 1 reads as a negative reply and is never rejected. |
| LegacyUdpMessageParser.FieldIncludesTerminator | UdpClient/Messages/UdpMessageParser.cs:30-36 | An encoded field reads back with its terminating NUL. |
| LegacyUdpMessageParser.TerminatedText | UdpClient/Messages/UdpMessageParser.cs:36 | The ASCII text of an encoded field is the string followed by NUL. |
| LegacyUdpMessageParser.MsgRoundTripSwapsId | UdpClient/Messages/UdpMessageParser.cs:21-28 | Decoding a frame of the same generation's encoder gives the byte-swapped id and both fields with their NULs. |
| LegacyUdpMessageParser.MsgIdOneReadsAs256 | UdpClient/Messages/UdpMessageParser.cs:23 | The MSG frame for id 1 decodes as id 256. |
| LegacyUdpInstanceGenerator.Mangled | UdpClient/UdpMessageGenerator.cs:123 | The string with its last character replaced by NUL. |
| LegacyUdpInstanceGenerator.ConvertStringToAsciiBytes | UdpClient/UdpMessageGenerator.cs:119-126 | Fails (index out of range) exactly on the empty string. Otherwise it is the correct encoding of the string whose last character was overwritten by NUL. |
| LegacyUdpInstanceGenerator.GenerateConfirmMessage | UdpClient/UdpMessageGenerator.cs:10-19 | Equal to the current CONFIRM frame: three bytes, id high byte first. |
| LegacyUdpInstanceGenerator.GenerateReplyMessageCorrected | UdpClient/UdpMessageGenerator.cs:21-36 | The REPLY layout with the converter repaired: length 7+\|c\|, the tag, both ids big-endian, and result byte 1 or 0. |
| LegacyUdpInstanceGenerator.GenerateReplyMessage | UdpClient/UdpMessageGenerator.cs:21-36 | Fails exactly for empty contents. Otherwise it is the corrected REPLY of the mangled contents. |
| LegacyUdpInstanceGenerator.GenerateAuthMessage | UdpClient/UdpMessageGenerator.cs:38-55 | Fails exactly when an argument is empty. Otherwise it is the current AUTH frame of the mangled arguments. |
| LegacyUdpInstanceGenerator.GenerateJoinMessage | UdpClient/UdpMessageGenerator.cs:57-72 | The same for JOIN. |
| LegacyUdpInstanceGenerator.GenerateMsgMessage | UdpClient/UdpMessageGenerator.cs:74-89 | The same for MSG. |
| LegacyUdpInstanceGenerator.GenerateErrMessage | UdpClient/UdpMessageGenerator.cs:91-106 | The same for ERR. |
| LegacyUdpInstanceGenerator.GenerateByeMessage | UdpClient/UdpMessageGenerator.cs:108-117 | Equal to the current BYE frame. |
| LegacyUdpInstanceGenerator.ConverterCounterexamples | UdpClient/UdpMessageGenerator.cs:119-126 | "ab" converts to `61 00 00`, and "" fails. |
| LegacyUdpInstanceGenerator.ReplyRoundTrip | UdpClient/UdpMessageGenerator.cs:21-36 | With the repaired converter, the current decoder reads back exactly the REPLY built, for non-empty NUL-free contents. |
| LegacyUdpInstanceGenerator.ReplyLosesLastCharacter | UdpClient/UdpMessageGenerator.cs:123 | As written, the current decoder reads the REPLY contents without their last character. |
| LegacyUdpInstanceGenerator.ReplyDecodedByLegacyParser | UdpClient/Messages/UdpMessageParser.cs:10-19 | The decoder of the same generation reads a repaired REPLY with both ids byte-swapped and the contents with their NUL. |
| LegacyUdpConnections.RemoveFirst | UdpClient/UdpConnection.cs:169 | `List.Remove`: when the item is present, the multiset loses one copy of it. Otherwise nothing changes. |
| LegacyUdpConnections.AfterAuth | UdpClient/UdpConnection.cs:84-100 | Refused outside Start, with no retry from any other state. Otherwise the display name is recorded, and the AUTH frame with the current counter goes to the server. The counter advances before the sends. |
| LegacyUdpConnections.AfterSendMessage | UdpClient/UdpConnection.cs:102-112 | Refused outside Open. Otherwise a MSG frame with the current counter is sent, and the counter advances. |
| LegacyUdpConnections.AfterRename | UdpClient/UdpConnection.cs:114-123 | Outside Open, only the wrong-state line is logged. In Open, only the name changes. |
| LegacyUdpConnections.AfterAuthReply | UdpClient/UdpConnection.cs:125-152 | Always confirms to the sender. A repeated id does nothing more. A negative reply logs Failure and changes nothing else. A positive one is recorded, connects, and opens the session. |
| LegacyUdpConnections.AfterMsg | UdpClient/UdpConnection.cs:61-74 | The loop goes on exactly when the state is not Start. In Start the CONFIRM is sent without an endpoint on an unconnected socket, so the loop faults with nothing changed. Otherwise the CONFIRM is always queued and the id is recorded. A repeated id changes nothing else. A new id prints `name: text`. The state and the awaited list are kept. |
| LegacyUdpConnections.AfterReceive | UdpClient/UdpConnection.cs:43-81 | An empty datagram and a short CONFIRM fault the loop. A CONFIRM id is read little-endian and appended. A REPLY is handled only in Start. A MSG that does not parse faults the loop. A parsed MSG goes to `AfterMsg`, which faults the loop in Start. BYE disposes and returns. AUTH, JOIN, ERR, a REPLY outside Start and unknown tags are ignored. A fault leaves the state as it was. The state stays Start or Open. |
| LegacyUdpConnections.AfterReceiveAll | UdpClient/UdpConnection.cs:43-82 | Over a sequence of datagrams, the log and outbox only grow, and a return means the socket was disposed. |
| LegacyUdpConnections.WaitsIgnoreOutbox | UdpClient/UdpConnection.cs:167 | Waiting does not depend on the outbox. |
| LegacyUdpConnections.RetransmittedKeeps | UdpClient/UdpConnection.cs:156-173 | The loop changes only the outbox, the list and the oracle. |
| LegacyUdpConnections.RetransmissionLaw | UdpClient/UdpConnection.cs:154-174 | The loop sends k times, 1 <= k <= 1 + maxRetransmissions, with the id absent after each earlier wait. When confirmed, the list is the one after k waits with one copy removed. Otherwise all sends were made and the id is absent. |
| LegacyUdpConnections.RetransmissionShift | UdpClient/UdpConnection.cs:156-173 | The induction step of the law: k further sends after one unconfirmed send are k + 1 sends from the start, with the id absent after each earlier wait. |
| LegacyUdpConnections.StaleConfirmationSatisfiesWait | UdpClient/UdpConnection.cs:169 | A confirmation already in the list is taken as the confirmation of a new frame after one send. |
| LegacyUdpConnections.ConformingConfirmRecordedSwapped | UdpClient/UdpConnection.cs:52 | A CONFIRM laid out as the protocol prescribes is recorded under the byte-swapped id. |
| LegacyUdpConnections.ConfirmOfIdOneMissed | UdpClient/UdpConnection.cs:52 | A conforming CONFIRM of id 1 does not put 1 in the list. |
| LegacyUdpConnections.ConformingReplyConfirmedSwapped | UdpClient/UdpConnection.cs:54-60 | A conforming positive REPLY opens the session from Start, but the CONFIRM sent back carries the byte-swapped id. |
| LegacyUdpConnections.MsgTwicePrintsOnce | UdpClient/UdpConnection.cs:61-74 | In Start the first MSG faults the loop and changes nothing. Once connected, the same MSG frame twice gives two CONFIRMs and one printed line. |
| LegacyUdpConnections.AuthReplyIgnoresReference | UdpClient/UdpConnection.cs:141-144 | The reference id of an auth reply makes no difference. |
| LegacyUdpConnections.NegativeReplyKeepsStart | UdpClient/UdpConnection.cs:135-139 | A negative reply leaves Start, is not recorded, and a repeated copy is reported again. |
| LegacyUdpConnections.LegacyUdpConnection.constructor | UdpClient/UdpConnection.cs:21-41 | Start, counter 0, empty list and received queue of capacity 100. |
| LegacyUdpConnections.LegacyUdpConnection.IsItNewMessage | UdpClient/UdpConnection.cs:189-192 | True exactly when the id has not been handled. |
| LegacyUdpConnections.LegacyUdpConnection.SendConfirmMessage | UdpClient/UdpConnection.cs:176-187 | Sends one CONFIRM and changes nothing else. |
| LegacyUdpConnections.LegacyUdpConnection.SendAndAwaitConfirmResponse | UdpClient/UdpConnection.cs:154-174 | The for loop ends in `Retransmitted` of the old state. |
| LegacyUdpConnections.LegacyUdpConnection.Auth | UdpClient/UdpConnection.cs:84-100 | Ends in `AfterAuth` of the old state. |
| LegacyUdpConnections.LegacyUdpConnection.SendMessage | UdpClient/UdpConnection.cs:102-112 | Ends in `AfterSendMessage` of the old state. |
| LegacyUdpConnections.LegacyUdpConnection.Rename | UdpClient/UdpConnection.cs:114-123 | Ends in `AfterRename` of the old state. |
| LegacyUdpConnections.LegacyUdpConnection.AuthReplyRetrieval | UdpClient/UdpConnection.cs:125-152 | Ends in `AfterAuthReply` of the old state. |
| LegacyUdpConnections.LegacyUdpConnection.ReceiveDatagram | UdpClient/UdpConnection.cs:43-81 | Ends as `AfterReceive` says, including the fault of a MSG in Start. |
| LegacyUdpConnections.LegacyUdpConnection.MainLoop | UdpClient/UdpConnection.cs:43-82 | The while loop ends as `AfterReceiveAll` says. |

## Left out

- Sockets: sending, receiving, connecting and closing are an outbox, an endpoint value and a flag. Use of a closed socket is not modelled.
- Concurrency: `Task.Run`, `TaskCompletionSource` and the races between the receive loop and a waiting caller are not modelled. Each handler runs as one atomic step. A caller's final `await` on the completion source is not modelled, including that the earlier engine's `Auth` never returns after a negative reply.
- Time: `Task.Delay` and the confirmation timeout are replaced by the `arrivals` oracle. The 100 ms delay before connecting is dropped.
- `Environment.Exit`: modelled as the `run` field of the live engine, not as the end of the process.
- UdpConnections.AfterTransmit: the unbounded nesting of failed sends, server errors and end of session is followed only `fuel` levels deep. Below that the state is marked `Stalled` instead of being computed.
- UdpConnections.AfterServerError: the same `fuel` bound applies.
- UdpConnections.AfterEndSession: the same `fuel` bound applies.
- UdpConnections.AfterReceiveAll: only a finite sequence of datagrams is modelled; the real loop runs until it returns.
- LegacyUdpConnections.AfterReceiveAll: only a finite sequence of datagrams is modelled.
- Encoding: non-ASCII text is not modelled. The encoders require ASCII input, because `Encoding.ASCII` would replace other characters with `?`.
- The display name is `null` until the first `Auth`. It is modelled as the empty string.
- The stream engine's `MainLoopAsync` (Tcp/TcpConnection.cs:29-35) is not modelled beyond the receiver: it dispatches parsed lines to the handlers modelled here.
- The stream engine's completion source and the `await` on it are not modelled.
- The frame-tag enumeration is not part of this model; the protocol's tag values are used.
- Command-line parsing, program wiring, the console input loop and the interfaces are not modelled.
- The other unit tests are not modelled. The datagram encoder's six pinned layouts are the `…TestVector` lemmas of `UdpMessageGenerator`.
- Regular-expression nuance: only the one the patterns use is modelled, `$` matching before a final line feed.
- LegacyUdpConnections.AfterAuth: inside the `vut_ipk1.UdpClient` namespace, the simple name `UdpMessageGenerator` at UdpClient/UdpConnection.cs:96 binds to the instance encoder (UdpClient/UdpMessageGenerator.cs) rather than to the imported static one. The static call therefore does not compile as written. The model sends the frame of the static AUTH encoder (`LegacyUdpMessageGenerator`), as the call evidently intends.
- LegacyUdpConnections.AfterSendMessage: the same name binding at UdpClient/UdpConnection.cs:110. The model uses the static MSG encoder.
- LegacyUdpConnections.LegacyUdpConnection.Auth: reconstructed as `AfterAuth` is, for the same reason.
- LegacyUdpConnections.LegacyUdpConnection.SendMessage: reconstructed as `AfterSendMessage` is, for the same reason.
- LegacyUdpConnections.LegacyUdpConnection.SendConfirmMessage: UdpClient/UdpConnection.cs:178 calls the instance encoder's `GenerateConfirmMessage` as if it were static, which does not compile either. The static encoder has no CONFIRM, so the model uses the instance encoder's layout (`LegacyUdpInstanceGenerator`).

## Findings

| source | as written | input that shows it | evidently intended | confidence | as-written member | corrected member |
|---|---|---|---|---|---|---|
| UdpClient/Messages/UdpMessageParser.cs:13 | the earlier decoder reads ids least significant byte first, while its encoder writes them most significant byte first | the MSG frame for id 1 (`04 00 01 …`) decodes as id 256 | read the id big-endian, as the current decoder does | not executed | LegacyUdpMessageParser.MsgIdOneReadsAs256 | UdpMessageParser.MsgRoundTrip |
| UdpClient/UdpConnection.cs:52 | a CONFIRM id is read least significant byte first | a conforming CONFIRM of id 1 is recorded as 256, so a sender waiting for id 1 retransmits | read the id big-endian, as the current engine does at Udp/UdpConnection.cs:52 | not executed | LegacyUdpConnections.ConfirmOfIdOneMissed | UdpConnections.ConformingConfirmRecorded |
| UdpClient/UdpMessageGenerator.cs:123 | the terminating NUL is stored at index `length - 1`, over the last character | "ab" converts to `61 00 00`; "" raises an out-of-range error | store the NUL at index `length` | not executed | LegacyUdpInstanceGenerator.ReplyLosesLastCharacter | LegacyUdpInstanceGenerator.ReplyRoundTrip |
| UdpClient/Messages/UdpMessageParser.cs:34 | a decoded field keeps its terminating NUL | the MSG frame for display name "a" and contents "b" decodes to "a\0" and "b\0"; a REPLY's contents are printed with a NUL after them | drop the terminator, as the current decoder's trim does | not executed | LegacyUdpMessageParser.FieldIncludesTerminator | UdpMessageParser.ReadConvertedField |
| Udp/UdpConnection.cs:77-92 | the receive loop awaits the ERR handler and the server-error path of an unknown frame (and, at lines 95-104, of a frame it cannot handle). Their confirmation waits need a CONFIRM that only the awaiting loop can read | in Open with id 7 next, an ERR frame 5 from "s" followed by the peer's CONFIRM of the BYE 7: the BYE goes unconfirmed, the no-response path follows, and the process does not go on running | run these handlers beside the loop, as the REPLY and MSG handlers are, so that the CONFIRM is read and the session ends cleanly | not executed | UdpConnections.ErrInOpenMissesConfirm | UdpConnections.HeardErrEndsSession |
