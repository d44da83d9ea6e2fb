/**
 * The earlier datagram protocol engine: authentication from Start only,
 * messages and renames in Open only, a receive loop that records CONFIRM
 * ids, answers the first REPLY and prints each MSG once, and a sender that
 * retransmits until its id has been confirmed.
 *
 * Confirmed ids are kept in an unbounded list, appended to by the receive
 * loop and claimed (first occurrence removed) by a waiting sender; when no
 * confirmation comes after `1 + maxRetransmissions` sends, the sender gives
 * up without a word. The state never reaches Auth or End.
 *
 * As in the current engine, `LegacyState` and the `After…` functions say
 * what each operation leaves behind, and the class `LegacyUdpConnection`
 * does the work step by step. The socket is an outbox of datagrams, a
 * connect records the endpoint, the console is a log of lines, and each
 * handler runs as one atomic step. The receive loop that runs beside a
 * waiting sender is replaced by `arrivals`: entry k lists the CONFIRM ids it
 * records during the k-th confirmation wait from now on.
 */
module LegacyUdpConnections {
  import opened Common
  import opened FixedSizeQueues
  import UdpMessageGenerator
  import P = UdpMessageParser
  import LegacyUdpMessageGenerator
  import LegacyUdpMessageParser
  import LegacyUdpInstanceGenerator

  /** Capacity of the received-id queue. */
  const ReceivedCapacity := 100

  /** The receive loop: still receiving, returned after BYE, or ended by an exception. */
  datatype Loop = Receiving | Returned | Faulted(error: Error)

  /** The fixed parameters: the server endpoint and the retransmission count. */
  datatype Config = Config(server: Endpoint, maxRetransmissions: nat)

  /** A datagram as the receive loop gets it: the bytes and the sender's endpoint. */
  datatype Inbound = Inbound(bytes: seq<byte>, from: Endpoint)

  datatype LegacyState = LegacyState(
    fsmState: FsmState,
    displayName: string,
    messageCounter: ushort,
    awaited: seq<ushort>,           // confirmed ids no sender has claimed yet, in arrival order
    received: seq<ushort>,          // ids of messages already handled, oldest first
    outbox: seq<Datagram>,
    connectedTo: Option<Endpoint>,
    disposed: bool,
    log: seq<Line>,
    arrivals: seq<seq<ushort>>)

  /** The engine is in one of the two states it can reach. */
  predicate Reachable(c: LegacyState) {
    c.fsmState == Start || c.fsmState == Open
  }

  function Logged(c: LegacyState, line: Line): LegacyState {
    c.(log := c.log + [line])
  }

  function Sent(c: LegacyState, bytes: seq<byte>, to: Option<Endpoint>): LegacyState {
    c.(outbox := c.outbox + [Datagram(bytes, to)])
  }

  /** `SendConfirmMessage`: a CONFIRM for `id` in the instance encoder's layout, sent at once. */
  function Confirmed(c: LegacyState, id: ushort, to: Option<Endpoint>): LegacyState {
    Sent(c, LegacyUdpInstanceGenerator.GenerateConfirmMessage(id), to)
  }

  /** One confirmation timeout: the CONFIRM ids recorded meanwhile are appended to the list. */
  function Waited(c: LegacyState): LegacyState {
    if c.arrivals == [] then c
    else c.(awaited := c.awaited + c.arrivals[0], arrivals := c.arrivals[1..])
  }

  /** `n` confirmation timeouts in a row. */
  function AfterWaits(c: LegacyState, n: nat): LegacyState
    decreases n
  {
    if n == 0 then c else AfterWaits(Waited(c), n - 1)
  }

  /** `List.Remove`: the list without the first occurrence of `x`, if there is one. */
  function RemoveFirst<T(==)>(s: seq<T>, x: T): (r: seq<T>)
    ensures x !in s ==> r == s
    ensures x in s ==> |r| + 1 == |s| && multiset(r) + multiset{x} == multiset(s)
  {
    if s == [] then []
    else
      assert s == [s[0]] + s[1..];
      if s[0] == x then s[1..] else [s[0]] + RemoveFirst(s[1..], x)
  }

  /**
   * The retransmission loop of `SendAndAwaitConfirmResponse` from attempt
   * `i` on: send, wait, and stop as soon as `id` is in the list, removing it.
   * The flag says whether it was found; running out ends the loop silently.
   */
  function Retransmitted(cfg: Config, c: LegacyState, message: seq<byte>, id: ushort, to: Option<Endpoint>, i: nat)
    : (LegacyState, bool)
    requires i <= 1 + cfg.maxRetransmissions
    decreases 1 + cfg.maxRetransmissions - i
  {
    if i == 1 + cfg.maxRetransmissions then (c, false)
    else
      var next := Waited(Sent(c, message, to));
      if id in next.awaited then (next.(awaited := RemoveFirst(next.awaited, id)), true)
      else Retransmitted(cfg, next, message, id, to, i + 1)
  }

  /**
   * `Auth`: refused outside Start; otherwise the display name is recorded
   * and an AUTH frame with the current counter goes to the server, the
   * counter having been advanced before the sending starts. The frame is
   * the static encoder's: the engine's call names that encoder by a name
   * its namespace binds to the instance encoder.
   */
  function AfterAuth(cfg: Config, c: LegacyState, username: string, displayName: string, secret: string)
    : (r: LegacyState)
    requires IsAscii(username) && IsAscii(displayName) && IsAscii(secret)
    ensures c.fsmState != Start ==> r == Logged(c, Out(AuthInWrongState))
    ensures c.fsmState == Start ==>
              (r.fsmState == Start && r.displayName == displayName
               && r.messageCounter == Increment(c.messageCounter) && r.log == c.log
               && |r.outbox| > |c.outbox|
               && r.outbox[|c.outbox|] == Datagram(LegacyUdpMessageGenerator.GenerateAuthMessage(
                                                     c.messageCounter, username, displayName, secret), Some(cfg.server)))
  {
    if c.fsmState != Start then Logged(c, Out(AuthInWrongState))
    else
      var authMessage := LegacyUdpMessageGenerator.GenerateAuthMessage(c.messageCounter, username, displayName, secret);
      var sending := c.(displayName := displayName, messageCounter := Increment(c.messageCounter));
      var to := Some(cfg.server);
      RetransmissionLaw(cfg, sending, authMessage, c.messageCounter, to, 0);
      RetransmittedKeeps(cfg, sending, authMessage, c.messageCounter, to, 0);
      Retransmitted(cfg, sending, authMessage, c.messageCounter, to, 0).0
  }

  /**
   * `SendMessage`: refused outside Open; otherwise a MSG frame with the
   * current counter, then the counter advances. The frame is the static
   * encoder's, as for `AfterAuth`.
   */
  function AfterSendMessage(cfg: Config, c: LegacyState, message: string): (r: LegacyState)
    requires IsAscii(c.displayName) && IsAscii(message)
    ensures c.fsmState != Open ==> r == Logged(c, Out(SendMessageInWrongState))
    ensures c.fsmState == Open ==>
              (r.fsmState == Open && r.displayName == c.displayName
               && r.messageCounter == Increment(c.messageCounter) && r.log == c.log
               && |r.outbox| > |c.outbox|
               && r.outbox[|c.outbox|] == Datagram(LegacyUdpMessageGenerator.GenerateMsgMessage(
                                                     c.messageCounter, c.displayName, message), None))
  {
    if c.fsmState != Open then Logged(c, Out(SendMessageInWrongState))
    else
      var messageToSend := LegacyUdpMessageGenerator.GenerateMsgMessage(c.messageCounter, c.displayName, message);
      var sending := c.(messageCounter := Increment(c.messageCounter));
      RetransmissionLaw(cfg, sending, messageToSend, c.messageCounter, None, 0);
      RetransmittedKeeps(cfg, sending, messageToSend, c.messageCounter, None, 0);
      Retransmitted(cfg, sending, messageToSend, c.messageCounter, None, 0).0
  }

  /** `Rename`: refused outside Open; otherwise only the display name changes. */
  function AfterRename(c: LegacyState, newDisplayName: string): (r: LegacyState)
    ensures c.fsmState != Open ==> r == Logged(c, Out(RenameInWrongState))
    ensures c.fsmState == Open ==> r == c.(displayName := newDisplayName)
  {
    if c.fsmState != Open then Logged(c, Out(RenameInWrongState))
    else c.(displayName := newDisplayName)
  }

  /**
   * `AuthReplyRetrieval`: the REPLY is confirmed to its sender; a repeated
   * id has no further effect; a negative reply is reported and nothing else
   * changes; a positive one is reported, its id recorded, the socket
   * connected to the sender and the session opened. The reference id is
   * not looked at.
   */
  function AfterAuthReply(c: LegacyState, messageId: ushort, result: bool, refMessageId: ushort,
                          messageContents: string, from: Endpoint): (r: LegacyState)
    ensures r.outbox == c.outbox + [Datagram(LegacyUdpInstanceGenerator.GenerateConfirmMessage(messageId), Some(from))]
    ensures messageId in c.received ==> r == c.(outbox := r.outbox)
    ensures messageId !in c.received && !result ==>
              r == c.(outbox := r.outbox, log := c.log + [Line.Err("Failure: " + messageContents)])
    ensures messageId !in c.received && result ==>
              (r.fsmState == Open && r.connectedTo == Some(from) && messageId in r.received
               && r.log == c.log + [Out("Success: " + messageContents)])
  {
    var confirmed := Confirmed(c, messageId, Some(from));
    if messageId in c.received then confirmed
    else if !result then Logged(confirmed, Line.Err("Failure: " + messageContents))
    else
      var logged := Logged(confirmed, Out("Success: " + messageContents));
      EnqueuedContains(logged.received, ReceivedCapacity, messageId);
      logged.(received := Enqueued(logged.received, ReceivedCapacity, messageId), connectedTo := Some(from),
              fsmState := Open)
  }

  /**
   * An inbound MSG, handled inside the receive loop: always confirmed;
   * printed and recorded only when its id is new. In Start the CONFIRM,
   * sent without an endpoint on a socket not yet connected, throws and
   * ends the loop with nothing changed.
   */
  function AfterMsg(c: LegacyState, messageId: ushort, displayName: string, messageContents: string)
    : (r: (LegacyState, Loop))
    ensures c.fsmState == Start <==> r.1 != Receiving
    ensures c.fsmState == Start ==> r == (c, Faulted(SocketNotConnected))
    ensures c.fsmState != Start ==>
              r.0.outbox == c.outbox + [Datagram(LegacyUdpInstanceGenerator.GenerateConfirmMessage(messageId), None)]
              && messageId in r.0.received
    ensures c.fsmState != Start && messageId in c.received ==> r.0 == c.(outbox := r.0.outbox)
    ensures c.fsmState != Start && messageId !in c.received ==>
              r.0.log == c.log + [Out(displayName + ": " + messageContents)]
    ensures r.0.fsmState == c.fsmState && r.0.awaited == c.awaited
  {
    var confirmed := Confirmed(c, messageId, None);
    if c.fsmState == Start then (c, Faulted(SocketNotConnected))
    else if messageId in c.received then (confirmed, Receiving)
    else
      EnqueuedContains(c.received, ReceivedCapacity, messageId);
      (Logged(confirmed.(received := Enqueued(c.received, ReceivedCapacity, messageId)),
              Out(displayName + ": " + messageContents)), Receiving)
  }

  /**
   * One pass of the receive loop. An empty datagram, a CONFIRM shorter than
   * three bytes, a frame the decoder rejects and a MSG in Start (its
   * CONFIRM, sent without an endpoint, needs the socket connected) raise
   * exceptions that end the loop. A CONFIRM id is read least significant byte first and
   * appended to the list. A REPLY is handled only in Start. BYE closes the
   * socket and returns; every other frame is ignored.
   */
  function AfterReceive(c: LegacyState, message: seq<byte>, from: Endpoint): (r: (LegacyState, Loop))
    ensures message == [] ==> r == (c, Faulted(IndexOutOfRange))
    ensures r.1.Returned? <==> message != [] && message[0] == BYE
    ensures r.1.Returned? ==> r.0 == c.(disposed := true)
    ensures r.1.Faulted? ==> r.0 == c
    ensures message != [] && message[0] == CONFIRM && |message| >= 3 ==>
              r == (c.(awaited := c.awaited + [ReadLittleEndian(message[1..3])]), Receiving)
    ensures message != [] && message[0] == MSG ==>
              match LegacyUdpMessageParser.ParseMsgMessage(message)
              case Failure(e) => r == (c, Faulted(e))
              case Success(m) => r == AfterMsg(c, m.messageId, m.displayName, m.messageContents)
    ensures message != [] && !IsTag(message[0]) ==> r == (c, Receiving)
    ensures message != [] && (message[0] in {AUTH, JOIN, ERR} || (message[0] == REPLY && c.fsmState != Start)) ==>
              r == (c, Receiving)
    ensures Reachable(c) ==> Reachable(r.0)
  {
    if |message| == 0 then (c, Faulted(IndexOutOfRange))
    else if message[0] == CONFIRM then
      if |message| < 3 then (c, Faulted(ArgumentOutOfRange))
      else (c.(awaited := c.awaited + [ReadLittleEndian(message[1..3])]), Receiving)
    else if message[0] == REPLY && c.fsmState == Start then
      match LegacyUdpMessageParser.ParseReplyMessage(message)
      case Failure(e) => (c, Faulted(e))
      case Success(m) =>
        (AfterAuthReply(c, m.messageId, m.result, m.refMessageId, m.messageContents, from), Receiving)
    else if message[0] == MSG then
      match LegacyUdpMessageParser.ParseMsgMessage(message)
      case Failure(e) => (c, Faulted(e))
      case Success(m) => AfterMsg(c, m.messageId, m.displayName, m.messageContents)
    else if message[0] == BYE then (c.(disposed := true), Returned)
    else (c, Receiving)
  }

  /**
   * `MainLoopAsync` over the datagrams `frames`, in order, until the loop
   * returns, faults, or the datagrams are used up.
   */
  function AfterReceiveAll(c: LegacyState, frames: seq<Inbound>): (r: (LegacyState, Loop))
    ensures r.1.Returned? ==> r.0.disposed
    ensures Reachable(c) ==> Reachable(r.0)
    ensures c.log <= r.0.log && c.outbox <= r.0.outbox
    ensures frames == [] ==> r == (c, Receiving)
    decreases |frames|
  {
    if frames == [] then (c, Receiving)
    else
      var (next, loop) := AfterReceive(c, frames[0].bytes, frames[0].from);
      if loop.Receiving? then AfterReceiveAll(next, frames[1..]) else (next, loop)
  }

  /** Waiting does not look at the outbox. */
  lemma {:induction false} WaitsIgnoreOutbox(c: LegacyState, outbox: seq<Datagram>, n: nat)
    ensures AfterWaits(c.(outbox := outbox), n) == AfterWaits(c, n).(outbox := outbox)
    decreases n
  {
    if n > 0 {
      assert Waited(c.(outbox := outbox)) == Waited(c).(outbox := outbox);
      WaitsIgnoreOutbox(Waited(c), outbox, n - 1);
    }
  }

  /** The retransmission loop changes only the outbox, the list and the arrivals. */
  lemma {:induction false} RetransmittedKeeps(cfg: Config, c: LegacyState, message: seq<byte>, id: ushort,
                                              to: Option<Endpoint>, i: nat)
    requires i <= 1 + cfg.maxRetransmissions
    ensures var r := Retransmitted(cfg, c, message, id, to, i).0;
            r == c.(outbox := r.outbox, awaited := r.awaited, arrivals := r.arrivals)
    decreases 1 + cfg.maxRetransmissions - i
  {
    if i < 1 + cfg.maxRetransmissions {
      var next := Waited(Sent(c, message, to));
      if id !in next.awaited {
        RetransmittedKeeps(cfg, next, message, id, to, i + 1);
      }
    }
  }

  /**
   * The retransmission loop from attempt `i`: it sends the frame k times,
   * 1 <= k <= 1 + maxRetransmissions - i, waiting after each send; `id` is
   * in none of the lists after the first k - 1 waits. Confirmed, the list is
   * the one after k waits with one `id` removed; unconfirmed, it sent all
   * 1 + maxRetransmissions - i copies, `id` is absent, and nothing but the
   * waits and the sends has happened.
   */
  lemma {:induction false} RetransmissionLaw(cfg: Config, c: LegacyState, message: seq<byte>, id: ushort,
                                             to: Option<Endpoint>, i: nat)
    requires i < 1 + cfg.maxRetransmissions
    ensures var (r, confirmed) := Retransmitted(cfg, c, message, id, to, i);
            var k := |r.outbox| - |c.outbox|;
            1 <= k <= 1 + cfg.maxRetransmissions - i
            && r.outbox == c.outbox + Repeat(Datagram(message, to), k)
            && (forall j :: 1 <= j < k ==> id !in AfterWaits(c, j).awaited)
            && (confirmed ==> (id in AfterWaits(c, k).awaited
                  && r == AfterWaits(c, k).(outbox := r.outbox, awaited := RemoveFirst(AfterWaits(c, k).awaited, id))))
            && (!confirmed ==> (k == 1 + cfg.maxRetransmissions - i
                  && id !in AfterWaits(c, k).awaited && r == AfterWaits(c, k).(outbox := r.outbox)))
    decreases 1 + cfg.maxRetransmissions - i
  {
    var d := Datagram(message, to);
    var next := Waited(Sent(c, message, to));
    assert next == Waited(c).(outbox := c.outbox + [d]);
    if id in next.awaited || i + 1 == 1 + cfg.maxRetransmissions {
      assert AfterWaits(c, 1) == Waited(c);
      assert Repeat(d, 1) == [d];
      if id in next.awaited {
        assert Retransmitted(cfg, c, message, id, to, i) == (next.(awaited := RemoveFirst(next.awaited, id)), true);
      } else {
        assert Retransmitted(cfg, c, message, id, to, i) == (next, false);
      }
    } else {
      assert Retransmitted(cfg, c, message, id, to, i) == Retransmitted(cfg, next, message, id, to, i + 1);
      RetransmissionLaw(cfg, next, message, id, to, i + 1);
      var (r, confirmed) := Retransmitted(cfg, next, message, id, to, i + 1);
      RetransmissionShift(c, d, id, r, |r.outbox| - |next.outbox|);
    }
  }

  /** One send and wait in front of `k` more is `k + 1` sends and waits from the earlier state. */
  lemma RetransmissionShift(c: LegacyState, d: Datagram, id: ushort, r: LegacyState, k: nat)
    requires r.outbox == c.outbox + [d] + Repeat(d, k)
    requires id !in Waited(c).awaited
    requires forall j :: 1 <= j < k ==> id !in AfterWaits(Waited(c).(outbox := c.outbox + [d]), j).awaited
    ensures r.outbox == c.outbox + Repeat(d, k + 1)
    ensures forall j :: 1 <= j < k + 1 ==> id !in AfterWaits(c, j).awaited
    ensures AfterWaits(Waited(c).(outbox := c.outbox + [d]), k) == AfterWaits(c, k + 1).(outbox := c.outbox + [d])
  {
    WaitsIgnoreOutbox(Waited(c), c.outbox + [d], k);
    assert c.outbox + [d] + Repeat(d, k) == c.outbox + Repeat(d, k + 1);
    forall j | 1 < j < k + 1 ensures id !in AfterWaits(c, j).awaited {
      WaitsIgnoreOutbox(Waited(c), c.outbox + [d], j - 1);
    }
  }

  /**
   * A stale confirmation, already in the list when sending starts, is taken
   * as the confirmation of the new frame after its first send.
   */
  lemma StaleConfirmationSatisfiesWait(cfg: Config, c: LegacyState, message: seq<byte>, id: ushort,
                                       to: Option<Endpoint>)
    requires id in c.awaited
    ensures var (r, confirmed) := Retransmitted(cfg, c, message, id, to, 0);
            confirmed && r.outbox == c.outbox + [Datagram(message, to)]
  {
    assert id in Waited(Sent(c, message, to)).awaited;
  }

  /**
   * A CONFIRM laid out as the protocol prescribes, id high byte first, is
   * recorded under the byte-swapped id.
   */
  lemma ConformingConfirmRecordedSwapped(c: LegacyState, id: ushort, from: Endpoint)
    ensures AfterReceive(c, UdpMessageGenerator.GenerateConfirmMessage(id), from)
            == (c.(awaited := c.awaited + [ByteSwap(id)]), Receiving)
  {
    var frame := UdpMessageGenerator.GenerateConfirmMessage(id);
    assert frame[1..3] == BigEndian(id);
    ReadLittleEndianOfBigEndian(id);
  }

  /**
   * So a sender waiting for id 1 does not take a conforming CONFIRM of id 1
   * as its confirmation: the list holds 256 instead.
   */
  lemma ConfirmOfIdOneMissed(c: LegacyState, from: Endpoint)
    requires 1 !in c.awaited
    ensures 1 !in AfterReceive(c, UdpMessageGenerator.GenerateConfirmMessage(1), from).0.awaited
  {
    ConformingConfirmRecordedSwapped(c, 1, from);
    assert ByteSwap(1) == 256;
  }

  /**
   * A positive REPLY laid out as the protocol prescribes opens the session
   * from Start, but the CONFIRM sent back carries the byte-swapped id.
   */
  lemma {:induction false} ConformingReplyConfirmedSwapped(c: LegacyState, id: ushort, refId: ushort,
                                                           contents: string, from: Endpoint)
    requires c.fsmState == Start && IsAscii(contents) && UdpMessageGenerator.NoNul(contents)
    requires ByteSwap(id) !in c.received
    ensures var (r, loop) := AfterReceive(c, LegacyUdpInstanceGenerator.GenerateReplyMessageCorrected(id, true, refId, contents), from);
            loop == Receiving && r.fsmState == Open && r.connectedTo == Some(from)
            && r.outbox == c.outbox + [Datagram(UdpMessageGenerator.GenerateConfirmMessage(ByteSwap(id)), Some(from))]
  {
    LegacyUdpInstanceGenerator.ReplyDecodedByLegacyParser(id, true, refId, contents);
  }

  /**
   * The same MSG frame twice: two CONFIRMs, one printed line, once the
   * socket is connected; before that the first one ends the loop.
   */
  lemma MsgTwicePrintsOnce(c: LegacyState, frame: seq<byte>, from: Endpoint)
    requires LegacyUdpMessageParser.ParseMsgMessage(frame).Success?
    requires frame[0] == MSG
    requires LegacyUdpMessageParser.ParseMsgMessage(frame).value.messageId !in c.received
    ensures c.fsmState == Start ==> AfterReceive(c, frame, from) == (c, Faulted(SocketNotConnected))
    ensures var once := AfterReceive(c, frame, from).0;
            var twice := AfterReceive(once, frame, from).0;
            c.fsmState != Start ==> |twice.outbox| == |c.outbox| + 2 && |twice.log| == |c.log| + 1
  {
  }

  /** The reference id of an authentication reply makes no difference. */
  lemma AuthReplyIgnoresReference(c: LegacyState, messageId: ushort, result: bool, ref1: ushort, ref2: ushort,
                                  messageContents: string, from: Endpoint)
    ensures AfterAuthReply(c, messageId, result, ref1, messageContents, from)
            == AfterAuthReply(c, messageId, result, ref2, messageContents, from)
  {
  }

  /**
   * A negative reply leaves the session in Start, where `Auth` may be tried
   * again; it is not recorded, so a retransmitted copy is reported again.
   */
  lemma NegativeReplyKeepsStart(c: LegacyState, messageId: ushort, refMessageId: ushort, messageContents: string,
                                from: Endpoint)
    requires c.fsmState == Start && messageId !in c.received
    ensures var once := AfterAuthReply(c, messageId, false, refMessageId, messageContents, from);
            var twice := AfterAuthReply(once, messageId, false, refMessageId, messageContents, from);
            once.fsmState == Start && twice.fsmState == Start && |twice.log| == |c.log| + 2
  {
  }

  class LegacyUdpConnection {
    const server: Endpoint
    const maxRetransmissions: nat
    var messageCounter: ushort
    var fsmState: FsmState
    var displayName: string
    /** The CONFIRM ids recorded and not yet claimed. */
    var awaitedMessages: seq<ushort>
    /** Ids of the messages already handled, for deduplication. */
    const receivedMessages: FixedSizeQueue<ushort>
    var outbox: seq<Datagram>
    var connectedTo: Option<Endpoint>
    var disposed: bool
    var log: seq<Line>
    var arrivals: seq<seq<ushort>>

    function Cfg(): Config {
      Config(server, maxRetransmissions)
    }

    function State(): LegacyState
      reads this, receivedMessages
    {
      LegacyState(fsmState, displayName, messageCounter, awaitedMessages, receivedMessages.items, outbox,
                  connectedTo, disposed, log, arrivals)
    }

    ghost predicate Valid()
      reads this, receivedMessages
    {
      receivedMessages.Valid() && receivedMessages.maxSize == ReceivedCapacity && Reachable(State())
    }

    constructor (server: Endpoint, maxRetransmissions: nat, arrivals: seq<seq<ushort>>)
      ensures Valid() && fresh(receivedMessages)
      ensures Cfg() == Config(server, maxRetransmissions)
      ensures State() == LegacyState(Start, "", 0, [], [], [], None, false, [], arrivals)
    {
      this.server := server;
      this.maxRetransmissions := maxRetransmissions;
      messageCounter := 0;
      fsmState := Start;
      displayName := "";
      awaitedMessages := [];
      receivedMessages := new FixedSizeQueue(ReceivedCapacity);
      outbox := [];
      connectedTo := None;
      disposed := false;
      log := [];
      this.arrivals := arrivals;
    }

    /** Whether `messageId` has not been handled yet. */
    function IsItNewMessage(messageId: ushort): (r: bool)
      reads this, receivedMessages
      ensures r <==> messageId !in State().received
    {
      !receivedMessages.Contains(messageId)
    }

    method SendConfirmMessage(messageId: ushort, endPoint: Option<Endpoint>)
      modifies this
      ensures State() == Confirmed(old(State()), messageId, endPoint)
    {
      var confirmMessage := LegacyUdpInstanceGenerator.GenerateConfirmMessage(messageId);
      outbox := outbox + [Datagram(confirmMessage, endPoint)];
    }

    /** One confirmation timeout, during which the receive loop records the CONFIRMs that arrive. */
    method Wait()
      modifies this
      ensures State() == Waited(old(State()))
    {
      if arrivals != [] {
        awaitedMessages := awaitedMessages + arrivals[0];
        arrivals := arrivals[1..];
      }
    }

    method SendAndAwaitConfirmResponse(message: seq<byte>, messageId: ushort, endPoint: Option<Endpoint>)
      requires Valid()
      modifies this
      ensures Valid()
      ensures State() == Retransmitted(Cfg(), old(State()), message, messageId, endPoint, 0).0
    {
      ghost var start := State();
      ghost var target := Retransmitted(Cfg(), start, message, messageId, endPoint, 0);
      RetransmittedKeeps(Cfg(), start, message, messageId, endPoint, 0);
      for i := 0 to 1 + maxRetransmissions
        invariant Valid()
        invariant Retransmitted(Cfg(), State(), message, messageId, endPoint, i) == target
      {
        ghost var before := State();
        outbox := outbox + [Datagram(message, endPoint)];
        Wait();
        assert State() == Waited(Sent(before, message, endPoint));
        if messageId in awaitedMessages {
          awaitedMessages := RemoveFirst(awaitedMessages, messageId);
          return;
        }
      }
    }

    method Auth(username: string, displayName: string, secret: string)
      requires Valid() && IsAscii(username) && IsAscii(displayName) && IsAscii(secret)
      modifies this
      ensures Valid()
      ensures State() == AfterAuth(Cfg(), old(State()), username, displayName, secret)
    {
      if fsmState != Start {
        log := log + [Out(AuthInWrongState)];
        return;
      }
      this.displayName := displayName;
      var authMessage := LegacyUdpMessageGenerator.GenerateAuthMessage(messageCounter, username, displayName, secret);
      var id := messageCounter;
      messageCounter := Increment(messageCounter);
      SendAndAwaitConfirmResponse(authMessage, id, Some(server));
    }

    method SendMessage(message: string)
      requires Valid() && IsAscii(displayName) && IsAscii(message)
      modifies this
      ensures Valid()
      ensures State() == AfterSendMessage(Cfg(), old(State()), message)
    {
      if fsmState != Open {
        log := log + [Out(SendMessageInWrongState)];
        return;
      }
      var messageToSend := LegacyUdpMessageGenerator.GenerateMsgMessage(messageCounter, displayName, message);
      var id := messageCounter;
      messageCounter := Increment(messageCounter);
      SendAndAwaitConfirmResponse(messageToSend, id, None);
    }

    method Rename(newDisplayName: string)
      requires Valid()
      modifies this
      ensures Valid()
      ensures State() == AfterRename(old(State()), newDisplayName)
    {
      if fsmState != Open {
        log := log + [Out(RenameInWrongState)];
        return;
      }
      displayName := newDisplayName;
    }

    method AuthReplyRetrieval(messageId: ushort, result: bool, refMessageId: ushort, messageContents: string,
                              endPoint: Endpoint)
      requires Valid()
      modifies this, receivedMessages
      ensures Valid()
      ensures State() == AfterAuthReply(old(State()), messageId, result, refMessageId, messageContents, endPoint)
    {
      SendConfirmMessage(messageId, Some(endPoint));
      if !IsItNewMessage(messageId) {
        return;
      }
      if !result {
        log := log + [Line.Err("Failure: " + messageContents)];
        return;
      }
      log := log + [Out("Success: " + messageContents)];
      receivedMessages.Enqueue(messageId);
      connectedTo := Some(endPoint);
      fsmState := Open;
    }

    /** One pass of the receive loop. */
    method ReceiveDatagram(message: seq<byte>, from: Endpoint) returns (loop: Loop)
      requires Valid()
      modifies this, receivedMessages
      ensures Valid()
      ensures (State(), loop) == AfterReceive(old(State()), message, from)
    {
      if |message| == 0 {
        return Faulted(IndexOutOfRange);
      }
      if message[0] == CONFIRM {
        if |message| < 3 {
          return Faulted(ArgumentOutOfRange);
        }
        awaitedMessages := awaitedMessages + [ReadLittleEndian(message[1..3])];
        return Receiving;
      }
      if message[0] == REPLY && fsmState == Start {
        var parsed := LegacyUdpMessageParser.ParseReplyMessage(message);
        if parsed.Failure? {
          return Faulted(parsed.error);
        }
        var m := parsed.value;
        AuthReplyRetrieval(m.messageId, m.result, m.refMessageId, m.messageContents, from);
        return Receiving;
      }
      if message[0] == MSG {
        var parsed := LegacyUdpMessageParser.ParseMsgMessage(message);
        if parsed.Failure? {
          return Faulted(parsed.error);
        }
        var m := parsed.value;
        if fsmState == Start {
          return Faulted(SocketNotConnected);
        }
        SendConfirmMessage(m.messageId, None);
        if receivedMessages.Contains(m.messageId) {
          return Receiving;
        }
        receivedMessages.Enqueue(m.messageId);
        log := log + [Out(m.displayName + ": " + m.messageContents)];
        return Receiving;
      }
      if message[0] == BYE {
        disposed := true;
        return Returned;
      }
      return Receiving;
    }

    /** The receive loop over `frames`, until it returns, faults, or the datagrams run out. */
    method MainLoop(frames: seq<Inbound>) returns (loop: Loop)
      requires Valid()
      modifies this, receivedMessages
      ensures Valid()
      ensures (State(), loop) == AfterReceiveAll(old(State()), frames)
    {
      loop := Receiving;
      var i := 0;
      while i < |frames| && loop.Receiving?
        invariant 0 <= i <= |frames| && Valid()
        invariant loop.Receiving? ==> AfterReceiveAll(State(), frames[i..]) == AfterReceiveAll(old(State()), frames)
        invariant !loop.Receiving? ==> (State(), loop) == AfterReceiveAll(old(State()), frames)
        decreases |frames| - i
      {
        ghost var before := State();
        assert frames[i..][0] == frames[i] && frames[i..][1..] == frames[i + 1..];
        loop := ReceiveDatagram(frames[i].bytes, frames[i].from);
        i := i + 1;
      }
      if loop.Receiving? {
        assert frames[i..] == [];
      }
    }
  }
}
