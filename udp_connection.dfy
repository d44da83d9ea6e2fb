/**
 * The datagram (UDP) variant of the client's protocol engine: the
 * connection state machine, the message-id counter, reply correlation,
 * deduplication of received ids, the retransmission loop and the end of
 * the session.
 *
 * The engine is given twice. `ConnectionState` and the `After…` functions
 * are the reference: each says what state one operation leaves behind. The
 * class `UdpConnection` holds the same fields and its methods do the work
 * step by step, each proved to end in the state its function names.
 *
 * The socket is an outbox of datagrams; a connect records the endpoint; the
 * console is a log of lines; `Environment.Exit` is the `run` field. Each
 * handler runs as one atomic step. The receive loop that runs beside a
 * waiting sender is replaced by `arrivals`: entry k lists the CONFIRM ids
 * taken in during the k-th confirmation wait from now on, and once it is
 * used up the peer stays silent. The handlers the receive loop awaits (an
 * ERR, an unknown frame, the exception handler) run while the loop reads
 * nothing, so their waits take in no CONFIRM (`Suspended`). Until the
 * socket is connected, which happens exactly when the state leaves Start,
 * a send without an endpoint throws; the model follows each such exception
 * to where it is caught. An unconfirmed message leads to an error
 * frame that must itself be confirmed, and so on without bound; `fuel`
 * bounds how many of these nested error rounds are followed (`Stalled`).
 */
module UdpConnections {
  import opened Common
  import opened FixedSizeQueues
  import UdpMessageGenerator
  import UdpMessageParser

  /** Capacity of both id queues. */
  const QueueCapacity := 200

  /** Whether the process still runs, has exited, or the model stopped following it. */
  datatype Run = Running | Exited(code: int) | Stalled

  /** The fixed parameters: the server endpoint and the retransmission count. */
  datatype Config = Config(server: Endpoint, maxRetransmissions: nat)

  datatype ConnectionState = ConnectionState(
    fsmState: FsmState,
    displayName: string,
    messageCounter: ushort,
    currentlyWaitingForId: ushort,
    awaited: seq<ushort>,           // ids confirmed by the peer, oldest first
    received: seq<ushort>,          // ids of messages already handled, oldest first
    outbox: seq<Datagram>,
    connectedTo: Option<Endpoint>,
    closed: bool,
    log: seq<Line>,
    run: Run,
    arrivals: seq<seq<ushort>>)

  /** A state the engine can act in: the process runs and the display name encodes. */
  predicate Live(c: ConnectionState) {
    c.run.Running? && IsAscii(c.displayName)
  }

  lemma ServerErrorTextIsAscii()
    ensures IsAscii(ServerErrorText)
  {
  }

  function Logged(c: ConnectionState, line: Line): ConnectionState {
    c.(log := c.log + [line])
  }

  function Sent(c: ConnectionState, bytes: seq<byte>, to: Option<Endpoint>): ConnectionState {
    c.(outbox := c.outbox + [Datagram(bytes, to)])
  }

  /** `SendConfirmMessage`: a CONFIRM for `id`, sent at once. */
  function Confirmed(c: ConnectionState, id: ushort, to: Option<Endpoint>): ConnectionState {
    Sent(c, UdpMessageGenerator.GenerateConfirmMessage(id), to)
  }

  /** One confirmation timeout: the CONFIRM ids that arrive meanwhile join the awaited queue. */
  function Waited(c: ConnectionState): ConnectionState {
    if c.arrivals == [] then c
    else c.(awaited := EnqueuedAll(c.awaited, QueueCapacity, c.arrivals[0]), arrivals := c.arrivals[1..])
  }

  /** `n` confirmation timeouts in a row. */
  function AfterWaits(c: ConnectionState, n: nat): ConnectionState
    decreases n
  {
    if n == 0 then c else AfterWaits(Waited(c), n - 1)
  }

  /**
   * The state a handler awaited by the receive loop runs in: the loop reads
   * no datagram until the handler returns, so no CONFIRM arrives meanwhile.
   */
  function Suspended(c: ConnectionState): ConnectionState {
    c.(arrivals := [])
  }

  /**
   * The retransmission loop of `SendAndAwaitConfirmResponse` from attempt
   * `i` on: send, wait, stop as soon as `id` is confirmed. The flag says
   * whether it was.
   */
  function Retransmitted(cfg: Config, c: ConnectionState, message: seq<byte>, id: ushort, to: Option<Endpoint>, i: nat)
    : (ConnectionState, bool)
    requires i <= 1 + cfg.maxRetransmissions
    decreases 1 + cfg.maxRetransmissions - i
  {
    if i == 1 + cfg.maxRetransmissions then (c, false)
    else
      var next := Waited(Sent(c, message, to));
      if id in next.awaited then (next, true)
      else Retransmitted(cfg, next, message, id, to, i + 1)
  }

  /**
   * `SendAndAwaitConfirmResponse`: the retransmission loop; when it runs out,
   * the no-response line, the server-error path and exit code 1.
   */
  function AfterTransmit(cfg: Config, c: ConnectionState, message: seq<byte>, id: ushort, to: Option<Endpoint>, fuel: nat)
    : (r: ConnectionState)
    requires Live(c)
    ensures r.displayName == c.displayName
    ensures c.outbox + [Datagram(message, to)] <= r.outbox && c.log <= r.log
    ensures r.run.Running? <==> Retransmitted(cfg, c, message, id, to, 0).1
    ensures r.run.Running? ==> r == Retransmitted(cfg, c, message, id, to, 0).0
    ensures !r.run.Running? ==> Err(NoResponseText) in r.log
    decreases fuel, 0
  {
    RetransmittedSends(cfg, c, message, id, to, 0);
    RetransmittedKeeps(cfg, c, message, id, to, 0);
    var (next, confirmed) := Retransmitted(cfg, c, message, id, to, 0);
    if confirmed then next
    else
      var failed := Logged(next, Err(NoResponseText));
      assert Err(NoResponseText) in failed.log by { assert failed.log[|failed.log| - 1] == Err(NoResponseText); }
      if fuel == 0 then failed.(run := Stalled)
      else
        var after := AfterServerError(cfg, failed, fuel - 1);
        assert Err(NoResponseText) in after.log by { PrefixMember(failed.log, after.log, Err(NoResponseText)); }
        if after.run.Running? then after.(run := Exited(1)) else after
  }

  /** `AfterTransmit` when the retransmission loop ends with the confirmation in state `next`. */
  lemma TransmitConfirmed(cfg: Config, c: ConnectionState, message: seq<byte>, id: ushort, to: Option<Endpoint>, fuel: nat,
                          next: ConnectionState)
    requires Live(c) && Retransmitted(cfg, c, message, id, to, 0) == (next, true)
    ensures AfterTransmit(cfg, c, message, id, to, fuel) == next
  {
  }

  /** `AfterTransmit` when the retransmission loop runs out in state `next` and no error round is followed. */
  lemma TransmitStalls(cfg: Config, c: ConnectionState, message: seq<byte>, id: ushort, to: Option<Endpoint>,
                       next: ConnectionState)
    requires Live(c) && Retransmitted(cfg, c, message, id, to, 0) == (next, false)
    ensures AfterTransmit(cfg, c, message, id, to, 0) == Logged(next, Err(NoResponseText)).(run := Stalled)
  {
  }

  /** `AfterTransmit` when the retransmission loop runs out in state `next`: the server-error path, then exit code 1. */
  lemma TransmitEscalates(cfg: Config, c: ConnectionState, message: seq<byte>, id: ushort, to: Option<Endpoint>, fuel: nat,
                          next: ConnectionState)
    requires Live(c) && Retransmitted(cfg, c, message, id, to, 0) == (next, false) && fuel > 0 && Live(next)
    ensures AfterTransmit(cfg, c, message, id, to, fuel) == Fatal(cfg, Logged(next, Err(NoResponseText)), fuel - 1)
  {
  }

  /**
   * `ServerError`: outside Start an ERR frame (to be confirmed) with the
   * next id, then the server-error line and the end of the session.
   */
  function AfterServerError(cfg: Config, c: ConnectionState, fuel: nat): (r: ConnectionState)
    requires Live(c)
    ensures r.displayName == c.displayName
    ensures c.outbox <= r.outbox && c.log <= r.log
    ensures c.fsmState != Start ==> (|r.outbox| > |c.outbox|
              && r.outbox[|c.outbox|]
                 == Datagram(UdpMessageGenerator.GenerateErrMessage(c.messageCounter, c.displayName, ServerErrorText), None))
    ensures c.fsmState == Start ==> r == Logged(c, Err(ServerErrorText)).(closed := true, fsmState := End)
    ensures r.run.Running? ==> r.fsmState == End && r.closed && Err(ServerErrorText) in r.log
    ensures c.fsmState != Start && r.run.Running? ==>
              Retransmitted(cfg, c.(messageCounter := Increment(c.messageCounter)),
                            UdpMessageGenerator.GenerateErrMessage(c.messageCounter, c.displayName, ServerErrorText),
                            c.messageCounter, None, 0).1
              && r.messageCounter == Increment(Increment(c.messageCounter))
    decreases fuel, 3
  {
    if c.fsmState == Start then ServerErrorClosing(cfg, c, fuel)
    else
      ServerErrorTextIsAscii();
      var message := UdpMessageGenerator.GenerateErrMessage(c.messageCounter, c.displayName, ServerErrorText);
      var bumped := c.(messageCounter := Increment(c.messageCounter));
      RetransmittedKeeps(cfg, bumped, message, c.messageCounter, None, 0);
      var sent := AfterTransmit(cfg, bumped, message, c.messageCounter, None, fuel);
      if !sent.run.Running? then sent
      else
        var r := ServerErrorClosing(cfg, sent, fuel);
        PrefixIndex(sent.outbox, r.outbox, |c.outbox|);
        r
  }

  /** The end of `ServerError`: the server-error line, then `EndSession`. */
  function ServerErrorClosing(cfg: Config, c: ConnectionState, fuel: nat): (r: ConnectionState)
    requires Live(c)
    ensures r.displayName == c.displayName
    ensures c.outbox <= r.outbox && c.log <= r.log
    ensures c.fsmState == Start ==> r == Logged(c, Err(ServerErrorText)).(closed := true, fsmState := End)
    ensures r.run.Running? ==> r.fsmState == End && r.closed && Err(ServerErrorText) in r.log
    ensures c.fsmState != Start && r.run.Running? ==> r.messageCounter == Increment(c.messageCounter)
    decreases fuel, 2
  {
    var logged := Logged(c, Err(ServerErrorText));
    var r := AfterEndSession(cfg, logged, fuel);
    assert Err(ServerErrorText) in r.log by {
      assert logged.log[|logged.log| - 1] == Err(ServerErrorText);
      PrefixMember(logged.log, r.log, Err(ServerErrorText));
    }
    r
  }

  /**
   * `EndSession`: outside Start a BYE frame (to be confirmed) with the next
   * id; then the socket is closed and the state is End.
   */
  function AfterEndSession(cfg: Config, c: ConnectionState, fuel: nat): (r: ConnectionState)
    requires Live(c)
    ensures r.displayName == c.displayName
    ensures c.outbox <= r.outbox && c.log <= r.log
    ensures c.fsmState != Start ==> (|r.outbox| > |c.outbox|
              && r.outbox[|c.outbox|] == Datagram(UdpMessageGenerator.GenerateByeMessage(c.messageCounter), None))
    ensures c.fsmState == Start ==> r == c.(closed := true, fsmState := End)
    ensures r.run.Running? ==> r.fsmState == End && r.closed
    ensures c.fsmState != Start ==>
              (r.run.Running? <==>
                 Retransmitted(cfg, c.(messageCounter := Increment(c.messageCounter)),
                               UdpMessageGenerator.GenerateByeMessage(c.messageCounter), c.messageCounter, None, 0).1)
    ensures c.fsmState != Start && r.run.Running? ==> r.messageCounter == Increment(c.messageCounter)
    decreases fuel, 1
  {
    var sent :=
      if c.fsmState != Start then
        var message := UdpMessageGenerator.GenerateByeMessage(c.messageCounter);
        var bumped := c.(messageCounter := Increment(c.messageCounter));
        RetransmittedKeeps(cfg, bumped, message, c.messageCounter, None, 0);
        AfterTransmit(cfg, bumped, message, c.messageCounter, None, fuel)
      else c;
    if !sent.run.Running? then sent else sent.(closed := true, fsmState := End)
  }

  /** `SendMessage`: only in Open, a MSG frame with the current id. */
  function AfterSendMessage(cfg: Config, c: ConnectionState, message: string, fuel: nat): (r: ConnectionState)
    requires Live(c) && IsAscii(message)
    ensures c.fsmState != Open ==> r == Logged(c, Err(SendMessageInWrongState))
    ensures c.fsmState == Open ==> (|r.outbox| > |c.outbox|
              && r.outbox[|c.outbox|]
                 == Datagram(UdpMessageGenerator.GenerateMsgMessage(c.messageCounter, c.displayName, message), None))
    ensures c.fsmState == Open && r.run.Running? ==>
              r.messageCounter == Increment(c.messageCounter) && r.fsmState == Open && r.log == c.log
  {
    if c.fsmState != Open then Logged(c, Err(SendMessageInWrongState))
    else
      var message := UdpMessageGenerator.GenerateMsgMessage(c.messageCounter, c.displayName, message);
      var r := AfterTransmit(cfg, c.(messageCounter := Increment(c.messageCounter)), message, c.messageCounter, None, fuel);
      RetransmittedKeeps(cfg, c.(messageCounter := Increment(c.messageCounter)), message, c.messageCounter, None, 0);
      r
  }

  /**
   * `Auth`: only in Start or Auth; records the display name, awaits a reply
   * to the id it sends, and sends to the server endpoint until a reply has
   * connected the socket.
   */
  function AfterAuth(cfg: Config, c: ConnectionState, username: string, displayName: string, secret: string, fuel: nat)
    : (r: ConnectionState)
    requires Live(c) && IsAscii(username) && IsAscii(displayName) && IsAscii(secret)
    ensures c.fsmState !in {Start, Auth} ==> r == Logged(c, Err(AuthInWrongState))
    ensures c.fsmState in {Start, Auth} ==> (|r.outbox| > |c.outbox|
              && r.outbox[|c.outbox|]
                 == Datagram(UdpMessageGenerator.GenerateAuthMessage(c.messageCounter, username, displayName, secret),
                             if c.fsmState == Auth then None else Some(cfg.server)))
    ensures c.fsmState in {Start, Auth} && r.run.Running? ==>
              r.messageCounter == Increment(c.messageCounter) && r.currentlyWaitingForId == c.messageCounter
              && r.displayName == displayName && r.fsmState == c.fsmState
  {
    if c.fsmState !in {Start, Auth} then Logged(c, Err(AuthInWrongState))
    else
      var message := UdpMessageGenerator.GenerateAuthMessage(c.messageCounter, username, displayName, secret);
      var to := if c.fsmState == Auth then None else Some(cfg.server);
      var pending := c.(displayName := displayName, currentlyWaitingForId := c.messageCounter,
                        messageCounter := Increment(c.messageCounter));
      RetransmittedKeeps(cfg, pending, message, c.messageCounter, to, 0);
      AfterTransmit(cfg, pending, message, c.messageCounter, to, fuel)
  }

  /** `Join`: only in Open; awaits a reply to the id it sends. */
  function AfterJoin(cfg: Config, c: ConnectionState, channelName: string, fuel: nat): (r: ConnectionState)
    requires Live(c) && IsAscii(channelName)
    ensures c.fsmState != Open ==> r == Logged(c, Err(JoinInWrongState))
    ensures c.fsmState == Open ==> (|r.outbox| > |c.outbox|
              && r.outbox[|c.outbox|]
                 == Datagram(UdpMessageGenerator.GenerateJoinMessage(c.messageCounter, channelName, c.displayName), None))
    ensures c.fsmState == Open && r.run.Running? ==>
              r.messageCounter == Increment(c.messageCounter) && r.currentlyWaitingForId == c.messageCounter
              && r.fsmState == Open
  {
    if c.fsmState != Open then Logged(c, Err(JoinInWrongState))
    else
      var message := UdpMessageGenerator.GenerateJoinMessage(c.messageCounter, channelName, c.displayName);
      var pending := c.(currentlyWaitingForId := c.messageCounter, messageCounter := Increment(c.messageCounter));
      RetransmittedKeeps(cfg, pending, message, c.messageCounter, None, 0);
      AfterTransmit(cfg, pending, message, c.messageCounter, None, fuel)
  }

  /** `Rename`: only in Open. */
  function AfterRename(c: ConnectionState, newDisplayName: string): (r: ConnectionState)
    ensures c.fsmState != Open ==> r == Logged(c, Err(RenameInWrongState))
    ensures c.fsmState == Open ==> r == c.(displayName := newDisplayName)
  {
    if c.fsmState != Open then Logged(c, Err(RenameInWrongState)) else c.(displayName := newDisplayName)
  }

  /**
   * `Msg`, run as a task of its own: always confirms; prints and records the
   * id only the first time. In Start the CONFIRM, sent without an endpoint
   * on a socket not yet connected, throws, and the task ends with nothing
   * changed.
   */
  function AfterMsg(c: ConnectionState, messageId: ushort, displayName: string, messageContents: string)
    : (r: ConnectionState)
    ensures c.fsmState == Start ==> r == c
    ensures r.displayName == c.displayName && r.run == c.run && r.fsmState == c.fsmState
    ensures c.fsmState != Start ==> (
              r.outbox == c.outbox + [Datagram(UdpMessageGenerator.GenerateConfirmMessage(messageId), None)]
              && messageId in r.received)
    ensures messageId in c.received ==> r.log == c.log && r.received == c.received
    ensures c.fsmState != Start && messageId !in c.received ==>
              r.log == c.log + [Out(displayName + ": " + messageContents)]
  {
    var confirmed := Confirmed(c, messageId, None);
    if c.fsmState == Start then c
    else if messageId in confirmed.received then confirmed
    else
      EnqueuedContains(c.received, QueueCapacity, messageId);
      confirmed.(received := Enqueued(c.received, QueueCapacity, messageId),
                 log := c.log + [Out(displayName + ": " + messageContents)])
  }

  /**
   * `Err`: confirms outside Start; the first time an id is seen, prints the
   * error and ends the session.
   */
  function AfterErr(cfg: Config, c: ConnectionState, messageId: ushort, displayName: string, messageContents: string,
                    fuel: nat): (r: ConnectionState)
    requires Live(c)
    ensures r.displayName == c.displayName
    ensures c.fsmState != Start ==> (|r.outbox| > |c.outbox| && r.outbox[..|c.outbox| + 1]
              == c.outbox + [Datagram(UdpMessageGenerator.GenerateConfirmMessage(messageId), None)])
    ensures messageId in c.received ==> r.log == c.log && r.fsmState == c.fsmState
    ensures messageId !in c.received ==> (|r.log| > |c.log|
              && r.log[|c.log|] == Err("ERR FROM " + displayName + ": " + messageContents))
    ensures messageId !in c.received && r.run.Running? ==> r.fsmState == End && r.closed
  {
    var confirmed := if c.fsmState != Start then Confirmed(c, messageId, None) else c;
    if messageId in confirmed.received then confirmed
    else
      var logged := confirmed.(received := Enqueued(c.received, QueueCapacity, messageId),
                               log := c.log + [Err("ERR FROM " + displayName + ": " + messageContents)]);
      var r := AfterEndSession(cfg, logged, fuel);
      PrefixIndex(logged.log, r.log, |c.log|);
      assert c.fsmState != Start ==> r.outbox[..|c.outbox| + 1] == logged.outbox by {
        if c.fsmState != Start {
          PrefixSlice(logged.outbox, r.outbox, |c.outbox| + 1);
        }
      }
      r
  }

  /**
   * `AuthReplyRetrieval`: confirms (to the replying endpoint until the
   * socket is connected); a fresh reply must answer the awaited id, or the
   * server-error path and exit code 1 follow. A matching reply clears the
   * awaited id; from Start it connects to the replying endpoint and moves
   * to Auth; a positive one then moves to Open.
   */
  function AfterAuthReply(cfg: Config, c: ConnectionState, reply: UdpMessageParser.ReplyMessage, from: Endpoint,
                          fuel: nat): (r: ConnectionState)
    requires Live(c)
    ensures r.displayName == c.displayName
    ensures c.outbox + [Datagram(UdpMessageGenerator.GenerateConfirmMessage(reply.messageId),
                                 if c.fsmState == Auth then None else Some(from))] <= r.outbox
    ensures reply.messageId in c.received ==> r.log == c.log && r.fsmState == c.fsmState && r.run.Running?
    ensures reply.messageId !in c.received && c.currentlyWaitingForId != reply.refMessageId ==>
              !r.run.Running? && Err(ServerErrorText) in r.log
    ensures reply.messageId !in c.received && c.currentlyWaitingForId == reply.refMessageId ==> (
              r.run.Running? && r.currentlyWaitingForId == 0 && reply.messageId in r.received
              && r.connectedTo == (if c.fsmState == Start then Some(from) else c.connectedTo)
              && r.fsmState == (if reply.result then Open else if c.fsmState == Start then Auth else c.fsmState))
  {
    var confirmed := Confirmed(c, reply.messageId, if c.fsmState == Auth then None else Some(from));
    if reply.messageId in confirmed.received then confirmed
    else
      var recorded := confirmed.(received := Enqueued(c.received, QueueCapacity, reply.messageId));
      if recorded.currentlyWaitingForId != reply.refMessageId then
        Fatal(cfg, Logged(recorded, Err(ServerErrorText)), fuel)
      else
        var matched := recorded.(currentlyWaitingForId := 0);
        var connected := if matched.fsmState == Start then matched.(connectedTo := Some(from), fsmState := Auth) else matched;
        if !reply.result then Logged(connected, Err("Failure: " + reply.messageContents))
        else Logged(connected, Err("Success: " + reply.messageContents)).(fsmState := Open)
  }

  /** `JoinReplyRetrieval`: as the AUTH reply, without any change of state. */
  function AfterJoinReply(cfg: Config, c: ConnectionState, reply: UdpMessageParser.ReplyMessage, fuel: nat)
    : (r: ConnectionState)
    requires Live(c)
    ensures r.displayName == c.displayName
    ensures c.outbox + [Datagram(UdpMessageGenerator.GenerateConfirmMessage(reply.messageId), None)] <= r.outbox
    ensures reply.messageId in c.received ==> r.log == c.log && r.fsmState == c.fsmState && r.run.Running?
    ensures reply.messageId !in c.received && c.currentlyWaitingForId != reply.refMessageId ==>
              !r.run.Running? && Err(ServerErrorText) in r.log
    ensures r.run.Running? ==> r.fsmState == c.fsmState && r.connectedTo == c.connectedTo
    ensures reply.messageId !in c.received && c.currentlyWaitingForId == reply.refMessageId ==>
              r.run.Running? && r.currentlyWaitingForId == 0 && reply.messageId in r.received
  {
    var confirmed := Confirmed(c, reply.messageId, None);
    if reply.messageId in confirmed.received then confirmed
    else
      var recorded := confirmed.(received := Enqueued(c.received, QueueCapacity, reply.messageId));
      if recorded.currentlyWaitingForId != reply.refMessageId then
        Fatal(cfg, Logged(recorded, Err(ServerErrorText)), fuel)
      else
        var matched := recorded.(currentlyWaitingForId := 0);
        if !reply.result then Logged(matched, Err("Failure: " + reply.messageContents))
        else Logged(matched, Err("Success: " + reply.messageContents))
  }

  /** `ServerErrorAndExit`: the server-error path followed by `Environment.Exit(1)`. */
  function Fatal(cfg: Config, c: ConnectionState, fuel: nat): (r: ConnectionState)
    requires Live(c)
    ensures r.displayName == c.displayName
    ensures !r.run.Running?
    ensures c.log <= r.log && c.outbox <= r.outbox
    ensures Err(ServerErrorText) in c.log ==> Err(ServerErrorText) in r.log
  {
    var after := AfterServerError(cfg, c, fuel);
    assert Err(ServerErrorText) in c.log ==> Err(ServerErrorText) in after.log by {
      if Err(ServerErrorText) in c.log {
        PrefixMember(c.log, after.log, Err(ServerErrorText));
      }
    }
    if after.run.Running? then after.(run := Exited(1)) else after
  }

  /**
   * The handling of one received datagram, as in the body of the receive
   * loop, with the exception handler. The second component is the value the
   * loop returns with, `None` when it goes on. REPLY and MSG handlers run as
   * tasks of their own; the ERR handler and the server-error path of an
   * unknown frame are awaited by the loop, and so run `Suspended`.
   */
  function AfterReceive(cfg: Config, c: ConnectionState, message: seq<byte>, from: Endpoint, fuel: nat)
    : (r: (ConnectionState, Option<int>))
    requires Live(c)
    ensures r.0.displayName == c.displayName
    ensures |message| == 0 ==> r == Failed(cfg, c, message, fuel)
    ensures |message| > 0 && message[0] == CONFIRM ==>
              if |message| < 3 then r == Failed(cfg, c, message, fuel)
              else r == (c.(awaited := Enqueued(c.awaited, QueueCapacity, ReadBigEndian(message[1..3]))), None)
                   && ReadBigEndian(message[1..3]) in r.0.awaited
    ensures |message| > 0 && message[0] == REPLY && c.fsmState != End ==>
              match UdpMessageParser.ParseReplyMessage(message)
              case Failure(_) => r == Failed(cfg, c, message, fuel)
              case Success(reply) =>
                r == (if c.fsmState == Open then AfterJoinReply(cfg, c, reply, fuel)
                      else AfterAuthReply(cfg, c, reply, from, fuel), None)
    ensures |message| > 0 && message[0] == MSG ==>
              match UdpMessageParser.ParseMsgMessage(message)
              case Failure(_) => r == Failed(cfg, c, message, fuel)
              case Success(m) => r == (AfterMsg(c, m.messageId, m.displayName, m.messageContents), None)
    ensures |message| > 0 && message[0] == ERR ==>
              match UdpMessageParser.ParseMsgMessage(message)
              case Failure(_) => r == Failed(cfg, c, message, fuel)
              case Success(m) =>
                r == (AfterErr(cfg, Suspended(c), m.messageId, m.displayName, m.messageContents, fuel), Some(1))
    ensures |message| > 0 && message[0] == BYE ==> r == (c.(closed := true), Some(0))
    ensures |message| > 0 && (message[0] in {AUTH, JOIN} || !IsTag(message[0])
                              || (message[0] == REPLY && c.fsmState == End)) ==>
              if |message| < 3 || c.fsmState == Start then r == Failed(cfg, c, message, fuel)
              else r.1 == Some(1) && (r.0.run.Running? ==> r.0.fsmState == End)
                   && c.outbox + [Datagram(UdpMessageGenerator.GenerateConfirmMessage(ReadBigEndian(message[1..3])), None)]
                      <= r.0.outbox
  {
    if |message| == 0 then Failed(cfg, c, message, fuel)
    else if message[0] == CONFIRM then
      if |message| < 3 then Failed(cfg, c, message, fuel)
      else
        EnqueuedContains(c.awaited, QueueCapacity, ReadBigEndian(message[1..3]));
        (c.(awaited := Enqueued(c.awaited, QueueCapacity, ReadBigEndian(message[1..3]))), None)
    else if message[0] == REPLY && c.fsmState in {Auth, Start} then
      match UdpMessageParser.ParseReplyMessage(message)
      case Failure(_) => Failed(cfg, c, message, fuel)
      case Success(reply) => (AfterAuthReply(cfg, c, reply, from, fuel), None)
    else if message[0] == REPLY && c.fsmState == Open then
      match UdpMessageParser.ParseReplyMessage(message)
      case Failure(_) => Failed(cfg, c, message, fuel)
      case Success(reply) => (AfterJoinReply(cfg, c, reply, fuel), None)
    else if message[0] == MSG then
      match UdpMessageParser.ParseMsgMessage(message)
      case Failure(_) => Failed(cfg, c, message, fuel)
      case Success(m) => (AfterMsg(c, m.messageId, m.displayName, m.messageContents), None)
    else if message[0] == ERR then
      match UdpMessageParser.ParseMsgMessage(message)
      case Failure(_) => Failed(cfg, c, message, fuel)
      case Success(m) => (AfterErr(cfg, Suspended(c), m.messageId, m.displayName, m.messageContents, fuel), Some(1))
    else if message[0] == BYE then
      (c.(closed := true), Some(0))
    else if |message| < 3 || c.fsmState == Start then
      // too short for an id, or the CONFIRM throws on the unconnected socket
      Failed(cfg, c, message, fuel)
    else
      var confirmed := Confirmed(Suspended(c), ReadBigEndian(message[1..3]), None);
      (AfterServerError(cfg, confirmed, fuel), Some(1))
  }

  /**
   * The exception handler of the receive loop: a CONFIRM for the frame's id
   * when one can be read outside Start, then the server-error path, awaited
   * by the loop; the loop returns 1.
   */
  function Failed(cfg: Config, c: ConnectionState, message: seq<byte>, fuel: nat): (r: (ConnectionState, Option<int>))
    requires Live(c)
    ensures r.0.displayName == c.displayName
    ensures r.1 == Some(1) && (r.0.run.Running? ==> r.0.fsmState == End && Err(ServerErrorText) in r.0.log)
    ensures c.fsmState == Start ==>
              r.0 == Logged(Suspended(c), Err(ServerErrorText)).(closed := true, fsmState := End)
    ensures c.fsmState != Start && |message| > 2 ==>
              |r.0.outbox| > |c.outbox|
              && r.0.outbox[|c.outbox|]
                 == Datagram(UdpMessageGenerator.GenerateConfirmMessage(ReadBigEndian(message[1..3])), None)
  {
    var suspended := Suspended(c);
    var confirmed :=
      if c.fsmState != Start && |message| > 2 then Confirmed(suspended, ReadBigEndian(message[1..3]), None)
      else suspended;
    var r := AfterServerError(cfg, confirmed, fuel);
    assert c.fsmState != Start && |message| > 2 ==> r.outbox[|c.outbox|] == confirmed.outbox[|c.outbox|] by {
      if c.fsmState != Start && |message| > 2 {
        PrefixIndex(confirmed.outbox, r.outbox, |c.outbox|);
      }
    }
    (r, Some(1))
  }

  /**
   * The receive loop over `datagrams`, in order: it returns with the first
   * exit value a handler yields, and stops when the process has exited.
   */
  function AfterReceiveAll(cfg: Config, c: ConnectionState, datagrams: seq<(seq<byte>, Endpoint)>, fuel: nat)
    : (r: (ConnectionState, Option<int>))
    requires Live(c)
    ensures r.0.displayName == c.displayName
    ensures r.1 == None ==> r.0.run.Running? ==> r.0.fsmState != End || c.fsmState == End
    ensures r.1.Some? ==> r.1.value == 0 || r.1.value == 1
    ensures r.1 == Some(0) ==> r.0.closed
    decreases |datagrams|
  {
    if datagrams == [] then (c, None)
    else
      var (next, exitCode) := AfterReceive(cfg, c, datagrams[0].0, datagrams[0].1, fuel);
      if exitCode.Some? || !next.run.Running? then (next, exitCode)
      else AfterReceiveAll(cfg, next, datagrams[1..], fuel)
  }

  class UdpConnection {
    const server: Endpoint
    const maxRetransmissions: nat
    var fsmState: FsmState
    var displayName: string
    var messageCounter: ushort
    var currentlyWaitingForId: ushort
    /** Ids the peer has confirmed. */
    const awaitedMessages: FixedSizeQueue<ushort>
    /** Ids of the messages already handled, for deduplication. */
    const receivedMessages: FixedSizeQueue<ushort>
    var outbox: seq<Datagram>
    var connectedTo: Option<Endpoint>
    var closed: bool
    var log: seq<Line>
    var run: Run
    var arrivals: seq<seq<ushort>>

    function Cfg(): Config {
      Config(server, maxRetransmissions)
    }

    function State(): ConnectionState
      reads this, awaitedMessages, receivedMessages
    {
      ConnectionState(fsmState, displayName, messageCounter, currentlyWaitingForId, awaitedMessages.items,
                      receivedMessages.items, outbox, connectedTo, closed, log, run, arrivals)
    }

    ghost predicate Valid()
      reads this, awaitedMessages, receivedMessages
    {
      awaitedMessages != receivedMessages
      && awaitedMessages.Valid() && awaitedMessages.maxSize == QueueCapacity
      && receivedMessages.Valid() && receivedMessages.maxSize == QueueCapacity
    }

    constructor (server: Endpoint, maxRetransmissions: nat, arrivals: seq<seq<ushort>>)
      ensures Valid() && fresh(awaitedMessages) && fresh(receivedMessages)
      ensures Cfg() == Config(server, maxRetransmissions)
      ensures State() == ConnectionState(Start, "", 0, 0, [], [], [], None, false, [], Running, arrivals)
    {
      this.server := server;
      this.maxRetransmissions := maxRetransmissions;
      fsmState := Start;
      displayName := "";
      messageCounter := 0;
      currentlyWaitingForId := 0;
      awaitedMessages := new FixedSizeQueue(QueueCapacity);
      receivedMessages := new FixedSizeQueue(QueueCapacity);
      outbox := [];
      connectedTo := None;
      closed := false;
      log := [];
      run := Running;
      this.arrivals := arrivals;
    }

    /** Whether `messageId` has not been handled yet. */
    function IsItNewMessage(messageId: ushort): (r: bool)
      reads this, receivedMessages
      ensures r <==> messageId !in State().received
    {
      !receivedMessages.Contains(messageId)
    }

    method SendConfirmMessage(messageId: ushort, endPoint: Option<Endpoint>)
      modifies this
      ensures State() == Confirmed(old(State()), messageId, endPoint)
    {
      outbox := outbox + [Datagram(UdpMessageGenerator.GenerateConfirmMessage(messageId), endPoint)];
    }

    /** One confirmation timeout, during which the receive loop records the CONFIRMs that arrive. */
    method Wait()
      requires Valid()
      modifies this, awaitedMessages
      ensures Valid() && State() == Waited(old(State()))
    {
      if arrivals != [] {
        awaitedMessages.EnqueueAll(arrivals[0]);
        arrivals := arrivals[1..];
      }
    }

    /**
     * The retransmission loop of `SendAndAwaitConfirmResponse`: send, wait,
     * stop as soon as `messageId` is confirmed.
     */
    method Retransmit(message: seq<byte>, messageId: ushort, endPoint: Option<Endpoint>) returns (confirmed: bool)
      requires Valid()
      modifies this, awaitedMessages
      ensures Valid() && (State(), confirmed) == Retransmitted(Cfg(), old(State()), message, messageId, endPoint, 0)
    {
      ghost var target := Retransmitted(Cfg(), State(), message, messageId, endPoint, 0);
      var i := 0;
      while i < 1 + maxRetransmissions
        invariant 0 <= i <= 1 + maxRetransmissions && Valid()
        invariant Retransmitted(Cfg(), State(), message, messageId, endPoint, i) == target
        decreases 1 + maxRetransmissions - i
      {
        ghost var before := State();
        outbox := outbox + [Datagram(message, endPoint)];
        Wait();
        assert State() == Waited(Sent(before, message, endPoint));
        if awaitedMessages.Contains(messageId) {
          return true;
        }
        i := i + 1;
      }
      return false;
    }

    method SendAndAwaitConfirmResponse(message: seq<byte>, messageId: ushort, endPoint: Option<Endpoint>, fuel: nat)
      requires Valid() && Live(State())
      modifies this, awaitedMessages, receivedMessages
      ensures Valid() && State() == AfterTransmit(Cfg(), old(State()), message, messageId, endPoint, fuel)
      decreases fuel, 0
    {
      ghost var start := State();
      RetransmittedKeeps(Cfg(), start, message, messageId, endPoint, 0);
      var confirmed := Retransmit(message, messageId, endPoint);
      ghost var next := State();
      if confirmed {
        TransmitConfirmed(Cfg(), start, message, messageId, endPoint, fuel, next);
        return;
      }
      log := log + [Line.Err(NoResponseText)];
      if fuel == 0 {
        run := Stalled;
        TransmitStalls(Cfg(), start, message, messageId, endPoint, next);
        return;
      }
      TransmitEscalates(Cfg(), start, message, messageId, endPoint, fuel, next);
      ServerErrorAndExit(fuel - 1);
    }

    /** `ServerError` followed by `Environment.Exit(1)`, unless the process has already stopped. */
    method ServerErrorAndExit(fuel: nat)
      requires Valid() && Live(State())
      modifies this, awaitedMessages, receivedMessages
      ensures Valid() && State() == Fatal(Cfg(), old(State()), fuel)
      decreases fuel, 4
    {
      ServerError(fuel);
      if run.Running? {
        run := Exited(1);
      }
    }

    method ServerError(fuel: nat)
      requires Valid() && Live(State())
      modifies this, awaitedMessages, receivedMessages
      ensures Valid() && State() == AfterServerError(Cfg(), old(State()), fuel)
      decreases fuel, 3
    {
      if fsmState != Start {
        ServerErrorTextIsAscii();
        var errorMessage := UdpMessageGenerator.GenerateErrMessage(messageCounter, displayName, ServerErrorText);
        var id := messageCounter;
        messageCounter := Increment(messageCounter);
        SendAndAwaitConfirmResponse(errorMessage, id, None, fuel);
        if !run.Running? {
          return;
        }
      }
      log := log + [Line.Err(ServerErrorText)];
      EndSession(fuel);
    }

    method EndSession(fuel: nat)
      requires Valid() && Live(State())
      modifies this, awaitedMessages, receivedMessages
      ensures Valid() && State() == AfterEndSession(Cfg(), old(State()), fuel)
      decreases fuel, 1
    {
      if fsmState != Start {
        var byeMessage := UdpMessageGenerator.GenerateByeMessage(messageCounter);
        var id := messageCounter;
        messageCounter := Increment(messageCounter);
        SendAndAwaitConfirmResponse(byeMessage, id, None, fuel);
        if !run.Running? {
          return;
        }
      }
      closed := true;
      fsmState := End;
    }

    method SendMessage(message: string, fuel: nat)
      requires Valid() && Live(State()) && IsAscii(message)
      modifies this, awaitedMessages, receivedMessages
      ensures Valid() && State() == AfterSendMessage(Cfg(), old(State()), message, fuel)
    {
      if fsmState != Open {
        log := log + [Line.Err(SendMessageInWrongState)];
        return;
      }
      var messageToSend := UdpMessageGenerator.GenerateMsgMessage(messageCounter, displayName, message);
      var id := messageCounter;
      messageCounter := Increment(messageCounter);
      SendAndAwaitConfirmResponse(messageToSend, id, None, fuel);
    }

    method Auth(username: string, displayName: string, secret: string, fuel: nat)
      requires Valid() && Live(State()) && IsAscii(username) && IsAscii(displayName) && IsAscii(secret)
      modifies this, awaitedMessages, receivedMessages
      ensures Valid() && State() == AfterAuth(Cfg(), old(State()), username, displayName, secret, fuel)
    {
      if fsmState != Start && fsmState != FsmState.Auth {
        log := log + [Line.Err(AuthInWrongState)];
        return;
      }
      this.displayName := displayName;
      var authMessage := UdpMessageGenerator.GenerateAuthMessage(messageCounter, username, displayName, secret);
      currentlyWaitingForId := messageCounter;
      var id := messageCounter;
      messageCounter := Increment(messageCounter);
      var endPoint := if fsmState == FsmState.Auth then None else Some(server);
      SendAndAwaitConfirmResponse(authMessage, id, endPoint, fuel);
    }

    method Join(channelName: string, fuel: nat)
      requires Valid() && Live(State()) && IsAscii(channelName)
      modifies this, awaitedMessages, receivedMessages
      ensures Valid() && State() == AfterJoin(Cfg(), old(State()), channelName, fuel)
    {
      if fsmState != Open {
        log := log + [Line.Err(JoinInWrongState)];
        return;
      }
      var joinMessage := UdpMessageGenerator.GenerateJoinMessage(messageCounter, channelName, displayName);
      currentlyWaitingForId := messageCounter;
      var id := messageCounter;
      messageCounter := Increment(messageCounter);
      SendAndAwaitConfirmResponse(joinMessage, id, None, fuel);
    }

    /** The new name must encode, as every name the frames carry. */
    method Rename(newDisplayName: string)
      requires IsAscii(newDisplayName)
      modifies this
      ensures State() == AfterRename(old(State()), newDisplayName)
    {
      if fsmState != Open {
        log := log + [Line.Err(RenameInWrongState)];
        return;
      }
      displayName := newDisplayName;
    }

    method Msg(messageId: ushort, displayName: string, messageContents: string)
      requires Valid()
      modifies this, receivedMessages
      ensures Valid() && State() == AfterMsg(old(State()), messageId, displayName, messageContents)
    {
      if fsmState == Start {
        // the CONFIRM cannot be sent on a socket not yet connected
        return;
      }
      SendConfirmMessage(messageId, None);
      if receivedMessages.Contains(messageId) {
        return;
      }
      receivedMessages.Enqueue(messageId);
      log := log + [Out(displayName + ": " + messageContents)];
    }

    method Err(messageId: ushort, displayName: string, messageContents: string, fuel: nat)
      requires Valid() && Live(State())
      modifies this, awaitedMessages, receivedMessages
      ensures Valid() && State() == AfterErr(Cfg(), old(State()), messageId, displayName, messageContents, fuel)
    {
      if fsmState != Start {
        SendConfirmMessage(messageId, None);
      }
      if receivedMessages.Contains(messageId) {
        return;
      }
      receivedMessages.Enqueue(messageId);
      log := log + [Line.Err("ERR FROM " + displayName + ": " + messageContents)];
      EndSession(fuel);
    }

    method AuthReplyRetrieval(messageId: ushort, result: bool, refMessageId: ushort, messageContents: string,
                              endPoint: Endpoint, fuel: nat)
      requires Valid() && Live(State())
      modifies this, awaitedMessages, receivedMessages
      ensures Valid()
      ensures State() == AfterAuthReply(Cfg(), old(State()),
                                        UdpMessageParser.ReplyMessage(messageId, result, refMessageId, messageContents),
                                        endPoint, fuel)
    {
      SendConfirmMessage(messageId, if fsmState == FsmState.Auth then None else Some(endPoint));
      if !IsItNewMessage(messageId) {
        return;
      }
      receivedMessages.Enqueue(messageId);
      if currentlyWaitingForId != refMessageId {
        log := log + [Line.Err(ServerErrorText)];
        ServerErrorAndExit(fuel);
        return;
      }
      currentlyWaitingForId := 0;
      if fsmState == Start {
        connectedTo := Some(endPoint);
        fsmState := FsmState.Auth;
      }
      if !result {
        log := log + [Line.Err("Failure: " + messageContents)];
        return;
      }
      log := log + [Line.Err("Success: " + messageContents)];
      fsmState := Open;
    }

    method JoinReplyRetrieval(messageId: ushort, result: bool, refMessageId: ushort, messageContents: string, fuel: nat)
      requires Valid() && Live(State())
      modifies this, awaitedMessages, receivedMessages
      ensures Valid()
      ensures State() == AfterJoinReply(Cfg(), old(State()),
                                        UdpMessageParser.ReplyMessage(messageId, result, refMessageId, messageContents),
                                        fuel)
    {
      SendConfirmMessage(messageId, None);
      if !IsItNewMessage(messageId) {
        return;
      }
      receivedMessages.Enqueue(messageId);
      if currentlyWaitingForId != refMessageId {
        log := log + [Line.Err(ServerErrorText)];
        ServerErrorAndExit(fuel);
        return;
      }
      currentlyWaitingForId := 0;
      if !result {
        log := log + [Line.Err("Failure: " + messageContents)];
        return;
      }
      log := log + [Line.Err("Success: " + messageContents)];
    }

    /** The exception handler of the receive loop. */
    method Recover(message: seq<byte>, fuel: nat) returns (exitCode: Option<int>)
      requires Valid() && Live(State())
      modifies this, awaitedMessages, receivedMessages
      ensures Valid() && (State(), exitCode) == Failed(Cfg(), old(State()), message, fuel)
    {
      arrivals := [];
      if fsmState != Start && |message| > 2 {
        SendConfirmMessage(ReadBigEndian(message[1..3]), None);
      }
      ServerError(fuel);
      return Some(1);
    }

    /** The body of the receive loop for one datagram from `from`. */
    method ReceiveDatagram(message: seq<byte>, from: Endpoint, fuel: nat) returns (exitCode: Option<int>)
      requires Valid() && Live(State())
      modifies this, awaitedMessages, receivedMessages
      ensures Valid() && (State(), exitCode) == AfterReceive(Cfg(), old(State()), message, from, fuel)
    {
      if |message| == 0 {
        exitCode := Recover(message, fuel);
        return;
      }
      var tag := message[0];
      if tag == CONFIRM {
        if |message| < 3 {
          exitCode := Recover(message, fuel);
          return;
        }
        awaitedMessages.Enqueue(ReadBigEndian(message[1..3]));
        return None;
      } else if tag == REPLY && (fsmState == FsmState.Auth || fsmState == Start) {
        var parsed := UdpMessageParser.ParseReplyMessage(message);
        if parsed.Failure? {
          exitCode := Recover(message, fuel);
          return;
        }
        var reply := parsed.value;
        AuthReplyRetrieval(reply.messageId, reply.result, reply.refMessageId, reply.messageContents, from, fuel);
        return None;
      } else if tag == REPLY && fsmState == Open {
        var parsed := UdpMessageParser.ParseReplyMessage(message);
        if parsed.Failure? {
          exitCode := Recover(message, fuel);
          return;
        }
        var reply := parsed.value;
        JoinReplyRetrieval(reply.messageId, reply.result, reply.refMessageId, reply.messageContents, fuel);
        return None;
      } else if tag == MSG {
        var parsed := UdpMessageParser.ParseMsgMessage(message);
        if parsed.Failure? {
          exitCode := Recover(message, fuel);
          return;
        }
        Msg(parsed.value.messageId, parsed.value.displayName, parsed.value.messageContents);
        return None;
      } else if tag == ERR {
        var parsed := UdpMessageParser.ParseMsgMessage(message);
        if parsed.Failure? {
          exitCode := Recover(message, fuel);
          return;
        }
        arrivals := [];
        Err(parsed.value.messageId, parsed.value.displayName, parsed.value.messageContents, fuel);
        return Some(1);
      } else if tag == BYE {
        closed := true;
        return Some(0);
      } else if |message| < 3 || fsmState == Start {
        exitCode := Recover(message, fuel);
        return;
      } else {
        arrivals := [];
        SendConfirmMessage(ReadBigEndian(message[1..3]), None);
        ServerError(fuel);
        return Some(1);
      }
    }

    /**
     * `MainLoopAsync` over the datagrams received, in order: returns the
     * first exit value a handler yields; `None` when the datagrams run out
     * or the process has exited.
     */
    method MainLoop(datagrams: seq<(seq<byte>, Endpoint)>, fuel: nat) returns (exitCode: Option<int>)
      requires Valid() && Live(State())
      modifies this, awaitedMessages, receivedMessages
      ensures Valid() && (State(), exitCode) == AfterReceiveAll(Cfg(), old(State()), datagrams, fuel)
    {
      var k := 0;
      while k < |datagrams|
        invariant 0 <= k <= |datagrams| && Valid() && Live(State())
        invariant AfterReceiveAll(Cfg(), State(), datagrams[k..], fuel) == AfterReceiveAll(Cfg(), old(State()), datagrams, fuel)
        decreases |datagrams| - k
      {
        assert datagrams[k..][1..] == datagrams[k + 1..];
        exitCode := ReceiveDatagram(datagrams[k].0, datagrams[k].1, fuel);
        if exitCode.Some? || !run.Running? {
          return;
        }
        k := k + 1;
      }
      return None;
    }
  }

  // Helpers about prefixes.

  lemma PrefixMember<T>(a: seq<T>, b: seq<T>, x: T)
    requires a <= b && x in a
    ensures x in b
  {
    var k :| 0 <= k < |a| && a[k] == x;
    assert b[k] == x;
  }

  lemma PrefixIndex<T>(a: seq<T>, b: seq<T>, k: nat)
    requires a <= b && k < |a|
    ensures |b| > k && b[k] == a[k]
  {
  }

  lemma PrefixSlice<T>(a: seq<T>, b: seq<T>, k: nat)
    requires a <= b && k <= |a|
    ensures b[..k] == a[..k]
  {
  }

  /** The retransmission loop sends `message` at least once and touches only the outbox, the awaited ids and the arrivals. */
  lemma {:induction false} RetransmittedSends(cfg: Config, c: ConnectionState, message: seq<byte>, id: ushort,
                                              to: Option<Endpoint>, i: nat)
    requires i < 1 + cfg.maxRetransmissions
    ensures c.outbox + [Datagram(message, to)] <= Retransmitted(cfg, c, message, id, to, i).0.outbox
    decreases 1 + cfg.maxRetransmissions - i
  {
    var next := Waited(Sent(c, message, to));
    if id !in next.awaited && i + 1 < 1 + cfg.maxRetransmissions {
      RetransmittedSends(cfg, next, message, id, to, i + 1);
    }
  }

  /** The retransmission loop leaves every field but the outbox, the awaited ids and the arrivals as it was. */
  lemma {:induction false} RetransmittedKeeps(cfg: Config, c: ConnectionState, message: seq<byte>, id: ushort,
                                              to: Option<Endpoint>, i: nat)
    requires i <= 1 + cfg.maxRetransmissions
    ensures var r := Retransmitted(cfg, c, message, id, to, i).0;
            r == c.(outbox := r.outbox, awaited := r.awaited, arrivals := r.arrivals)
    decreases 1 + cfg.maxRetransmissions - i
  {
    if i < 1 + cfg.maxRetransmissions {
      var next := Waited(Sent(c, message, to));
      if id !in next.awaited {
        RetransmittedKeeps(cfg, next, message, id, to, i + 1);
      }
    }
  }

  /** `n` waits on a state with another outbox are the same waits with that outbox. */
  lemma {:induction false} WaitsIgnoreOutbox(c: ConnectionState, outbox: seq<Datagram>, n: nat)
    ensures AfterWaits(c.(outbox := outbox), n) == AfterWaits(c, n).(outbox := outbox)
    decreases n
  {
    if n > 0 {
      assert Waited(c.(outbox := outbox)) == Waited(c).(outbox := outbox);
      WaitsIgnoreOutbox(Waited(c), outbox, n - 1);
    }
  }

  /**
   * The retransmission loop sends the message k times, 1 <= k <= 1 + the
   * retransmission count, waiting after each send; it stops at the first
   * wait after which the id is confirmed, and runs out only after all
   * 1 + count sends.
   */
  lemma {:induction false} RetransmissionLaw(cfg: Config, c: ConnectionState, message: seq<byte>, id: ushort,
                                             to: Option<Endpoint>, i: nat)
    requires i <= 1 + cfg.maxRetransmissions
    ensures var (r, confirmed) := Retransmitted(cfg, c, message, id, to, i);
            var k := |r.outbox| - |c.outbox|;
            0 <= k <= 1 + cfg.maxRetransmissions - i
            && r == AfterWaits(c, k).(outbox := c.outbox + Repeat(Datagram(message, to), k))
            && (confirmed <==> 0 < k && id in r.awaited)
            && (forall j :: 0 < j < k ==> id !in AfterWaits(c, j).awaited)
            && (!confirmed ==> k == 1 + cfg.maxRetransmissions - i)
    decreases 1 + cfg.maxRetransmissions - i
  {
    var d := Datagram(message, to);
    if i == 1 + cfg.maxRetransmissions {
      assert c.outbox + Repeat(d, 0) == c.outbox;
    } else {
      var next := Waited(Sent(c, message, to));
      assert next == Waited(c).(outbox := c.outbox + [d]);
      assert Repeat(d, 1) == [d];
      if id !in next.awaited {
        RetransmissionLaw(cfg, next, message, id, to, i + 1);
        var (r, confirmed) := Retransmitted(cfg, next, message, id, to, i + 1);
        RetransmissionShift(c, d, id, r, |r.outbox| - |next.outbox|);
      }
    }
  }

  /** One send and wait in front of `k` more is `k + 1` sends and waits from the earlier state. */
  lemma RetransmissionShift(c: ConnectionState, d: Datagram, id: ushort, r: ConnectionState, k: nat)
    requires r == AfterWaits(Waited(c).(outbox := c.outbox + [d]), k).(outbox := c.outbox + [d] + Repeat(d, k))
    requires id !in Waited(c).awaited
    requires forall j :: 0 < j < k ==> id !in AfterWaits(Waited(c).(outbox := c.outbox + [d]), j).awaited
    ensures r == AfterWaits(c, k + 1).(outbox := c.outbox + Repeat(d, k + 1))
    ensures forall j :: 0 < j < k + 1 ==> id !in AfterWaits(c, j).awaited
  {
    WaitsIgnoreOutbox(Waited(c), c.outbox + [d], k);
    assert c.outbox + [d] + Repeat(d, k) == c.outbox + Repeat(d, k + 1);
    forall j | 1 < j < k + 1 ensures id !in AfterWaits(c, j).awaited {
      WaitsIgnoreOutbox(Waited(c), c.outbox + [d], j - 1);
    }
  }

  /** A MSG seen twice is confirmed twice and printed once. */
  lemma MsgTwicePrintsOnce(c: ConnectionState, messageId: ushort, displayName: string, contents: string,
                           displayName': string, contents': string)
    ensures var once := AfterMsg(c, messageId, displayName, contents);
            var twice := AfterMsg(once, messageId, displayName', contents');
            twice.log == once.log && twice.received == once.received
            && (c.fsmState != Start ==> twice.outbox == once.outbox + [Datagram(UdpMessageGenerator.GenerateConfirmMessage(messageId), None)])
  {
  }

  /**
   * From Start, an AUTH whose sending was confirmed, answered by a fresh
   * positive REPLY to its id, opens the session and connects the socket to
   * the replying endpoint.
   */
  lemma AuthThenPositiveReplyOpens(cfg: Config, c: ConnectionState, username: string, displayName: string,
                                   secret: string, reply: UdpMessageParser.ReplyMessage, from: Endpoint, fuel: nat)
    requires Live(c) && c.fsmState == Start && IsAscii(username) && IsAscii(displayName) && IsAscii(secret)
    requires AfterAuth(cfg, c, username, displayName, secret, fuel).run.Running?
    requires reply.result && reply.refMessageId == c.messageCounter
    requires reply.messageId !in AfterAuth(cfg, c, username, displayName, secret, fuel).received
    ensures var r := AfterAuthReply(cfg, AfterAuth(cfg, c, username, displayName, secret, fuel), reply, from, fuel);
            r.fsmState == Open && r.connectedTo == Some(from) && r.displayName == displayName
            && r.currentlyWaitingForId == 0 && r.run.Running?
  {
  }

  /**
   * A fresh REPLY that answers another id than the awaited one is fatal,
   * whichever handler receives it.
   */
  lemma MismatchedReplyIsFatal(cfg: Config, c: ConnectionState, message: seq<byte>, from: Endpoint, fuel: nat)
    requires Live(c) && c.fsmState in {Start, Auth, Open}
    requires UdpMessageParser.ParseReplyMessage(message).Success?
    requires message[0] == REPLY
    requires var reply := UdpMessageParser.ParseReplyMessage(message).value;
             reply.messageId !in c.received && reply.refMessageId != c.currentlyWaitingForId
    ensures var r := AfterReceive(cfg, c, message, from, fuel);
            !r.0.run.Running? && Err(ServerErrorText) in r.0.log
  {
  }

  /** A CONFIRM laid out as the protocol prescribes is recorded under the id it confirms, and nothing else changes. */
  lemma ConformingConfirmRecorded(cfg: Config, c: ConnectionState, id: ushort, from: Endpoint, fuel: nat)
    requires Live(c)
    ensures var r := AfterReceive(cfg, c, UdpMessageGenerator.GenerateConfirmMessage(id), from, fuel);
            r.1 == None && id in r.0.awaited && r.0 == c.(awaited := r.0.awaited)
            && r.0.awaited == Enqueued(c.awaited, QueueCapacity, id)
  {
  }

  /** With no CONFIRM arriving, a retransmission loop for an id not yet confirmed runs out. */
  lemma {:induction false} SilentRetransmissionRunsOut(cfg: Config, c: ConnectionState, message: seq<byte>, id: ushort,
                                                       to: Option<Endpoint>, i: nat)
    requires i <= 1 + cfg.maxRetransmissions && c.arrivals == [] && id !in c.awaited
    ensures !Retransmitted(cfg, c, message, id, to, i).1
    decreases 1 + cfg.maxRetransmissions - i
  {
    if i < 1 + cfg.maxRetransmissions {
      SilentRetransmissionRunsOut(cfg, Waited(Sent(c, message, to)), message, id, to, i + 1);
    }
  }

  /** Outside Start, the server-error path cannot end cleanly when no CONFIRM for its ERR frame can arrive. */
  lemma UnheardServerErrorFails(cfg: Config, c: ConnectionState, fuel: nat)
    requires Live(c) && c.fsmState != Start && c.arrivals == [] && c.messageCounter !in c.awaited
    ensures !AfterServerError(cfg, c, fuel).run.Running?
  {
    SilentRetransmissionRunsOut(cfg, c.(messageCounter := Increment(c.messageCounter)),
                                UdpMessageGenerator.GenerateErrMessage(c.messageCounter, c.displayName, ServerErrorText),
                                c.messageCounter, None, 0);
  }

  /** Outside Start, `EndSession` cannot end cleanly when no CONFIRM for its BYE frame can arrive. */
  lemma UnheardEndSessionFails(cfg: Config, c: ConnectionState, fuel: nat)
    requires Live(c) && c.fsmState != Start && c.arrivals == [] && c.messageCounter !in c.awaited
    ensures !AfterEndSession(cfg, c, fuel).run.Running?
  {
    SilentRetransmissionRunsOut(cfg, c.(messageCounter := Increment(c.messageCounter)),
                                UdpMessageGenerator.GenerateByeMessage(c.messageCounter), c.messageCounter, None, 0);
  }

  /**
   * In Auth or Open, while the current id has not been confirmed, every
   * datagram on which the receive loop returns 1, save a repeated ERR, leaves
   * the process stopped: a fresh ERR, an unknown or misplaced frame and a
   * frame that does not parse all lead to a frame that must be confirmed,
   * and the loop that would read the CONFIRM is waiting for the handler.
   */
  lemma AwaitedHandlersNeverEndCleanly(cfg: Config, c: ConnectionState, message: seq<byte>, from: Endpoint, fuel: nat)
    requires Live(c) && c.fsmState in {Auth, Open} && c.messageCounter !in c.awaited
    requires |message| > 0 && message[0] == ERR && UdpMessageParser.ParseMsgMessage(message).Success? ==>
               UdpMessageParser.ParseMsgMessage(message).value.messageId !in c.received
    ensures var r := AfterReceive(cfg, c, message, from, fuel);
            r.1 == Some(1) ==> !r.0.run.Running?
  {
    var s := Suspended(c);
    var confirmed := if |message| > 2 then Confirmed(s, ReadBigEndian(message[1..3]), None) else s;
    UnheardServerErrorFails(cfg, confirmed, fuel);
    if |message| > 0 && message[0] == ERR && UdpMessageParser.ParseMsgMessage(message).Success? {
      var m := UdpMessageParser.ParseMsgMessage(message).value;
      var logged := Confirmed(s, m.messageId, None).(received := Enqueued(c.received, QueueCapacity, m.messageId),
                                                      log := c.log + [Err("ERR FROM " + m.displayName + ": " + m.messageContents)]);
      UnheardEndSessionFails(cfg, logged, fuel);
    }
  }

  /**
   * The concrete case: in Open with id 7 next, the peer would confirm the
   * BYE during the first wait, yet a fresh ERR leaves the process stopped.
   */
  lemma ErrInOpenMissesConfirm(cfg: Config, from: Endpoint, fuel: nat)
    ensures var c := ConnectionState(Open, "me", 7, 0, [], [], [], Some(from), false, [], Running, [[7]]);
            var r := AfterReceive(cfg, c, UdpMessageGenerator.GenerateErrMessage(5, "s", "x"), from, fuel);
            r.1 == Some(1) && !r.0.run.Running?
  {
    var c := ConnectionState(Open, "me", 7, 0, [], [], [], Some(from), false, [], Running, [[7]]);
    var frame := UdpMessageGenerator.GenerateErrMessage(5, "s", "x");
    UdpMessageParser.ErrRoundTrip(5, "s", "x");
    assert UdpMessageParser.ParseMsgMessage(frame).value.messageId == 5;
    ParsedErrReturnsOne(cfg, c, frame, from, fuel);
    AwaitedHandlersNeverEndCleanly(cfg, c, frame, from, fuel);
  }

  /**
   * AUTH, JOIN, an unknown tag and a REPLY in End, long enough to carry an
   * id and received once the socket is connected: the loop confirms the
   * frame's id and then takes the server-error path suspended, returning 1.
   */
  lemma UnexpectedFrameTakesServerErrorPath(cfg: Config, c: ConnectionState, message: seq<byte>, from: Endpoint,
                                            fuel: nat)
    requires Live(c) && |message| >= 3 && c.fsmState != Start
    requires message[0] in {AUTH, JOIN} || !IsTag(message[0]) || (message[0] == REPLY && c.fsmState == End)
    ensures AfterReceive(cfg, c, message, from, fuel)
            == (AfterServerError(cfg, Confirmed(Suspended(c), ReadBigEndian(message[1..3]), None), fuel), Some(1))
  {
  }

  /** A well-formed ERR makes the receive loop return 1. */
  lemma ParsedErrReturnsOne(cfg: Config, c: ConnectionState, message: seq<byte>, from: Endpoint, fuel: nat)
    requires Live(c) && |message| > 0 && message[0] == ERR && UdpMessageParser.ParseMsgMessage(message).Success?
    ensures AfterReceive(cfg, c, message, from, fuel).1 == Some(1)
  {
  }

  /**
   * The ERR handler whose wait can hear the peer: when the CONFIRM for its
   * BYE arrives during the first wait, a fresh ERR ends the session cleanly,
   * in End with the socket closed and the counter one further.
   */
  lemma HeardErrEndsSession(cfg: Config, c: ConnectionState, messageId: ushort, displayName: string,
                            messageContents: string, fuel: nat)
    requires Live(c) && c.fsmState in {Auth, Open} && messageId !in c.received
    requires c.arrivals != [] && c.arrivals[0] == [c.messageCounter]
    ensures var r := AfterErr(cfg, c, messageId, displayName, messageContents, fuel);
            r.run.Running? && r.fsmState == End && r.closed && r.messageCounter == Increment(c.messageCounter)
  {
    var logged := Confirmed(c, messageId, None).(received := Enqueued(c.received, QueueCapacity, messageId),
                                                  log := c.log + [Err("ERR FROM " + displayName + ": " + messageContents)]);
    var bumped := logged.(messageCounter := Increment(c.messageCounter));
    var bye := UdpMessageGenerator.GenerateByeMessage(c.messageCounter);
    assert EnqueuedAll(c.awaited, QueueCapacity, [c.messageCounter]) == Enqueued(c.awaited, QueueCapacity, c.messageCounter);
    EnqueuedContains(c.awaited, QueueCapacity, c.messageCounter);
    assert Retransmitted(cfg, bumped, bye, c.messageCounter, None, 0).1;
  }
}
