/**
 * The stream (TCP) variant of the client's protocol engine: state guards and
 * transitions. The stream is the list of lines written to it, the console a
 * log of lines; a connect sets a flag.
 */
module TcpConnections {
  import opened Common
  import TcpMessageGenerator

  class TcpConnection {
    const server: Endpoint
    var fsmState: FsmState
    var displayName: string
    /** Whether the socket has been connected to the server. */
    var connected: bool
    /** The lines written to the stream, in order. */
    var written: seq<string>
    var disposed: bool
    var log: seq<Line>

    /**
     * Every line written ends with CRLF and went over an established
     * connection; the session is past Start only once connected; an ended
     * session has released its socket.
     */
    ghost predicate Valid()
      reads this
    {
      (forall i :: 0 <= i < |written| ==> TcpMessageGenerator.EndsWithCrLf(written[i]))
      && (written != [] ==> connected)
      && (fsmState != Start ==> connected)
      && (fsmState == End ==> disposed)
    }

    constructor (server: Endpoint)
      ensures Valid()
      ensures this.server == server && fsmState == Start && displayName == "" && !connected
      ensures written == [] && !disposed && log == []
    {
      this.server := server;
      fsmState := Start;
      displayName := "";
      connected := false;
      written := [];
      disposed := false;
      log := [];
    }

    /** Only in Open: one MSG line under the current display name. */
    method SendMessage(message: string)
      requires Valid()
      modifies this
      ensures Valid()
      ensures fsmState == old(fsmState) && displayName == old(displayName) && connected == old(connected)
              && disposed == old(disposed)
      ensures old(fsmState) != Open ==> written == old(written) && log == old(log) + [Out(SendMessageInWrongState)]
      ensures old(fsmState) == Open ==>
                written == old(written) + [TcpMessageGenerator.GenerateMsgMessage(displayName, message)] && log == old(log)
    {
      if fsmState != Open {
        log := log + [Out(SendMessageInWrongState)];
        return;
      }
      var msgMessage := TcpMessageGenerator.GenerateMsgMessage(displayName, message);
      written := written + [msgMessage];
    }

    /**
     * Only in Start or Auth: records the display name, connects unless
     * connected, and writes one AUTH line.
     */
    method Auth(username: string, displayName: string, secret: string)
      requires Valid()
      modifies this
      ensures Valid()
      ensures fsmState == old(fsmState) && disposed == old(disposed)
      ensures old(fsmState) !in {Start, FsmState.Auth} ==>
                this.displayName == old(this.displayName) && connected == old(connected)
                && written == old(written) && log == old(log) + [Out(AuthInWrongState)]
      ensures old(fsmState) in {Start, FsmState.Auth} ==>
                this.displayName == displayName && connected && log == old(log)
                && written == old(written) + [TcpMessageGenerator.GenerateAuthMessage(username, displayName, secret)]
    {
      if fsmState != Start && fsmState != FsmState.Auth {
        log := log + [Out(AuthInWrongState)];
        return;
      }
      this.displayName := displayName;
      if !connected {
        connected := true;
      }
      var authMessage := TcpMessageGenerator.GenerateAuthMessage(username, displayName, secret);
      written := written + [authMessage];
    }

    /** Only in Open: one JOIN line under the current display name. */
    method Join(channelName: string)
      requires Valid()
      modifies this
      ensures Valid()
      ensures fsmState == old(fsmState) && displayName == old(displayName) && connected == old(connected)
              && disposed == old(disposed)
      ensures old(fsmState) != Open ==> written == old(written) && log == old(log) + [Out(JoinInWrongState)]
      ensures old(fsmState) == Open ==>
                written == old(written) + [TcpMessageGenerator.GenerateJoinMessage(channelName, displayName)]
                && log == old(log)
    {
      if fsmState != Open {
        log := log + [Out(JoinInWrongState)];
        return;
      }
      var joinMessage := TcpMessageGenerator.GenerateJoinMessage(channelName, displayName);
      written := written + [joinMessage];
    }

    /** Only in Open, and nothing but the display name changes. */
    method Rename(newDisplayName: string)
      requires Valid()
      modifies this
      ensures Valid()
      ensures fsmState == old(fsmState) && connected == old(connected) && written == old(written)
              && disposed == old(disposed)
      ensures old(fsmState) != Open ==> displayName == old(displayName) && log == old(log) + [Out(RenameInWrongState)]
      ensures old(fsmState) == Open ==> displayName == newDisplayName && log == old(log)
    {
      if fsmState != Open {
        log := log + [Out(RenameInWrongState)];
        return;
      }
      displayName := newDisplayName;
    }

    /**
     * From Start only releases the socket and stays in Start; otherwise
     * writes BYE, releases the socket and ends the session.
     */
    method EndSession()
      requires Valid()
      modifies this
      ensures Valid()
      ensures disposed && displayName == old(displayName) && connected == old(connected) && log == old(log)
      ensures old(fsmState) == Start ==> fsmState == Start && written == old(written)
      ensures old(fsmState) != Start ==>
                fsmState == End && written == old(written) + [TcpMessageGenerator.GenerateByeMessage()]
    {
      if fsmState == Start {
        disposed := true;
        return;
      }
      var byeMessage := TcpMessageGenerator.GenerateByeMessage();
      written := written + [byeMessage];
      disposed := true;
      fsmState := End;
    }

    /**
     * A REPLY to AUTH, which can only be read from a stream that is connected
     * and not yet released: the state becomes Auth, then Open when the reply
     * is positive.
     */
    method AuthReplyRetrieval(result: bool, messageContents: string)
      requires Valid() && connected && !disposed
      modifies this
      ensures Valid()
      ensures displayName == old(displayName) && connected == old(connected) && written == old(written)
              && disposed == old(disposed)
      ensures !result ==> fsmState == FsmState.Auth && log == old(log) + [Line.Err("Failure: " + messageContents)]
      ensures result ==> fsmState == Open && log == old(log) + [Out("Success: " + messageContents)]
    {
      fsmState := FsmState.Auth;
      if !result {
        log := log + [Line.Err("Failure: " + messageContents)];
        return;
      }
      log := log + [Out("Success: " + messageContents)];
      fsmState := Open;
    }

    /** A REPLY to JOIN: reported, with no change of state. */
    method JoinReplyRetrieval(result: bool, messageContents: string)
      requires Valid()
      modifies this
      ensures Valid()
      ensures fsmState == old(fsmState) && displayName == old(displayName) && connected == old(connected)
              && written == old(written) && disposed == old(disposed)
      ensures !result ==> log == old(log) + [Line.Err("Failure: " + messageContents)]
      ensures result ==> log == old(log) + [Out("Success: " + messageContents)]
    {
      if !result {
        log := log + [Line.Err("Failure: " + messageContents)];
        return;
      }
      log := log + [Out("Success: " + messageContents)];
    }
  }
}
