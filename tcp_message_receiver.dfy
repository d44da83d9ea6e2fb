/**
 * Reassembly of CRLF-terminated lines from a byte stream. Each call hands
 * out one queued line; when none is queued it reads one chunk into a fixed
 * buffer, splits it on CRLF and queues the complete lines, carrying an
 * unfinished last line over to the next read. The socket read is the
 * `chunk` parameter: the bytes the read placed at the start of the buffer.
 */
module TcpMessageReceivers {
  import opened Common
  import opened Text
  import opened FixedSizeQueues

  const BufferSize := 4096
  const QueueCapacity := 50

  /**
   * Whether the last piece of a read is kept back as unfinished: only when
   * the read filled the whole buffer, its last byte is not LF and the byte
   * before it is not CR.
   */
  function HoldsLastPiece(read: seq<byte>): (r: bool)
    ensures r <==> |read| == BufferSize && read[|read| - 1] != 0x0A && read[|read| - 2] != 0x0D
    ensures r ==> read[|read| - 2..] != [0x0D, 0x0A]
    ensures |read| < BufferSize ==> !r
  {
    |read| == BufferSize && read[BufferSize - 1] != 0x0A && read[BufferSize - 2] != 0x0D
  }

  datatype Reassembly = Reassembly(queued: seq<string>, builder: string)

  /**
   * The queue contents and the carried text after the loop over `pieces`
   * has run from index `i` on, with carried text `builder` and queue
   * contents `items`: an empty piece stops the loop; the last piece is
   * queued, or carried when `hold`; any other piece is queued with the
   * carried text in front of it, which is then cleared.
   */
  function Reassemble(pieces: seq<string>, i: nat, hold: bool, builder: string, items: seq<string>): Reassembly
    requires i <= |pieces|
    decreases |pieces| - i
  {
    if i == |pieces| || pieces[i] == "" then Reassembly(items, builder)
    else if i == |pieces| - 1 && !hold then Reassembly(Enqueued(items, QueueCapacity, pieces[i]), builder)
    else if i == |pieces| - 1 then Reassembly(items, builder + pieces[i])
    else if |builder| > 0 then Reassemble(pieces, i + 1, hold, "", Enqueued(items, QueueCapacity, builder + pieces[i]))
    else Reassemble(pieces, i + 1, hold, builder, Enqueued(items, QueueCapacity, pieces[i]))
  }

  class TcpMessageReceiver {
    const buffer: array<byte>
    const queuedMessages: FixedSizeQueue<string>
    var messageBuilder: string

    ghost predicate Valid()
      reads this, queuedMessages
    {
      buffer.Length == BufferSize && queuedMessages.Valid() && queuedMessages.maxSize == QueueCapacity
    }

    constructor ()
      ensures Valid() && fresh(buffer) && fresh(queuedMessages)
      ensures queuedMessages.items == [] && messageBuilder == ""
    {
      buffer := new byte[BufferSize](_ => 0);
      queuedMessages := new FixedSizeQueue(QueueCapacity);
      messageBuilder := "";
    }

    /**
     * Hands out the oldest queued line without reading; otherwise takes in
     * `chunk`, queues the lines it completes and hands out the oldest of
     * them, failing when the read completed none.
     */
    method ReceiveMessage(chunk: seq<byte>) returns (r: Result<string>)
      requires Valid() && |chunk| <= BufferSize
      modifies this, buffer, queuedMessages
      ensures Valid()
      ensures old(queuedMessages.items) != [] ==>
                r == Success(old(queuedMessages.items)[0]) && queuedMessages.items == old(queuedMessages.items)[1..]
                && messageBuilder == old(messageBuilder) && buffer[..] == old(buffer[..])
      ensures old(queuedMessages.items) == [] ==>
                var after := Reassemble(SplitCrLf(AsciiString(chunk)), 0, HoldsLastPiece(chunk), old(messageBuilder), []);
                buffer[..|chunk|] == chunk && messageBuilder == after.builder
                && (after.queued == [] ==> r == Failure(QueueEmpty) && queuedMessages.items == [])
                && (after.queued != [] ==> r == Success(after.queued[0]) && queuedMessages.items == after.queued[1..])
    {
      if queuedMessages.Count() > 0 {
        r := queuedMessages.Dequeue();
        return;
      }
      forall k | 0 <= k < |chunk| {
        buffer[k] := chunk[k];
      }
      var receivedMessageBytes := |chunk|;
      assert buffer[..receivedMessageBytes] == chunk;
      var lastMessageToBuild := receivedMessageBytes == BufferSize
        && buffer[BufferSize - 1] != 0x0A && buffer[BufferSize - 2] != 0x0D;
      var receivedMessages := SplitCrLf(AsciiString(buffer[..receivedMessageBytes]));
      QueueLines(receivedMessages, lastMessageToBuild);
      r := queuedMessages.Dequeue();
    }

    /**
     * The loop over the pieces of one read: the queue and the carried text
     * end as `Reassemble` says.
     */
    method QueueLines(receivedMessages: seq<string>, lastMessageToBuild: bool)
      requires Valid()
      modifies this, queuedMessages
      ensures Valid()
      ensures Reassembly(queuedMessages.items, messageBuilder)
              == Reassemble(receivedMessages, 0, lastMessageToBuild, old(messageBuilder), old(queuedMessages.items))
    {
      ghost var target := Reassemble(receivedMessages, 0, lastMessageToBuild, messageBuilder, queuedMessages.items);
      var i := 0;
      while i < |receivedMessages|
        invariant 0 <= i <= |receivedMessages|
        invariant Valid()
        invariant Reassemble(receivedMessages, i, lastMessageToBuild, messageBuilder, queuedMessages.items) == target
        decreases |receivedMessages| - i
      {
        if receivedMessages[i] == "" {
          break;
        }
        if i == |receivedMessages| - 1 && !lastMessageToBuild {
          queuedMessages.Enqueue(receivedMessages[i]);
          break;
        }
        if i == |receivedMessages| - 1 && lastMessageToBuild {
          messageBuilder := messageBuilder + receivedMessages[i];
          i := i + 1;
          continue;
        }
        if |messageBuilder| > 0 {
          queuedMessages.Enqueue(messageBuilder + receivedMessages[i]);
          messageBuilder := "";
        } else {
          queuedMessages.Enqueue(receivedMessages[i]);
        }
        i := i + 1;
      }
    }
  }

  /** Lines each followed by CRLF. */
  function Lines(frames: seq<string>): string {
    if frames == [] then "" else frames[0] + "\r\n" + Lines(frames[1..])
  }

  /** Splitting lines that hold no CRLF gives the lines back, then whatever follows. */
  lemma {:induction false} SplitLines(frames: seq<string>, tail: string)
    requires forall j :: 0 <= j < |frames| ==> NoCrLf(frames[j])
    ensures SplitCrLf(Lines(frames) + tail) == frames + SplitCrLf(tail)
    decreases |frames|
  {
    if frames == [] {
      assert Lines(frames) + tail == tail;
    } else {
      var more := frames[1..];
      assert forall j :: 0 <= j < |more| ==> NoCrLf(more[j]) by {
        forall j | 0 <= j < |more| ensures NoCrLf(more[j]) {
          assert more[j] == frames[j + 1];
        }
      }
      SplitLines(more, tail);
      assert [frames[0]] + more == frames;
      SplitLinesStep(frames[0], more, tail, Lines(frames) + tail);
      assert SplitCrLf(Lines(frames) + tail) == [frames[0]] + (more + SplitCrLf(tail));
      ConsAppend(frames[0], more, SplitCrLf(tail));
    }
  }

  lemma ConsAppend<T>(x: T, a: seq<T>, b: seq<T>)
    ensures [x] + (a + b) == ([x] + a) + b
  {
  }

  lemma SplitLinesStep(f: string, more: seq<string>, tail: string, s: string)
    requires NoCrLf(f) && s == Lines([f] + more) + tail
    ensures SplitCrLf(s) == [f] + SplitCrLf(Lines(more) + tail)
  {
    assert ([f] + more)[1..] == more;
    assert s == f + "\r\n" + (Lines(more) + tail);
    SplitCrLfAt(f, Lines(more) + tail);
  }

  /**
   * With nothing carried, a run of non-empty pieces is queued in order; the
   * last piece ends the run: an empty one is dropped, a held one carried,
   * any other queued.
   */
  lemma ReassembleRun(pieces: seq<string>, i: nat, hold: bool, items: seq<string>)
    requires i < |pieces|
    requires forall j :: i <= j < |pieces| - 1 ==> pieces[j] != ""
    ensures var n := |pieces|;
            Reassemble(pieces, i, hold, "", items) ==
            if pieces[n - 1] == "" then Reassembly(EnqueuedAll(items, QueueCapacity, pieces[i..n - 1]), "")
            else if hold then Reassembly(EnqueuedAll(items, QueueCapacity, pieces[i..n - 1]), pieces[n - 1])
            else Reassembly(EnqueuedAll(items, QueueCapacity, pieces[i..]), "")
  {
    var n := |pieces|;
    ReassemblePrefix(pieces, i, n - 1, hold, items);
    ReassembleLast(pieces, hold, EnqueuedAll(items, QueueCapacity, pieces[i..n - 1]));
    if pieces[n - 1] != "" && !hold {
      EnqueuedAllSuffix(items, pieces, i);
    }
  }

  /**
   * With nothing carried, the non-empty pieces from `i` up to `j` are
   * queued one by one, in order.
   */
  lemma {:induction false} ReassemblePrefix(pieces: seq<string>, i: nat, j: nat, hold: bool, items: seq<string>)
    requires i <= j < |pieces|
    requires forall k :: i <= k < j ==> pieces[k] != ""
    ensures Reassemble(pieces, i, hold, "", items)
            == Reassemble(pieces, j, hold, "", EnqueuedAll(items, QueueCapacity, pieces[i..j]))
    decreases j - i
  {
    if i == j {
      assert pieces[i..j] == [];
    } else {
      ReassemblePrefix(pieces, i, j - 1, hold, items);
      var before := EnqueuedAll(items, QueueCapacity, pieces[i..j - 1]);
      ReassembleStep(pieces, j - 1, hold, before);
      EnqueuedAllSlice(items, pieces, i, j);
    }
  }

  /** The last piece, with nothing carried. */
  lemma ReassembleLast(pieces: seq<string>, hold: bool, items: seq<string>)
    requires |pieces| > 0
    ensures var last := pieces[|pieces| - 1];
            Reassemble(pieces, |pieces| - 1, hold, "", items) ==
            if last == "" then Reassembly(items, "")
            else if hold then Reassembly(items, last)
            else Reassembly(Enqueued(items, QueueCapacity, last), "")
  {
  }

  /** Enqueuing a suffix is enqueuing it without its last element, then that element. */
  lemma EnqueuedAllSuffix(items: seq<string>, pieces: seq<string>, i: nat)
    requires i < |pieces|
    ensures EnqueuedAll(items, QueueCapacity, pieces[i..])
            == Enqueued(EnqueuedAll(items, QueueCapacity, pieces[i..|pieces| - 1]), QueueCapacity, pieces[|pieces| - 1])
  {
    var xs := pieces[i..];
    assert xs[..|xs| - 1] == pieces[i..|pieces| - 1];
  }

  /** Enqueuing a slice is enqueuing the slice without its last element, then that element. */
  lemma EnqueuedAllSlice(items: seq<string>, pieces: seq<string>, i: nat, j: nat)
    requires i < j <= |pieces|
    ensures EnqueuedAll(items, QueueCapacity, pieces[i..j])
            == Enqueued(EnqueuedAll(items, QueueCapacity, pieces[i..j - 1]), QueueCapacity, pieces[j - 1])
  {
    var xs := pieces[i..j];
    assert xs != [] && xs[|xs| - 1] == pieces[j - 1];
    assert xs[..|xs| - 1] == pieces[i..j - 1];
  }

  /** With nothing carried, a non-empty piece before the last is queued on its own. */
  lemma ReassembleStep(pieces: seq<string>, i: nat, hold: bool, items: seq<string>)
    requires i < |pieces| - 1 && pieces[i] != ""
    ensures Reassemble(pieces, i, hold, "", items)
            == Reassemble(pieces, i + 1, hold, "", Enqueued(items, QueueCapacity, pieces[i]))
  {
  }

  /** A frame: non-empty and free of CRLF. */
  predicate IsFrame(f: string) {
    f != "" && NoCrLf(f)
  }

  /**
   * A read of complete lines, with nothing carried and nothing queued,
   * queues exactly those lines in order when they are distinct and at most
   * the queue's capacity.
   */
  lemma {:induction false} CompleteLinesQueuedInOrder(frames: seq<string>, hold: bool)
    requires forall j :: 0 <= j < |frames| ==> IsFrame(frames[j])
    requires NoDuplicates(frames) && |frames| <= QueueCapacity
    ensures Reassemble(SplitCrLf(Lines(frames)), 0, hold, "", []) == Reassembly(frames, "")
  {
    SplitLines(frames, "");
    assert Lines(frames) + "" == Lines(frames);
    var pieces := frames + [""];
    assert SplitCrLf("") == [""];
    ReassembleRun(pieces, 0, hold, []);
    assert pieces[0..|pieces| - 1] == frames;
    EnqueuedAllDistinct(QueueCapacity, frames);
    assert frames[0..] == frames;
  }

  /**
   * A held read of complete lines followed by an unfinished one queues the
   * complete lines and carries the unfinished one.
   */
  lemma {:induction false} UnfinishedLineCarried(frames: seq<string>, tail: string)
    requires forall j :: 0 <= j < |frames| ==> IsFrame(frames[j])
    requires IsFrame(tail)
    ensures Reassemble(SplitCrLf(Lines(frames) + tail), 0, true, "", [])
            == Reassembly(EnqueuedAll([], QueueCapacity, frames), tail)
  {
    SplitLines(frames, tail);
    SplitCrLfNone(tail);
    var pieces := frames + [tail];
    ReassembleRun(pieces, 0, true, []);
    assert pieces[0..|pieces| - 1] == frames;
  }

  /**
   * The carried text is put in front of the first line of the next read,
   * which is then queued as one line, followed by the rest in order.
   */
  lemma {:induction false} CarriedTextPrefixesNextLine(carried: string, f: string, frames: seq<string>, hold: bool)
    requires carried != "" && IsFrame(f)
    requires forall j :: 0 <= j < |frames| ==> IsFrame(frames[j])
    ensures Reassemble(SplitCrLf(Lines([f] + frames)), 0, hold, carried, [])
            == Reassembly(EnqueuedAll([], QueueCapacity, [carried + f] + frames), "")
  {
    var all := [f] + frames;
    assert forall j :: 0 <= j < |all| ==> NoCrLf(all[j]);
    SplitLines(all, "");
    assert Lines(all) + "" == Lines(all);
    assert SplitCrLf("") == [""];
    var pieces := all + [""];
    assert pieces[0] == f && |pieces| >= 2;
    assert Reassemble(pieces, 0, hold, carried, [])
           == Reassemble(pieces, 1, hold, "", Enqueued([], QueueCapacity, carried + f));
    ReassembleRun(pieces, 1, hold, Enqueued([], QueueCapacity, carried + f));
    assert pieces[1..|pieces| - 1] == frames;
    EnqueuedAllCons([], QueueCapacity, carried + f, frames);
  }

  /**
   * A read that starts with CRLF has an empty first piece, which stops the
   * loop at once: nothing is queued and the carried text stays, whatever
   * the rest of the read holds.
   */
  lemma LeadingCrLfQueuesNothing(rest: string, hold: bool, builder: string, items: seq<string>)
    ensures Reassemble(SplitCrLf("\r\n" + rest), 0, hold, builder, items) == Reassembly(items, builder)
  {
    var s := "\r\n" + rest;
    assert s[0] == '\r' && s[1] == '\n' && s[2..] == rest;
    assert SplitCrLf(s)[0] == "";
  }

  /** Every line queued was queued before or is non-empty. */
  lemma {:induction false} NoEmptyLineQueued(pieces: seq<string>, i: nat, hold: bool, builder: string, items: seq<string>)
    requires i <= |pieces|
    ensures forall x :: x in Reassemble(pieces, i, hold, builder, items).queued ==> x in items || x != ""
    decreases |pieces| - i
  {
    if i == |pieces| || pieces[i] == "" {
    } else if i == |pieces| - 1 && !hold {
      forall x | x in Enqueued(items, QueueCapacity, pieces[i]) ensures x in items || x != "" {
        EnqueuedSubset(items, QueueCapacity, pieces[i], x);
      }
    } else if i == |pieces| - 1 {
    } else {
      var next := if |builder| > 0 then builder + pieces[i] else pieces[i];
      var items' := Enqueued(items, QueueCapacity, next);
      NoEmptyLineQueued(pieces, i + 1, hold, "", items');
      NoEmptyLineQueued(pieces, i + 1, hold, builder, items');
      forall x | x in items' ensures x in items || x != "" {
        EnqueuedSubset(items, QueueCapacity, next, x);
      }
    }
  }
}
