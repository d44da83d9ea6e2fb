/**
 * Decoder of the binary (datagram) REPLY and MSG/ERR frames. Index reads
 * and slices past the end of the frame raise exceptions in the source; here
 * they are `Failure` values.
 */
module UdpMessageParser {
  import opened Common
  import opened UdpMessageGenerator

  datatype ReplyMessage = ReplyMessage(messageId: ushort, result: bool, refMessageId: ushort, messageContents: string)

  datatype MsgMessage = MsgMessage(messageId: ushort, displayName: string, messageContents: string)

  /** The index of the first character at or after `i` that is not NUL. */
  function TextStart(s: string, i: nat): (k: nat)
    requires i <= |s|
    ensures i <= k <= |s| && (k < |s| ==> s[k] != '\0')
    ensures forall j :: i <= j < k ==> s[j] == '\0'
    decreases |s| - i
  {
    if i < |s| && s[i] == '\0' then TextStart(s, i + 1) else i
  }

  /** The index just past the last character before `hi` that is not NUL, but not below `lo`. */
  function TextEnd(s: string, lo: nat, hi: nat): (k: nat)
    requires lo <= hi <= |s|
    ensures lo <= k <= hi && (k > lo ==> s[k - 1] != '\0')
    ensures forall j :: k <= j < hi ==> s[j] == '\0'
  {
    if lo < hi && s[hi - 1] == '\0' then TextEnd(s, lo, hi - 1) else hi
  }

  /** `string.Trim('\0')`: `s` without its leading and trailing NUL characters. */
  function TrimNul(s: string): (r: string)
    ensures r == [] || (r[0] != '\0' && r[|r| - 1] != '\0')
  {
    var a := TextStart(s, 0);
    s[a..TextEnd(s, a, |s|)]
  }

  /**
   * The field the decoder means to read at `start`: skip one NUL sitting at
   * `start`, then take the bytes up to the next NUL; when no NUL follows,
   * all remaining bytes but the last.
   */
  function FieldAt(bytes: seq<byte>, start: nat): (r: Option<seq<byte>>)
  {
    if start >= |bytes| then None
    else
      var from := if bytes[start] == 0 then start + 1 else start;
      var rest := bytes[from..];
      match IndexOf(rest, 0)
      case Some(k) => Some(rest[..k])
      case None => if rest == [] then None else Some(rest[..|rest| - 1])
  }

  /**
   * Reads the NUL-terminated ASCII string at `startIndex`: one NUL at the
   * start is skipped, the bytes up to and including the next NUL (all but
   * the last when there is none) are decoded, and NULs are trimmed off.
   * `ConvertReadsField` relates the result to `FieldAt`.
   */
  function ConvertAsciiBytesToString(bytes: seq<byte>, startIndex: nat): (r: Result<string>)
    ensures startIndex >= |bytes| ==> r == Failure(IndexOutOfRange)
  {
    if startIndex >= |bytes| then Failure(IndexOutOfRange)
    else
      var from := if bytes[startIndex] == 0 then startIndex + 1 else startIndex;
      var shortByteArray := bytes[from..];
      var length := ReadLength(shortByteArray);
      if length < 0 then Failure(ArgumentOutOfRange)
      else Success(TrimNul(AsciiString(shortByteArray[..length])))
  }

  /** The count of bytes handed to the decoder: up to and including the first NUL, or all but the last byte. */
  function ReadLength(b: seq<byte>): (length: int)
    ensures -1 <= length <= |b|
  {
    match IndexOf(b, 0)
    case None => |b| - 1
    case Some(k) => k + 1
  }

  /**
   * The converter reads exactly the field `FieldAt` describes, decoded as
   * ASCII, and fails exactly where there is no such field.
   */
  lemma ConvertReadsField(bytes: seq<byte>, startIndex: nat)
    ensures ConvertAsciiBytesToString(bytes, startIndex).Success? <==> FieldAt(bytes, startIndex).Some?
    ensures ConvertAsciiBytesToString(bytes, startIndex).Success? ==>
              ConvertAsciiBytesToString(bytes, startIndex).value == AsciiString(FieldAt(bytes, startIndex).value)
  {
    if startIndex < |bytes| {
      var from := if bytes[startIndex] == 0 then startIndex + 1 else startIndex;
      var shortByteArray := bytes[from..];
      var length := ReadLength(shortByteArray);
      if length >= 0 {
        TrimmedField(shortByteArray, length);
      }
    }
  }

  /** A string without NUL characters is left alone by the trim. */
  lemma TrimNulFree(s: string)
    requires NoNul(s)
    ensures TrimNul(s) == s
  {
    assert TextStart(s, 0) == 0;
    assert TextEnd(s, 0, |s|) == |s|;
  }

  /** The trim drops a single terminating NUL. */
  lemma TrimTerminated(s: string)
    requires NoNul(s)
    ensures TrimNul(s + ['\0']) == s
  {
    var t := s + ['\0'];
    if s == [] {
      assert TextStart(t, 0) == 1;
    } else {
      assert t[0] == s[0];
      assert TextStart(t, 0) == 0;
      assert t[|s| - 1] == s[|s| - 1];
      assert TextEnd(t, 0, |s|) == |s|;
      assert TextEnd(t, 0, |t|) == |s|;
      assert t[0..|s|] == s;
    }
  }

  /** ASCII decoding yields '\0' exactly for the byte 0. */
  lemma AsciiStringNoNul(b: seq<byte>)
    requires 0 !in b
    ensures NoNul(AsciiString(b))
  {
    forall i | 0 <= i < |b| ensures AsciiString(b)[i] != '\0' {
      assert b[i] in b;
    }
  }

  /** The trim removes exactly the terminating NUL the read length includes. */
  lemma TrimmedField(b: seq<byte>, length: int)
    requires 0 <= length <= |b|
    requires IndexOf(b, 0).Some? ==> length == IndexOf(b, 0).value + 1
    requires IndexOf(b, 0).None? ==> length == |b| - 1
    ensures IndexOf(b, 0).Some? ==> TrimNul(AsciiString(b[..length])) == AsciiString(b[..IndexOf(b, 0).value])
    ensures IndexOf(b, 0).None? ==> TrimNul(AsciiString(b[..length])) == AsciiString(b[..length])
  {
    if IndexOf(b, 0).Some? {
      TrimmedTerminatedField(b, IndexOf(b, 0).value);
    } else {
      TrimmedUnterminatedField(b, length);
    }
  }

  lemma TrimmedTerminatedField(b: seq<byte>, k: nat)
    requires k < |b| && b[k] == 0 && 0 !in b[..k]
    ensures TrimNul(AsciiString(b[..k + 1])) == AsciiString(b[..k])
  {
    AsciiStringNoNul(b[..k]);
    assert b[..k + 1] == b[..k] + [0];
    AsciiStringAppend(b[..k], [0]);
    assert AsciiString([0]) == ['\0'];
    TrimTerminated(AsciiString(b[..k]));
  }

  lemma TrimmedUnterminatedField(b: seq<byte>, length: nat)
    requires length <= |b| && 0 !in b
    ensures TrimNul(AsciiString(b[..length])) == AsciiString(b[..length])
  {
    assert 0 !in b[..length] by {
      forall i | 0 <= i < length ensures b[..length][i] != 0 {
        assert b[i] in b;
      }
    }
    AsciiStringNoNul(b[..length]);
    TrimNulFree(AsciiString(b[..length]));
  }

  function ParseReplyMessage(message: seq<byte>): (r: Result<ReplyMessage>)
    ensures |message| >= 4 && message[3] != 0 && message[3] != 1 ==> r == Failure(InvalidResultValue)
    ensures r.Success? <==> |message| >= 6 && (message[3] == 0 || message[3] == 1) && FieldAt(message, 6).Some?
    ensures r.Success? ==> r.value == ReplyMessage(ReadBigEndian(message[1..3]), message[3] == 1,
                                                   ReadBigEndian(message[4..6]), AsciiString(FieldAt(message, 6).value))
  {
    ConvertReadsField(message, 6);
    if |message| < 4 then Failure(IndexOutOfRange)
    else if message[3] != 0x00 && message[3] != 0x01 then Failure(InvalidResultValue)
    else if |message| < 6 then Failure(ArgumentOutOfRange)
    else
      var messageId := ReadBigEndian(message[1..3]);
      var result := message[3] == 0x01;
      var refMessageId := ReadBigEndian(message[4..6]);
      var messageContents :- ConvertAsciiBytesToString(message, 6);
      Success(ReplyMessage(messageId, result, refMessageId, messageContents))
  }

  /** Also used for ERR frames, which have the same layout. */
  function ParseMsgMessage(message: seq<byte>): (r: Result<MsgMessage>)
    ensures |message| < 4 ==> r.Failure?
    ensures r.Success? ==> r.value.messageId == ReadBigEndian(message[1..3])
  {
    if |message| < 3 then Failure(ArgumentOutOfRange)
    else
      var messageId := ReadBigEndian(message[1..3]);
      var displayName :- ConvertAsciiBytesToString(message, 3);
      var messageContents :- ConvertAsciiBytesToString(message, 3 + |displayName|);
      Success(MsgMessage(messageId, displayName, messageContents))
  }

  /**
   * The MSG decoder reads the display name as the field at offset 3 and the
   * contents as the field right after the decoded name; it succeeds exactly
   * when both fields exist.
   */
  lemma ParseMsgReadsFields(message: seq<byte>)
    ensures ParseMsgMessage(message).Success? <==>
              FieldAt(message, 3).Some? && FieldAt(message, 3 + |FieldAt(message, 3).value|).Some?
    ensures ParseMsgMessage(message).Success? ==>
              ParseMsgMessage(message).value
              == MsgMessage(ReadBigEndian(message[1..3]), AsciiString(FieldAt(message, 3).value),
                            AsciiString(FieldAt(message, 3 + |FieldAt(message, 3).value|).value))
  {
    ConvertReadsField(message, 3);
    if FieldAt(message, 3).Some? {
      ConvertReadsField(message, 3 + |FieldAt(message, 3).value|);
    }
  }

  /** A NUL at the start position is skipped, once. */
  lemma LeadingNulSkippedOnce(bytes: seq<byte>, start: nat)
    requires start + 1 < |bytes| && bytes[start] == 0 && bytes[start + 1] == 0
    ensures ConvertAsciiBytesToString(bytes, start) == Success("")
  {
    ConvertReadsField(bytes, start);
    assert IndexOf(bytes[start + 1..], 0) == Some(0);
  }

  /** A field with no NUL before the end of the frame loses its last byte. */
  lemma UnterminatedFieldLosesLastByte(bytes: seq<byte>, start: nat)
    requires start < |bytes| && bytes[start] != 0 && 0 !in bytes[start..]
    ensures ConvertAsciiBytesToString(bytes, start) == Success(AsciiString(bytes[start..|bytes| - 1]))
  {
    ConvertReadsField(bytes, start);
    assert bytes[start..][..|bytes[start..]| - 1] == bytes[start..|bytes| - 1];
  }

  /**
   * A REPLY whose only byte after the header is the NUL terminator is
   * rejected: after the skip nothing is left to read.
   */
  lemma ReplyWithOnlyTerminatorFails(message: seq<byte>)
    requires |message| == 7 && message[6] == 0 && (message[3] == 0 || message[3] == 1)
    ensures ParseReplyMessage(message).Failure?
  {
  }

  /** Frames shorter than the header are errors, not out-of-bounds reads. */
  lemma TruncatedFramesFail(message: seq<byte>)
    requires |message| < 7
    ensures ParseReplyMessage(message).Failure? && (|message| < 4 ==> ParseMsgMessage(message).Failure?)
  {
  }

  /** The string read at `start` in `head + Converted(s) + tail` when `s` is a NUL-free, non-empty field there. */
  lemma {:induction false} ReadConvertedField(head: seq<byte>, s: string, tail: seq<byte>)
    requires IsAscii(s) && NoNul(s) && s != []
    ensures ConvertAsciiBytesToString(head + ConvertStringToAsciiBytes(s) + tail, |head|) == Success(s)
  {
    var c := ConvertStringToAsciiBytes(s);
    var b := head + c + tail;
    ConvertReadsField(b, |head|);
    assert b[|head|] == c[0];
    assert c[0] as int == s[0] as int;
    assert b[|head|..] == c + tail;
    ConvertedIndexOf(s);
    IndexOfPrefix(c, tail, 0);
    assert (c + tail)[..|s|] == c[..|s|];
    assert FieldAt(b, |head|) == Some(c[..|s|]);
  }

  /** The terminator of the previous field, then `s`: the skip lands on `s`. */
  lemma {:induction false} ReadFieldAfterTerminator(head: seq<byte>, s: string)
    requires IsAscii(s) && NoNul(s)
    ensures ConvertAsciiBytesToString(head + [0] + ConvertStringToAsciiBytes(s), |head|) == Success(s)
  {
    var c := ConvertStringToAsciiBytes(s);
    var b := head + [0] + c;
    ConvertReadsField(b, |head|);
    assert b[|head| + 1..] == c;
    ConvertedIndexOf(s);
    assert FieldAt(b, |head|) == Some(c[..|s|]);
  }

  /** The MSG parser in terms of the two field reads it makes. */
  lemma ParseMsgFromReads(frame: seq<byte>, id: ushort, displayName: string, contents: string)
    requires |frame| >= 3 && ReadBigEndian(frame[1..3]) == id
    requires ConvertAsciiBytesToString(frame, 3) == Success(displayName)
    requires ConvertAsciiBytesToString(frame, 3 + |displayName|) == Success(contents)
    ensures ParseMsgMessage(frame) == Success(MsgMessage(id, displayName, contents))
  {
  }

  /** The MSG parser on a frame made of a header, then two converted fields. */
  lemma {:induction false} ParseTwoFields(tag: byte, id: ushort, displayName: string, contents: string)
    requires IsAscii(displayName) && NoNul(displayName) && displayName != []
    requires IsAscii(contents) && NoNul(contents)
    ensures ParseMsgMessage(Header(tag, id) + (ConvertStringToAsciiBytes(displayName) + ConvertStringToAsciiBytes(contents)))
            == Success(MsgMessage(id, displayName, contents))
  {
    var h := Header(tag, id);
    var d := ConvertStringToAsciiBytes(displayName);
    var c := ConvertStringToAsciiBytes(contents);
    var frame := h + (d + c);
    assert frame == h + d + c;
    assert frame[1..3] == BigEndian(id);
    ReadBigEndianInvertsBigEndian(id);
    ReadConvertedField(h, displayName, c);
    assert ConvertAsciiBytesToString(frame, 3) == Success(displayName);
    var head := h + AsciiBytes(displayName);
    assert d == AsciiBytes(displayName) + [0];
    assert frame == head + [0] + c;
    ReadFieldAfterTerminator(head, contents);
    assert ConvertAsciiBytesToString(frame, 3 + |displayName|) == Success(contents);
    ParseMsgFromReads(frame, id, displayName, contents);
  }

  /**
   * MSG round trip: a frame generated from a non-empty display name and
   * contents, both NUL-free ASCII, parses back to the same id and fields.
   */
  lemma MsgRoundTrip(id: ushort, displayName: string, contents: string)
    requires IsAscii(displayName) && NoNul(displayName) && displayName != []
    requires IsAscii(contents) && NoNul(contents)
    ensures ParseMsgMessage(GenerateMsgMessage(id, displayName, contents))
            == Success(MsgMessage(id, displayName, contents))
  {
    ParseTwoFields(MSG, id, displayName, contents);
  }

  /** The same round trip for ERR frames, which the client parses with the MSG parser. */
  lemma ErrRoundTrip(id: ushort, displayName: string, contents: string)
    requires IsAscii(displayName) && NoNul(displayName) && displayName != []
    requires IsAscii(contents) && NoNul(contents)
    ensures ParseMsgMessage(GenerateErrMessage(id, displayName, contents))
            == Success(MsgMessage(id, displayName, contents))
  {
    ParseTwoFields(ERR, id, displayName, contents);
  }

  /** Reading from the last character of a converted field yields that character alone. */
  lemma {:induction false} ReadLastChar(pre: seq<byte>, s: string)
    requires IsAscii(s) && NoNul(s) && s != []
    ensures ConvertAsciiBytesToString(pre + ConvertStringToAsciiBytes(s), |pre| + |s| - 1)
            == Success([s[|s| - 1]])
  {
    var c := ConvertStringToAsciiBytes(s);
    var b := pre + c;
    var k := |pre| + |s| - 1;
    ConvertReadsField(b, k);
    assert b[k] == c[|s| - 1] && b[k + 1] == 0;
    assert c[|s| - 1] as int == s[|s| - 1] as int;
    FieldOfLastByte(b, k);
    assert AsciiString([b[k]]) == [s[|s| - 1]];
  }

  /** A non-NUL byte followed by a final NUL is a one-byte field. */
  lemma FieldOfLastByte(b: seq<byte>, k: nat)
    requires k + 2 == |b| && b[k] != 0 && b[k + 1] == 0
    ensures FieldAt(b, k) == Some([b[k]])
  {
    assert b[k..] == [b[k], 0];
    assert IndexOf(b[k..], 0) == Some(1);
    assert b[k..][..1] == [b[k]];
  }

  /**
   * With an empty display name the generated frame has a NUL where the name
   * would start; the parser skips it, reads the contents as the display name,
   * then reads the last character of the contents as the contents.
   */
  lemma {:induction false} EmptyDisplayNameMisread(id: ushort, contents: string)
    requires IsAscii(contents) && NoNul(contents) && contents != []
    ensures ParseMsgMessage(GenerateMsgMessage(id, "", contents))
            == Success(MsgMessage(id, contents, [contents[|contents| - 1]]))
  {
    var frame := GenerateMsgMessage(id, "", contents);
    EmptyDisplayNameFrame(id, contents);
    EmptyDisplayNameReads(frame, id, contents);
    ParseMsgFromReads(frame, id, contents, [contents[|contents| - 1]]);
  }

  /** With an empty display name the frame is the header, a NUL, then the contents field. */
  lemma EmptyDisplayNameFrame(id: ushort, contents: string)
    requires IsAscii(contents)
    ensures GenerateMsgMessage(id, "", contents) == Header(MSG, id) + [0] + ConvertStringToAsciiBytes(contents)
  {
    assert ConvertStringToAsciiBytes("") == [0];
  }

  /** The two reads the MSG parser makes on such a frame. */
  lemma EmptyDisplayNameReads(frame: seq<byte>, id: ushort, contents: string)
    requires IsAscii(contents) && NoNul(contents) && contents != []
    requires frame == Header(MSG, id) + [0] + ConvertStringToAsciiBytes(contents)
    ensures |frame| >= 3 && ReadBigEndian(frame[1..3]) == id
    ensures ConvertAsciiBytesToString(frame, 3) == Success(contents)
    ensures ConvertAsciiBytesToString(frame, 3 + |contents|) == Success([contents[|contents| - 1]])
  {
    var h := Header(MSG, id);
    assert frame[1..3] == BigEndian(id);
    ReadBigEndianInvertsBigEndian(id);
    ReadFieldAfterTerminator(h, contents);
    ReadLastChar(h + [0], contents);
  }
}
