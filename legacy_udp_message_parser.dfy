/**
 * The earlier decoder of REPLY and MSG frames. It reads both ids
 * least significant byte first, takes the result flag as "byte 3 is 1"
 * without rejecting other values, and returns each text field together with
 * its terminating NUL. Out-of-range slices and reads raise exceptions in
 * the source; here they are `Failure` values.
 */
module LegacyUdpMessageParser {
  import opened Common
  import UdpMessageGenerator
  import P = UdpMessageParser
  import LegacyUdpMessageGenerator

  /** Byte `b` decodes to NUL exactly when it is zero. */
  lemma AsciiCharNul(b: byte)
    ensures AsciiChar(b) == '\0' <==> b == 0
  {
  }

  /**
   * The string from `startIndex` up to and including the first NUL; with no
   * NUL, every remaining byte but the last. Starting at or past the end
   * leaves an empty remainder whose length is taken as -1, which the decoder
   * rejects.
   */
  function ConvertAsciiBytesToString(bytes: seq<byte>, startIndex: nat): (r: Result<string>)
    ensures r.Failure? <==> startIndex >= |bytes|
    ensures r.Failure? ==> r.error == ArgumentOutOfRange
    ensures r.Success? && 0 in bytes[startIndex..] ==>
              (|r.value| >= 1 && r.value[|r.value| - 1] == '\0'
               && (forall i :: 0 <= i < |r.value| - 1 ==> r.value[i] != '\0')
               && startIndex + |r.value| <= |bytes|
               && r.value == AsciiString(bytes[startIndex..startIndex + |r.value|]))
    ensures r.Success? && 0 !in bytes[startIndex..] ==> r.value == AsciiString(bytes[startIndex..|bytes| - 1])
  {
    if startIndex > |bytes| then Failure(ArgumentOutOfRange)
    else
      var shortByteArray := bytes[startIndex..];
      var length := match IndexOf(shortByteArray, 0)
        case None => |shortByteArray| - 1
        case Some(k) => k + 1;
      if length < 0 then Failure(ArgumentOutOfRange)
      else
        var s := AsciiString(shortByteArray[..length]);
        assert 0 in shortByteArray ==> forall i :: 0 <= i < length - 1 ==> s[i] != '\0' by {
          if 0 in shortByteArray {
            forall i | 0 <= i < length - 1 ensures s[i] != '\0' {
              assert shortByteArray[i] in shortByteArray[..length - 1];
              AsciiCharNul(shortByteArray[i]);
            }
          }
        }
        assert shortByteArray[..length] == bytes[startIndex..startIndex + length];
        Success(s)
  }

  function ParseReplyMessage(message: seq<byte>): (r: Result<P.ReplyMessage>)
    ensures r.Success? <==> |message| >= 7
    ensures |message| < 3 ==> r == Failure(ArgumentOutOfRange)
    ensures |message| == 3 ==> r == Failure(IndexOutOfRange)
    ensures r.Success? ==> r.value.messageId == ReadLittleEndian(message[1..3])
    ensures r.Success? ==> (r.value.result <==> message[3] == 1)
    ensures r.Success? ==> r.value.refMessageId == ReadLittleEndian(message[4..6])
    ensures r.Success? ==> ConvertAsciiBytesToString(message, 6) == Success(r.value.messageContents)
  {
    if |message| < 3 then Failure(ArgumentOutOfRange)
    else
      var messageId := ReadLittleEndian(message[1..3]);
      if |message| < 4 then Failure(IndexOutOfRange)
      else
        var result := message[3] == 0x01;
        if |message| < 6 then Failure(ArgumentOutOfRange)
        else
          var refMessageId := ReadLittleEndian(message[4..6]);
          var messageContents :- ConvertAsciiBytesToString(message, 6);
          Success(P.ReplyMessage(messageId, result, refMessageId, messageContents))
  }

  /** Also the layout of ERR frames. The contents are read right after the display name as returned, NUL included. */
  function ParseMsgMessage(message: seq<byte>): (r: Result<P.MsgMessage>)
    ensures |message| < 4 ==> r.Failure?
    ensures r.Success? ==> r.value.messageId == ReadLittleEndian(message[1..3])
    ensures r.Success? ==> ConvertAsciiBytesToString(message, 3) == Success(r.value.displayName)
    ensures r.Success? ==> ConvertAsciiBytesToString(message, 3 + |r.value.displayName|) == Success(r.value.messageContents)
  {
    if |message| < 3 then Failure(ArgumentOutOfRange)
    else
      var messageId := ReadLittleEndian(message[1..3]);
      var displayName :- ConvertAsciiBytesToString(message, 3);
      var messageContents :- ConvertAsciiBytesToString(message, 3 + |displayName|);
      Success(P.MsgMessage(messageId, displayName, messageContents))
  }

  /** Any result byte other than 1 reads as a negative reply; none is rejected. */
  lemma ResultNotValidated(message: seq<byte>)
    requires |message| >= 7 && message[3] != 1
    ensures ParseReplyMessage(message).Success? && !ParseReplyMessage(message).value.result
  {
  }

  /** A field written by the encoder is read back with its terminating NUL. */
  lemma {:induction false} FieldIncludesTerminator(head: seq<byte>, s: string, tail: seq<byte>)
    requires IsAscii(s) && UdpMessageGenerator.NoNul(s)
    ensures ConvertAsciiBytesToString(head + UdpMessageGenerator.ConvertStringToAsciiBytes(s) + tail, |head|)
            == Success(s + "\0")
  {
    var c := UdpMessageGenerator.ConvertStringToAsciiBytes(s);
    var b := head + c + tail;
    var shortByteArray := b[|head|..];
    assert shortByteArray == c + tail;
    UdpMessageGenerator.ConvertedIndexOf(s);
    UdpMessageGenerator.IndexOfPrefix(c, tail, 0);
    assert IndexOf(shortByteArray, 0) == Some(|s|);
    assert shortByteArray[..|s| + 1] == c;
    TerminatedText(s);
  }

  /** The ASCII text of an encoded field is the string followed by NUL. */
  lemma TerminatedText(s: string)
    requires IsAscii(s)
    ensures AsciiString(UdpMessageGenerator.ConvertStringToAsciiBytes(s)) == s + "\0"
  {
    AsciiStringAppend(AsciiBytes(s), [0]);
    AsciiRoundTrip(s);
  }

  /**
   * Decoding a frame the encoder of the same generation built gives the id with its bytes
   * exchanged, and both fields with their NULs.
   */
  lemma {:induction false} MsgRoundTripSwapsId(id: ushort, displayName: string, contents: string)
    requires IsAscii(displayName) && UdpMessageGenerator.NoNul(displayName)
    requires IsAscii(contents) && UdpMessageGenerator.NoNul(contents)
    ensures ParseMsgMessage(LegacyUdpMessageGenerator.GenerateMsgMessage(id, displayName, contents))
            == Success(P.MsgMessage(ByteSwap(id), displayName + "\0", contents + "\0"))
  {
    var header := UdpMessageGenerator.Header(MSG, id);
    var d := UdpMessageGenerator.ConvertStringToAsciiBytes(displayName);
    var c := UdpMessageGenerator.ConvertStringToAsciiBytes(contents);
    var frame := LegacyUdpMessageGenerator.GenerateMsgMessage(id, displayName, contents);
    assert frame == header + d + c + [];
    assert frame[1..3] == BigEndian(id);
    ReadLittleEndianOfBigEndian(id);
    FieldIncludesTerminator(header, displayName, c);
    assert |header + d| == 3 + |displayName + "\0"|;
    FieldIncludesTerminator(header + d, contents, []);
  }

  /** The frame for message id 1 decodes as id 256. */
  lemma MsgIdOneReadsAs256(id: ushort, displayName: string, contents: string)
    requires id == 1 && displayName == "a" && contents == "b"
    ensures ParseMsgMessage(LegacyUdpMessageGenerator.GenerateMsgMessage(id, displayName, contents))
            == Success(P.MsgMessage(256, "a\0", "b\0"))
  {
    MsgRoundTripSwapsId(id, displayName, contents);
    assert ByteSwap(id) == 256;
    assert displayName + "\0" == "a\0" && contents + "\0" == "b\0";
  }
}
