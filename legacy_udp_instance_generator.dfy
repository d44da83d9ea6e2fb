/**
 * The earlier instance encoder of the binary message format, the only one
 * that also builds CONFIRM and REPLY frames. Its string converter stores
 * the terminating NUL at index `length - 1`, over the last character,
 * rather than at index `length`: each field loses its last character, and
 * the empty string raises an out-of-range error.
 *
 * `GenerateReplyMessageCorrected` is the REPLY frame with the converter
 * repaired; it is the one the round-trip properties hold for.
 */
module LegacyUdpInstanceGenerator {
  import opened Common
  import UdpMessageGenerator
  import UdpMessageParser
  import LegacyUdpMessageGenerator
  import LegacyUdpMessageParser

  /** `s` with its last character replaced by NUL. */
  function Mangled(s: string): (r: string)
    requires s != []
    ensures |r| == |s| && r[|s| - 1] == '\0'
    ensures IsAscii(s) ==> IsAscii(r)
  {
    s[..|s| - 1] + "\0"
  }

  /**
   * The converter as written: a zeroed buffer one byte longer than the
   * string, its ASCII bytes written from index 0, then a NUL stored at index
   * `length - 1`. The result is the correct encoding of the string whose
   * last character is NUL; for the empty string the store is out of range.
   */
  function ConvertStringToAsciiBytes(s: string): (r: Result<seq<byte>>)
    requires IsAscii(s)
    ensures r.Failure? <==> s == []
    ensures r.Failure? ==> r.error == IndexOutOfRange
    ensures r.Success? ==> r.value == UdpMessageGenerator.ConvertStringToAsciiBytes(Mangled(s))
  {
    var buffer := AsciiBytes(s) + [0];
    var length := |s|;
    if length - 1 < 0 then Failure(IndexOutOfRange)
    else
      var r := buffer[length - 1 := 0];
      assert AsciiBytes(Mangled(s)) == AsciiBytes(s)[..length - 1] + [0];
      assert r == AsciiBytes(s)[..length - 1] + [0] + [0];
      Success(r)
  }

  function GenerateConfirmMessage(refId: ushort): (r: seq<byte>)
    ensures r == UdpMessageGenerator.GenerateConfirmMessage(refId)
  {
    [CONFIRM] + LegacyUdpMessageGenerator.IdBytes(refId)
  }

  /** The REPLY frame with the repaired converter: the contents followed by exactly one NUL. */
  function GenerateReplyMessageCorrected(id: ushort, result: bool, refId: ushort, contents: string): (r: seq<byte>)
    requires IsAscii(contents)
    ensures |r| == 7 + |contents| && r[0] == REPLY
    ensures r[1..3] == BigEndian(id) && r[4..6] == BigEndian(refId)
    ensures r[3] == (if result then 1 else 0)
  {
    [REPLY] + LegacyUdpMessageGenerator.IdBytes(id) + [if result then 1 else 0]
      + LegacyUdpMessageGenerator.IdBytes(refId) + UdpMessageGenerator.ConvertStringToAsciiBytes(contents)
  }

  function GenerateReplyMessage(id: ushort, result: bool, refId: ushort, contents: string): (r: Result<seq<byte>>)
    requires IsAscii(contents)
    ensures r.Failure? <==> contents == []
    ensures r.Success? ==> r.value == GenerateReplyMessageCorrected(id, result, refId, Mangled(contents))
  {
    var contentsBytes :- ConvertStringToAsciiBytes(contents);
    Success([REPLY] + LegacyUdpMessageGenerator.IdBytes(id) + [if result then 1 else 0]
      + LegacyUdpMessageGenerator.IdBytes(refId) + contentsBytes)
  }

  function GenerateAuthMessage(id: ushort, username: string, displayName: string, secret: string): (r: Result<seq<byte>>)
    requires IsAscii(username) && IsAscii(displayName) && IsAscii(secret)
    ensures r.Failure? <==> username == [] || displayName == [] || secret == []
    ensures r.Success? ==> r.value == UdpMessageGenerator.GenerateAuthMessage(id, Mangled(username), Mangled(displayName), Mangled(secret))
  {
    var usernameBytes :- ConvertStringToAsciiBytes(username);
    var displayNameBytes :- ConvertStringToAsciiBytes(displayName);
    var secretBytes :- ConvertStringToAsciiBytes(secret);
    Success([AUTH] + LegacyUdpMessageGenerator.IdBytes(id) + usernameBytes + displayNameBytes + secretBytes)
  }

  function GenerateJoinMessage(id: ushort, channelId: string, displayName: string): (r: Result<seq<byte>>)
    requires IsAscii(channelId) && IsAscii(displayName)
    ensures r.Failure? <==> channelId == [] || displayName == []
    ensures r.Success? ==> r.value == UdpMessageGenerator.GenerateJoinMessage(id, Mangled(channelId), Mangled(displayName))
  {
    var channelIdBytes :- ConvertStringToAsciiBytes(channelId);
    var displayNameBytes :- ConvertStringToAsciiBytes(displayName);
    Success([JOIN] + LegacyUdpMessageGenerator.IdBytes(id) + channelIdBytes + displayNameBytes)
  }

  function GenerateMsgMessage(id: ushort, displayName: string, contents: string): (r: Result<seq<byte>>)
    requires IsAscii(displayName) && IsAscii(contents)
    ensures r.Failure? <==> displayName == [] || contents == []
    ensures r.Success? ==> r.value == UdpMessageGenerator.GenerateMsgMessage(id, Mangled(displayName), Mangled(contents))
  {
    var displayNameBytes :- ConvertStringToAsciiBytes(displayName);
    var contentsBytes :- ConvertStringToAsciiBytes(contents);
    Success([MSG] + LegacyUdpMessageGenerator.IdBytes(id) + displayNameBytes + contentsBytes)
  }

  function GenerateErrMessage(id: ushort, displayName: string, contents: string): (r: Result<seq<byte>>)
    requires IsAscii(displayName) && IsAscii(contents)
    ensures r.Failure? <==> displayName == [] || contents == []
    ensures r.Success? ==> r.value == UdpMessageGenerator.GenerateErrMessage(id, Mangled(displayName), Mangled(contents))
  {
    var displayNameBytes :- ConvertStringToAsciiBytes(displayName);
    var contentsBytes :- ConvertStringToAsciiBytes(contents);
    Success([ERR] + LegacyUdpMessageGenerator.IdBytes(id) + displayNameBytes + contentsBytes)
  }

  function GenerateByeMessage(id: ushort): (r: seq<byte>)
    ensures r == UdpMessageGenerator.GenerateByeMessage(id)
  {
    [BYE] + LegacyUdpMessageGenerator.IdBytes(id)
  }

  /** The converter on two small inputs: "ab" loses its `b`, "" is rejected. */
  lemma ConverterCounterexamples()
    ensures ConvertStringToAsciiBytes("ab") == Success([0x61, 0, 0])
    ensures ConvertStringToAsciiBytes("") == Failure(IndexOutOfRange)
  {
    assert IsAscii("ab");
    var r := ConvertStringToAsciiBytes("ab");
    assert r.value == AsciiBytes(Mangled("ab")) + [0];
    assert Mangled("ab") == "a\0";
    var bytes := AsciiBytes("a\0");
    assert bytes[0] == 0x61 && bytes[1] == 0;
    assert bytes == [0x61, 0];
    assert r.value == [0x61, 0, 0];
    assert r == Success([0x61, 0, 0]);
  }

  /**
   * With the repaired converter, the current decoder reads back exactly the
   * REPLY that was built, provided the contents are non-empty and NUL-free.
   */
  lemma {:induction false} ReplyRoundTrip(id: ushort, result: bool, refId: ushort, contents: string)
    requires IsAscii(contents) && UdpMessageGenerator.NoNul(contents) && contents != []
    ensures UdpMessageParser.ParseReplyMessage(GenerateReplyMessageCorrected(id, result, refId, contents))
            == Success(UdpMessageParser.ReplyMessage(id, result, refId, contents))
  {
    var frame := GenerateReplyMessageCorrected(id, result, refId, contents);
    var head := frame[..6];
    assert frame == head + UdpMessageGenerator.ConvertStringToAsciiBytes(contents) + [];
    UdpMessageParser.ReadConvertedField(head, contents, []);
    ReadBigEndianInvertsBigEndian(id);
    ReadBigEndianInvertsBigEndian(refId);
  }

  /**
   * As written, the current decoder reads the REPLY contents without their
   * last character.
   */
  lemma {:induction false} ReplyLosesLastCharacter(id: ushort, result: bool, refId: ushort, contents: string)
    requires IsAscii(contents) && UdpMessageGenerator.NoNul(contents) && contents != []
    ensures GenerateReplyMessage(id, result, refId, contents).Success?
    ensures UdpMessageParser.ParseReplyMessage(GenerateReplyMessage(id, result, refId, contents).value)
            == Success(UdpMessageParser.ReplyMessage(id, result, refId, contents[..|contents| - 1]))
  {
    var frame := GenerateReplyMessage(id, result, refId, contents).value;
    var kept := contents[..|contents| - 1];
    var head := frame[..6];
    assert AsciiBytes(Mangled(contents)) == AsciiBytes(kept) + [0];
    assert frame == head + UdpMessageGenerator.ConvertStringToAsciiBytes(kept) + [0];
    ReadBigEndianInvertsBigEndian(id);
    ReadBigEndianInvertsBigEndian(refId);
    if kept == [] {
      UdpMessageParser.LeadingNulSkippedOnce(frame, 6);
    } else {
      UdpMessageParser.ReadConvertedField(head, kept, [0]);
    }
  }

  /**
   * The earlier decoder reads a repaired REPLY with both ids byte-swapped and
   * the contents with their NUL, the empty contents included.
   */
  lemma {:induction false} ReplyDecodedByLegacyParser(id: ushort, result: bool, refId: ushort, contents: string)
    requires IsAscii(contents) && UdpMessageGenerator.NoNul(contents)
    ensures LegacyUdpMessageParser.ParseReplyMessage(GenerateReplyMessageCorrected(id, result, refId, contents))
            == Success(UdpMessageParser.ReplyMessage(ByteSwap(id), result, ByteSwap(refId), contents + "\0"))
  {
    var frame := GenerateReplyMessageCorrected(id, result, refId, contents);
    var head := frame[..6];
    assert frame == head + UdpMessageGenerator.ConvertStringToAsciiBytes(contents) + [];
    LegacyUdpMessageParser.FieldIncludesTerminator(head, contents, []);
    ReadLittleEndianOfBigEndian(id);
    ReadLittleEndianOfBigEndian(refId);
  }
}
