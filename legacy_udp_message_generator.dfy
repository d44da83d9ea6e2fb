/**
 * The earlier static encoder of the binary message format. It computes the
 * two id bytes with a shift and truncating casts and copies each field into
 * a preallocated array; every frame it builds is, byte for byte, the frame
 * of the current encoder.
 */
module LegacyUdpMessageGenerator {
  import opened Common
  import UdpMessageGenerator

  /** `(byte)(id >> 8)` then `(byte)id`: each cast keeps the low eight bits. */
  function IdBytes(id: ushort): (r: seq<byte>)
    ensures r == BigEndian(id)
    ensures ReadBigEndian(r) == id
  {
    ReadBigEndianInvertsBigEndian(id);
    [((id as int / 0x100) % 0x100) as byte, (id as int % 0x100) as byte]
  }

  /**
   * A zeroed buffer one byte longer than the string, the ASCII bytes of the
   * string written from index 0, then a NUL stored at index `length`.
   */
  function ConvertStringToAsciiBytes(s: string): (r: seq<byte>)
    requires IsAscii(s)
    ensures r == UdpMessageGenerator.ConvertStringToAsciiBytes(s)
  {
    var buffer := Repeat(0 as byte, |s| + 1);
    var written := AsciiBytes(s) + buffer[|s|..];
    var length := |s|;
    var r := written[length := 0];
    assert r == AsciiBytes(s) + [0];
    r
  }

  function GenerateAuthMessage(id: ushort, username: string, displayName: string, secret: string): (r: seq<byte>)
    requires IsAscii(username) && IsAscii(displayName) && IsAscii(secret)
    ensures r == UdpMessageGenerator.GenerateAuthMessage(id, username, displayName, secret)
  {
    var usernameBytes := ConvertStringToAsciiBytes(username);
    var displayNameBytes := ConvertStringToAsciiBytes(displayName);
    var secretBytes := ConvertStringToAsciiBytes(secret);
    [AUTH] + IdBytes(id) + usernameBytes + displayNameBytes + secretBytes
  }

  function GenerateJoinMessage(id: ushort, channelId: string, displayName: string): (r: seq<byte>)
    requires IsAscii(channelId) && IsAscii(displayName)
    ensures r == UdpMessageGenerator.GenerateJoinMessage(id, channelId, displayName)
  {
    var channelIdBytes := ConvertStringToAsciiBytes(channelId);
    var displayNameBytes := ConvertStringToAsciiBytes(displayName);
    [JOIN] + IdBytes(id) + channelIdBytes + displayNameBytes
  }

  function GenerateMsgMessage(id: ushort, displayName: string, contents: string): (r: seq<byte>)
    requires IsAscii(displayName) && IsAscii(contents)
    ensures r == UdpMessageGenerator.GenerateMsgMessage(id, displayName, contents)
  {
    var displayNameBytes := ConvertStringToAsciiBytes(displayName);
    var contentsBytes := ConvertStringToAsciiBytes(contents);
    [MSG] + IdBytes(id) + displayNameBytes + contentsBytes
  }

  function GenerateErrMessage(id: ushort, displayName: string, contents: string): (r: seq<byte>)
    requires IsAscii(displayName) && IsAscii(contents)
    ensures r == UdpMessageGenerator.GenerateErrMessage(id, displayName, contents)
  {
    var displayNameBytes := ConvertStringToAsciiBytes(displayName);
    var contentsBytes := ConvertStringToAsciiBytes(contents);
    [ERR] + IdBytes(id) + displayNameBytes + contentsBytes
  }

  function GenerateByeMessage(id: ushort): (r: seq<byte>)
    ensures r == UdpMessageGenerator.GenerateByeMessage(id)
    ensures |r| == 3
  {
    [BYE] + IdBytes(id)
  }

  /** Every frame carries the id high byte first in bytes 1 and 2. */
  lemma IdHighByteFirst(id: ushort, a: string, b: string)
    requires IsAscii(a) && IsAscii(b)
    ensures GenerateJoinMessage(id, a, b)[1..3] == BigEndian(id)
    ensures GenerateMsgMessage(id, a, b)[1..3] == BigEndian(id)
    ensures GenerateErrMessage(id, a, b)[1..3] == BigEndian(id)
    ensures GenerateAuthMessage(id, a, b, a)[1..3] == BigEndian(id)
    ensures GenerateByeMessage(id)[1..3] == BigEndian(id)
  {
  }

  /** MSG and ERR frames for the same arguments differ in byte 0 only. */
  lemma MsgAndErrDifferOnlyInTag(id: ushort, displayName: string, contents: string)
    requires IsAscii(displayName) && IsAscii(contents)
    ensures |GenerateMsgMessage(id, displayName, contents)| == |GenerateErrMessage(id, displayName, contents)|
    ensures GenerateMsgMessage(id, displayName, contents)[1..] == GenerateErrMessage(id, displayName, contents)[1..]
    ensures GenerateMsgMessage(id, displayName, contents)[0] != GenerateErrMessage(id, displayName, contents)[0]
  {
  }
}
