/**
 * Encoder of the binary (datagram) message format: a one-byte tag, the
 * 16-bit message id most significant byte first, then NUL-terminated ASCII
 * fields.
 */
module UdpMessageGenerator {
  import opened Common

  /**
   * Reference reading of a byte string as NUL-terminated fields: each field
   * runs up to the next NUL, which is consumed; a tail without a NUL is a
   * last, unterminated field.
   */
  function TerminatedFields(b: seq<byte>): seq<seq<byte>>
    decreases |b|
  {
    if b == [] then []
    else match IndexOf(b, 0)
      case None => [b]
      case Some(k) => [b[..k]] + TerminatedFields(b[k + 1..])
  }

  predicate NoNul(s: string) {
    forall i :: 0 <= i < |s| ==> s[i] != '\0'
  }

  /** The header every frame but REPLY starts with: tag, then the id big-endian. */
  function Header(tag: byte, id: ushort): seq<byte> {
    [tag] + BigEndian(id)
  }

  /** The ASCII bytes of `s` followed by exactly one NUL. */
  function ConvertStringToAsciiBytes(s: string): (r: seq<byte>)
    requires IsAscii(s)
    ensures |r| == |s| + 1 && r[|s|] == 0
    ensures AsciiString(r[..|s|]) == s
  {
    var r := AsciiBytes(s) + [0];
    assert r[..|s|] == AsciiBytes(s);
    AsciiRoundTrip(s);
    r
  }

  function GenerateConfirmMessage(id: ushort): (r: seq<byte>)
    ensures |r| == 3 && r[0] == CONFIRM && ReadBigEndian(r[1..3]) == id
  {
    Header(CONFIRM, id)
  }

  function GenerateAuthMessage(id: ushort, username: string, displayName: string, secret: string): (r: seq<byte>)
    requires IsAscii(username) && IsAscii(displayName) && IsAscii(secret)
    ensures |r| == 6 + |username| + |displayName| + |secret|
    ensures r[0] == AUTH && ReadBigEndian(r[1..3]) == id
  {
    Header(AUTH, id) + (ConvertStringToAsciiBytes(username)
      + (ConvertStringToAsciiBytes(displayName) + ConvertStringToAsciiBytes(secret)))
  }

  function GenerateJoinMessage(id: ushort, channelId: string, displayName: string): (r: seq<byte>)
    requires IsAscii(channelId) && IsAscii(displayName)
    ensures |r| == 5 + |channelId| + |displayName|
    ensures r[0] == JOIN && ReadBigEndian(r[1..3]) == id
  {
    Header(JOIN, id) + (ConvertStringToAsciiBytes(channelId) + ConvertStringToAsciiBytes(displayName))
  }

  function GenerateMsgMessage(id: ushort, displayName: string, contents: string): (r: seq<byte>)
    requires IsAscii(displayName) && IsAscii(contents)
    ensures |r| == 5 + |displayName| + |contents|
    ensures r[0] == MSG && ReadBigEndian(r[1..3]) == id
  {
    Header(MSG, id) + (ConvertStringToAsciiBytes(displayName) + ConvertStringToAsciiBytes(contents))
  }

  function GenerateErrMessage(id: ushort, displayName: string, contents: string): (r: seq<byte>)
    requires IsAscii(displayName) && IsAscii(contents)
    ensures |r| == 5 + |displayName| + |contents|
    ensures r[0] == ERR && ReadBigEndian(r[1..3]) == id
  {
    Header(ERR, id) + (ConvertStringToAsciiBytes(displayName) + ConvertStringToAsciiBytes(contents))
  }

  function GenerateByeMessage(id: ushort): (r: seq<byte>)
    ensures |r| == 3 && r[0] == BYE && ReadBigEndian(r[1..3]) == id
  {
    Header(BYE, id)
  }

  /** A NUL-free ASCII field followed by more bytes splits off as one field. */
  lemma {:induction false} FieldsOfConverted(s: string, rest: seq<byte>)
    requires IsAscii(s) && NoNul(s)
    ensures TerminatedFields(ConvertStringToAsciiBytes(s) + rest) == [AsciiBytes(s)] + TerminatedFields(rest)
  {
    var b := ConvertStringToAsciiBytes(s) + rest;
    assert b[..|s| + 1] == ConvertStringToAsciiBytes(s);
    ConvertedIndexOf(s);
    IndexOfPrefix(ConvertStringToAsciiBytes(s), rest, 0);
    assert b[..|s|] == AsciiBytes(s);
    assert b[|s| + 1..] == rest;
  }

  /** The first NUL of a converted NUL-free string is its terminator. */
  lemma ConvertedIndexOf(s: string)
    requires IsAscii(s) && NoNul(s)
    ensures IndexOf(ConvertStringToAsciiBytes(s), 0) == Some(|s|)
  {
    var r := ConvertStringToAsciiBytes(s);
    forall j | 0 <= j < |s| ensures r[j] != 0 {
      assert r[j] as int == s[j] as int;
    }
  }

  /** Where `x` first occurs in `a`, it first occurs at the same place in `a + b`. */
  lemma {:induction false} IndexOfPrefix<T>(a: seq<T>, b: seq<T>, x: T)
    requires x in a
    ensures IndexOf(a + b, x) == IndexOf(a, x)
  {
    if a[0] != x {
      assert (a + b)[1..] == a[1..] + b;
      IndexOfPrefix(a[1..], b, x);
    }
  }

  /** AUTH is the AUTH tag, the id big-endian, then username, display name and secret as NUL-terminated fields. */
  lemma AuthLayout(id: ushort, username: string, displayName: string, secret: string)
    requires IsAscii(username) && IsAscii(displayName) && IsAscii(secret)
    requires NoNul(username) && NoNul(displayName) && NoNul(secret)
    ensures TerminatedFields(GenerateAuthMessage(id, username, displayName, secret)[3..])
            == [AsciiBytes(username), AsciiBytes(displayName), AsciiBytes(secret)]
  {
    var u, d, s := ConvertStringToAsciiBytes(username), ConvertStringToAsciiBytes(displayName),
                   ConvertStringToAsciiBytes(secret);
    assert GenerateAuthMessage(id, username, displayName, secret)[3..] == u + (d + s);
    FieldsOfConverted(username, d + s);
    FieldsOfConverted(displayName, s);
    FieldsOfConverted(secret, []);
    assert s + [] == s;
  }

  /** JOIN is the JOIN tag, the id big-endian, then channel id and display name as NUL-terminated fields. */
  lemma JoinLayout(id: ushort, channelId: string, displayName: string)
    requires IsAscii(channelId) && IsAscii(displayName) && NoNul(channelId) && NoNul(displayName)
    ensures TerminatedFields(GenerateJoinMessage(id, channelId, displayName)[3..])
            == [AsciiBytes(channelId), AsciiBytes(displayName)]
  {
    var c, d := ConvertStringToAsciiBytes(channelId), ConvertStringToAsciiBytes(displayName);
    assert GenerateJoinMessage(id, channelId, displayName)[3..] == c + d;
    FieldsOfConverted(channelId, d);
    FieldsOfConverted(displayName, []);
    assert d + [] == d;
  }

  /** MSG carries display name and contents as two NUL-terminated fields. */
  lemma MsgLayout(id: ushort, displayName: string, contents: string)
    requires IsAscii(displayName) && IsAscii(contents) && NoNul(displayName) && NoNul(contents)
    ensures TerminatedFields(GenerateMsgMessage(id, displayName, contents)[3..])
            == [AsciiBytes(displayName), AsciiBytes(contents)]
  {
    var d, c := ConvertStringToAsciiBytes(displayName), ConvertStringToAsciiBytes(contents);
    assert GenerateMsgMessage(id, displayName, contents)[3..] == d + c;
    FieldsOfConverted(displayName, c);
    FieldsOfConverted(contents, []);
    assert c + [] == c;
  }

  /** MSG and ERR frames for the same arguments differ in the tag byte only. */
  lemma MsgAndErrDifferOnlyInTag(id: ushort, displayName: string, contents: string)
    requires IsAscii(displayName) && IsAscii(contents)
    ensures GenerateErrMessage(id, displayName, contents)
            == [ERR] + GenerateMsgMessage(id, displayName, contents)[1..]
    ensures GenerateMsgMessage(id, displayName, contents)[0] != GenerateErrMessage(id, displayName, contents)[0]
  {
  }

  /** The field a string of known ASCII bytes is encoded as. */
  lemma AsciiField(s: string, bytes: seq<byte>)
    requires IsAscii(s) && |bytes| == |s| && forall i :: 0 <= i < |s| ==> bytes[i] as int == s[i] as int
    ensures ConvertStringToAsciiBytes(s) == bytes + [0]
  {
  }

  // The layouts the generator's unit tests pin down, byte for byte: the
  // header, then each field's ASCII bytes and its NUL.

  lemma ConfirmTestVector()
    ensures GenerateConfirmMessage(0x1234) == [CONFIRM, 0x12, 0x34]
  {
  }

  lemma AuthTestVector()
    ensures GenerateAuthMessage(1, "username", "displayName", "secret")
            == [AUTH, 0, 1] + ([0x75, 0x73, 0x65, 0x72, 0x6E, 0x61, 0x6D, 0x65, 0]
                               + ([0x64, 0x69, 0x73, 0x70, 0x6C, 0x61, 0x79, 0x4E, 0x61, 0x6D, 0x65, 0]
                                  + [0x73, 0x65, 0x63, 0x72, 0x65, 0x74, 0]))
  {
    AsciiField("username", [0x75, 0x73, 0x65, 0x72, 0x6E, 0x61, 0x6D, 0x65]);
    AsciiField("displayName", [0x64, 0x69, 0x73, 0x70, 0x6C, 0x61, 0x79, 0x4E, 0x61, 0x6D, 0x65]);
    AsciiField("secret", [0x73, 0x65, 0x63, 0x72, 0x65, 0x74]);
  }

  lemma JoinTestVector()
    ensures GenerateJoinMessage(1, "channelId", "displayName")
            == [JOIN, 0, 1] + ([0x63, 0x68, 0x61, 0x6E, 0x6E, 0x65, 0x6C, 0x49, 0x64, 0]
                               + [0x64, 0x69, 0x73, 0x70, 0x6C, 0x61, 0x79, 0x4E, 0x61, 0x6D, 0x65, 0])
  {
    AsciiField("channelId", [0x63, 0x68, 0x61, 0x6E, 0x6E, 0x65, 0x6C, 0x49, 0x64]);
    AsciiField("displayName", [0x64, 0x69, 0x73, 0x70, 0x6C, 0x61, 0x79, 0x4E, 0x61, 0x6D, 0x65]);
  }

  lemma MsgTestVector()
    ensures GenerateMsgMessage(1, "displayName", "contents")
            == [MSG, 0, 1] + ([0x64, 0x69, 0x73, 0x70, 0x6C, 0x61, 0x79, 0x4E, 0x61, 0x6D, 0x65, 0]
                              + [0x63, 0x6F, 0x6E, 0x74, 0x65, 0x6E, 0x74, 0x73, 0])
  {
    AsciiField("displayName", [0x64, 0x69, 0x73, 0x70, 0x6C, 0x61, 0x79, 0x4E, 0x61, 0x6D, 0x65]);
    AsciiField("contents", [0x63, 0x6F, 0x6E, 0x74, 0x65, 0x6E, 0x74, 0x73]);
  }

  lemma ErrTestVector()
    ensures GenerateErrMessage(1, "displayName", "contents")
            == [ERR, 0, 1] + ([0x64, 0x69, 0x73, 0x70, 0x6C, 0x61, 0x79, 0x4E, 0x61, 0x6D, 0x65, 0]
                              + [0x63, 0x6F, 0x6E, 0x74, 0x65, 0x6E, 0x74, 0x73, 0])
  {
    AsciiField("displayName", [0x64, 0x69, 0x73, 0x70, 0x6C, 0x61, 0x79, 0x4E, 0x61, 0x6D, 0x65]);
    AsciiField("contents", [0x63, 0x6F, 0x6E, 0x74, 0x65, 0x6E, 0x74, 0x73]);
  }

  lemma ByeTestVector()
    ensures GenerateByeMessage(1) == [BYE, 0, 1]
  {
  }
}
