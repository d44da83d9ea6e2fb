/**
 * Vocabulary shared by every part of the IPK24-CHAT client model: the wire
 * integer types, the message tags, the connection states, console lines,
 * the failure values that stand for the .NET exceptions the code lets escape,
 * and the ASCII and 16-bit conversions the codecs are built from.
 */
module Common {

  /** One octet on the wire (`byte` in the source). */
  newtype byte = b: int | 0 <= b < 0x100

  /** A 16-bit message identifier (`ushort` in the source). */
  newtype ushort = u: int | 0 <= u < 0x1_0000

  datatype Option<+T> = None | Some(value: T)

  /** The exceptions the modelled code raises, as values. */
  datatype Error =
    | IndexOutOfRange       // an array index past the end
    | ArgumentOutOfRange    // a slice or a count outside the array
    | InvalidResultValue    // REPLY result byte other than 0 or 1
    | InvalidMessageFormat  // a text line that does not match its pattern
    | QueueEmpty            // Dequeue on an empty queue
    | MaxSizeNotPositive    // a queue constructed with capacity <= 0
    | SocketNotConnected    // a send without an endpoint on a socket not yet connected

  datatype Result<+T> = Success(value: T) | Failure(error: Error) {
    predicate IsFailure() { Failure? }
    function PropagateFailure<U>(): Result<U>
      requires Failure?
    {
      Failure(error)
    }
    function Extract(): T
      requires Success?
    {
      value
    }
  }

  /** The states of the connection state machine. */
  datatype FsmState = Start | Auth | Open | End

  /** One line written to the console: standard output or standard error. */
  datatype Line = Out(text: string) | Err(text: string)

  /** A network endpoint (address and port); its contents are never inspected. */
  datatype Endpoint = Endpoint(address: nat, port: nat)

  /**
   * A datagram handed to the socket. `to == None` is a send without an
   * explicit endpoint, which goes to the peer the socket is connected to.
   */
  datatype Datagram = Datagram(bytes: seq<byte>, to: Option<Endpoint>)

  // Message type tags of the IPK24-CHAT binary format.
  const CONFIRM: byte := 0x00
  const REPLY: byte := 0x01
  const AUTH: byte := 0x02
  const JOIN: byte := 0x03
  const MSG: byte := 0x04
  const ERR: byte := 0xFE
  const BYE: byte := 0xFF

  predicate IsTag(b: byte) {
    b == CONFIRM || b == REPLY || b == AUTH || b == JOIN || b == MSG || b == ERR || b == BYE
  }

  // Console messages (the error-message constants of the client).
  const SendMessageInWrongState := "ERR: You can't send a message, if you're not authenticated."
  const AuthInWrongState := "ERR: You already authenticated."
  const JoinInWrongState := "ERR: You can't join a channel, if you're not authenticated."
  const RenameInWrongState := "ERR: You can't rename, if you're not authenticated."
  const ServerErrorText := "ERR: Server error."
  const NoResponseText := "ERR: No response from server."

  /** `x++` on a `ushort`: wraps from 65535 to 0. */
  function Increment(x: ushort): (r: ushort)
    ensures r as int == (x as int + 1) % 0x1_0000
  {
    if x == 0xFFFF then 0 else x + 1
  }

  /** The two bytes of `id`, most significant first. */
  function BigEndian(id: ushort): (r: seq<byte>)
    ensures |r| == 2 && r[0] as int * 0x100 + r[1] as int == id as int
  {
    [(id as int / 0x100) as byte, (id as int % 0x100) as byte]
  }

  /** `BinaryPrimitives.ReadUInt16BigEndian` on a two-byte span. */
  function ReadBigEndian(b: seq<byte>): ushort
    requires |b| == 2
  {
    (b[0] as int * 0x100 + b[1] as int) as ushort
  }

  /** `BinaryPrimitives.ReadUInt16LittleEndian` on a two-byte span. */
  function ReadLittleEndian(b: seq<byte>): ushort
    requires |b| == 2
  {
    (b[1] as int * 0x100 + b[0] as int) as ushort
  }

  /** `id` with its two bytes exchanged. */
  function ByteSwap(id: ushort): ushort {
    ((id as int % 0x100) * 0x100 + id as int / 0x100) as ushort
  }

  lemma ReadBigEndianInvertsBigEndian(id: ushort)
    ensures ReadBigEndian(BigEndian(id)) == id
  {
  }

  /** Reading a big-endian identifier little-endian exchanges its bytes. */
  lemma ReadLittleEndianOfBigEndian(id: ushort)
    ensures ReadLittleEndian(BigEndian(id)) == ByteSwap(id)
    ensures (id as int / 0x100 != id as int % 0x100) ==> ByteSwap(id) != id
  {
  }

  predicate IsAscii(s: string) {
    forall i :: 0 <= i < |s| ==> s[i] as int < 0x80
  }

  /** `Encoding.ASCII.GetBytes` on a string that is already ASCII. */
  function AsciiBytes(s: string): (r: seq<byte>)
    requires IsAscii(s)
    ensures |r| == |s|
    ensures forall i :: 0 <= i < |s| ==> r[i] as int == s[i] as int
  {
    seq(|s|, i requires 0 <= i < |s| => s[i] as int as byte)
  }

  /** `Encoding.ASCII` decoding of one byte: bytes above 0x7F become '?'. */
  function AsciiChar(b: byte): char {
    if b < 0x80 then b as int as char else '?'
  }

  /** `Encoding.ASCII.GetString`. */
  function AsciiString(b: seq<byte>): (r: string)
    ensures |r| == |b|
  {
    seq(|b|, i requires 0 <= i < |b| => AsciiChar(b[i]))
  }

  lemma AsciiStringAppend(a: seq<byte>, b: seq<byte>)
    ensures AsciiString(a + b) == AsciiString(a) + AsciiString(b)
  {
  }

  lemma AsciiRoundTrip(s: string)
    requires IsAscii(s)
    ensures AsciiString(AsciiBytes(s)) == s
  {
  }

  /** Zero-based index of the first `x` in `s` (`Array.IndexOf`), None when absent. */
  function IndexOf<T(==)>(s: seq<T>, x: T): (r: Option<nat>)
    ensures r.None? <==> x !in s
    ensures r.Some? ==> r.value < |s| && s[r.value] == x && x !in s[..r.value]
  {
    var r := IndexOfFrom(s, x, 0);
    assert r.Some? ==> forall y :: y in s[..r.value] ==> y != x;
    r
  }

  /** The first index at or after `i` holding `x`. */
  function IndexOfFrom<T(==)>(s: seq<T>, x: T, i: nat): (r: Option<nat>)
    requires i <= |s|
    ensures r.None? <==> forall j :: i <= j < |s| ==> s[j] != x
    ensures r.Some? ==> i <= r.value < |s| && s[r.value] == x && forall j :: i <= j < r.value ==> s[j] != x
    decreases |s| - i
  {
    if i == |s| then None
    else if s[i] == x then Some(i)
    else IndexOfFrom(s, x, i + 1)
  }

  /** `n` copies of `x`. */
  function Repeat<T>(x: T, n: nat): (r: seq<T>)
    ensures |r| == n && forall i :: 0 <= i < n ==> r[i] == x
  {
    seq(n, _ => x)
  }
}
