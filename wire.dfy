/**
 * What the client puts on the wire: the message it hands to the serializer,
 * the two ways the serialized bytes leave the process (a datagram, or a
 * length-prefixed frame on the stream connection) and the choice between them.
 * The serializer itself is not modelled: the clients hold it as an opaque
 * function from messages to bytes.
 */
module Wire {
  import opened Wrappers
  import opened Primitives
  import opened Events

  /** An event as it goes out; `ttl` is `None` when the optional field is left unset. */
  datatype WireEvent = WireEvent(
    host: string,
    service: string,
    state: string,
    description: string,
    metric: Float32,
    ttl: Option<int32>,
    tags: seq<string>)

  /** An outgoing message: a batch of events, or a query. */
  datatype Msg = Msg(events: seq<WireEvent>, query: Option<string>)

  /** A state record of a query answer; the client passes it through without looking at it. */
  datatype State = State(host: string, service: string, state: string, description: string)

  /** A message from the collector. */
  datatype Reply = Reply(ok: bool, error: string, states: seq<State>)

  /** The socket error code of a datagram larger than the transport allows. */
  const MessageTooLong: int := 10040

  /** How the datagram send ended; the socket itself is outside the model. */
  datatype SendOutcome = Delivered | SocketError(code: int)

  /** `BitConverter.GetBytes(int)` on a little-endian machine: the two's-complement bytes, least significant first. */
  function LittleEndianBytes(n: int32): (r: seq<byte>)
    ensures |r| == 4
    ensures r[0] as int + r[1] as int * 0x100 + r[2] as int * 0x1_0000 + r[3] as int * 0x100_0000 ==
            (if n < 0 then n as int + 0x1_0000_0000 else n as int)
  {
    var u := if n < 0 then n as int + 0x1_0000_0000 else n as int;
    ByteDigits(u);
    [(u % 0x100) as byte, (u / 0x100 % 0x100) as byte, (u / 0x1_0000 % 0x100) as byte, (u / 0x100_0000 % 0x100) as byte]
  }

  /** A number below 2^32 is the sum of its four base-256 digits. */
  lemma ByteDigits(u: int)
    requires 0 <= u < 0x1_0000_0000
    ensures u / 0x100_0000 < 0x100
    ensures u % 0x100 + (u / 0x100 % 0x100) * 0x100 + (u / 0x1_0000 % 0x100) * 0x1_0000 + (u / 0x100_0000 % 0x100) * 0x100_0000 == u
  {
    var q1, q2, q3 := u / 0x100, u / 0x1_0000, u / 0x100_0000;
    assert u == q1 * 0x100 + u % 0x100;
    assert q1 == q2 * 0x100 + q1 % 0x100;
    assert q2 == q3 * 0x100 + q2 % 0x100;
  }

  function Reverse<T>(s: seq<T>): (r: seq<T>)
    ensures |r| == |s|
    ensures forall i :: 0 <= i < |s| ==> r[i] == s[|s| - 1 - i]
  {
    if s == [] then [] else Reverse(s[1..]) + [s[0]]
  }

  /**
   * The 4-byte length prefix the stream path writes: the `BitConverter`
   * bytes of the length, reversed, which are its big-endian bytes, most
   * significant first.
   */
  function LengthPrefix(payload: Bytes): (r: seq<byte>)
    ensures var n := |payload|;
            r == [(n / 0x100_0000) as byte, (n / 0x1_0000 % 0x100) as byte, (n / 0x100 % 0x100) as byte, (n % 0x100) as byte]
  {
    var n := |payload|;
    assert n / 0x100_0000 < 0x100;
    Reverse(LittleEndianBytes(n as int32))
  }

  /** A message as written on the stream connection: the length prefix, then the payload. */
  function Frame(payload: Bytes): (r: seq<byte>)
    ensures |r| == |payload| + 4
    ensures r[4..] == payload
  {
    LengthPrefix(payload) + payload
  }

  /** An unsigned 32-bit integer read most significant byte first (the collector's `Fixed32BigEndian`). */
  function BigEndianValue(b: seq<byte>): nat
    requires |b| == 4
  {
    b[0] as nat * 0x100_0000 + b[1] as nat * 0x1_0000 + b[2] as nat * 0x100 + b[3] as nat
  }

  /**
   * How the collector reads one frame from the front of a stream: the payload
   * and what follows it. Nothing is read from a stream shorter than its
   * prefix or than the length the prefix announces.
   */
  function ParseFrame(s: seq<byte>): (r: Option<(seq<byte>, seq<byte>)>)
    ensures r.None? <==> |s| < 4 || |s| - 4 < BigEndianValue(s[..4])
    ensures r.Some? ==> |r.value.0| == BigEndianValue(s[..4]) && s == s[..4] + r.value.0 + r.value.1
  {
    if |s| < 4 then None
    else
      var n := BigEndianValue(s[..4]);
      if |s| - 4 < n then None else Some((s[4..4 + n], s[4 + n..]))
  }

  /** Reading the prefix back as a big-endian number gives the payload length. */
  lemma LengthPrefixDecodes(payload: Bytes)
    ensures BigEndianValue(LengthPrefix(payload)) == |payload|
  {
    ByteDigits(|payload|);
  }

  /** Round trip: the collector reads back exactly the payload of a frame, and the rest of the stream after it. */
  lemma FrameRoundTrip(payload: Bytes, rest: seq<byte>)
    ensures ParseFrame(Frame(payload) + rest) == Some((payload, rest))
  {
    var s := Frame(payload) + rest;
    LengthPrefixDecodes(payload);
    assert s[..4] == LengthPrefix(payload);
    assert s[4..4 + |payload|] == payload;
    assert s[4 + |payload|..] == rest;
  }

  /** What one send adds to the datagram log and to the stream, and whether a reply is then read. */
  datatype Transmission = Transmission(
    datagrams: seq<Bytes>,
    streamBytes: seq<byte>,
    failure: Option<ClientError>,
    readsReply: bool)

  /**
   * One send: the payload goes out as a datagram; only when the datagram fails
   * with "message too long" is it written to the stream as a frame instead;
   * any other socket error is rethrown and nothing is written.
   */
  function Transmit(payload: Bytes, outcome: SendOutcome): (t: Transmission)
    ensures t.datagrams == [] || t.datagrams == [payload]
    ensures t.datagrams == [] || t.streamBytes == []
    ensures t.failure.Some? ==> t.datagrams == [] && t.streamBytes == [] && !t.readsReply
    ensures t.readsReply <==> outcome == SocketError(MessageTooLong)
  {
    match outcome
    case Delivered => Transmission([payload], [], None, false)
    case SocketError(code) =>
      if code == MessageTooLong then Transmission([], Frame(payload), None, true)
      else Transmission([], [], Some(SocketFailure(code)), false)
  }

  /**
   * The stream is used if and only if the datagram failed with code 10040, and
   * then it carries exactly one frame whose payload the collector reads back;
   * every other socket error surfaces with that code and writes nothing.
   */
  lemma TransmitFallback(payload: Bytes, outcome: SendOutcome)
    ensures var t := Transmit(payload, outcome);
            && (t.streamBytes != [] <==> outcome == SocketError(MessageTooLong))
            && (t.streamBytes != [] ==> ParseFrame(t.streamBytes) == Some((payload, [])))
            && (t.failure.Some? <==> outcome.SocketError? && outcome.code != MessageTooLong)
            && (t.failure.Some? ==> t.failure.value == SocketFailure(outcome.code) && t.datagrams == [])
            && (t.datagrams != [] <==> outcome.Delivered?)
  {
    if outcome == SocketError(MessageTooLong) {
      FrameRoundTrip(payload, []);
      assert Frame(payload) + [] == Frame(payload);
    }
  }
}
