/**
 * Length-prefixed framing.  MessageEncoder writes a 4-byte big-endian
 * length and then the UTF-8 JSON bytes; the receive side is Netty's
 * LengthFieldBasedFrameDecoder(65535, 0, 4, 0, 4): length at offset 0
 * over 4 bytes, no adjustment, the 4 header bytes stripped, and a frame
 * (header included) of at most 65535 bytes.  MessageDecoder then turns
 * each frame into at most one envelope.
 */
module Framing {
  import opened Wrappers
  import opened Model
  import opened Json

  const MaxFrameLength: nat := 65535
  const LengthFieldLength: nat := 4
  /** The frame length Netty compares against the maximum includes the header. */
  const MaxPayload: nat := MaxFrameLength - LengthFieldLength
  const Two32: nat := 0x1_0000_0000

  /** The idle limits the pipeline installs: the coordinator closes a connection silent for this long. */
  const ReaderIdleSeconds: nat := 30
  /** The participant sends a heartbeat after this long without writing. */
  const WriterIdleSeconds: nat := 10

  /** The events IdleStateHandler (or anything else) passes to userEventTriggered. */
  datatype IdleState = ReaderIdle | WriterIdle | AllIdle
  datatype UserEvent = Idle(state: IdleState) | OtherEvent

  // --------------------------------------------------------- the header

  /** ByteBuf.writeInt: the low 32 bits of n, most significant byte first. */
  function Be32(n: int): (r: seq<byte>)
    ensures |r| == 4
  {
    var u := n % Two32;
    [u / 0x100_0000, (u / 0x1_0000) % 0x100, (u / 0x100) % 0x100, u % 0x100]
  }

  /** The 4-byte length field read back as an unsigned number. */
  function Be32Value(b: seq<byte>): (v: nat)
    requires |b| == 4
    ensures v < Two32
  {
    var b0: int, b1: int, b2: int, b3: int := b[0], b[1], b[2], b[3];
    b0 * 0x100_0000 + b1 * 0x1_0000 + b2 * 0x100 + b3
  }

  lemma Be32RoundTrip(n: int)
    ensures Be32Value(Be32(n)) == n % Two32
  {
    var u := n % Two32;
    var b0, r0 := u / 0x100_0000, u % 0x100_0000;
    var b1, r1 := r0 / 0x1_0000, r0 % 0x1_0000;
    var b2, b3 := r1 / 0x100, r1 % 0x100;
    assert u == b0 * 0x100_0000 + r0 && r0 == b1 * 0x1_0000 + r1 && r1 == b2 * 0x100 + b3;
    SplitAt(u, 0x1_0000, b0 * 0x100 + b1, r1);
    SplitAt(b0 * 0x100 + b1, 0x100, b0, b1);
    SplitAt(u, 0x100, b0 * 0x1_0000 + b1 * 0x100 + b2, b3);
    SplitAt(b0 * 0x1_0000 + b1 * 0x100 + b2, 0x100, b0 * 0x100 + b1, b2);
  }

  /** Euclidean division by one of the two byte-boundary divisors. */
  lemma SplitAt(a: int, d: int, q: int, r: int)
    requires d == 0x100 || d == 0x1_0000
    requires a == q * d + r && 0 <= r < d
    ensures a / d == q && a % d == r
  {
    if d == 0x100 {
      assert a == q * 0x100 + r;
    } else {
      assert a == q * 0x1_0000 + r;
    }
  }

  /** One frame: the header holding the payload length, then the payload. */
  function Frame(payload: seq<byte>): (r: seq<byte>)
    ensures |r| == 4 + |payload| && r[4..] == payload
  {
    Be32(|payload|) + payload
  }

  /** The header records exactly the number of bytes that follow it. */
  lemma HeaderIsPayloadLength(payload: seq<byte>)
    requires |payload| < Two32
    ensures Be32Value(Frame(payload)[..4]) == |Frame(payload)[4..]|
  {
    assert Frame(payload)[..4] == Be32(|payload|);
    Be32RoundTrip(|payload|);
  }

  // ------------------------------------------------------- the encoder

  /** The caller's output buffer. */
  class ByteBuf {
    var bytes: seq<byte>

    constructor()
      ensures bytes == []
    {
      bytes := [];
    }

    method WriteInt(n: int)
      modifies this
      ensures bytes == old(bytes) + Be32(n)
    {
      bytes := bytes + Be32(n);
    }

    method WriteBytes(b: seq<byte>)
      modifies this
      ensures bytes == old(bytes) + b
    {
      bytes := bytes + b;
    }
  }

  /** The UTF-8 JSON text of an envelope. */
  function Payload(codec: TextCodec, m: Envelope): seq<byte> {
    codec.write(EnvelopeToJson(m))
  }

  /** What the encoder appends for one message. */
  function Encoded(codec: TextCodec, m: Envelope): (r: seq<byte>)
    ensures r == Frame(Payload(codec, m))
  {
    Frame(Payload(codec, m))
  }

  /**
   * MessageEncoder.encode: a null message writes nothing; otherwise the
   * length header and the payload, with no size limit of the encoder's own.
   */
  method Encode(codec: TextCodec, msg: Option<Envelope>, out: ByteBuf)
    modifies out
    ensures msg.None? ==> out.bytes == old(out.bytes)
    ensures msg.Some? ==> out.bytes == old(out.bytes) + Encoded(codec, msg.value)
  {
    if msg.None? {
      return;
    }
    var bytes := Payload(codec, msg.value);
    out.WriteInt(|bytes|);
    out.WriteBytes(bytes);
  }

  // -------------------------------------------------- the frame decoder

  /** What the frame decoder can do with the bytes it has buffered. */
  datatype Step =
    | Complete(payload: seq<byte>, rest: seq<byte>)
    | NeedMore
    | TooLong

  /**
   * One step of LengthFieldBasedFrameDecoder(65535, 0, 4, 0, 4): wait for
   * the header; fail as soon as header plus payload would exceed 65535
   * bytes; wait for the whole payload; then cut it off, header stripped.
   */
  function NextFrame(buf: seq<byte>): (r: Step)
    ensures r.TooLong? <==> |buf| >= 4 && Be32Value(buf[..4]) > MaxPayload
    ensures r.NeedMore? <==> |buf| < 4 || (Be32Value(buf[..4]) <= MaxPayload && |buf| < 4 + Be32Value(buf[..4]))
    ensures r.Complete? ==>
      && |r.payload| <= MaxPayload
      && Be32Value(buf[..4]) == |r.payload|
      && buf == buf[..4] + r.payload + r.rest
  {
    if |buf| < 4 then NeedMore
    else
      var len := Be32Value(buf[..4]);
      if len + LengthFieldLength > MaxFrameLength then TooLong
      else if |buf| < 4 + len then NeedMore
      else Complete(buf[4..4 + len], buf[4 + len..])
  }

  /** A frame the encoder wrote is cut off exactly, whatever follows it. */
  lemma NextFrameOfFrame(payload: seq<byte>, rest: seq<byte>)
    requires |payload| <= MaxPayload
    ensures NextFrame(Frame(payload) + rest) == Complete(payload, rest)
  {
    var buf := Frame(payload) + rest;
    assert buf[..4] == Be32(|payload|);
    Be32RoundTrip(|payload|);
    assert buf[4..4 + |payload|] == payload;
    assert buf[4 + |payload|..] == rest;
  }

  /** A payload the frame decoder cannot take makes it fail once the header is in. */
  lemma NextFrameOfLongFrame(payload: seq<byte>, rest: seq<byte>)
    requires MaxPayload < |payload| < Two32
    ensures NextFrame(Frame(payload) + rest) == TooLong
  {
    var buf := Frame(payload) + rest;
    assert buf[..4] == Be32(|payload|);
    Be32RoundTrip(|payload|);
  }

  /** Frames back to back. */
  function Wire(payloads: seq<seq<byte>>): seq<byte> {
    if payloads == [] then [] else Frame(payloads[0]) + Wire(payloads[1..])
  }

  /** The frames found in a buffer, the incomplete tail, and whether an oversize frame closed the stream. */
  datatype Deframed = Deframed(payloads: seq<seq<byte>>, pending: seq<byte>, tooLong: bool)

  /** The frame decoder run over everything buffered so far. */
  function Deframe(buf: seq<byte>): (r: Deframed)
    ensures forall i :: 0 <= i < |r.payloads| ==> |r.payloads[i]| <= MaxPayload
    ensures !r.tooLong ==> NextFrame(r.pending).NeedMore? && |r.pending| <= |buf|
    decreases |buf|
  {
    match NextFrame(buf)
    case NeedMore => Deframed([], buf, false)
    case TooLong => Deframed([], [], true)
    case Complete(p, rest) =>
      var d := Deframe(rest);
      Deframed([p] + d.payloads, d.pending, d.tooLong)
  }

  /** Concatenated frames split back into the original payloads, in order. */
  lemma {:induction false} DeframeWire(payloads: seq<seq<byte>>, tail: seq<byte>)
    requires forall i :: 0 <= i < |payloads| ==> |payloads[i]| <= MaxPayload
    requires NextFrame(tail).NeedMore?
    ensures Deframe(Wire(payloads) + tail) == Deframed(payloads, tail, false)
  {
    if payloads != [] {
      var rest := Wire(payloads[1..]) + tail;
      assert Wire(payloads) + tail == Frame(payloads[0]) + rest;
      NextFrameOfFrame(payloads[0], rest);
      DeframeWire(payloads[1..], tail);
      assert [payloads[0]] + payloads[1..] == payloads;
    }
  }

  /** And a buffer that is not oversize is exactly its frames followed by the pending tail. */
  lemma {:induction false} WireOfDeframe(buf: seq<byte>)
    requires !Deframe(buf).tooLong
    ensures Wire(Deframe(buf).payloads) + Deframe(buf).pending == buf
    decreases |buf|
  {
    match NextFrame(buf)
    case NeedMore =>
    case Complete(p, rest) =>
      WireOfDeframe(rest);
      var d := Deframe(rest);
      assert Deframe(buf).payloads == [p] + d.payloads;
      assert ([p] + d.payloads)[1..] == d.payloads;
      Be32OfValue(buf[..4]);
      assert buf[..4] == Be32(|p|);
  }

  lemma DivMod8(x: int, q: int, r: int)
    requires 0 <= r < 0x100 && x == q * 0x100 + r
    ensures x / 0x100 == q && x % 0x100 == r
  {
  }

  lemma DivMod16(x: int, q: int, r: int)
    requires 0 <= r < 0x1_0000 && x == q * 0x1_0000 + r
    ensures x / 0x1_0000 == q
  {
  }

  lemma DivMod24(x: int, q: int, r: int)
    requires 0 <= r < 0x100_0000 && x == q * 0x100_0000 + r
    ensures x / 0x100_0000 == q
  {
  }

  /** Every 4-byte header is the encoding of the number it holds. */
  lemma Be32OfValue(b: seq<byte>)
    requires |b| == 4
    ensures Be32(Be32Value(b)) == b
  {
    var b0: int, b1: int, b2: int, b3: int := b[0], b[1], b[2], b[3];
    var v := Be32Value(b);
    assert v % Two32 == v;
    DivMod24(v, b0, b1 * 0x1_0000 + b2 * 0x100 + b3);
    DivMod16(v, b0 * 0x100 + b1, b2 * 0x100 + b3);
    DivMod8(b0 * 0x100 + b1, b0, b1);
    DivMod8(v, b0 * 0x1_0000 + b1 * 0x100 + b2, b3);
    DivMod8(b0 * 0x1_0000 + b1 * 0x100 + b2, b0 * 0x100 + b1, b2);
  }

  // ------------------------------------------------- the message decoder

  /**
   * MessageDecoder.decode on one frame: the whole frame is read as UTF-8
   * text; blank text yields nothing; text that does not read as an
   * envelope is dropped (the exception is caught and the connection stays
   * open); otherwise exactly one envelope, its body still an untyped tree.
   */
  function DecodeFrame(codec: TextCodec, payload: seq<byte>): (r: Option<Envelope>)
    ensures AllBlank(payload) ==> r.None?
    ensures codec.read(payload).None? ==> r.None?
    ensures r.Some? ==> EnvelopeFromJson(codec.read(payload).value) == Ok(r.value)
  {
    if AllBlank(payload) then None
    else
      match codec.read(payload)
      case None => None
      case Some(j) =>
        match EnvelopeFromJson(j)
        case Ok(e) => Some(e)
        case Err => None
  }

  /** The decoder reads back every envelope the encoder wrote. */
  lemma DecodeFrameOfPayload(codec: TextCodec, m: Envelope)
    requires Faithful(codec)
    ensures DecodeFrame(codec, Payload(codec, m)) == Some(m)
  {
    EnvelopeRoundTrip(m);
  }

  /** Each frame in turn; frames that yield nothing are skipped. */
  function DecodeAll(codec: TextCodec, payloads: seq<seq<byte>>): (r: seq<Envelope>)
    ensures |r| <= |payloads|
  {
    if payloads == [] then []
    else
      match DecodeFrame(codec, payloads[0])
      case None => DecodeAll(codec, payloads[1..])
      case Some(e) => [e] + DecodeAll(codec, payloads[1..])
  }

  /** What a connection's inbound pipeline delivers for the bytes received so far. */
  datatype Received = Received(messages: seq<Envelope>, pending: seq<byte>, closed: bool)

  function Receive(codec: TextCodec, buf: seq<byte>): (r: Received)
    ensures |r.messages| <= |Deframe(buf).payloads|
    ensures r.closed <==> Deframe(buf).tooLong
  {
    var d := Deframe(buf);
    Received(DecodeAll(codec, d.payloads), d.pending, d.tooLong)
  }

  /** The payloads the encoder writes for a sequence of messages. */
  function Payloads(codec: TextCodec, ms: seq<Envelope>): (r: seq<seq<byte>>)
    ensures |r| == |ms| && forall i :: 0 <= i < |ms| ==> r[i] == Payload(codec, ms[i])
  {
    seq(|ms|, i requires 0 <= i < |ms| => Payload(codec, ms[i]))
  }

  /** The byte stream the encoder writes for a sequence of messages. */
  function Stream(codec: TextCodec, ms: seq<Envelope>): seq<byte> {
    if ms == [] then [] else Encoded(codec, ms[0]) + Stream(codec, ms[1..])
  }

  lemma {:induction false} StreamIsWire(codec: TextCodec, ms: seq<Envelope>)
    ensures Stream(codec, ms) == Wire(Payloads(codec, ms))
  {
    if ms != [] {
      StreamIsWire(codec, ms[1..]);
      assert Payloads(codec, ms)[1..] == Payloads(codec, ms[1..]);
    }
  }

  lemma {:induction false} DecodeAllPayloads(codec: TextCodec, ms: seq<Envelope>)
    requires Faithful(codec)
    ensures DecodeAll(codec, Payloads(codec, ms)) == ms
  {
    if ms != [] {
      DecodeFrameOfPayload(codec, ms[0]);
      DecodeAllPayloads(codec, ms[1..]);
      assert Payloads(codec, ms)[1..] == Payloads(codec, ms[1..]);
      assert [ms[0]] + ms[1..] == ms;
    }
  }

  /**
   * End to end: every message the encoder wrote, if it fits the frame
   * limit, arrives once, in order, and the connection stays open.
   */
  lemma ReceiveStream(codec: TextCodec, ms: seq<Envelope>)
    requires Faithful(codec)
    requires forall i :: 0 <= i < |ms| ==> |Payload(codec, ms[i])| <= MaxPayload
    ensures Receive(codec, Stream(codec, ms)) == Received(ms, [], false)
  {
    StreamIsWire(codec, ms);
    DeframeWire(Payloads(codec, ms), []);
    assert Wire(Payloads(codec, ms)) + [] == Wire(Payloads(codec, ms));
    DecodeAllPayloads(codec, ms);
  }

  /** A blank or unreadable frame is dropped without closing the connection. */
  lemma DroppedFrameKeepsConnection(codec: TextCodec, payload: seq<byte>)
    requires |payload| <= MaxPayload
    requires AllBlank(payload) || codec.read(payload).None?
    ensures Receive(codec, Frame(payload)) == Received([], [], false)
  {
    DeframeWire([payload], []);
    assert Wire([payload]) + [] == Frame(payload);
  }

  /**
   * The codec test: a LOGIN_REQ carrying a student, encoded and fed back
   * through the inbound pipeline, yields one LOGIN_REQ whose body is a map
   * that converts back to the same student.
   */
  lemma LoginRequestRoundTrip(codec: TextCodec, now: int, s: Student)
    requires Faithful(codec)
    requires |Payload(codec, NewMessage(LoginReq, now, StudentToJson(s)))| <= MaxPayload
    ensures var r := Receive(codec, Encoded(codec, NewMessage(LoginReq, now, StudentToJson(s))));
      && |r.messages| == 1 && !r.closed
      && r.messages[0].kind == Some(LoginReq)
      && r.messages[0].body.JObj?
      && StudentFromJson(r.messages[0].body) == Ok(Some(s))
  {
    var m := NewMessage(LoginReq, now, StudentToJson(s));
    ReceiveStream(codec, [m]);
    assert Stream(codec, [m]) == Encoded(codec, m);
    StudentRoundTrip(s);
  }
}
