/** TCP framing as a language of bytes: an 8-byte header in network order, then the payload.

    The stream of a list of messages is the concatenation of their frames.  A receiver that has completed
    some frames and holds an incomplete one can only have completed a prefix of what was sent. */
module Framing {
  import opened Common

  const HEADER_LEN: nat := 8

  // The message types that the receiver treats apart from the others.
  const REPLY: uint16 := 2
  const CLOSE: uint16 := 4

  datatype Header = Header(messageType: uint16, replyId: uint16, numBytes: uint32)

  function Put16(v: uint16): (b: seq<byte>)
    ensures |b| == 2
  {
    [v / 0x100, v % 0x100]
  }

  function Put32(v: uint32): (b: seq<byte>)
    ensures |b| == 4
  {
    Put16(v / 0x1_0000) + Put16(v % 0x1_0000)
  }

  function Get16(b: seq<byte>): uint16
    requires |b| == 2
  {
    var high: int, low: int := b[0], b[1];
    high * 0x100 + low
  }

  function Get32(b: seq<byte>): uint32
    requires |b| == 4
  {
    var high: int, low: int := Get16(b[..2]), Get16(b[2..]);
    high * 0x1_0000 + low
  }

  /** The header as set_header lays it out: htons, htons, htonl. */
  function EncodeHeader(h: Header): (b: seq<byte>)
    ensures |b| == HEADER_LEN
  {
    Put16(h.messageType) + Put16(h.replyId) + Put32(h.numBytes)
  }

  /** The header as read_header takes it: ntohs, ntohs, ntohl. */
  function DecodeHeader(b: seq<byte>): Header
    requires |b| == HEADER_LEN
  {
    Header(Get16(b[..2]), Get16(b[2..4]), Get32(b[4..]))
  }

  lemma Put16Get16(v: uint16, b: seq<byte>)
    requires |b| == 2
    ensures Get16(Put16(v)) == v && Put16(Get16(b)) == b
  {
  }

  lemma Put32Get32(v: uint32, b: seq<byte>)
    requires |b| == 4
    ensures Get32(Put32(v)) == v && Put32(Get32(b)) == b
  {
    Put16Get16(v / 0x1_0000, b[..2]);
    Put16Get16(v % 0x1_0000, b[2..]);
    assert Put32(v)[..2] == Put16(v / 0x1_0000) && Put32(v)[2..] == Put16(v % 0x1_0000);
    assert b == b[..2] + b[2..];
    assert Get32(b) / 0x1_0000 == Get16(b[..2]) && Get32(b) % 0x1_0000 == Get16(b[2..]);
  }

  /** Headers and 8-byte strings correspond one to one. */
  lemma HeaderRoundTrip(h: Header, b: seq<byte>)
    requires |b| == HEADER_LEN
    ensures DecodeHeader(EncodeHeader(h)) == h && EncodeHeader(DecodeHeader(b)) == b
  {
    var e := EncodeHeader(h);
    assert e[..2] == Put16(h.messageType) && e[2..4] == Put16(h.replyId) && e[4..] == Put32(h.numBytes);
    Put16Get16(h.messageType, b[..2]);
    Put16Get16(h.replyId, b[2..4]);
    Put32Get32(h.numBytes, b[4..]);
    assert b == b[..2] + b[2..4] + b[4..];
  }

  /** The number that bytes spell, most significant byte first. */
  function BigEndian(b: seq<byte>): nat {
    if b == [] then 0 else 0x100 * BigEndian(b[..|b| - 1]) + b[|b| - 1]
  }

  lemma BigEndian16(b: seq<byte>)
    requires |b| == 2
    ensures Get16(b) == BigEndian(b)
  {
    assert BigEndian(b[..1]) == b[0] by { assert b[..1][..0] == [] && b[..1][0] == b[0]; }
  }

  lemma BigEndian32(b: seq<byte>)
    requires |b| == 4
    ensures Get32(b) == BigEndian(b)
  {
    BigEndian16(b[..2]);
    BigEndian16(b[2..]);
    assert b[..3][..2] == b[..2] && b[..3][2] == b[2..][0] && b[3] == b[2..][1];
  }

  /** A header in network order: the fields are 2, 2 and 4 bytes of it, each most significant byte first. */
  lemma NetworkOrder(b: seq<byte>)
    requires |b| == HEADER_LEN
    ensures BigEndian(b[..2]) == DecodeHeader(b).messageType
    ensures BigEndian(b[2..4]) == DecodeHeader(b).replyId
    ensures BigEndian(b[4..]) == DecodeHeader(b).numBytes
  {
    BigEndian16(b[..2]);
    BigEndian16(b[2..4]);
    BigEndian32(b[4..]);
  }

  /** A request with id 7 and 5 bytes of payload. */
  lemma RequestOnTheWire()
    ensures EncodeHeader(Header(1, 7, 5)) == [0, 1, 0, 7, 0, 0, 0, 5]
    ensures BigEndian([1, 2]) == 258
  {
    BigEndian16([1, 2]);
  }

  /** A message whose length the header can carry. */
  datatype RawMessage = Message(messageType: uint16, replyId: uint16, payload: seq<byte>) {
    predicate Fits() { |payload| < 0x1_0000_0000 }
  }
  type Message = m: RawMessage | m.Fits() witness Message(0, 0, [])

  function HeaderOf(m: Message): Header {
    Header(m.messageType, m.replyId, |m.payload|)
  }

  function Frame(m: Message): (b: seq<byte>)
    ensures |b| == HEADER_LEN + |m.payload|
  {
    EncodeHeader(HeaderOf(m)) + m.payload
  }

  /** The bytes of a list of messages, in order. */
  function Bytes(ms: seq<Message>): seq<byte> {
    if ms == [] then [] else Frame(ms[0]) + Bytes(ms[1..])
  }

  lemma {:induction false} BytesSnoc(ms: seq<Message>, m: Message)
    ensures Bytes(ms + [m]) == Bytes(ms) + Frame(m)
  {
    hide Frame;
    if ms == [] {
      assert Bytes([m][1..]) == [];
    } else {
      BytesSnoc(ms[1..], m);
      assert (ms + [m])[1..] == ms[1..] + [m];
    }
  }

  lemma {:induction false} BytesConcat(a: seq<Message>, b: seq<Message>)
    ensures Bytes(a + b) == Bytes(a) + Bytes(b)
  {
    hide Frame;
    if a == [] {
      assert a + b == b;
    } else {
      BytesConcat(a[1..], b);
      var f, x, y := Frame(a[0]), Bytes(a[1..]), Bytes(b);
      assert (a + b)[1..] == a[1..] + b && (a + b)[0] == a[0];
      assert f + (x + y) == (f + x) + y;
    }
  }

  /** What a receiver may hold of an unfinished frame: nothing, or a header and less than its payload. */
  ghost predicate Incomplete(tail: seq<byte>) {
    tail == [] || (HEADER_LEN <= |tail| < HEADER_LEN + DecodeHeader(tail[..HEADER_LEN]).numBytes)
  }

  /** Frames are self-delimiting: byte strings that agree as far as they go start with the same frame. */
  lemma FrameIsPrefixFree(a: Message, x: seq<byte>, b: Message, y: seq<byte>)
    requires Frame(a) + x <= Frame(b) + y
    ensures a == b && x <= y
  {
    var s, t := Frame(a) + x, Frame(b) + y;
    assert s[..HEADER_LEN] == EncodeHeader(HeaderOf(a)) && t[..HEADER_LEN] == EncodeHeader(HeaderOf(b));
    assert s[..HEADER_LEN] == t[..HEADER_LEN];
    HeaderRoundTrip(HeaderOf(a), s[..HEADER_LEN]);
    HeaderRoundTrip(HeaderOf(b), s[..HEADER_LEN]);
    var n := |Frame(a)|;
    assert s[HEADER_LEN..n] == a.payload && t[HEADER_LEN..n] == b.payload && s[HEADER_LEN..n] == t[HEADER_LEN..n];
    assert s[n..] == x && t[n..] == y && s[n..] <= t[n..];
  }

  lemma IncompleteHoldsNoFrame(tail: seq<byte>, m: Message, rest: seq<byte>)
    ensures Incomplete(tail) ==> tail != Frame(m) + rest
  {
    FirstHeader(m, rest);
  }

  /** Whatever prefix of the sent bytes has been consumed, the completed frames are an in-order prefix of the
      sent messages, the unfinished bytes belong to the next one, and nothing is missing at the end. */
  lemma {:induction false} CompletedFramesArePrefix(sent: seq<Message>, done: seq<Message>, tail: seq<byte>)
    requires Incomplete(tail) && Bytes(done) + tail <= Bytes(sent)
    ensures done <= sent && tail <= Bytes(sent[|done|..])
    ensures Bytes(done) + tail == Bytes(sent) ==> done == sent && tail == []
  {
    if done == [] {
      assert Bytes(done) + tail == tail;
      if sent != [] {
        IncompleteHoldsNoFrame(tail, sent[0], Bytes(sent[1..]));
      }
    } else if sent != [] {
      var x, y := Bytes(done[1..]) + tail, Bytes(sent[1..]);
      assert Bytes(done) + tail == Frame(done[0]) + x;
      FrameIsPrefixFree(done[0], x, sent[0], y);
      CompletedFramesArePrefix(sent[1..], done[1..], tail);
      assert sent[1..][|done| - 1..] == sent[|done|..];
    }
  }

  /** A header read after the frames of `done` is that of the next message sent. */
  lemma {:induction false} NextHeader(sent: seq<Message>, done: seq<Message>, tail: seq<byte>)
    requires |tail| == HEADER_LEN && Bytes(done) + tail <= Bytes(sent)
    ensures done < sent && HeaderOf(sent[|done|]) == DecodeHeader(tail)
  {
    hide Frame, EncodeHeader, DecodeHeader;
    if done == [] {
      assert Bytes(done) + tail == tail && sent != [];
      FirstHeader(sent[0], Bytes(sent[1..]));
      assert Bytes(sent)[..HEADER_LEN] == tail;
    } else {
      var x, y := Bytes(done[1..]) + tail, Bytes(sent[1..]);
      assert Bytes(done) + tail == Frame(done[0]) + x;
      FrameIsPrefixFree(done[0], x, sent[0], y);
      NextHeader(sent[1..], done[1..], tail);
      assert sent[1..][|done| - 1] == sent[|done|] && done == [done[0]] + done[1..] && sent == [sent[0]] + sent[1..];
    }
  }

  lemma FirstHeader(m: Message, rest: seq<byte>)
    ensures var s := Frame(m) + rest; |s| >= HEADER_LEN && DecodeHeader(s[..HEADER_LEN]) == HeaderOf(m)
  {
    var s := Frame(m) + rest;
    assert s[..HEADER_LEN] == EncodeHeader(HeaderOf(m));
    HeaderRoundTrip(HeaderOf(m), s[..HEADER_LEN]);
  }

  /** Nothing is left over once everything has arrived and a receiver can read no more. */
  lemma NothingLeftOver(sent: seq<Message>, done: seq<Message>, tail: seq<byte>, queue: seq<byte>)
    requires Incomplete(tail) && (queue == [] || (tail == [] && |queue| < HEADER_LEN))
    requires Bytes(done) + tail + queue == Bytes(sent)
    ensures done == sent && tail == [] && queue == []
  {
    hide Incomplete, EncodeHeader, DecodeHeader;
    assert Bytes(done) + tail <= Bytes(sent);
    CompletedFramesArePrefix(sent, done, tail);
    var rest := sent[|done|..];
    assert sent == done + rest;
    BytesConcat(done, rest);
    assert tail + queue == Bytes(rest);
    assert rest != [] ==> |Bytes(rest)| >= HEADER_LEN;
  }
}
