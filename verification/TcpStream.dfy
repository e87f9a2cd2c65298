/** The two ends of a TCP connection of msgbox: send_all with its partial sends, and the resumable receiver
    of read_from_socket, over an in-order byte stream (section 2.2 of RFC 9293). */
module TcpStream {
  import opened Common
  import opened Framing

  // ----- Sending -----

  // sizeof(Metadata): a reply context pointer, an address and the header, which comes last.
  const METADATA_LEN: nat := 24

  /** A msg_Data buffer: the payload follows METADATA_LEN bytes of preamble in one allocation. */
  class MsgData {
    const buf: array<byte>
    const numBytes: nat

    constructor (payload: seq<byte>)
      ensures fresh(buf) && numBytes == |payload| && WellFormed() && Payload() == payload
    {
      numBytes := |payload|;
      buf := new byte[METADATA_LEN + |payload|](i => if 0 <= i - METADATA_LEN < |payload| then payload[i - METADATA_LEN] else 0);
    }

    ghost predicate WellFormed() {
      buf.Length == METADATA_LEN + numBytes
    }

    ghost function Payload(): seq<byte>
      requires WellFormed()
      reads buf
    {
      buf[METADATA_LEN..]
    }
  }

  /** What one call of send reports: the kernel takes at most what it is given. */
  datatype SendResult = Took(n: nat) | SendWouldBlock | SendFailed

  datatype SendOutcome = Done | Failed | StillSending

  class OutSocket {
    var sent: seq<byte>

    constructor ()
      ensures sent == []
    {
      sent := [];
    }
  }

  /** set_header: write the 8 bytes just before the payload. */
  method SetHeader(data: MsgData, h: Header)
    requires data.WellFormed()
    modifies data.buf
    ensures data.buf[METADATA_LEN - HEADER_LEN..] == EncodeHeader(h) + old(data.Payload())
    ensures data.Payload() == old(data.Payload()) && data.buf[..METADATA_LEN - HEADER_LEN] == old(data.buf[..METADATA_LEN - HEADER_LEN])
    ensures var b := data.buf[METADATA_LEN - HEADER_LEN..METADATA_LEN];
            BigEndian(b[..2]) == h.messageType && BigEndian(b[2..4]) == h.replyId && BigEndian(b[4..8]) == h.numBytes
  {
    var e := EncodeHeader(h);
    HeaderRoundTrip(h, e);
    NetworkOrder(e);
    hide BigEndian, EncodeHeader, DecodeHeader;
    forall k | 0 <= k < HEADER_LEN { data.buf[METADATA_LEN - HEADER_LEN + k] := e[k]; }
    assert data.buf[METADATA_LEN - HEADER_LEN..METADATA_LEN] == e && e[4..8] == e[4..];
  }

  lemma SliceStep<T>(s: seq<T>, base: nat, k: nat, n: nat)
    requires base + k + n <= |s|
    ensures s[base..][..k + n] == s[base..][..k] + s[base + k..base + k + n]
  {
  }

  /** How many bytes the kernel is ready to take before it fails. */
  function Takes(schedule: seq<SendResult>): nat {
    if schedule == [] || schedule[0].SendFailed? then 0
    else (if schedule[0].Took? then schedule[0].n else 0) + Takes(schedule[1..])
  }

  function Min(a: nat, b: nat): nat {
    if a < b then a else b
  }

  /** send_all: loop until everything is taken, over any schedule of partial sends and would-blocks.  As much goes
      out as the kernel takes before it fails.  A schedule that runs out leaves the call in its loop. */
  method SendAll(socket: OutSocket, data: MsgData, schedule: seq<SendResult>) returns (outcome: SendOutcome)
    requires data.WellFormed()
    modifies socket
    ensures var all := data.buf[METADATA_LEN - HEADER_LEN..];
            && socket.sent == old(socket.sent) + all[..Min(Takes(schedule), |all|)]
            && outcome == if Takes(schedule) >= |all| then Done else if SendFailed in schedule then Failed else StillSending
  {
    ghost var all := data.buf[METADATA_LEN - HEADER_LEN..];
    ghost var takes := Takes(schedule);
    var at, numBytes := METADATA_LEN - HEADER_LEN, data.numBytes + HEADER_LEN;
    var i := 0;
    while numBytes > 0
      invariant numBytes >= 0 && at + numBytes == data.buf.Length && at >= METADATA_LEN - HEADER_LEN && i <= |schedule|
      invariant socket.sent == old(socket.sent) + all[..at - (METADATA_LEN - HEADER_LEN)]
      invariant if numBytes > 0 then at - (METADATA_LEN - HEADER_LEN) + Takes(schedule[i..]) == takes else takes >= |all|
      invariant SendFailed !in schedule[..i]
      decreases |schedule| - i
    {
      assert schedule == schedule[..i] + schedule[i..];
      if i == |schedule| { return StillSending; }
      assert schedule[i..][1..] == schedule[i + 1..] && schedule[..i + 1] == schedule[..i] + [schedule[i]];
      var result := schedule[i];
      i := i + 1;
      match result
      case SendWouldBlock =>
      case SendFailed => return Failed;
      case Took(n) =>
        var justSent := if n <= numBytes then n else numBytes;
        socket.sent := socket.sent + data.buf[at..at + justSent];
        SliceStep(data.buf[..], METADATA_LEN - HEADER_LEN, at - (METADATA_LEN - HEADER_LEN), justSent);
        at, numBytes := at + justSent, numBytes - justSent;
    }
    outcome := Done;
  }

  /** msg_send and msg_get on a TCP connection: header, then send_all. */
  method SendMessage(socket: OutSocket, m: Message, schedule: seq<SendResult>) returns (outcome: SendOutcome)
    modifies socket
    ensures socket.sent == old(socket.sent) + Frame(m)[..Min(Takes(schedule), |Frame(m)|)]
    ensures outcome == if Takes(schedule) >= |Frame(m)| then Done else if SendFailed in schedule then Failed else StillSending
  {
    var data := new MsgData(m.payload);
    SetHeader(data, HeaderOf(m));
    outcome := SendAll(socket, data, schedule);
  }

  /** The schedule lets the whole frame through. */
  predicate LetsThrough(schedule: seq<SendResult>, m: Message) {
    Takes(schedule) >= HEADER_LEN + |m.payload|
  }

  /** A sender that sends messages in turn until one does not get through whole; `whole` is how many do. */
  method SendList(socket: OutSocket, ms: seq<Message>, schedules: seq<seq<SendResult>>) returns (outcome: SendOutcome, ghost whole: nat)
    requires socket.sent == [] && |schedules| == |ms|
    modifies socket
    ensures socket.sent <= Bytes(ms)
    ensures outcome.Done? <==> socket.sent == Bytes(ms)
    ensures whole <= |ms| && (forall i :: 0 <= i < whole ==> LetsThrough(schedules[i], ms[i]))
    ensures if whole == |ms| then outcome.Done?
            else
              && !LetsThrough(schedules[whole], ms[whole])
              && socket.sent == Bytes(ms[..whole]) + Frame(ms[whole])[..Min(Takes(schedules[whole]), |Frame(ms[whole])|)]
              && outcome == if SendFailed in schedules[whole] then Failed else StillSending
  {
    hide Frame, Takes;
    whole := 0;
    for i := 0 to |ms|
      invariant socket.sent == Bytes(ms[..i]) && whole == i && forall k :: 0 <= k < i ==> LetsThrough(schedules[k], ms[k])
    {
      outcome := SendMessage(socket, ms[i], schedules[i]);
      FrameTaken(ms[i], Takes(schedules[i]));
      BytesUpTo(ms, i, socket.sent);
      if !outcome.Done? { return; }
      whole := i + 1;
    }
    assert ms[..|ms|] == ms;
    outcome := Done;
  }

  lemma FrameTaken(m: Message, n: nat)
    ensures var f := Frame(m); |f| == HEADER_LEN + |m.payload| && f[..Min(n, |f|)] <= f && (n >= |f| <==> f[..Min(n, |f|)] == f)
  {
  }

  lemma BytesUpTo(ms: seq<Message>, i: nat, w: seq<byte>)
    requires i < |ms| && w <= Bytes(ms[..i]) + Frame(ms[i])
    ensures Bytes(ms[..i + 1]) == Bytes(ms[..i]) + Frame(ms[i])
    ensures w <= Bytes(ms) && (w != Bytes(ms[..i + 1]) ==> w != Bytes(ms))
  {
    hide *;
    BytesSplit(ms, i);
    PrefixExtends(w, Bytes(ms[..i + 1]), Bytes(ms[i + 1..]));
  }

  lemma BytesSplit(ms: seq<Message>, i: nat)
    requires i < |ms|
    ensures Bytes(ms[..i + 1]) == Bytes(ms[..i]) + Frame(ms[i])
    ensures Bytes(ms) == Bytes(ms[..i + 1]) + Bytes(ms[i + 1..])
  {
    hide *;
    TakeOneMore(ms, i);
    BytesSnoc(ms[..i], ms[i]);
    BytesConcat(ms[..i + 1], ms[i + 1..]);
  }

  lemma TakeOneMore<T>(s: seq<T>, i: nat)
    requires i < |s|
    ensures s[..i + 1] == s[..i] + [s[i]] && s == s[..i + 1] + s[i + 1..]
  {
  }

  lemma PrefixExtends(w: seq<byte>, a: seq<byte>, b: seq<byte>)
    requires w <= a
    ensures w <= a + b && (w != a ==> w != a + b)
  {
  }

  // ----- Receiving -----

  /** How the connection stands once the queued bytes are read. */
  datatype End = Open | Eof | ResetByPeer

  /** What recv reports; Got([]) is a return value of 0, and Fails any error that is passed on to the user. */
  datatype RecvResult = Got(bytes: seq<byte>) | WouldBlock | Reset | Fails

  type pos = n: int | n >= 1 witness 1

  /** How one call of read_from_socket goes: recv hands over at most `limit` bytes, the recv of the header or of
      the payload may fail, and the reply id of the message, if it is a reply, may be known. */
  datatype Turn = Turn(limit: pos, peekFails: bool, recvFails: bool, known: bool)

  /** The turns of one pass, by the number of messages completed before each. */
  type Turns = nat -> Turn

  /** Nothing is held back in this pass. */
  ghost predicate Generous(turns: Turns) {
    forall k: nat :: turns(k).limit >= 0x1_0000_0000 && !turns(k).peekFails && !turns(k).recvFails
  }

  /** read_from_socket reports a reply with an id that is not known, and returns false. */
  predicate Stops(m: Message, turn: Turn) {
    m.messageType == REPLY && !turn.known
  }

  /** The kernel's side of a readable TCP socket. */
  class InSocket {
    var queue: seq<byte>
    var end: End
    ghost var consumed: seq<byte>

    /** Everything that has arrived. */
    ghost function Stream(): seq<byte>
      reads this
    {
      consumed + queue
    }

    constructor ()
      ensures queue == [] && end == Open && consumed == []
    {
      queue, end, consumed := [], Open, [];
    }

    /** More bytes of the stream arrive. */
    method Arrive(bytes: seq<byte>)
      modifies this`queue
      ensures queue == old(queue) + bytes && Stream() == old(Stream()) + bytes
    {
      queue := queue + bytes;
    }

    method Peek(n: pos) returns (r: RecvResult)
      ensures queue != [] ==> r == Got(queue[..if n <= |queue| then n else |queue|])
      ensures queue == [] ==> r == (match end case Open => WouldBlock case Eof => Got([]) case ResetByPeer => Reset)
    {
      if queue != [] { return Got(queue[..if n <= |queue| then n else |queue|]); }
      match end
      case Open => r := WouldBlock;
      case Eof => r := Got([]);
      case ResetByPeer => r := Reset;
    }

    /** recv of up to n bytes.  The kernel may hand over fewer than are queued, but at least one: `limit`
        is what it hands over at most this time. */
    method Recv(n: nat, limit: pos) returns (r: RecvResult)
      modifies this`queue, this`consumed
      ensures !r.Fails?
      ensures r.Got? ==> old(queue) == r.bytes + queue && consumed == old(consumed) + r.bytes && |r.bytes| <= n
      ensures !r.Got? ==> queue == old(queue) && consumed == old(consumed)
      ensures Stream() == old(Stream())
      ensures r == WouldBlock ==> end == Open && queue == []
      ensures r == Reset ==> end == ResetByPeer && queue == []
      ensures n > 0 && r == Got([]) ==> end == Eof && queue == []
      ensures n == 0 ==> r == Got([])
      ensures n > 0 && old(queue) != [] ==> r.Got? && r.bytes != []
      ensures n > 0 && n <= limit && old(queue) != [] ==> r.Got? && (|r.bytes| == n || queue == [])
    {
      if n == 0 { return Got([]); }
      if queue == [] {
        r := Peek(n);
      } else {
        var most := if n <= limit then n else limit;
        var k := if most <= |queue| then most else |queue|;
        r := Got(queue[..k]);
        queue, consumed := queue[k..], consumed + queue[..k];
      }
    }
  }

  /** The buffer of an arriving message, with its header (already in host order) in the preamble. */
  class MsgBuffer {
    const header: Header
    const bytes: array<byte>

    constructor (header: Header)
      ensures this.header == header && bytes.Length == header.numBytes && fresh(bytes)
    {
      this.header := header;
      bytes := new byte[header.numBytes](_ => 0);
    }
  }

  /** A msg_Data value that points into a buffer. */
  datatype Span = Span(buf: MsgBuffer?, off: nat, numBytes: nat)

  const NO_DATA: Span := Span(null, 0, 0)

  /** The receive buffers of a ConnStatus.  They belong to a remote address: all conns with that address use
      the same ones. */
  class ConnStatus {
    var totalBuffer: Span
    var waitingBuffer: Span

    constructor ()
      ensures Ready() && totalBuffer == NO_DATA
    {
      totalBuffer, waitingBuffer := NO_DATA, NO_DATA;
    }

    /** waiting_buffer is a suffix of total_buffer. */
    ghost predicate Buffers()
      reads this
    {
      && totalBuffer.off == 0 && waitingBuffer.buf == totalBuffer.buf
      && waitingBuffer.off + waitingBuffer.numBytes == totalBuffer.numBytes
      && if totalBuffer.buf == null then totalBuffer == NO_DATA
         else totalBuffer.numBytes == totalBuffer.buf.bytes.Length == totalBuffer.buf.header.numBytes
              && totalBuffer.buf.header.messageType != CLOSE
    }

    /** Between two calls of read_from_socket: no message, or one with payload still to come. */
    ghost predicate Ready()
      reads this
    {
      Buffers() && (waitingBuffer.numBytes == 0 ==> totalBuffer.buf == null)
    }

    /** A message is being received: its header is in, and all or part of its payload is still to come. */
    ghost predicate Receiving()
      reads this
    {
      Buffers() && totalBuffer.buf != null && (waitingBuffer.numBytes == 0 ==> totalBuffer.numBytes == 0)
    }

    ghost function Footprint(): set<object>
      reads this
    {
      {this} + (if totalBuffer.buf == null then {} else {totalBuffer.buf.bytes})
    }

    /** The bytes of the message being received: its header and the payload so far. */
    ghost function Partial(): seq<byte>
      requires Buffers()
      reads this, Footprint()
    {
      if totalBuffer.buf == null then []
      else EncodeHeader(totalBuffer.buf.header) + totalBuffer.buf.bytes[..waitingBuffer.off]
    }

    /** The message in the buffers ends where its header says. */
    lemma EndOfPartial(queue: seq<byte>)
      requires Receiving()
      ensures |Partial()| >= HEADER_LEN && var n := waitingBuffer.numBytes;
                                        FirstEnd(Partial() + queue) == |Partial()| + if n <= |queue| then n else |queue|
      ensures |Partial()| < HEADER_LEN + totalBuffer.buf.header.numBytes ==> Incomplete(Partial())
    {
      var all := Partial() + queue;
      assert all[..HEADER_LEN] == Partial()[..HEADER_LEN] == EncodeHeader(totalBuffer.buf.header);
      HeaderRoundTrip(totalBuffer.buf.header, all[..HEADER_LEN]);
    }

    /** new_conn_status_buffer */
    method NewBuffer(h: Header)
      requires h.messageType != CLOSE
      modifies this
      ensures Receiving() && Partial() == EncodeHeader(h) && fresh(totalBuffer.buf.bytes)
      ensures waitingBuffer.numBytes == h.numBytes
    {
      var buf := new MsgBuffer(h);
      totalBuffer := Span(buf, 0, h.numBytes);
      waitingBuffer := totalBuffer;
      assert EncodeHeader(h) + buf.bytes[..0] == EncodeHeader(h);
    }

    /** The kernel writes the bytes at the start of waiting_buffer, which then shrinks. */
    method StoreBytes(r: seq<byte>)
      requires Buffers() && totalBuffer.buf != null && |r| <= waitingBuffer.numBytes
      modifies this`waitingBuffer, totalBuffer.buf.bytes
      ensures Buffers() && Partial() == old(Partial()) + r
      ensures waitingBuffer.numBytes == old(waitingBuffer.numBytes) - |r|
    {
      var buf, off := totalBuffer.buf, waitingBuffer.off;
      forall k | 0 <= k < |r| { buf.bytes[off + k] := r[k]; }
      assert buf.bytes[..off + |r|] == old(buf.bytes[..off]) + r;
      waitingBuffer := Span(buf, off + |r|, waitingBuffer.numBytes - |r|);
    }

    /** delete_conn_status_buffer */
    method Drop()
      modifies this
      ensures Ready() && totalBuffer == NO_DATA
    {
      totalBuffer, waitingBuffer := NO_DATA, NO_DATA;
    }

    /** The whole message; the buffers are reset. */
    method TakeMessage() returns (m: Message)
      requires Buffers() && waitingBuffer.numBytes == 0 && totalBuffer.numBytes > 0
      modifies this
      ensures Ready() && totalBuffer == NO_DATA
      ensures Frame(m) == old(Partial()) && m.payload != [] && m.messageType != CLOSE
    {
      var h := totalBuffer.buf.header;
      m := Message(h.messageType, h.replyId, totalBuffer.buf.bytes[..]);
      totalBuffer, waitingBuffer := NO_DATA, NO_DATA;
    }
  }

  // Dropped: a recv failed in the middle of a message, which is then thrown away.  Ended: the user
  // disconnected.
  datatype State = Running | ClosedByPeer | Lost | Dropped | Ended

  datatype Progress = Whole | Pending | Interrupted | Failure

  /** A header that announces no payload. */
  ghost predicate EmptyHeader(tail: seq<byte>) {
    |tail| == HEADER_LEN && DecodeHeader(tail).numBytes == 0 && DecodeHeader(tail).messageType != CLOSE
  }

  /** What ends a conn in state s leaves behind the completed frames: a close header; what a lost connection cut
      off, at the end of the stream or at a header that announces no payload; what a failed recv threw away; or
      what was there when the user disconnected. */
  ghost predicate Cut(tail: seq<byte>, s: State, atEnd: bool) {
    match s
    case Running => true
    case ClosedByPeer => |tail| == HEADER_LEN && DecodeHeader(tail).messageType == CLOSE
    case Lost => (Incomplete(tail) && atEnd) || EmptyHeader(tail)
    case Dropped => Incomplete(tail) || EmptyHeader(tail)
    case Ended => Incomplete(tail)
  }

  /** What one call of read_from_socket makes of the bytes `got`, those of the message in the buffers and those
      it takes: they stay in the buffers, become a message, or are what the end of the conn leaves. */
  ghost predicate Comes(got: seq<byte>, done: seq<Message>, done': seq<Message>, s: State, part: seq<byte>, tail: seq<byte>, atEnd: bool) {
    if s != Running then done' == done && tail == got && Cut(tail, s, atEnd)
    else if done' == done then part == got
    else part == [] && exists m :: Completes(m, got, done, done')
  }

  ghost predicate Completes(m: Message, got: seq<byte>, done: seq<Message>, done': seq<Message>) {
    done' == done + [m] && Frame(m) == got && m.payload != [] && m.messageType != CLOSE
  }

  /** How far a call gets in the bytes of the message in the buffers and those queued, when nothing is held back:
      to the end of the first frame, or as far as it has arrived; not into a header that is cut off. */
  ghost function FirstEnd(all: seq<byte>): nat {
    if |all| < HEADER_LEN then 0
    else
      var h := DecodeHeader(all[..HEADER_LEN]);
      var end := if h.messageType == CLOSE then HEADER_LEN else HEADER_LEN + h.numBytes;
      if end <= |all| then end else |all|
  }

  /** An accepted or connected TCP conn.  The buffers that it reads into are those of its remote address. */
  class TcpConn {
    const sock: InSocket
    var completed: seq<Message>
    var state: State
    ghost var tail: seq<byte>

    constructor (sock: InSocket)
      requires sock.consumed == []
      ensures Sound([]) && state == Running && completed == [] && this.sock == sock
    {
      this.sock := sock;
      completed, state, tail := [], Running, [];
    }

    /** The bytes consumed are the completed frames and, while the conn runs, the part of the next one that it
        has in the buffers; after that, what its end left. */
    ghost predicate Sound(part: seq<byte>)
      reads this, sock
    {
      && sock.consumed == Bytes(completed) + (if state == Running then part else tail)
      && (forall m <- completed :: m.payload != [] && m.messageType != CLOSE)
      && Cut(tail, state, sock.queue == [] && sock.end != Open)
    }

    /** The message in the buffers, if there is one, is this conn's own. */
    ghost predicate Valid(st: ConnStatus)
      reads this, sock, st, st.Footprint()
    {
      st.Buffers() && (state == Running ==> st.Ready()) && Sound(st.Partial())
    }

    /** recv would give nothing more, or less than a header. */
    ghost predicate NothingReadable(st: ConnStatus)
      reads this, sock, st
    {
      sock.queue == [] || (st.totalBuffer.buf == null && |sock.queue| < HEADER_LEN)
    }

    ghost predicate AtEnd()
      reads this, sock
    {
      sock.queue == [] && sock.end != Open
    }

    /** read_header: peek for a whole header and take it; a header that is cut off is left in the queue. */
    method ReadHeader(peekFails: bool) returns (ok: bool, h: Header)
      requires state == Running
      modifies sock`queue, sock`consumed, this`state, this`tail
      ensures ok ==> old(sock.queue) == EncodeHeader(h) + sock.queue
                     && sock.consumed == old(sock.consumed) + EncodeHeader(h) && state == Running
      ensures ok ==> var b := old(sock.queue);
                     |b| >= HEADER_LEN && BigEndian(b[..2]) == h.messageType && BigEndian(b[2..4]) == h.replyId && BigEndian(b[4..8]) == h.numBytes
      ensures ok <==> !peekFails && |old(sock.queue)| >= HEADER_LEN
      ensures sock.Stream() == old(sock.Stream())
      ensures !ok ==> sock.queue == old(sock.queue) && sock.consumed == old(sock.consumed)
                      && if peekFails then state == Running
                      else |sock.queue| < HEADER_LEN && state == (if AtEnd() then Lost else Running)
      ensures state == Lost ==> tail == []
      ensures peekFails ==> !ok
    {
      h := Header(0, 0, 0);
      if peekFails { return false, h; }
      var r := sock.Peek(HEADER_LEN);
      if r.Got? && 0 < |r.bytes| < HEADER_LEN { return false, h; }
      if r == Got([]) || r == Reset {
        state, tail := Lost, [];
        return false, h;
      }
      if r == WouldBlock { return false, h; }
      r := sock.Recv(HEADER_LEN, HEADER_LEN);
      HeaderRoundTrip(h, r.bytes);
      NetworkOrder(r.bytes);
      hide BigEndian, EncodeHeader, DecodeHeader;
      ghost var b := old(sock.queue);
      assert r.bytes[..2] == b[..2] && r.bytes[2..4] == b[2..4] && r.bytes[4..] == b[4..8];
      h := DecodeHeader(r.bytes);
      ok := true;
    }

    /** Begin a new recv: header, then a buffer for the payload. */
    method Begin(st: ConnStatus, peekFails: bool) returns (ready: bool, ghost taken: seq<byte>)
      requires state == Running && st.Ready() && st.totalBuffer.buf == null
      modifies sock`queue, sock`consumed, this`state, this`tail, st
      ensures sock.Stream() == old(sock.Stream()) && sock.consumed == old(sock.consumed) + taken
      ensures ready ==> state == Running && st.Receiving() && fresh(st.totalBuffer.buf.bytes) && st.Partial() == taken
                        && |taken| == HEADER_LEN && old(sock.queue) == taken + sock.queue
      ensures ready ==> |st.Partial() + sock.queue| == |old(sock.queue)|
      ensures !ready && !peekFails ==> |taken| == FirstEnd(old(sock.queue))
      ensures !ready ==> st.Buffers() && st.Partial() == [] && (state == ClosedByPeer ==> |taken| == HEADER_LEN)
      ensures !ready ==> st.Ready() && st.totalBuffer.buf == null && state != Dropped && state != Ended && (state == Running ==> taken == [])
                         && (state != Running ==> tail == taken && Cut(tail, state, AtEnd()))
                         && (peekFails ==> state == Running) && old(sock.queue) == taken + sock.queue
                         && (!peekFails && state == Running ==> |sock.queue| < HEADER_LEN && !AtEnd())
                         && (!peekFails && |old(sock.queue)| >= HEADER_LEN ==> state == ClosedByPeer)
      ensures !peekFails && |old(sock.queue)| >= HEADER_LEN ==> (ready <==> BigEndian(old(sock.queue)[..2]) != 4)
    {
      hide Bytes, EncodeHeader, DecodeHeader;
      var ok, h := ReadHeader(peekFails);
      if !ok { return false, []; }
      taken := EncodeHeader(h);
      HeaderRoundTrip(h, taken);
      if h.messageType == CLOSE {
        state, tail := ClosedByPeer, taken;
        return false, taken;
      }
      st.NewBuffer(h);
      ready := true;
    }

    /** continue_recv: take what has arrived of the payload. */
    method ContinueRecv(st: ConnStatus, limit: pos, recvFails: bool) returns (progress: Progress, ghost taken: seq<byte>)
      requires state == Running && st.Receiving()
      modifies sock`queue, sock`consumed, this`state, this`tail, st, st.totalBuffer.buf.bytes
      ensures st.totalBuffer == old(st.totalBuffer) || (progress.Failure? && st.totalBuffer == NO_DATA)
      ensures st.Buffers() && sock.consumed == old(sock.consumed) + taken && old(sock.queue) == taken + sock.queue
      ensures progress.Failure? <==> recvFails
      ensures progress.Whole? || progress.Pending? ==> state == Running && st.Partial() == old(st.Partial()) + taken
      ensures progress.Whole? ==> st.waitingBuffer.numBytes == 0 && st.totalBuffer.numBytes > 0 && taken != []
      ensures progress.Pending? ==> st.waitingBuffer.numBytes > 0 && (taken == [] ==> sock.end == Open && sock.queue == [])
      ensures progress.Interrupted? ==> state == Lost && (old(st.waitingBuffer.numBytes) > 0 ==> AtEnd())
      ensures old(st.waitingBuffer.numBytes) > 0 && !recvFails && old(sock.queue) != [] ==> taken != []
      ensures progress.Failure? ==> state == Dropped && st.totalBuffer == NO_DATA && st.Ready()
      ensures progress.Interrupted? || progress.Failure? ==>
                taken == [] && tail == old(st.Partial()) && Cut(tail, state, AtEnd())
      ensures limit >= old(st.waitingBuffer.numBytes) && !recvFails ==>
                |taken| == if old(st.waitingBuffer.numBytes) <= |old(sock.queue)| then old(st.waitingBuffer.numBytes) else |old(sock.queue)|
    {
      hide Bytes, EncodeHeader, DecodeHeader;
      PartialIsIncomplete(st.totalBuffer.buf.header, st.totalBuffer.buf.bytes[..st.waitingBuffer.off]);
      taken := [];
      if recvFails {
        tail, state := st.Partial(), Dropped;
        st.Drop();
        return Failure, [];
      }
      var r := sock.Recv(st.waitingBuffer.numBytes, limit);
      if r == Got([]) || r == Reset {
        tail, state := st.Partial(), Lost;
        return Interrupted, [];
      }
      if r == WouldBlock { return Pending, []; }
      st.StoreBytes(r.bytes);
      taken := r.bytes;
      progress := if st.waitingBuffer.numBytes == 0 then Whole else Pending;
    }

    /** The rest of a call once the header is in: true iff a message was handed on. */
    method Receive(st: ConnStatus, turn: Turn) returns (again: bool, ghost taken: seq<byte>)
      requires state == Running && st.Receiving()
      modifies this, sock`queue, sock`consumed, st, st.totalBuffer.buf.bytes
      ensures st.Buffers() && (state != Lost ==> st.Ready()) && st.totalBuffer.buf in {null, old(st.totalBuffer.buf)}
      ensures sock.consumed == old(sock.consumed) + taken && old(sock.queue) == taken + sock.queue
      ensures Comes(old(st.Partial()) + taken, old(completed), completed, state, st.Partial(), tail, AtEnd())
      ensures completed != old(completed) ==> taken != [] && |completed| == |old(completed)| + 1 && old(completed) < completed
                                              && again == !Stops(completed[|completed| - 1], turn)
      ensures again ==> completed != old(completed)
      ensures state in {Running, Lost, Dropped} && (state == Dropped <==> turn.recvFails)
      ensures state == Dropped ==> st.totalBuffer.buf == null
      ensures completed == old(completed) && state == Running && turn.limit >= 0x1_0000_0000 ==> sock.queue == []
      ensures old(AtEnd()) && !turn.recvFails ==> state == Lost
      ensures old(st.Ready()) && !turn.recvFails && old(sock.queue) != [] ==> taken != []
      ensures old(st.Ready()) && !turn.recvFails && old(sock.queue) == [] && sock.end == Open ==> state == Running
      ensures turn.limit >= 0x1_0000_0000 && !turn.recvFails ==>
                |old(st.Partial())| + |taken| == FirstEnd(old(st.Partial() + sock.queue))
    {
      hide Bytes, EncodeHeader, DecodeHeader, FirstEnd, Frame, Incomplete, Cut;
      ghost var part := st.Partial();
      st.EndOfPartial(sock.queue);
      var progress;
      progress, taken := ContinueRecv(st, turn.limit, turn.recvFails);
      if !progress.Whole? { return false, taken; }
      var m := st.TakeMessage();
      assert Completes(m, part + taken, completed, completed + [m]);
      completed := completed + [m];
      again := !Stops(m, turn);
    }

    /** The TCP part of read_from_socket; true iff a message was handed on, and another one may be waiting.  A
        whole reply whose id is not known only makes an error event, and the result is then false.  This is what
        the call does to any buffers, this conn's own message in them or not. */
    method ReadFromSocket(st: ConnStatus, turn: Turn) returns (again: bool, ghost taken: seq<byte>)
      requires state == Running && st.Ready()
      modifies this, sock`queue, sock`consumed, st.Footprint()
      ensures st.Buffers() && (state != Lost ==> st.Ready())
      ensures st.totalBuffer.buf == null || st.totalBuffer.buf == old(st.totalBuffer.buf) || fresh(st.totalBuffer.buf.bytes)
      ensures fresh(st.Footprint() - old(st.Footprint())) && sock.Stream() == old(sock.Stream())
      ensures sock.consumed == old(sock.consumed) + taken && old(sock.queue) == taken + sock.queue
      ensures Comes(old(st.Partial()) + taken, old(completed), completed, state, st.Partial(), tail, AtEnd())
      ensures completed != old(completed) ==> taken != [] && |completed| == |old(completed)| + 1 && old(completed) < completed
                                              && again == !(completed[|completed| - 1].messageType == 2 && !turn.known)
      ensures again ==> completed != old(completed)
      ensures state != Ended && (state == Dropped ==> turn.recvFails && st.totalBuffer.buf == null)
      ensures completed == old(completed) && state == Running && turn.limit >= 0x1_0000_0000 && !turn.peekFails ==>
                NothingReadable(st)
      ensures old(AtEnd()) && !turn.peekFails && !turn.recvFails ==> state == Lost
      ensures old(st.totalBuffer.buf) != null ==> (state == Dropped <==> turn.recvFails)
      ensures old(st.totalBuffer.buf) != null && !turn.recvFails ==>
                if old(sock.queue) != [] then taken != []
                else state == (if sock.end == Open then Running else Lost)
      ensures turn.limit >= 0x1_0000_0000 && !turn.peekFails && !turn.recvFails ==>
                |old(st.Partial())| + |taken| == FirstEnd(old(st.Partial() + sock.queue))
    {
      hide Bytes, EncodeHeader, DecodeHeader, FirstEnd, Frame, Incomplete, Cut, Comes, ConnStatus.Partial;
      if st.waitingBuffer.numBytes == 0 {
        PartialOfReady(st);
        again, taken := ReadNew(st, turn);
      } else {
        again, taken := Receive(st, turn);
      }
    }

    /** A call that begins with a header. */
    method ReadNew(st: ConnStatus, turn: Turn) returns (again: bool, ghost taken: seq<byte>)
      requires state == Running && st.Ready() && st.totalBuffer.buf == null
      modifies this, sock`queue, sock`consumed, st
      ensures st.Buffers() && (state != Lost ==> st.Ready()) && (st.totalBuffer.buf == null || fresh(st.totalBuffer.buf.bytes))
      ensures sock.consumed == old(sock.consumed) + taken && old(sock.queue) == taken + sock.queue
      ensures Comes([] + taken, old(completed), completed, state, st.Partial(), tail, AtEnd())
      ensures completed != old(completed) ==> taken != [] && |completed| == |old(completed)| + 1 && old(completed) < completed
                                              && again == !Stops(completed[|completed| - 1], turn)
      ensures again ==> completed != old(completed)
      ensures state != Ended && (state == Dropped ==> turn.recvFails && st.totalBuffer.buf == null)
      ensures completed == old(completed) && state == Running && turn.limit >= 0x1_0000_0000 && !turn.peekFails ==>
                NothingReadable(st)
      ensures old(AtEnd()) && !turn.peekFails && !turn.recvFails ==> state == Lost
      ensures turn.limit >= 0x1_0000_0000 && !turn.peekFails && !turn.recvFails ==> |taken| == FirstEnd([] + old(sock.queue))
    {
      hide Bytes, EncodeHeader, DecodeHeader, FirstEnd, Frame, Incomplete, Cut, Comes, ConnStatus.Partial;
      var ready;
      assert [] + sock.queue == sock.queue;
      ready, taken := Begin(st, turn.peekFails);
      if !ready {
        NotBegun(taken, completed, state, tail, AtEnd());
        return false, taken;
      }
      ghost var more;
      assert st.Partial() + sock.queue == old(sock.queue);
      again, more := Receive(st, turn);
      taken := taken + more;
      assert [] + taken == taken;
    }

    /** Read while messages are handed on; the loop around read_from_socket, when the message in the buffers is
        this conn's own.  It ends when nothing more can be read, or early, right after a reply with an unknown id;
        what is queued behind that waits for the next pass. */
    method ReadAll(st: ConnStatus, turns: Turns) returns (stopped: bool)
      requires Valid(st) && state == Running
      modifies this, sock`queue, sock`consumed, st.Footprint()
      ensures Valid(st) && old(completed) <= completed
      ensures st.totalBuffer.buf == null || st.totalBuffer.buf == old(st.totalBuffer.buf) || fresh(st.totalBuffer.buf.bytes)
      ensures sock.Stream() == old(sock.Stream()) && |sock.queue| <= |old(sock.queue)| && state != Ended
      ensures state == Dropped ==> exists k: nat :: turns(k).recvFails
      ensures stopped ==> state == Running && |sock.queue| < |old(sock.queue)| && completed != old(completed)
                          && Stops(completed[|completed| - 1], turns(|completed| - 1))
      ensures !stopped && state == Running && Generous(turns) ==> NothingReadable(st)
      ensures old(AtEnd()) && Generous(turns) ==> state == Lost
    {
      hide TcpConn.Valid;
      var again := true;
      stopped := false;
      while again
        invariant Valid(st) && old(completed) <= completed && (again ==> state == Running && !stopped)
        invariant st.totalBuffer.buf == null || st.totalBuffer.buf == old(st.totalBuffer.buf) || fresh(st.totalBuffer.buf.bytes)
        invariant sock.Stream() == old(sock.Stream()) && |sock.queue| <= |old(sock.queue)| && state != Ended
        invariant state == Dropped ==> exists k: nat :: turns(k).recvFails
        invariant stopped ==> state == Running && |sock.queue| < |old(sock.queue)| && completed != old(completed)
                              && Stops(completed[|completed| - 1], turns(|completed| - 1))
        invariant !again && !stopped && state == Running && Generous(turns) ==> NothingReadable(st)
        invariant old(AtEnd()) && Generous(turns) && state != Lost ==> again && AtEnd()
        decreases |sock.queue|, again
      {
        var before := |completed|;
        again := ReadOwn(st, turns(|completed|));
        stopped := |completed| != before && !again;
      }
    }

    /** read_from_socket, when the message in the buffers is this conn's own. */
    method ReadOwn(st: ConnStatus, turn: Turn) returns (again: bool)
      requires Valid(st) && state == Running
      modifies this, sock`queue, sock`consumed, st.Footprint()
      ensures Valid(st) && state != Ended
      ensures st.totalBuffer.buf == null || st.totalBuffer.buf == old(st.totalBuffer.buf) || fresh(st.totalBuffer.buf.bytes)
      ensures old(completed) <= completed && (again ==> completed != old(completed))
      ensures completed != old(completed) ==>
                state == Running && |sock.queue| < |old(sock.queue)| && again == !Stops(completed[|completed| - 1], turn)
                && |completed| == |old(completed)| + 1
      ensures |sock.queue| <= |old(sock.queue)| && sock.Stream() == old(sock.Stream())
      ensures state == Dropped ==> turn.recvFails
      ensures completed == old(completed) && state == Running && turn.limit >= 0x1_0000_0000 && !turn.peekFails ==>
                NothingReadable(st)
      ensures old(AtEnd()) && !turn.peekFails && !turn.recvFails ==> state == Lost
    {
      hide Bytes, EncodeHeader, DecodeHeader, FirstEnd, Frame, Incomplete, Cut, Completes;
      ghost var part, done := st.Partial(), completed;
      ghost var taken;
      again, taken := ReadFromSocket(st, turn);
      ComesKeeps(done, part, taken, completed, state, st.Partial(), tail, AtEnd());
      assert taken != [] ==> |sock.queue| < |old(sock.queue)|;
    }
  }

  /** A call that did not get as far as a payload. */
  lemma NotBegun(taken: seq<byte>, done: seq<Message>, s: State, tail: seq<byte>, atEnd: bool)
    requires if s == Running then taken == [] else tail == taken && Cut(tail, s, atEnd)
    ensures Comes([] + taken, done, done, s, [], tail, atEnd)
  {
    assert [] + taken == taken;
  }

  /** Once the conn has ended, what is in the buffers does not matter. */
  lemma ComesAtEnd(got: seq<byte>, done: seq<Message>, done': seq<Message>, s: State, part: seq<byte>, tail: seq<byte>,
                   atEnd: bool, other: seq<byte>)
    requires s != Running && Comes(got, done, done', s, part, tail, atEnd)
    ensures Comes(got, done, done', s, other, tail, atEnd)
  {
  }

  /** The frames of the messages completed and what remains are, before and after, the bytes consumed. */
  lemma ComesKeeps(done: seq<Message>, part: seq<byte>, taken: seq<byte>, done': seq<Message>, s: State, part': seq<byte>,
                   tail: seq<byte>, atEnd: bool)
    requires Comes(part + taken, done, done', s, part', tail, atEnd)
    requires forall m <- done :: m.payload != [] && m.messageType != CLOSE
    ensures Bytes(done) + part + taken == Bytes(done') + (if s == Running then part' else tail)
    ensures (forall m <- done' :: m.payload != [] && m.messageType != CLOSE) && Cut(tail, s, atEnd)
  {
    assert Bytes(done) + part + taken == Bytes(done) + (part + taken);
    if s == Running && done' != done {
      var m :| Completes(m, part + taken, done, done');
      hide Bytes, Frame;
      BytesSnoc(done, m);
    }
  }

  lemma PartialIsIncomplete(h: Header, got: seq<byte>)
    ensures |got| < h.numBytes ==> Incomplete(EncodeHeader(h) + got)
    ensures got == [] && h.numBytes == 0 ==>
              var tail := EncodeHeader(h) + got; |tail| == HEADER_LEN && DecodeHeader(tail) == h
  {
    var tail := EncodeHeader(h) + got;
    assert tail[..HEADER_LEN] == EncodeHeader(h);
    HeaderRoundTrip(h, tail[..HEADER_LEN]);
    assert got == [] ==> tail == EncodeHeader(h);
  }

  // ----- End to end -----

  /** However far a receiver got with a prefix of the sent bytes, what it completed is a prefix of what was
      sent; while the stream is open, the connection is given up only at an empty payload. */
  lemma CompletedIsPrefix(sent: seq<Message>, conn: TcpConn, part: seq<byte>)
    requires conn.Sound(part) && (conn.state == Running ==> Incomplete(part)) && conn.sock.Stream() <= Bytes(sent)
    requires forall m <- sent :: m.messageType != CLOSE
    ensures conn.completed <= sent && !conn.state.ClosedByPeer?
    ensures conn.state.Lost? && !conn.AtEnd() ==> conn.completed < sent && sent[|conn.completed|].payload == []
  {
    var done, tail := conn.completed, if conn.state == Running then part else conn.tail;
    var atEnd := conn.AtEnd();
    assert Bytes(done) + tail <= Bytes(sent) && Cut(tail, conn.state, atEnd);
    hide Bytes, DecodeHeader, TcpConn.Sound, TcpConn.AtEnd, InSocket.Stream;
    if Incomplete(tail) {
      CompletedFramesArePrefix(sent, done, tail);
      hide Incomplete;
    } else {
      NextHeader(sent, done, tail);
      hide Incomplete;
    }
  }

  lemma PartialOfReady(st: ConnStatus)
    requires st.Ready()
    ensures Incomplete(st.Partial()) && (st.totalBuffer.buf == null ==> st.Partial() == [])
  {
    if st.totalBuffer.buf != null { st.EndOfPartial([]); }
  }

  /** A chunk of the stream arrives, and the run loop reads if the conn is still there. */
  method Feed(conn: TcpConn, st: ConnStatus, chunk: seq<byte>, turns: Turns)
    requires conn.Valid(st) && conn.sock.end == Open && conn.state != Ended
    modifies conn, conn.sock`queue, conn.sock`consumed, st.Footprint()
    ensures conn.Valid(st) && conn.state != Ended && conn.sock.Stream() == old(conn.sock.Stream()) + chunk
    ensures st.totalBuffer.buf == null || st.totalBuffer.buf == old(st.totalBuffer.buf) || fresh(st.totalBuffer.buf.bytes)
    ensures conn.state == Dropped ==> old(conn.state) == Dropped || exists k: nat :: turns(k).recvFails
  {
    conn.sock.Arrive(chunk);
    assert conn.Valid(st);
    hide TcpConn.Valid;
    if conn.state.Running? { var stopped := conn.ReadAll(st, turns); }
  }

  /** Passes in which nothing is held back, until one finds nothing to read; if the stream has ended, one more
      pass comes to its end.  A pass that an unknown reply ends early has completed a message, so there is an end
      to them. */
  method Finish(conn: TcpConn, st: ConnStatus, known: nat -> bool)
    requires conn.Valid(st) && conn.state != Ended
    modifies conn, conn.sock`queue, conn.sock`consumed, st.Footprint()
    ensures conn.Valid(st) && conn.state != Ended && conn.sock.Stream() == old(conn.sock.Stream())
    ensures conn.state == Running ==> conn.NothingReadable(st) && !conn.AtEnd()
    ensures conn.state == Dropped ==> old(conn.state) == Dropped
  {
    hide TcpConn.Valid;
    var turns := (k: nat) => Turn(0x1_0000_0000, false, false, known(k));
    var stopped := conn.state == Running;
    while stopped
      invariant conn.Valid(st) && conn.state != Ended && conn.sock.Stream() == old(conn.sock.Stream())
      invariant st.totalBuffer.buf == null || st.totalBuffer.buf == old(st.totalBuffer.buf) || fresh(st.totalBuffer.buf.bytes)
      invariant conn.state == Dropped ==> old(conn.state) == Dropped
      invariant if stopped then conn.state == Running else conn.state == Running ==> conn.NothingReadable(st)
      decreases |conn.sock.queue|, stopped
    {
      stopped := conn.ReadAll(st, turns);
    }
    if conn.state == Running && conn.sock.queue == [] && conn.sock.end != Open {
      stopped := conn.ReadAll(st, turns);
    }
  }

  /** What the receiver completed, once every byte sent has arrived and nothing is left to read. */
  lemma AllOrUpToEmpty(ms: seq<Message>, conn: TcpConn, st: ConnStatus)
    requires conn.Valid(st) && conn.sock.Stream() == Bytes(ms) && conn.state != Dropped && conn.state != Ended
    requires conn.state == Running ==> conn.NothingReadable(st)
    requires forall m <- ms :: m.messageType != CLOSE
    ensures conn.completed == ms <==> forall m <- ms :: m.payload != []
  {
    assert conn.sock.Stream() <= Bytes(ms);
    if conn.state.Running? { PartialOfReady(st); }
    CompletedIsPrefix(ms, conn, st.Partial());
    if conn.state.Running? {
      NothingLeftOver(ms, conn.completed, st.Partial(), conn.sock.queue);
    } else if conn.AtEnd() && Incomplete(conn.tail) {
      NothingLeftOver(ms, conn.completed, conn.tail, conn.sock.queue);
    } else if conn.AtEnd() {
      NextHeader(ms, conn.completed, conn.tail);
    }
  }

  /** How many bytes of the stream follow the frames completed. */
  ghost function Rest(conn: TcpConn): int
    reads conn, conn.sock
  {
    |conn.sock.Stream()| - |Bytes(conn.completed)|
  }

  /** After the end of the stream the conn is reported lost, except when the stream ends within a header: its 1
      to 7 bytes are peeked at for ever. */
  lemma LostAtEnd(ms: seq<Message>, conn: TcpConn, st: ConnStatus)
    requires conn.Valid(st) && conn.sock.Stream() <= Bytes(ms) && conn.sock.end != Open
    requires conn.state != Dropped && conn.state != Ended
    requires conn.state == Running ==> conn.NothingReadable(st) && !conn.AtEnd()
    requires forall m <- ms :: m.messageType != CLOSE && m.payload != []
    ensures conn.state == Lost || conn.state == Running
    ensures conn.state == Lost <==> !(0 < Rest(conn) < HEADER_LEN)
  {
    if conn.state.Running? { PartialOfReady(st); }
    CompletedIsPrefix(ms, conn, st.Partial());
    if conn.state.Lost? && conn.AtEnd() && !Incomplete(conn.tail) {
      NextHeader(ms, conn.completed, conn.tail);
    }
  }

  /** A new conn is fed the first bytes of w in chunks of any size, each read in a pass that may go in any way;
      then the stream stays open or ends, and passes without hindrance follow until nothing is left to read. */
  method Deliver(w: seq<byte>, chunks: seq<(nat, Turns)>, end: End, known: nat -> bool)
    returns (conn: TcpConn, st: ConnStatus, at: nat)
    ensures at == Min(|w|, Total(chunks)) && conn.Valid(st) && conn.state != Ended && conn.sock.end == end && conn.sock.Stream() == w[..at]
    ensures conn.state == Running ==> conn.NothingReadable(st) && !conn.AtEnd()
    ensures conn.state == Dropped ==> exists c, k: nat :: c in chunks && c.1(k).recvFails
  {
    hide TcpConn.Valid, TcpConn.NothingReadable, TcpConn.AtEnd, InSocket.Stream, Total, Min, ConnStatus.Buffers;
    conn, st := NewConn();
    at := FeedAll(conn, st, w, chunks);
    EndStream(conn, st, end);
    Finish(conn, st, known);
  }

  method NewConn() returns (conn: TcpConn, st: ConnStatus)
    ensures fresh(conn) && fresh(conn.sock) && fresh(st) && fresh(st.Footprint()) && conn.Valid(st)
    ensures conn.state == Running && conn.sock.end == Open && conn.sock.Stream() == [] && conn.completed == []
  {
    var sock := new InSocket();
    conn := new TcpConn(sock);
    st := new ConnStatus();
  }

  /** How many bytes the chunks ask for. */
  function Total(chunks: seq<(nat, Turns)>): nat {
    if chunks == [] then 0 else Total(chunks[..|chunks| - 1]) + chunks[|chunks| - 1].0
  }

  lemma NoChunk(w: seq<byte>, chunks: seq<(nat, Turns)>)
    ensures Min(|w|, Total(chunks[..0])) == 0
  {
  }

  lemma NextChunk(w: seq<byte>, chunks: seq<(nat, Turns)>, i: nat, at: nat)
    requires i < |chunks| && at == Min(|w|, Total(chunks[..i]))
    ensures at <= |w|
    ensures var n := if chunks[i].0 <= |w| - at then chunks[i].0 else |w| - at;
            at + n == Min(|w|, Total(chunks[..i + 1])) && at + n <= |w| && w[..at + n] == w[..at] + w[at..at + n]
  {
    assert chunks[..i + 1][..i] == chunks[..i];
  }

  method FeedAll(conn: TcpConn, st: ConnStatus, w: seq<byte>, chunks: seq<(nat, Turns)>) returns (at: nat)
    requires conn.Valid(st) && conn.state == Running && conn.sock.end == Open && conn.sock.Stream() == []
    modifies conn, conn.sock`queue, conn.sock`consumed, st.Footprint()
    ensures at == Min(|w|, Total(chunks)) && conn.Valid(st) && conn.state != Ended && conn.sock.Stream() == w[..at]
    ensures st.totalBuffer.buf == null || st.totalBuffer.buf == old(st.totalBuffer.buf) || fresh(st.totalBuffer.buf.bytes)
    ensures conn.state == Dropped ==> exists c, k: nat :: c in chunks && c.1(k).recvFails
  {
    hide TcpConn.Valid, InSocket.Stream, Total, Min, ConnStatus.Buffers;
    at := 0;
    NoChunk(w, chunks);
    for i := 0 to |chunks|
      invariant conn.Valid(st) && conn.state != Ended && at <= |w| && at == Min(|w|, Total(chunks[..i])) && conn.sock.Stream() == w[..at]
      invariant st.totalBuffer.buf == null || st.totalBuffer.buf == old(st.totalBuffer.buf) || fresh(st.totalBuffer.buf.bytes)
      invariant conn.state == Dropped ==> exists c, k: nat :: c in chunks && c.1(k).recvFails
    {
      assert chunks[i] in chunks;
      NextChunk(w, chunks, i, at);
      var n := if chunks[i].0 <= |w| - at then chunks[i].0 else |w| - at;
      Feed(conn, st, w[at..at + n], chunks[i].1);
      at := at + n;
    }
    assert chunks[..|chunks|] == chunks;
  }

  method EndStream(conn: TcpConn, st: ConnStatus, end: End)
    requires conn.Valid(st) && conn.sock.end == Open
    modifies conn.sock`end
    ensures conn.Valid(st) && conn.sock.end == end && conn.sock.Stream() == old(conn.sock.Stream())
  {
    conn.sock.end := end;
  }

  /** A peer sends a list of messages through any schedule of partial sends; the bytes that got out arrive in
      chunks of any size, after which the stream may end.  After each chunk a pass reads, with any limits on what
      recv hands over, any failures of recv, and any replies unknown; at the end passes follow, with any replies
      unknown, until nothing is left to read. */
  method EndToEnd(ms: seq<Message>, schedules: seq<seq<SendResult>>, chunks: seq<(nat, Turns)>, end: End, known: nat -> bool)
    returns (completed: seq<Message>, outcome: SendOutcome, arrived: seq<byte>, final: State)
    requires forall m <- ms :: m.messageType != CLOSE
    requires |schedules| == |ms|
    ensures completed <= ms && arrived <= Bytes(ms) && final in {Running, Lost, Dropped}
    ensures final == Dropped ==> exists c, k: nat :: c in chunks && c.1(k).recvFails
    ensures outcome.Done? <==> forall i :: 0 <= i < |ms| ==> LetsThrough(schedules[i], ms[i])
    ensures outcome.Done? ==> arrived == Bytes(ms)[..Min(|Bytes(ms)|, Total(chunks))]
    ensures arrived == Bytes(ms) ==> outcome.Done?
    ensures arrived == Bytes(ms) && final != Dropped ==> (completed == ms <==> forall m <- ms :: m.payload != [])
    ensures end != Open && final != Dropped && (forall m <- ms :: m.payload != []) ==>
              (final == Lost <==> !(0 < |arrived| - |Bytes(completed)| < HEADER_LEN))
  {
    var out := new OutSocket();
    ghost var whole;
    outcome, whole := SendList(out, ms, schedules);
    var conn, st, at := Deliver(out.sent, chunks, end, known);
    completed, arrived, final := conn.completed, out.sent[..at], conn.state;
    hide TcpConn.Valid, Bytes;
    PrefixOfPrefix(out.sent, at, Bytes(ms));
    ValidIsPrefix(ms, conn, st);
    if arrived == Bytes(ms) && final != Dropped { AllOrUpToEmpty(ms, conn, st); }
    if end != Open && final != Dropped && forall m <- ms :: m.payload != [] { LostAtEnd(ms, conn, st); }
  }

  lemma ValidIsPrefix(sent: seq<Message>, conn: TcpConn, st: ConnStatus)
    requires conn.Valid(st) && conn.sock.Stream() <= Bytes(sent)
    requires forall m <- sent :: m.messageType != CLOSE
    ensures conn.completed <= sent && conn.state != ClosedByPeer
  {
    if conn.state.Running? { PartialOfReady(st); }
    CompletedIsPrefix(sent, conn, st.Partial());
  }

  lemma PrefixOfPrefix(w: seq<byte>, at: nat, all: seq<byte>)
    requires at <= |w| && w <= all
    ensures w[..at] <= all && (at == |w| ==> w[..at] == w)
  {
  }
}
