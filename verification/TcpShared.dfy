/** Several TCP conns with one remote address: two msg_connect calls to one server.  The receive buffers are found
    by the remote address, so the conns share them; whichever conn reads next goes on with the message in them. */
module TcpShared {
  import opened Common
  import opened Framing
  import opened TcpStream

  class Remote {
    var status: ConnStatus
    var conns: seq<TcpConn>

    // What has happened so far.
    ghost var happened: seq<Happening>

    ghost predicate Wf()
      reads this`conns
    {
      && NoDup(conns)
      && forall c, d :: c in conns && d in conns && c != d ==> c.sock != d.sock
    }

    /** The message in the buffers, if there is one, was begun by the conn `owner`; every conn is at a frame of
        its own stream. */
    ghost predicate Framed(owner: Option<nat>)
      reads this`status, this`conns, conns, set c <- conns :: c.sock, status, status.Footprint()
    {
      && status.Ready() && (owner.None? <==> status.totalBuffer.buf == null)
      && (owner.Some? ==> owner.value < |conns| && conns[owner.value].state == Running)
      && forall k: nat :: k < |conns| ==> conns[k].Sound(if owner == Some(k) then status.Partial() else [])
    }

    /** All conns but j are at a frame of their streams. */
    ghost predicate Others(j: nat, owner: Option<nat>, part: seq<byte>)
      reads this`conns, conns, set c <- conns :: c.sock
    {
      forall k: nat :: k < |conns| && k != j ==> conns[k].Sound(if owner == Some(k) then part else [])
    }

    ghost predicate AnyFramed()
      reads this`status, this`conns, conns, set c <- conns :: c.sock, status, status.Footprint()
    {
      exists owner: Option<nat> :: Framed(owner)
    }

    /** A read of conn j that touches another conn's message: there is something to read, the stream of j has
        ended, or the recv fails. */
    ghost predicate Disturbs(owner: Option<nat>, j: nat, recvFails: bool)
      requires j < |conns|
      reads this`conns, conns, set c <- conns :: c.sock
    {
      owner.Some? && owner.value != j && (conns[j].sock.queue != [] || conns[j].sock.end != Open || recvFails)
    }

    constructor ()
      ensures Wf() && Framed(None) && fresh(status) && conns == [] && status.totalBuffer == NO_DATA && happened == []
    {
      status := new ConnStatus();
      conns, happened := [], [];
    }

    /** One more conn to the address. */
    method Connect(sock: InSocket, ghost owner: Option<nat>)
      requires Wf() && sock.consumed == [] && forall c <- conns :: c.sock != sock
      modifies this`conns
      ensures Wf() && |conns| == |old(conns)| + 1 && conns[..|old(conns)|] == old(conns)
      ensures var c := conns[|old(conns)|]; fresh(c) && c.sock == sock && c.state == Running && c.completed == []
      ensures old(Framed(owner)) ==> Framed(owner)
    {
      var conn := new TcpConn(sock);
      hide TcpConn.Sound;
      conns := conns + [conn];
    }

    /** What a call made of the bytes in the buffers and those it took, and where it left the conn. */
    ghost predicate Came(conn: TcpConn, done: seq<Message>, part: seq<byte>, taken: seq<byte>, queue: seq<byte>, recvFails: bool)
      reads this`status, conn, conn.sock, status, status.Footprint()
    {
      && (taken == [] ==> conn.completed == done) && queue == taken + conn.sock.queue
      && (part != [] ==>
            if recvFails then conn.state == Dropped
            else if queue != [] then taken != []
            else conn.state == (if conn.sock.end == Open then Running else Lost))
      && status.Ready() && (conn.state != Running ==> status.Partial() == [])
      && Comes(part + taken, done, conn.completed, conn.state, status.Partial(), conn.tail, conn.AtEnd())
    }

    /** The message in the buffers was the conn's own, or there was none. */
    lemma Keeps(owner: Option<nat>, j: nat, conn: TcpConn, done: seq<Message>, part: seq<byte>, taken: seq<byte>,
                queue: seq<byte>, recvFails: bool)
      requires j < |conns| && conns[j] == conn && Came(conn, done, part, taken, queue, recvFails)
      requires conn.sock.consumed == Bytes(done) + part + taken
      requires forall m <- done :: m.payload != [] && m.messageType != CLOSE
      requires Wf() && (owner.None? || owner == Some(j)) && Others(j, owner, part)
      ensures AnyFramed()
    {
      ComesKeeps(done, part, taken, conn.completed, conn.state, status.Partial(), conn.tail, conn.AtEnd());
      PartialOfReady(status);
      if status.totalBuffer.buf != null { status.EndOfPartial([]); }
      hide Comes, Bytes, Cut, FirstEnd, ConnStatus.Partial;
      assert conn.Sound(status.Partial());
      hide TcpConn.Sound;
      assert Framed(if status.totalBuffer.buf == null then None else Some(j));
    }

    /** The message in the buffers was another's, and the call did something. */
    lemma Breaks(j: nat, conn: TcpConn, done: seq<Message>, part: seq<byte>, taken: seq<byte>,
                 queue: seq<byte>, recvFails: bool)
      requires j < |conns| && conns[j] == conn && Came(conn, done, part, taken, queue, recvFails)
      requires conn.sock.consumed == Bytes(done) + taken
      requires part != [] && (taken != [] || conn.state != Running)
      ensures !AnyFramed()
    {
      forall owner: Option<nat> ensures !Framed(owner) {
        var x := if owner == Some(j) then status.Partial() else [];
        OutOfFrame(done, part, taken, conn.completed, conn.state, status.Partial(), conn.tail, conn.AtEnd(), x);
        hide Comes, Bytes;
        assert !conn.Sound(x);
      }
    }

    /** The read found nothing to do. */
    lemma Untouched(owner: nat, j: nat, conn: TcpConn, done: seq<Message>, part: seq<byte>, taken: seq<byte>,
                    queue: seq<byte>, recvFails: bool)
      requires j < |conns| && conns[j] == conn && Came(conn, done, part, taken, queue, recvFails) && Others(j, Some(owner), part)
      requires owner != j && owner < |conns| && conns[owner].state == Running
      requires Wf() && part != [] && taken == [] && conn.state == Running && conn.completed == done
      requires conn.sock.consumed == Bytes(done)
      requires forall m <- done :: m.payload != [] && m.messageType != CLOSE
      ensures AnyFramed()
    {
      assert part + [] == part && status.Partial() == part;
      assert status.totalBuffer.buf != null by { PartialOfReady(status); }
      assert conn.Sound([]);
      assert status.Ready();
      hide *;
      StillFramed(owner, j, conn, part);
    }

    lemma StillFramed(owner: nat, j: nat, conn: TcpConn, part: seq<byte>)
      requires j < |conns| && conns[j] == conn && Others(j, Some(owner), part) && conn.Sound([])
      requires owner != j && owner < |conns| && conns[owner].state == Running
      requires status.Ready() && status.totalBuffer.buf != null && status.Partial() == part
      ensures AnyFramed()
    {
      hide TcpConn.Sound, ConnStatus.Partial, ConnStatus.Ready;
      assert Framed(Some(owner));
    }

    /** One call of read_from_socket for a conn.  Whatever is in the buffers goes on; a conn that ends takes the
        status away, and the next read makes a new one. */
    method ReadAny(conn: TcpConn, turn: Turn) returns (again: bool, ghost taken: seq<byte>)
      requires status.Ready() && conn.state == Running
      modifies this`status, status.Footprint(), conn, conn.sock
      ensures fresh(status.Footprint() - old(status.Footprint()))
      ensures status.Ready() && Came(conn, old(conn.completed), old(status.Partial()), taken, old(conn.sock.queue), turn.recvFails)
      ensures conn.sock.Stream() == old(conn.sock.Stream()) && conn.sock.end == old(conn.sock.end)
      ensures conn.sock.consumed == old(conn.sock.consumed) + taken
      ensures conn.state != Ended && (conn.state == Dropped ==> turn.recvFails)
      ensures turn.limit >= 0x1_0000_0000 && !turn.peekFails && !turn.recvFails ==>
                |old(status.Partial())| + |taken| == FirstEnd(old(status.Partial() + conn.sock.queue))
    {
      hide *;
      OfReady(conn);
      ghost var part, done, queue, had := status.Partial(), conn.completed, conn.sock.queue, status.totalBuffer.buf != null;
      ghost var objects0 := status.Footprint();
      again, taken := conn.ReadFromSocket(status, turn);
      ghost var objects1, st := status.Footprint(), status;
      LoseStatus(conn, part + taken, done);
      assert if status == st then status.Footprint() == objects1 else status.Footprint() == {status};
      CameFrom(conn, done, part, taken, queue, turn.recvFails, had);
    }

    lemma OfReady(conn: TcpConn)
      requires status.Ready()
      ensures status.Buffers() && (status.totalBuffer.buf == null ==> status.Partial() == [])
      ensures this !in status.Footprint() && conn !in status.Footprint() && conn.sock !in status.Footprint()
    {
    }

    lemma CameFrom(conn: TcpConn, done: seq<Message>, part: seq<byte>, taken: seq<byte>, queue: seq<byte>, recvFails: bool, had: bool)
      requires (part != [] ==> had) && (taken == [] ==> conn.completed == done) && queue == taken + conn.sock.queue
      requires had ==> (conn.state == Dropped <==> recvFails)
      requires had && !recvFails ==> if queue != [] then taken != [] else conn.state == (if conn.sock.end == Open then Running else Lost)
      requires status.Ready() && (conn.state != Running ==> status.Partial() == [])
      requires Comes(part + taken, done, conn.completed, conn.state, status.Partial(), conn.tail, conn.AtEnd())
      ensures Came(conn, done, part, taken, queue, recvFails)
    {
      hide Comes, TcpConn.AtEnd, ConnStatus.Ready, ConnStatus.Partial;
    }

    /** map__unset on conn_status, if the conn was lost or closed. */
    method LoseStatus(conn: TcpConn, ghost got: seq<byte>, ghost done: seq<Message>)
      requires status.Buffers() && (conn.state != Lost ==> status.Ready()) && conn.state != Ended
      requires conn.state == Dropped ==> status.totalBuffer.buf == null
      requires Comes(got, done, conn.completed, conn.state, status.Partial(), conn.tail, conn.AtEnd())
      modifies this`status
      ensures status == old(status) || (fresh(status) && status.Footprint() == {status})
      ensures status.Ready()
      ensures conn.state != Running ==> status.Partial() == []
      ensures Comes(got, done, conn.completed, conn.state, status.Partial(), conn.tail, conn.AtEnd())
    {
      hide Comes;
      ghost var part := status.Partial();
      if conn.state == Lost || conn.state == ClosedByPeer { status := new ConnStatus(); }
      assert conn.state != Running ==> status.Partial() == [] by { PartialOfReady(status); }
      if conn.state != Running { ComesAtEnd(got, done, conn.completed, conn.state, part, conn.tail, conn.AtEnd(), []); }
    }

    lemma Different(j: nat)
      requires Wf() && j < |conns|
      ensures forall k: nat :: k < |conns| && k != j ==> conns[k] != conns[j] && conns[k].sock != conns[j].sock
    {
    }

    /** The buffers are no conn's. */
    lemma Apart()
      ensures this !in status.Footprint()
      ensures forall k: nat :: k < |conns| ==> conns[k] !in status.Footprint() && conns[k].sock !in status.Footprint()
    {
    }

    /** The other conns are where they were. */
    method ReadBeside(j: nat, conn: TcpConn, turn: Turn, ghost owner: Option<nat>, ghost part: seq<byte>)
      returns (again: bool, ghost taken: seq<byte>)
      requires Wf() && status.Ready() && j < |conns| && conns[j] == conn && conn.state == Running
      modifies this`status, status.Footprint(), conn, conn.sock
      ensures fresh(status.Footprint() - old(status.Footprint()))
      ensures status.Ready() && Came(conn, old(conn.completed), old(status.Partial()), taken, old(conn.sock.queue), turn.recvFails)
      ensures conn.sock.consumed == old(conn.sock.consumed) + taken
      ensures turn.limit >= 0x1_0000_0000 && !turn.peekFails && !turn.recvFails ==>
                |old(status.Partial())| + |taken| == FirstEnd(old(status.Partial() + conn.sock.queue))
      ensures conn.sock.Stream() == old(conn.sock.Stream()) && conn.sock.end == old(conn.sock.end)
      ensures old(Others(j, owner, part)) ==> Others(j, owner, part)
      ensures Wf()
    {
      hide *;
      Different(j);
      Apart();
      OthersMean(j, owner, part);
      ghost var others := Others(j, owner, part);
      again, taken := ReadAny(conn, turn);
      forall k: nat | others && k < |conns| && k != j ensures conns[k].Sound(if owner == Some(k) then part else []) {
        assert old(conns[k].Sound(if owner == Some(k) then part else []));
      }
      OthersMean(j, owner, part);
    }

    lemma OthersMean(j: nat, owner: Option<nat>, part: seq<byte>)
      ensures Others(j, owner, part) <==>
              forall k: nat :: k < |conns| && k != j ==> conns[k].Sound(if owner == Some(k) then part else [])
    {
    }

    /** The conns stay in frame exactly when a read does not disturb another one's message. */
    method Read(j: nat, conn: TcpConn, turn: Turn, ghost owner: Option<nat>) returns (again: bool, ghost taken: seq<byte>)
      requires Wf() && status.Ready() && j < |conns| && conns[j] == conn && conn.state == Running
      modifies this`status, status.Footprint(), conn, conn.sock
      ensures status.Ready() && Took(conn, turn, taken)
      ensures fresh(status.Footprint() - old(status.Footprint()))
      ensures conn.sock.Stream() == old(conn.sock.Stream()) && conn.sock.end == old(conn.sock.end)
      ensures old(Framed(owner)) ==> (AnyFramed() <==> !old(Disturbs(owner, j, turn.recvFails)))
    {
      hide Comes, Cut, Bytes, FirstEnd, TcpConn.Sound, TcpConn.AtEnd, InSocket.Stream, ConnStatus.Ready, ConnStatus.Buffers,
        ConnStatus.Partial, ConnStatus.Footprint, Remote.Came, Remote.Wf, Remote.Framed, Remote.AnyFramed, Remote.Others, Remote.Disturbs;
      OfReady(conn);
      Apart();
      Different(j);
      DisturbsMeans(owner, j, conn, turn.recvFails);
      ghost var framed, part, done, queue := Framed(owner), status.Partial(), conn.completed, conn.sock.queue;
      if framed { InFrame(owner, j, conn); }
      again, taken := ReadBeside(j, conn, turn, owner, part);
      if framed { Verdict(owner, j, conn, done, part, taken, queue, turn.recvFails); }
    }

    /** What a read of the conn took, and what came of it. */
    twostate predicate Took(conn: TcpConn, turn: Turn, taken: seq<byte>)
      requires old(status.Ready())
      reads this`status, conn, conn.sock, status, status.Footprint()
    {
      && conn.sock.consumed == old(conn.sock.consumed) + taken
      && Came(conn, old(conn.completed), old(status.Partial()), taken, old(conn.sock.queue), turn.recvFails)
      && (turn.limit >= 0x1_0000_0000 && !turn.peekFails && !turn.recvFails ==>
            |old(status.Partial())| + |taken| == FirstEnd(old(status.Partial() + conn.sock.queue)))
    }

    lemma DisturbsMeans(owner: Option<nat>, j: nat, conn: TcpConn, recvFails: bool)
      requires j < |conns| && conns[j] == conn
      ensures Disturbs(owner, j, recvFails) <==>
              owner.Some? && owner.value != j && (conn.sock.queue != [] || conn.sock.end != Open || recvFails)
    {
    }

    /** What the read does to the framing, told from the state after it. */
    lemma Verdict(owner: Option<nat>, j: nat, conn: TcpConn, done: seq<Message>, part: seq<byte>, taken: seq<byte>,
                  queue: seq<byte>, recvFails: bool)
      requires Wf() && j < |conns| && conns[j] == conn && Came(conn, done, part, taken, queue, recvFails) && Others(j, owner, part)
      requires conn.sock.consumed == Bytes(done) + (if owner == Some(j) then part else []) + taken
      requires forall m <- done :: m.payload != [] && m.messageType != CLOSE
      requires if owner.None? then part == []
               else part != [] && owner.value < |conns| && (owner.value != j ==> conns[owner.value].state == Running)
      ensures AnyFramed() <==> !(owner.Some? && owner.value != j && (queue != [] || conn.sock.end != Open || recvFails))
    {
      hide Comes, Bytes, Remote.Wf, Remote.Others, Remote.AnyFramed, ConnStatus.Ready, ConnStatus.Partial, TcpConn.AtEnd;
      if owner.None? || owner == Some(j) {
        hide *;
        Keeps(owner, j, conn, done, part, taken, queue, recvFails);
      } else if queue != [] || conn.sock.end != Open || recvFails {
        assert taken != [] || conn.state != Running;
        hide *;
        Breaks(j, conn, done, part, taken, queue, recvFails);
      } else {
        assert taken == [] && conn.state == Running && conn.completed == done;
        hide *;
        Untouched(owner.value, j, conn, done, part, taken, queue, recvFails);
      }
    }

    lemma InFrame(owner: Option<nat>, j: nat, conn: TcpConn)
      requires Wf() && Framed(owner) && j < |conns| && conns[j] == conn && conn.state == Running
      ensures conn.sock.consumed == Bytes(conn.completed) + (if owner == Some(j) then status.Partial() else [])
      ensures forall m <- conn.completed :: m.payload != [] && m.messageType != CLOSE
      ensures if owner.None? then status.Partial() == []
              else status.Partial() != [] && status.totalBuffer.buf != null
                   && owner.value < |conns| && conns[owner.value].state == Running
      ensures Others(j, owner, status.Partial())
    {
      PartialOfReady(status);
      if owner.Some? { status.EndOfPartial([]); }
    }

    /** msg_disconnect: the status of the address goes, and with it the message in the buffers.  The conns stay in
        frame exactly when that is not another conn's. */
    method Disconnect(j: nat, conn: TcpConn, ghost owner: Option<nat>)
      requires Wf() && status.Ready() && j < |conns| && conns[j] == conn && conn.state == Running
      modifies this`status, conn`state, conn`tail
      ensures status.Ready() && fresh(status) && status.totalBuffer == NO_DATA && conn.state == Ended
      ensures old(Framed(owner)) ==> (AnyFramed() <==> owner.None? || owner == Some(j))
    {
      hide *;
      OfReady(conn);
      ghost var framed, part := Framed(owner), status.Partial();
      if framed { InFrame(owner, j, conn); }
      PartialOfReady(status);
      Different(j);
      OthersMean(j, owner, part);
      conn.state, conn.tail := Ended, if owner == Some(j) then part else [];
      status := new ConnStatus();
      assert forall k: nat :: framed && k < |conns| && k != j ==> conns[k].Sound(if owner == Some(k) then part else []);
      OthersMean(j, owner, part);
      if framed { AfterDisconnect(owner, j, conn, part); }
    }

    lemma AfterDisconnect(owner: Option<nat>, j: nat, conn: TcpConn, part: seq<byte>)
      requires Wf() && j < |conns| && conns[j] == conn && Others(j, owner, part)
      requires status.Ready() && status.totalBuffer == NO_DATA && conn.state == Ended && Incomplete(part)
      requires conn.tail == (if owner == Some(j) then part else []) && conn.sock.consumed == Bytes(conn.completed) + conn.tail
      requires forall m <- conn.completed :: m.payload != [] && m.messageType != CLOSE
      requires owner.Some? ==> part != [] && owner.value < |conns| && (owner.value != j ==> conns[owner.value].state == Running)
      ensures AnyFramed() <==> owner.None? || owner == Some(j)
    {
      PartialOfReady(status);
      if owner.None? || owner == Some(j) {
        assert conn.Sound([]);
        hide TcpConn.Sound;
        assert Framed(None);
      } else {
        var other := conns[owner.value];
        assert other.Sound(part);
        forall o: Option<nat> ensures !Framed(o) {
          assert !other.Sound([]);
        }
      }
    }

    /** Bytes arrive, or the stream ends, for one of the conns. */
    method Arrive(j: nat, sock: InSocket, bytes: seq<byte>, end: End, ghost owner: Option<nat>)
      requires Wf() && j < |conns| && conns[j].sock == sock && sock.end == Open
      modifies sock`queue, sock`end
      ensures sock.Stream() == old(sock.Stream()) + bytes && sock.end == end
      ensures old(Framed(owner)) ==> Framed(owner)
    {
      Different(j);
      ghost var framed := Framed(owner);
      sock.Arrive(bytes);
      sock.end := end;
      hide Bytes, ConnStatus.Partial;
      forall k: nat | framed && k < |conns| ensures conns[k].Sound(if owner == Some(k) then status.Partial() else []) {
        assert old(conns[k].Sound(if owner == Some(k) then status.Partial() else []));
      }
    }
  }

  /** Bytes that went into another conn's message are missing from the frames of this one. */
  lemma OutOfFrame(done: seq<Message>, part: seq<byte>, taken: seq<byte>, done': seq<Message>, s: State, part': seq<byte>,
                   tail: seq<byte>, atEnd: bool, x: seq<byte>)
    requires Comes(part + taken, done, done', s, part', tail, atEnd)
    requires part != [] && (taken != [] || s != Running) && (x == [] || x == part')
    ensures Bytes(done) + taken != Bytes(done') + (if s == Running then x else tail)
  {
    if s == Running && done' != done {
      var m :| Completes(m, part + taken, done, done');
      hide Bytes, Frame;
      BytesSnoc(done, m);
      assert |Bytes(done')| == |Bytes(done)| + |part| + |taken|;
    }
  }

  // ----- Runs -----

  /** What happens to the conns of one address; a conn is named by its position. */
  datatype Happening =
    | Arrives(at: nat, n: nat)              // n more bytes of its stream
    | Finishes(at: nat, end: End)           // its stream ends
    | Reads(at: nat, turn: Turn)
    | Disconnects(at: nat)

  /** The remote's objects are all new, and the conns stand where `at` says in their streams. */
  ghost predicate Follows(r: Remote, streams: seq<seq<byte>>, at: seq<nat>)
    reads r`conns, r.conns, set c <- r.conns :: c.sock
  {
    && r.Wf() && |streams| == |at| == |r.conns|
    && forall k :: 0 <= k < |at| ==> at[k] <= |streams[k]| && r.conns[k].sock.Stream() == streams[k][..at[k]]
  }

  /** If no read and no disconnect disturbs another conn's message, every conn has completed a prefix of what its
      peer sent. */
  lemma UndisturbedIsPrefix(r: Remote, sent: seq<seq<Message>>, streams: seq<seq<byte>>, at: seq<nat>, k: nat)
    requires r.AnyFramed() && Follows(r, streams, at) && |sent| == |streams| && k < |sent|
    requires streams[k] == Bytes(sent[k]) && forall m <- sent[k] :: m.messageType != CLOSE
    ensures r.conns[k].completed <= sent[k]
  {
    var owner :| r.Framed(owner);
    PartialOfReady(r.status);
    hide Bytes;
    PrefixOfPrefix(streams[k], at[k], streams[k]);
    CompletedIsPrefix(sent[k], r.conns[k], if owner == Some(k) then r.status.Partial() else []);
  }

  /** The happening disturbs a message that another conn has in the buffers. */
  ghost predicate DisturbedBy(r: Remote, owner: Option<nat>, h: Happening)
    reads r`conns, r.conns, set c <- r.conns :: c.sock
  {
    match h
    case Reads(j, turn) => j < |r.conns| && r.conns[j].state == Running && r.Disturbs(owner, j, turn.recvFails)
    case Disconnects(j) => j < |r.conns| && r.conns[j].state == Running && owner.Some? && owner.value != j
    case _ => false
  }

  /** One happening.  The conns get out of frame exactly when it disturbs a message; `taken` is what a read takes. */
  method Happen(r: Remote, streams: seq<seq<byte>>, at: seq<nat>, h: Happening, ghost owner: Option<nat>)
    returns (at': seq<nat>, ghost taken: seq<byte>)
    requires r.status.Ready() && Follows(r, streams, at)
    modifies r`status, r`happened, r.status.Footprint(), r.conns, set c <- r.conns :: c.sock
    ensures r.status.Ready() && Follows(r, streams, at') && r.happened == old(r.happened) + [h]
    ensures fresh(r.status.Footprint() - old(r.status.Footprint()))
    ensures old(r.Framed(owner)) ==> (r.AnyFramed() <==> !old(DisturbedBy(r, owner, h)))
    ensures r.conns == old(r.conns) && |at| == |streams| == |r.conns|
    ensures at' == if h.Arrives? && h.at < |at| && old(r.conns[h.at].sock.end == Open)
                   then at[h.at := Min(at[h.at] + h.n, |streams[h.at]|)] else at
    ensures h.at < |at| ==>
              var conn := old(r.conns)[h.at];
              && (h.Finishes? && old(conn.sock.end) == Open ==> conn.sock.end == h.end)
              && (h.Disconnects? && old(conn.state) == Running ==> conn.state == Ended)
              && (h.Reads? && old(conn.state) == Running ==> r.Took(conn, h.turn, taken))
  {
    hide *;
    at', taken := at, [];
    Lengths(r, streams, at);
    Anyone(r, owner);
    r.Apart();
    DisturbedByMeans(r, owner, h);
    if h.at < |r.conns| {
      var j, conn := h.at, r.conns[h.at];
      assert conn in r.conns;
      match h
      case Arrives(_, n) =>
        if conn.sock.end == Open { at' := MoreBytes(r, streams, at, j, n, owner); }
      case Finishes(_, end) =>
        if conn.sock.end == Open { NoMore(r, streams, at, j, conn, end, owner); }
      case Reads(_, turn) =>
        if conn.state == Running { taken := ReadOne(r, streams, at, j, conn, turn, owner); }
      case Disconnects(_) =>
        if conn.state == Running { EndOne(r, streams, at, j, conn, owner); }
    }
    r.happened := r.happened + [h];
  }

  lemma Lengths(r: Remote, streams: seq<seq<byte>>, at: seq<nat>)
    requires Follows(r, streams, at) && r.status.Ready()
    ensures |at| == |streams| == |r.conns| && forall k :: 0 <= k < |at| ==> at[k] <= |streams[k]|
    ensures r.status.Buffers()
  {
  }

  lemma DisturbedByMeans(r: Remote, owner: Option<nat>, h: Happening)
    ensures DisturbedBy(r, owner, h) ==> h.at < |r.conns| && r.conns[h.at].state == Running && (h.Reads? || h.Disconnects?)
    ensures h.at < |r.conns| && r.conns[h.at].state == Running ==>
              && (h.Reads? ==> (DisturbedBy(r, owner, h) <==> r.Disturbs(owner, h.at, h.turn.recvFails)))
              && (h.Disconnects? ==> (DisturbedBy(r, owner, h) <==> !(owner.None? || owner == Some(h.at))))
  {
  }

  method ReadOne(r: Remote, streams: seq<seq<byte>>, at: seq<nat>, j: nat, conn: TcpConn, turn: Turn, ghost owner: Option<nat>)
    returns (ghost taken: seq<byte>)
    requires r.status.Ready() && Follows(r, streams, at) && j < |r.conns| && r.conns[j] == conn && conn.state == Running
    modifies r`status, r.status.Footprint(), conn, conn.sock
    ensures r.status.Ready() && Follows(r, streams, at)
    ensures fresh(r.status.Footprint() - old(r.status.Footprint()))
    ensures old(r.Framed(owner)) ==> (r.AnyFramed() <==> !old(r.Disturbs(owner, j, turn.recvFails)))
    ensures r.Took(conn, turn, taken)
  {
    hide *;
    OfFollows(r, streams, at, j);
    r.OfReady(conn);
    var again;
    again, taken := r.Read(j, conn, turn, owner);
    FollowsIs(r, streams, at);
  }

  lemma OfFollows(r: Remote, streams: seq<seq<byte>>, at: seq<nat>, j: nat)
    requires Follows(r, streams, at) && j < |r.conns|
    ensures r.Wf() && |streams| == |at| == |r.conns|
    ensures forall k :: 0 <= k < |at| ==> at[k] <= |streams[k]| && r.conns[k].sock.Stream() == streams[k][..at[k]]
    ensures forall k: nat :: k < |r.conns| && k != j ==> r.conns[k] != r.conns[j] && r.conns[k].sock != r.conns[j].sock
    ensures r !in r.status.Footprint() && forall k :: 0 <= k < |r.conns| ==> r.conns[k].sock !in r.status.Footprint()
  {
    r.Different(j);
    r.Apart();
    hide ConnStatus.Footprint, InSocket.Stream;
  }

  lemma FollowsIs(r: Remote, streams: seq<seq<byte>>, at: seq<nat>)
    requires r.Wf() && |streams| == |at| == |r.conns|
    requires forall k :: 0 <= k < |at| ==> at[k] <= |streams[k]| && r.conns[k].sock.Stream() == streams[k][..at[k]]
    ensures Follows(r, streams, at)
  {
  }


  method EndOne(r: Remote, streams: seq<seq<byte>>, at: seq<nat>, j: nat, conn: TcpConn, ghost owner: Option<nat>)
    requires r.status.Ready() && Follows(r, streams, at) && j < |r.conns| && r.conns[j] == conn && conn.state == Running
    modifies r`status, conn
    ensures r.status.Ready() && Follows(r, streams, at) && fresh(r.status.Footprint()) && conn.state == Ended
    ensures old(r.Framed(owner)) ==> (r.AnyFramed() <==> owner.None? || owner == Some(j))
  {
    hide *;
    OfFollows(r, streams, at, j);
    r.Disconnect(j, conn, owner);
    FollowsIs(r, streams, at);
    NoBuffer(r.status);
  }

  lemma NoBuffer(st: ConnStatus)
    requires st.totalBuffer == NO_DATA
    ensures st.Footprint() == {st}
  {
  }

  method NoMore(r: Remote, streams: seq<seq<byte>>, at: seq<nat>, j: nat, conn: TcpConn, end: End, ghost owner: Option<nat>)
    requires r.status.Ready() && Follows(r, streams, at) && j < |r.conns| && r.conns[j] == conn && conn.sock.end == Open
    modifies conn.sock
    ensures r.status.Ready() && Follows(r, streams, at) && conn.sock.end == end
    ensures old(r.Framed(owner)) ==> r.AnyFramed()
  {
    hide *;
    OfFollows(r, streams, at, j);
    r.Arrive(j, conn.sock, [], end, owner);
    FollowsIs(r, streams, at);
    Anyone(r, owner);
  }

  lemma Anyone(r: Remote, owner: Option<nat>)
    ensures r.Framed(owner) ==> r.AnyFramed()
  {
  }

  method MoreBytes(r: Remote, streams: seq<seq<byte>>, at: seq<nat>, j: nat, n: nat, ghost owner: Option<nat>) returns (at': seq<nat>)
    requires r.status.Ready() && Follows(r, streams, at) && |at| == |r.conns| == |streams| && j < |at| && r.conns[j].sock.end == Open
    requires at[j] <= |streams[j]|
    modifies r.conns[j].sock
    ensures r.status.Ready() && Follows(r, streams, at') && at' == at[j := Min(at[j] + n, |streams[j]|)]
    ensures old(r.Framed(owner)) ==> r.AnyFramed()
  {
    hide *;
    OfFollows(r, streams, at, j);
    var w := streams[j];
    var m := if n <= |w| - at[j] then n else |w| - at[j];
    r.Arrive(j, r.conns[j].sock, w[at[j]..at[j] + m], Open, owner);
    assert w[..at[j] + m] == w[..at[j]] + w[at[j]..at[j] + m];
    at' := at[j := at[j] + m];
    FollowsIs(r, streams, at');
    Anyone(r, owner);
    MinIs(at[j], n, |w|);
  }

  lemma MinIs(a: nat, n: nat, most: nat)
    requires a <= most
    ensures Min(a + n, most) == a + if n <= most - a then n else most - a
  {
  }

  /** The conn whose message is in the buffers, while all conns are in frame. */
  ghost function OwnerOf(r: Remote): Option<nat>
    reads r`status, r`conns, r.conns, set c <- r.conns :: c.sock, r.status, r.status.Footprint()
  {
    if r.AnyFramed() then
      var owner :| r.Framed(owner);
      owner
    else None
  }

  lemma OwnerHas(r: Remote)
    requires r.AnyFramed()
    ensures r.Framed(OwnerOf(r))
  {
  }

  /** A conn for each stream; nothing has arrived yet. */
  method OpenAll(streams: seq<seq<byte>>) returns (r: Remote, at: seq<nat>)
    ensures fresh(r) && fresh(r.status) && fresh(r.status.Footprint()) && r.status.Ready() && Follows(r, streams, at)
    ensures (forall c <- r.conns :: fresh(c) && fresh(c.sock)) && r.AnyFramed() && r.happened == []
  {
    r := new Remote();
    at := [];
    ghost var st := r.status;
    for k := 0 to |streams|
      invariant fresh(r) && r.status == st && fresh(st) && st.totalBuffer == NO_DATA && st.Ready()
      invariant Follows(r, streams[..k], at) && r.Framed(None) && r.happened == []
      invariant forall c <- r.conns :: fresh(c) && fresh(c.sock)
    {
      at := OpenOne(r, streams, k, at);
    }
    assert streams[..|streams|] == streams;
    Anyone(r, None);
  }

  method OpenOne(r: Remote, streams: seq<seq<byte>>, k: nat, at: seq<nat>) returns (at': seq<nat>)
    requires k < |streams| && Follows(r, streams[..k], at) && r.Framed(None)
    modifies r`conns
    ensures Follows(r, streams[..k + 1], at') && r.Framed(None)
    ensures forall c <- r.conns :: c in old(r.conns) || (fresh(c) && fresh(c.sock))
  {
    var sock := new InSocket();
    hide TcpConn.Sound;
    ghost var before := r.conns;
    r.Connect(sock, None);
    assert r.conns == before + [r.conns[k]];
    at' := at + [0];
  }

  /** Any interleaving of arrivals, reads and ends of any number of conns to one address, from their start: if no
      happening disturbs a message that another conn has in the buffers, every conn has completed a prefix of what
      its peer sent. */
  method Interleaved(sent: seq<seq<Message>>, happenings: seq<Happening>) returns (r: Remote, ghost disturbed: bool)
    requires forall ms <- sent :: forall m <- ms :: m.messageType != CLOSE
    ensures r.happened == happenings && |r.conns| == |sent| && (|sent| <= 1 ==> !disturbed)
    ensures !disturbed ==> r.AnyFramed() && forall k :: 0 <= k < |sent| ==> r.conns[k].completed <= sent[k]
  {
    var streams := seq(|sent|, k requires 0 <= k < |sent| => Bytes(sent[k]));
    var at;
    r, at := OpenAll(streams);
    hide *;
    at, disturbed := HappenAll(r, streams, at, happenings);
    SameLength(r, streams, at);
    forall k | !disturbed && 0 <= k < |sent| ensures r.conns[k].completed <= sent[k] {
      assert sent[k] in sent;
      UndisturbedIsPrefix(r, sent, streams, at, k);
    }
  }

  /** A conn that is alone at its address is never disturbed. */
  lemma Alone(r: Remote, owner: Option<nat>, h: Happening)
    requires r.Framed(owner)
    ensures |r.conns| <= 1 ==> !DisturbedBy(r, owner, h)
  {
  }

  /** The next happening; `disturbed` says whether one has disturbed a message by now. */
  method Next(r: Remote, streams: seq<seq<byte>>, at: seq<nat>, h: Happening, ghost disturbed: bool)
    returns (at': seq<nat>, ghost disturbed': bool)
    requires r.status.Ready() && Follows(r, streams, at) && (!disturbed ==> r.AnyFramed())
    modifies r`status, r`happened, r.status.Footprint(), r.conns, set c <- r.conns :: c.sock
    ensures r.status.Ready() && Follows(r, streams, at') && r.happened == old(r.happened) + [h]
    ensures fresh(r.status.Footprint() - old(r.status.Footprint()))
    ensures disturbed' == (disturbed || old(DisturbedBy(r, OwnerOf(r), h)))
    ensures !disturbed ==> (r.AnyFramed() <==> !disturbed')
    ensures !disturbed && |r.conns| <= 1 ==> !disturbed'
  {
    hide Remote.AnyFramed, Remote.Framed, Follows, DisturbedBy, OwnerOf, ConnStatus.Ready;
    ghost var owner := OwnerOf(r);
    if !disturbed {
      OwnerHas(r);
      Alone(r, owner, h);
    }
    disturbed' := disturbed || DisturbedBy(r, owner, h);
    ghost var taken;
    at', taken := Happen(r, streams, at, h, owner);
  }

  method HappenAll(r: Remote, streams: seq<seq<byte>>, at: seq<nat>, happenings: seq<Happening>)
    returns (at': seq<nat>, ghost disturbed: bool)
    requires r.status.Ready() && Follows(r, streams, at) && r.AnyFramed()
    modifies r`status, r`happened, r.status.Footprint(), r.conns, set c <- r.conns :: c.sock
    ensures Follows(r, streams, at') && r.status.Ready() && (!disturbed ==> r.AnyFramed())
    ensures r.happened == old(r.happened) + happenings
    ensures |r.conns| <= 1 ==> !disturbed
  {
    at', disturbed := at, false;
    hide Remote.AnyFramed, Remote.Framed, Follows, DisturbedBy, OwnerOf, ConnStatus.Ready;
    var i := 0;
    while i < |happenings|
      invariant r.status.Ready() && Follows(r, streams, at') && (!disturbed ==> r.AnyFramed())
      invariant |r.conns| <= 1 ==> !disturbed
      invariant i <= |happenings| && r.happened == old(r.happened) + happenings[..i]
      invariant fresh(r.status.Footprint() - old(r.status.Footprint()))
    {
      at', disturbed := Next(r, streams, at', happenings[i], disturbed);
      i := i + 1;
    }
  }

  lemma SameLength(r: Remote, streams: seq<seq<byte>>, at: seq<nat>)
    requires Follows(r, streams, at)
    ensures |r.conns| == |streams|
  {
  }

  lemma FirstEndOf(a: Message, all: seq<byte>)
    requires a.messageType != CLOSE && |all| >= HEADER_LEN && all[..HEADER_LEN] == EncodeHeader(HeaderOf(a))
    ensures FirstEnd(all) == if |Frame(a)| <= |all| then |Frame(a)| else |all|
  {
    HeaderRoundTrip(HeaderOf(a), all[..HEADER_LEN]);
  }

  /** A part of a frame stays in the buffers. */
  lemma PartStays(a: Message, i: nat, done: seq<Message>, s: State, part: seq<byte>, tail: seq<byte>)
    requires a.messageType != CLOSE && i < |a.payload| && s != Dropped && s != Ended
    requires Comes(Frame(a)[..HEADER_LEN + i], [], done, s, part, tail, false)
    ensures s == Running && done == [] && part == Frame(a)[..HEADER_LEN + i]
  {
    var got := Frame(a)[..HEADER_LEN + i];
    assert got[..HEADER_LEN] == EncodeHeader(HeaderOf(a));
    HeaderRoundTrip(HeaderOf(a), got[..HEADER_LEN]);
    forall m: Message ensures Frame(m) != got {
      NotYet(a, i, m);
    }
  }

  lemma NotYet(a: Message, i: nat, m: Message)
    requires i < |a.payload|
    ensures Frame(m) != Frame(a)[..HEADER_LEN + i]
  {
    var got := Frame(a)[..HEADER_LEN + i];
    if |Frame(m)| == |got| {
      assert got[..HEADER_LEN] == EncodeHeader(HeaderOf(a)) && Frame(m)[..HEADER_LEN] == EncodeHeader(HeaderOf(m));
      HeaderRoundTrip(HeaderOf(a), got[..HEADER_LEN]);
      HeaderRoundTrip(HeaderOf(m), got[..HEADER_LEN]);
    }
  }

  /** A whole frame becomes a message. */
  lemma WholeComes(a: Message, done: seq<Message>, s: State, part: seq<byte>, tail: seq<byte>, atEnd: bool)
    requires a.payload != [] && s != Dropped && s != Ended
    requires Comes(Frame(a), [], done, s, part, tail, atEnd) && Incomplete(part)
    ensures s == Running && done == [a]
  {
    assert Frame(a) + [] == Frame(a);
    IncompleteHoldsNoFrame(part, a, []);
    IncompleteHoldsNoFrame(tail, a, []);
    if s == Running && done != [] {
      var m :| Completes(m, Frame(a), [], done);
      FrameIsPrefixFree(m, [], a, []);
    }
  }

  /** The first conn reads the part of a message that has arrived. */
  method ReadPart(r: Remote, conn: TcpConn, a: Message, i: nat)
    requires r.status.totalBuffer == NO_DATA && r.status.Ready() && conn.state == Running && conn.completed == []
    requires a.messageType != CLOSE && i < |a.payload|
    requires conn.sock.queue == Frame(a)[..HEADER_LEN + i] && conn.sock.end == Open
    modifies r`status, r.status.Footprint(), conn, conn.sock
    ensures r.status.Ready() && r.status.Partial() == Frame(a)[..HEADER_LEN + i] && conn.completed == []
    ensures fresh(r.status.Footprint() - old(r.status.Footprint()))
  {
    hide Frame, EncodeHeader, DecodeHeader, Comes, FirstEnd;
    ghost var part := Frame(a)[..HEADER_LEN + i];
    assert part[..HEADER_LEN] == EncodeHeader(HeaderOf(a)) by { FrameStarts(a); }
    FirstEndOf(a, part);
    PartialOfReady(r.status);
    assert [] + part == part;
    var again, taken := r.ReadAny(conn, Turn(0x1_0000_0000, false, false, true));
    assert taken == part;
    PartStays(a, i, conn.completed, conn.state, r.status.Partial(), conn.tail);
  }

  lemma FrameStarts(a: Message)
    ensures forall k :: HEADER_LEN <= k <= |Frame(a)| ==> Frame(a)[..k][..HEADER_LEN] == EncodeHeader(HeaderOf(a))
  {
  }

  /** The other conn reads on. */
  method ReadRest(r: Remote, conn: TcpConn, a: Message, i: nat, w: seq<byte>) returns (c: Message)
    requires r.status.Ready() && conn.state == Running && conn.completed == []
    requires a.messageType != CLOSE && i < |a.payload| <= i + |w|
    requires r.status.Partial() == Frame(a)[..HEADER_LEN + i] && conn.sock.queue == w
    modifies r`status, r.status.Footprint(), conn, conn.sock
    ensures c == Message(a.messageType, a.replyId, a.payload[..i] + w[..|a.payload| - i]) && conn.completed == [c]
  {
    c := Message(a.messageType, a.replyId, a.payload[..i] + w[..|a.payload| - i]);
    ghost var part, n := r.status.Partial(), |a.payload| - i;
    assert part + w[..n] == Frame(c);
    hide Frame, EncodeHeader, DecodeHeader, Comes, FirstEnd, ConnStatus.Partial, Incomplete;
    assert (part + w)[..HEADER_LEN] == part[..HEADER_LEN] == EncodeHeader(HeaderOf(a)) by { FrameStarts(a); }
    FirstEndOf(a, part + w);
    var again, taken := r.ReadAny(conn, Turn(0x1_0000_0000, false, false, true));
    assert taken == w[..n];
    PartialOfReady(r.status);
    WholeComes(c, conn.completed, conn.state, r.status.Partial(), conn.tail, conn.AtEnd());
  }

  method TwoConns() returns (r: Remote, p: TcpConn, q: TcpConn)
    ensures fresh(r) && fresh(p) && fresh(q) && fresh(p.sock) && fresh(q.sock) && fresh(r.status) && p != q && p.sock != q.sock
    ensures r.Framed(None) && r.conns == [p, q] && r.status.Ready() && r.status.totalBuffer == NO_DATA
    ensures p.state == q.state == Running && p.completed == q.completed == []
    ensures p.sock.queue == q.sock.queue == [] && p.sock.end == q.sock.end == Open
  {
    var x := new InSocket();
    var y := new InSocket();
    r := new Remote();
    hide TcpConn.Sound;
    r.Connect(x, None);
    p := r.conns[0];
    r.Connect(y, None);
    q := r.conns[1];
  }

  /** A conn that reads while another one's message is in the buffers: a's message is in as far as i bytes of its
      payload when the other conn becomes readable.  The rest of the payload is taken from the beginning of the
      other conn's stream, and the result is handed on there. */
  method TakesAnothers(a: Message, b: Message, i: nat) returns (first: seq<Message>, second: seq<Message>)
    requires a.messageType != CLOSE && i < |a.payload| <= i + |Frame(b)|
    ensures first == []
    ensures second == [Message(a.messageType, a.replyId, a.payload[..i] + Frame(b)[..|a.payload| - i])]
  {
    hide Frame;
    var r, p, q := TwoConns();
    hide Remote.Framed, ConnStatus.Ready, ConnStatus.Partial;
    var x, y := p.sock, q.sock;
    x.Arrive(Frame(a)[..HEADER_LEN + i]);
    ReadPart(r, p, a, i);
    y.Arrive(Frame(b));
    var c := ReadRest(r, q, a, i, Frame(b));
    first, second := p.completed, q.completed;
  }
}
