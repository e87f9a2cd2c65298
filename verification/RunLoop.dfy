/** The state that msg_runloop and the public functions share: the index-matched conns and poll_fds arrays,
    the pending removals, conn_status, and the queue of deferred callbacks.

    System calls, poll results and the user's callbacks are arbitrary inputs. */
module RunLoop {
  import opened Common
  import opened Drain
  import opened Lifecycle
  import Requests

  class Conn {
    var index: nat
    var socket: int
    var address: Address
    var forListening: bool
    // Its socket is closed, or it never got one that stayed open: the conn is on its way out.
    ghost var closed: bool
    // A tcp connect of its is in progress.
    ghost var connecting: bool

    constructor (address: Address, forListening: bool)
      ensures this.address == address && this.forListening == forListening && !closed && !connecting
    {
      this.address, this.forListening := address, forListening;
      index, socket, closed, connecting := 0, 0, false, false;
    }
  }

  datatype Readiness = Readiness(read: bool, write: bool, err: bool)

  const NOT_READY := Readiness(false, false, false)

  datatype PollMode = PollRead | PollWrite

  datatype PollFd = PollFd(fd: int, mode: PollMode, revents: Readiness)

  type PendingCall = Call<Conn>

  /** A Timeout: its status is named by the remote address. */
  type Timeout = Requests.TimeoutOf<Conn, Address>

  /** How open_socket's system calls go. */
  datatype OpenOutcome = BadAddress | NoSocket | StaysBlocking | OpenFails | InProgress | ListenFails | Opened

  /** What read_from_socket finds on a socket. */
  datatype ReadResult =
    | Nothing                            // would block, or a header or payload that is not all there
    | ReadError                          // accept, recv or recvfrom failed
    | Accepted(socket: int, remote: Address)
    | PeerLost                           // recv returned 0 or the connection was reset
    | PeerClosed                         // a close message
      // a whole message with its header's id; on udp, with its sender
    | Incoming(kind: EventKind, remote: Address, replyId: Common.uint16)
    | UnknownReply(remote: Address)      // a reply with an unrecognized id

  /** What a user's callback, or the user between passes, may do.  A conn is named by its position. */
  datatype UserCall =
    | Open(address: Address, forListening: bool, socket: int, outcome: OpenOutcome)
    | Disconnect(at: nat, sendFails: bool)
    | Unlisten(at: nat, closeFails: bool, badSocket: bool)
    | SetRemote(at: nat, address: Address)
    | Send(at: nat, fails: bool)
    | Get(at: nat, fails: bool, replyId: uint16, due: int)   // the id given out, and when it times out

  /** The arrays may have gained entries at the end, which no poll has looked at. */
  ghost predicate Grows(conns: seq<Conn>, conns': seq<Conn>, fds: seq<PollFd>, fds': seq<PollFd>) {
    |conns| <= |conns'| && conns'[..|conns|] == conns && FdsGrow(fds, fds')
  }

  /** New entries wait to be read. */
  ghost predicate FdsGrow(fds: seq<PollFd>, fds': seq<PollFd>) {
    && |fds| <= |fds'| && fds'[..|fds|] == fds
    && forall k :: |fds| <= k < |fds'| ==> fds'[k].revents == NOT_READY && fds'[k].mode == PollRead
  }

  /** What poll may report of an entry: a socket is readable or writable only if the entry asks for that; an error
      is reported in any case. */
  function Reported(fd: PollFd, ready: Readiness): Readiness {
    Readiness(ready.read && fd.mode.PollRead?, ready.write && fd.mode.PollWrite?, ready.err)
  }

  /** The event that remote_address_seen queues for a conn: a ready event if its address is new. */
  function SeenEvents(conn: Conn, a: Address, status: set<Address>): seq<PendingCall> {
    if a in status then [] else [Call(conn, ConnectionReady, a, false)]
  }

  /** The event and the change of conn_status when a read on a conn at address a comes to r; on tcp the status
      is there already, on udp a message makes its sender the conn's address first. */
  function ReadEvents(conn: Conn, a: Address, status: set<Address>, stays: bool, r: ReadResult): (seq<PendingCall>, set<Address>) {
    var from := AddressAfter(a, r);
    match r
    case ReadError => ([Call(conn, Error, a, false)], status)
    case PeerLost => ([Call(conn, ConnectionLost, a, !stays)], status - {a})
    case PeerClosed => ([Call(conn, ConnectionClosed, a, !stays)], status - {a})
    case UnknownReply(_) => (SeenEvents(conn, from, status) + [Call(conn, Error, from, false)], status + {from})
    case Incoming(kind, _, _) =>
      if kind.IsData() then (SeenEvents(conn, from, status) + [Call(conn, kind, from, false)], status + {from})
      else ([], status)
    case _ => ([], status)
  }

  /** One call of read_from_socket on a conn that is not a tcp listener. */
  function ReadOnce(conn: Conn, a: Address, status: set<Address>, stays: bool, r: ReadResult): (seq<PendingCall>, set<Address>) {
    var seen := if a.IsTcp() then SeenEvents(conn, a, status) else [];
    var (events, status') := ReadEvents(conn, a, if a.IsTcp() then status + {a} else status, stays, r);
    (seen + events, status')
  }

  lemma OnceIs(log: seq<PendingCall>, log': seq<PendingCall>, log'': seq<PendingCall>,
               conn: Conn, a: Address, status: set<Address>, stays: bool, r: ReadResult)
    requires log' == log + if a.IsTcp() then SeenEvents(conn, a, status) else []
    requires log'' == log' + ReadEvents(conn, a, if a.IsTcp() then status + {a} else status, stays, r).0
    ensures log'' == log + ReadOnce(conn, a, status, stays, r).0
    ensures ReadOnce(conn, a, status, stays, r).1 == ReadEvents(conn, a, if a.IsTcp() then status + {a} else status, stays, r).1
  {
    hide SeenEvents, ReadEvents;
  }

  /** The conn's remote address once the read is over. */
  function AddressAfter(a: Address, r: ReadResult): Address {
    if a.IsTcp() then a
    else
      match r
      case UnknownReply(remote) => Address(remote.ip, remote.port, a.protocolType)
      case Incoming(kind, remote, _) => if kind.IsData() then Address(remote.ip, remote.port, a.protocolType) else a
      case _ => a
  }

  /** All the events of the loop around read_from_socket, which calls again after each message. */
  function ReadRun(conn: Conn, a: Address, status: set<Address>, stays: bool, results: seq<ReadResult>): (seq<PendingCall>, set<Address>)
    decreases |results|
  {
    var r := FirstOf(results);
    var (events, status') := ReadOnce(conn, a, status, stays, r);
    if results != [] && IsMessage(r) then
      var (more, status'') := ReadRun(conn, AddressAfter(a, r), status', stays, results[1..]);
      (events + more, status'')
    else (events, status')
  }

  function FirstOf(results: seq<ReadResult>): ReadResult {
    if results == [] then Nothing else results[0]
  }

  /** The result that ends the loop around read_from_socket: the first that is not a message. */
  function LastOf(results: seq<ReadResult>): ReadResult {
    if results == [] then Nothing else if IsMessage(results[0]) then LastOf(results[1..]) else results[0]
  }

  /** Reading from a ready socket: the events, and conn_status after them.  A listening tcp conn looks at the
      first result only; c is the conn that it accepts, if it does. */
  function SocketEffect(conn: Conn, a: Address, listening: bool, status: set<Address>, results: seq<ReadResult>, c: Conn): (seq<PendingCall>, set<Address>) {
    if listening && a.IsTcp() then
      match FirstOf(results)
      case Accepted(_, remote) =>
        var from := Address(remote.ip, remote.port, a.protocolType);
        (SeenEvents(c, from, status), status + {from})
      case ReadError => ([Call(conn, Error, a, false)], status)
      case _ => ([], status)
    else ReadRun(conn, a, status, listening && a.IsUdp(), results)
  }

  /** One round of the polling loop: a conn as the pass finds it, and what the surroundings do. */
  datatype Round = Round(conn: Conn, address: Address, listening: bool, ready: Readiness, refused: bool, results: seq<ReadResult>) {
    predicate Refused() { ready.err && refused }

    /** A connect that was in progress is done. */
    predicate Connects() { ready.write && !Refused() }

    predicate Reads() { ready.read && !Refused() }

    predicate Accepts() { Reads() && listening && address.IsTcp() && FirstOf(results).Accepted? }

    /** The conn is marked for removal; a listening conn lives on. */
    predicate Marks() {
      Refused() || (Reads() && !(listening && (address.IsTcp() || address.IsUdp())) && Ends(LastOf(results)))
    }

    /** Messages are read. */
    predicate Hears() { Reads() && !(listening && address.IsTcp()) }

    /** The reply to the get of the key is read. */
    ghost predicate Answers(k: Requests.KeyOf<Address>) { Hears() && RepliesTo(address, results, k) }

    /** The timeout queue after the round. */
    function Timeouts(ts: seq<Timeout>): seq<Timeout> {
      if Hears() then AllAnswered(ts, address, results) else ts
    }

    function Effect(status: set<Address>, c: Conn): (seq<PendingCall>, set<Address>) {
      if Refused() then ([Call(conn, Error, address, true)], status)
      else
        var seen := if ready.write then SeenEvents(conn, address, status) else [];
        var status' := if ready.write then status + {address} else status;
        if !Reads() then (seen, status')
        else
          var (events, status'') := SocketEffect(conn, address, listening, status', results, c);
          (seen + events, status'')
    }
  }

  function Rounds(conns: seq<Conn>, fds: seq<PollFd>, readies: seq<Readiness>, refused: seq<bool>, results: seq<seq<ReadResult>>)
    : (r: seq<Round>)
    requires |fds| == |conns|
    reads conns
    ensures |r| == |conns|
  {
    seq(|conns|, i requires 0 <= i < |conns| reads conns =>
      Round(conns[i], conns[i].address, conns[i].forListening, Reported(fds[i], At(readies, i, NOT_READY)),
            At(refused, i, false), At(results, i, [])))
  }

  function OpenStatus(a: Address, forListening: bool, outcome: OpenOutcome, status: set<Address>): set<Address> {
    if OpenKeeps(outcome, forListening, a.IsTcp()) && !outcome.InProgress? && !forListening then status + {a} else status
  }

  function At<T>(s: seq<T>, i: nat, default: T): T {
    if i < |s| then s[i] else default
  }

  predicate NoGet(script: seq<UserCall>) {
    forall call <- script :: !call.Get?
  }

  lemma AllOfNothing(scripts: seq<seq<UserCall>>)
    ensures AllOf(scripts, 0) == []
  {
  }

  lemma AllOfNext(done: seq<UserCall>, before: seq<UserCall>, scripts: seq<seq<UserCall>>, i: nat)
    requires done == before + AllOf(scripts, i)
    ensures done + At(scripts, i, []) == before + AllOf(scripts, i + 1)
    ensures (forall script <- scripts :: NoGet(script)) ==> NoGet(At(scripts, i, []))
  {
  }

  lemma AllOfCalls<T>(before: seq<T>, calls: seq<T>, i: nat)
    requires i < |calls|
    ensures before + calls[..i] + [calls[i]] == before + calls[..i + 1] && calls[i..][1..] == calls[i + 1..] && calls[i..][0] == calls[i]
  {
  }

  /** The calls of the first n scripts, one after another. */
  function AllOf(scripts: seq<seq<UserCall>>, n: nat): seq<UserCall> {
    if n == 0 then [] else AllOf(scripts, n - 1) + At(scripts, n - 1, [])
  }

  /** What the first k rounds come to: the events, conn_status, how many conns were accepted, and the slots
      marked for removal; `added` are the conns accepted. */
  datatype PassEffect = PassEffect(events: seq<PendingCall>, status: set<Address>, accepted: nat, marks: seq<nat>)

  function Pass(rounds: seq<Round>, status: set<Address>, added: seq<Conn>, k: nat): PassEffect
    requires k <= |rounds|
  {
    if k == 0 then PassEffect([], status, 0, [])
    else
      var p, r := Pass(rounds, status, added, k - 1), rounds[k - 1];
      var (events, status') := r.Effect(p.status, At(added, p.accepted, r.conn));
      PassEffect(p.events + events, status', p.accepted + (if r.Accepts() then 1 else 0),
                 p.marks + (if r.Marks() then [k - 1] else []))
  }

  /** The timeout queue after the first k rounds. */
  function PassTimeouts(rounds: seq<Round>, ts: seq<Timeout>, k: nat): seq<Timeout>
    requires k <= |rounds|
  {
    if k == 0 then ts else rounds[k - 1].Timeouts(PassTimeouts(rounds, ts, k - 1))
  }

  /** A timeout of the conn is in the queue. */
  ghost predicate Waits(ts: seq<Timeout>, conn: Conn) {
    exists t :: t in ts && t.conn == conn
  }

  /** Some of the first k rounds marks its conn while a timeout of that conn is in the queue. */
  ghost predicate PassOrphans(rounds: seq<Round>, ts: seq<Timeout>, k: nat)
    requires k <= |rounds|
  {
    k > 0 && (PassOrphans(rounds, ts, k - 1)
              || (rounds[k - 1].Marks() && Waits(PassTimeouts(rounds, ts, k), rounds[k - 1].conn)))
  }

  /** What a pass changes. */
  datatype Snapshot = Snapshot(conns: seq<Conn>, status: set<Address>, log: seq<PendingCall>, removals: seq<nat>,
                               timeouts: seq<Timeout>, orphaned: bool)

  /** The first k rounds of a pass take s to s'. */
  ghost predicate PassDone(rounds: seq<Round>, s: Snapshot, s': Snapshot, k: nat) {
    && k <= |rounds| <= |s'.conns|
    && var p := Pass(rounds, s.status, s'.conns[|rounds|..], k);
    s'.log == s.log + p.events && s'.status == p.status && |s'.conns| == |rounds| + p.accepted && s'.removals == p.marks
    && s'.timeouts == PassTimeouts(rounds, s.timeouts, k) && s'.orphaned == (s.orphaned || PassOrphans(rounds, s.timeouts, k))
  }

  /** Round r, of slot i, takes s to s'. */
  ghost predicate RoundDone(r: Round, i: nat, s: Snapshot, s': Snapshot) {
    && s.conns <= s'.conns && |s'.conns| == |s.conns| + (if r.Accepts() then 1 else 0)
    && var (events, status) := r.Effect(s.status, At(s'.conns, |s.conns|, r.conn));
    s'.log == s.log + events && s'.status == status && s'.removals == s.removals + (if r.Marks() then [i] else [])
    && s'.timeouts == r.Timeouts(s.timeouts) && s'.orphaned == (s.orphaned || (r.Marks() && Waits(s'.timeouts, r.conn)))
  }

  lemma PassDoneNext(rounds: seq<Round>, s0: Snapshot, s: Snapshot, s': Snapshot, k: nat)
    requires PassDone(rounds, s0, s, k) && k < |rounds| && RoundDone(rounds[k], k, s, s')
    ensures PassDone(rounds, s0, s', k + 1)
  {
    var n, r, more := |rounds|, rounds[k], s'.conns[|s.conns|..];
    assert s'.conns[n..] == s.conns[n..] + more;
    var p := Pass(rounds, s0.status, s.conns[n..], k);
    assert At(s.conns[n..] + more, p.accepted, r.conn) == At(s'.conns, |s.conns|, r.conn);
    var (events, status) := r.Effect(p.status, At(s'.conns, |s.conns|, r.conn));
    assert s0.log + p.events + events == s0.log + (p.events + events);
    PassNext(rounds, s0.status, s.conns[n..], more, k);
    assert PassTimeouts(rounds, s0.timeouts, k + 1) == r.Timeouts(s.timeouts);
    assert PassOrphans(rounds, s0.timeouts, k + 1) == (PassOrphans(rounds, s0.timeouts, k) || (r.Marks() && Waits(s'.timeouts, r.conn)));
    hide Round.Effect, Round.Accepts, Round.Marks, Round.Timeouts, Pass, Waits, PassTimeouts, PassOrphans;
  }

  lemma AcceptedMatters(r: Round, status: set<Address>, c: Conn, d: Conn)
    requires r.Accepts() ==> c == d
    ensures r.Effect(status, c) == r.Effect(status, d)
  {
  }

  /** Conns accepted later do not change what the rounds so far came to. */
  lemma {:induction false} PassStable(rounds: seq<Round>, status: set<Address>, added: seq<Conn>, more: seq<Conn>, k: nat)
    requires k <= |rounds| && Pass(rounds, status, added, k).accepted <= |added|
    ensures Pass(rounds, status, added + more, k) == Pass(rounds, status, added, k)
  {
    if k > 0 {
      PassStable(rounds, status, added, more, k - 1);
      var p, r := Pass(rounds, status, added, k - 1), rounds[k - 1];
      AcceptedMatters(r, p.status, At(added, p.accepted, r.conn), At(added + more, p.accepted, r.conn));
    }
  }

  /** The marked slots are those whose rounds mark them. */
  lemma {:induction false} MarksAre(rounds: seq<Round>, status: set<Address>, added: seq<Conn>, k: nat)
    requires k <= |rounds|
    ensures forall i: nat :: i in Pass(rounds, status, added, k).marks <==> i < k && rounds[i].Marks()
  {
    if k > 0 {
      MarksAre(rounds, status, added, k - 1);
      hide Round.Effect, Round.Marks, Round.Accepts;
    }
  }

  /** Removals are recorded in ascending order. */
  lemma {:induction false} MarksAscend(rounds: seq<Round>, status: set<Address>, added: seq<Conn>, k: nat)
    requires k <= |rounds|
    ensures Ascends(Pass(rounds, status, added, k).marks)
  {
    if k > 0 {
      MarksAscend(rounds, status, added, k - 1);
      MarksAre(rounds, status, added, k - 1);
      var before := Pass(rounds, status, added, k - 1).marks;
      assert forall i :: 0 <= i < |before| ==> before[i] in before;
      assert Ascends(before + [k - 1]);
    }
  }

  /** The pass after one more round. */
  lemma PassNext(rounds: seq<Round>, status: set<Address>, added: seq<Conn>, more: seq<Conn>, k: nat)
    requires k <= |rounds| && Pass(rounds, status, added, k).accepted <= |added|
    ensures Pass(rounds, status, added + more, k) == Pass(rounds, status, added, k)
    ensures k < |rounds| ==>
              var p, q, r := Pass(rounds, status, added, k), Pass(rounds, status, added + more, k + 1), rounds[k];
              var (events, status') := r.Effect(p.status, At(added + more, p.accepted, r.conn));
              q == PassEffect(p.events + events, status', p.accepted + (if r.Accepts() then 1 else 0),
                              p.marks + (if r.Marks() then [k] else []))
  {
    PassStable(rounds, status, added, more, k);
  }

  // ----- What a read comes to -----

  /** The data events among some. */
  function DataOf(events: seq<PendingCall>): seq<PendingCall> {
    if events == [] then []
    else (if events[0].kind.IsData() then [events[0]] else []) + DataOf(events[1..])
  }

  lemma {:induction false} DataOfConcat(a: seq<PendingCall>, b: seq<PendingCall>)
    ensures DataOf(a + b) == DataOf(a) + DataOf(b)
  {
    if a == [] {
      assert a + b == b;
    } else {
      DataOfConcat(a[1..], b);
      var h, x, y := if a[0].kind.IsData() then [a[0]] else [], DataOf(a[1..]), DataOf(b);
      assert (a + b)[0] == a[0] && (a + b)[1..] == a[1..] + b && h + (x + y) == h + x + y;
    }
  }

  /** The number of messages before the result that ends the loop. */
  function Leading(results: seq<ReadResult>): (n: nat)
    ensures n <= |results| && LastOf(results) == (if n < |results| then results[n] else Nothing)
    ensures forall i :: 0 <= i < n ==> IsMessage(results[i])
    ensures n < |results| ==> !IsMessage(results[n])
  {
    if results != [] && IsMessage(results[0]) then 1 + Leading(results[1..]) else 0
  }

  /** The loop around read_from_socket hands on exactly the messages before the first result that is none, in
      order, each from its sender; nothing behind it. */
  lemma {:induction false} ReadRunHandsOn(conn: Conn, a: Address, status: set<Address>, stays: bool, results: seq<ReadResult>)
    ensures var data, n := DataOf(ReadRun(conn, a, status, stays, results).0), Leading(results);
            |data| == n
            && forall i :: 0 <= i < n ==>
                             data[i] == Call(conn, results[i].kind,
                                             if a.IsTcp() then a else Address(results[i].remote.ip, results[i].remote.port, a.protocolType), false)
    decreases |results|
  {
    var r := FirstOf(results);
    ReadOnceData(conn, a, status, stays, r);
    hide DataOf, ReadOnce;
    if results != [] && IsMessage(r) {
      var rest := results[1..];
      var (events, status') := ReadOnce(conn, a, status, stays, r);
      var more := ReadRun(conn, AddressAfter(a, r), status', stays, rest).0;
      ReadRunHandsOn(conn, AddressAfter(a, r), status', stays, rest);
      assert ReadRun(conn, a, status, stays, results).0 == events + more && Leading(results) == 1 + Leading(rest);
      hide ReadRun;
      DataOfConcat(events, more);
    }
  }

  lemma ReadOnceData(conn: Conn, a: Address, status: set<Address>, stays: bool, r: ReadResult)
    ensures DataOf(ReadOnce(conn, a, status, stays, r).0)
         == if IsMessage(r) then [Call(conn, r.kind, AddressAfter(a, r), false)] else []
  {
    var seen0, status0 := if a.IsTcp() then SeenEvents(conn, a, status) else [], if a.IsTcp() then status + {a} else status;
    var seen, events := SeenEvents(conn, AddressAfter(a, r), status0), ReadEvents(conn, a, status0, stays, r).0;
    DataOfConcat(seen0, events);
    if IsMessage(r) {
      DataOfConcat(seen, [Call(conn, r.kind, AddressAfter(a, r), false)]);
    } else if r.UnknownReply? {
      DataOfConcat(seen, [Call(conn, Error, AddressAfter(a, r), false)]);
    }
  }

  /** One more call of the loop around read_from_socket. */
  lemma ReadNext(conn: Conn, a: Address, status: set<Address>, stays: bool, results: seq<ReadResult>, k: nat, ts: seq<Timeout>)
    requires k <= |results|
    ensures var r, rest := FirstOf(results[k..]), results[k..];
            var (events, status') := ReadOnce(conn, a, status, stays, r);
            if IsMessage(r) then
              && k < |results|
              && var (more, status'') := ReadRun(conn, AddressAfter(a, r), status', stays, results[k + 1..]);
              && ReadRun(conn, a, status, stays, rest) == (events + more, status'')
              && LastOf(rest) == LastOf(results[k + 1..])
              && AllAnswered(ts, a, rest) == AllAnswered(Answered(ts, a, r), AddressAfter(a, r), results[k + 1..])
            else
              && ReadRun(conn, a, status, stays, rest) == (events, status') && LastOf(rest) == r
              && AllAnswered(ts, a, rest) == ts == Answered(ts, a, r)
  {
    assert k < |results| ==> results[k..][1..] == results[k + 1..];
    hide ReadOnce;
  }

  lemma ReadOnceEnds(conn: Conn, a: Address, status: set<Address>, stays: bool, r: ReadResult)
    ensures var events := ReadOnce(conn, a, status, stays, r).0;
            && (forall j :: 0 <= j < |events| && events[j].kind.IsEnd() ==> j == |events| - 1)
            && (Ends(r) <==> events != [] && events[|events| - 1].kind.IsEnd())
  {
  }

  /** The conn ends exactly when the last result says so, and then the end is the last event. */
  lemma {:induction false} ReadRunEnds(conn: Conn, a: Address, status: set<Address>, stays: bool, results: seq<ReadResult>)
    ensures var events := ReadRun(conn, a, status, stays, results).0;
            && (forall j :: 0 <= j < |events| && events[j].kind.IsEnd() ==> j == |events| - 1)
            && (Ends(LastOf(results)) <==> events != [] && events[|events| - 1].kind.IsEnd())
    decreases |results|
  {
    var r := FirstOf(results);
    ReadOnceEnds(conn, a, status, stays, r);
    hide ReadOnce;
    if results != [] && IsMessage(r) {
      ReadRunEnds(conn, AddressAfter(a, r), ReadOnce(conn, a, status, stays, r).1, stays, results[1..]);
    }
  }

  /** The events among some that neither hand on data nor tell of a new connection. */
  function NoticesOf(events: seq<PendingCall>): seq<PendingCall> {
    if events == [] then []
    else (if events[0].kind.IsData() || events[0].kind.ConnectionReady? then [] else [events[0]]) + NoticesOf(events[1..])
  }

  lemma {:induction false} NoticesOfConcat(a: seq<PendingCall>, b: seq<PendingCall>)
    ensures NoticesOf(a + b) == NoticesOf(a) + NoticesOf(b)
  {
    if a == [] {
      assert a + b == b;
    } else {
      NoticesOfConcat(a[1..], b);
      var h, x, y := if a[0].kind.IsData() || a[0].kind.ConnectionReady? then [] else [a[0]], NoticesOf(a[1..]), NoticesOf(b);
      assert (a + b)[0] == a[0] && (a + b)[1..] == a[1..] + b && h + (x + y) == h + x + y;
    }
  }

  /** The remote address of a conn after its leading messages have been read. */
  function LastSender(a: Address, results: seq<ReadResult>): Address {
    var n := Leading(results);
    if n == 0 || a.IsTcp() then a else Address(results[n - 1].remote.ip, results[n - 1].remote.port, a.protocolType)
  }

  /** Apart from data and ready events, a read tells exactly how it ended: of a lost connection, of a closed one, or
      of one error, and of nothing else. */
  lemma {:induction false} ReadRunTells(conn: Conn, a: Address, status: set<Address>, stays: bool, results: seq<ReadResult>)
    ensures var notices, last, from := NoticesOf(ReadRun(conn, a, status, stays, results).0), LastOf(results), LastSender(a, results);
            && (last.PeerLost? ==> notices == [Call(conn, ConnectionLost, from, !stays)])
            && (last.PeerClosed? ==> notices == [Call(conn, ConnectionClosed, from, !stays)])
            && (last.ReadError? ==> notices == [Call(conn, Error, from, false)])
            && (last.UnknownReply? ==>
                  notices == [Call(conn, Error, if a.IsTcp() then a else Address(last.remote.ip, last.remote.port, a.protocolType), false)])
            && (last.Nothing? || last.Accepted? || last.Incoming? ==> notices == [])
    decreases |results|
  {
    var r := FirstOf(results);
    ReadOnceTells(conn, a, status, stays, r);
    hide NoticesOf, ReadOnce;
    if results != [] && IsMessage(r) {
      var rest := results[1..];
      var (events, status') := ReadOnce(conn, a, status, stays, r);
      var more := ReadRun(conn, AddressAfter(a, r), status', stays, rest).0;
      ReadRunTells(conn, AddressAfter(a, r), status', stays, rest);
      assert ReadRun(conn, a, status, stays, results).0 == events + more && LastSender(a, results) == LastSender(AddressAfter(a, r), rest);
      hide ReadRun, LastSender;
      NoticesOfConcat(events, more);
    }
  }

  /** What a single result makes of this. */
  lemma ReadOnceTells(conn: Conn, a: Address, status: set<Address>, stays: bool, r: ReadResult)
    ensures var notices := NoticesOf(ReadOnce(conn, a, status, stays, r).0);
            notices == if r.PeerLost? then [Call(conn, ConnectionLost, a, !stays)]
            else if r.PeerClosed? then [Call(conn, ConnectionClosed, a, !stays)]
            else if r.ReadError? then [Call(conn, Error, a, false)]
            else if r.UnknownReply? then [Call(conn, Error, AddressAfter(a, r), false)]
            else []
  {
    var seen, status0 := if a.IsTcp() then SeenEvents(conn, a, status) else [], if a.IsTcp() then status + {a} else status;
    NoNotices(conn, a, status);
    ReadEventsTell(conn, a, status0, stays, r);
    assert NoticesOf([]) == [];
    hide SeenEvents, ReadEvents;
    NoticesOfConcat(seen, ReadEvents(conn, a, status0, stays, r).0);
  }

  lemma ReadEventsTell(conn: Conn, a: Address, status: set<Address>, stays: bool, r: ReadResult)
    ensures var notices := NoticesOf(ReadEvents(conn, a, status, stays, r).0);
            notices == if r.PeerLost? then [Call(conn, ConnectionLost, a, !stays)]
            else if r.PeerClosed? then [Call(conn, ConnectionClosed, a, !stays)]
            else if r.ReadError? then [Call(conn, Error, a, false)]
            else if r.UnknownReply? then [Call(conn, Error, AddressAfter(a, r), false)]
            else []
  {
    var seen := SeenEvents(conn, AddressAfter(a, r), status);
    NoNotices(conn, AddressAfter(a, r), status);
    if IsMessage(r) || r.UnknownReply? {
      NoticesOfConcat(seen, [Call(conn, if IsMessage(r) then r.kind else Error, AddressAfter(a, r), false)]);
    }
  }

  lemma NoNotices(conn: Conn, a: Address, status: set<Address>)
    ensures NoticesOf(SeenEvents(conn, a, status)) == []
  {
  }

  /** A round, case by case: a connect that failed is told of and its conn marked; otherwise a connect that is done
      is told of if the address is new, and then a readable socket is read, for a connection or for messages. */
  lemma RoundTells(r: Round, status: set<Address>, c: Conn, ts: seq<Timeout>)
    ensures var failed := r.ready.err && r.refused;
            var seen := if !r.ready.write || r.address in status then [] else [Call(r.conn, ConnectionReady, r.address, false)];
            var status' := if r.ready.write then status + {r.address} else status;
            var (events, status'') := r.Effect(status, c);
            && (failed ==> events == [Call(r.conn, Error, r.address, true)] && status'' == status && r.Marks() && !r.Accepts() && r.Timeouts(ts) == ts)
            && (!failed && !r.ready.read ==> events == seen && status'' == status' && !r.Marks() && !r.Accepts() && r.Timeouts(ts) == ts)
            && (!failed && r.ready.read && r.listening && r.address.IsTcp() ==>
                  var first := if r.results == [] then Nothing else r.results[0];
                  && !r.Marks() && r.Timeouts(ts) == ts && (r.Accepts() <==> first.Accepted?)
                  && (first.Accepted? ==>
                        var from := Address(first.remote.ip, first.remote.port, r.address.protocolType);
                        && events == seen + (if from in status' then [] else [Call(c, ConnectionReady, from, false)])
                        && status'' == status' + {from})
                  && (first.ReadError? ==> events == seen + [Call(r.conn, Error, r.address, false)] && status'' == status')
                  && (!first.Accepted? && !first.ReadError? ==> events == seen && status'' == status'))
            && (!failed && r.ready.read && !(r.listening && r.address.IsTcp()) ==>
                  var stays := r.listening && r.address.IsUdp();
                  var read := ReadRun(r.conn, r.address, status', stays, r.results);
                  && events == seen + read.0 && status'' == read.1 && !r.Accepts()
                  && (r.Marks() <==> !stays && (LastOf(r.results).PeerLost? || LastOf(r.results).PeerClosed?)))
  {
    hide ReadRun, AllAnswered, LastOf;
  }

  /** The timeout queue after a read came to r on a conn at address a: a recognized reply takes the first timeout
      of its id away. */
  function Answered(ts: seq<Timeout>, a: Address, r: ReadResult): seq<Timeout> {
    if IsMessage(r) && r.kind.Reply? then Requests.WithoutFirst(ts, Requests.Key(AddressAfter(a, r), r.replyId)) else ts
  }

  /** The same for all the reads of the loop around read_from_socket. */
  function AllAnswered(ts: seq<Timeout>, a: Address, results: seq<ReadResult>): seq<Timeout>
    decreases |results|
  {
    if results == [] || !IsMessage(results[0]) then ts
    else AllAnswered(Answered(ts, a, results[0]), AddressAfter(a, results[0]), results[1..])
  }

  // ----- Which gets a pass leaves queued -----

  /** The address that a message came from, as its conn shows it. */
  function Sender(a: Address, r: ReadResult): Address
    requires IsMessage(r)
  {
    if a.IsTcp() then a else Address(r.remote.ip, r.remote.port, a.protocolType)
  }

  /** The jth message handed on by a read is the reply to the get of the key. */
  ghost predicate RepliesAt(a: Address, results: seq<ReadResult>, k: Requests.KeyOf<Address>, j: nat) {
    j < Leading(results) && results[j].kind.Reply? && k == Requests.Key(Sender(a, results[j]), results[j].replyId)
  }

  ghost predicate RepliesTo(a: Address, results: seq<ReadResult>, k: Requests.KeyOf<Address>) {
    exists j: nat :: RepliesAt(a, results, k, j)
  }

  /** Some of the rounds reads the reply to the get of the key. */
  ghost predicate PassReplies(rounds: seq<Round>, k: Requests.KeyOf<Address>) {
    exists r <- rounds :: r.Answers(k)
  }

  ghost predicate KeysDiffer(ts: seq<Timeout>) {
    forall i, j :: 0 <= i < j < |ts| ==> ts[i].key != ts[j].key
  }

  /** The timeout is queued, with none in front of it that is due later. */
  ghost predicate InTurn(ts: seq<Timeout>, t: Timeout) {
    exists p: nat :: InTurnAt(ts, t, p)
  }

  ghost predicate InTurnAt(ts: seq<Timeout>, t: Timeout, p: nat) {
    p < |ts| && ts[p] == t && forall q :: 0 <= q < p ==> ts[q].at <= t.at
  }

  lemma RepliesToNext(a: Address, results: seq<ReadResult>, k: Requests.KeyOf<Address>)
    ensures results == [] || !IsMessage(results[0]) ==> !RepliesTo(a, results, k)
    ensures results != [] && IsMessage(results[0]) ==>
              (RepliesTo(a, results, k) <==>
               RepliesAt(a, results, k, 0) || RepliesTo(AddressAfter(a, results[0]), results[1..], k))
  {
    if results != [] && IsMessage(results[0]) {
      var b, rest := AddressAfter(a, results[0]), results[1..];
      forall j: nat ensures RepliesAt(a, results, k, j + 1) <==> RepliesAt(b, rest, k, j) {}
      if RepliesTo(a, results, k) {
        var j: nat :| RepliesAt(a, results, k, j);
        assert j > 0 ==> RepliesAt(b, rest, k, j - 1);
      }
    }
  }

  lemma {:induction false} FirstOrNone(ts: seq<Timeout>, k: Requests.KeyOf<Address>)
    ensures (exists i: nat :: i < |ts| && ts[i].key == k && forall j :: 0 <= j < i ==> ts[j].key != k)
            || forall j :: 0 <= j < |ts| ==> ts[j].key != k
  {
    if ts != [] {
      FirstOrNone(ts[..|ts| - 1], k);
      var i := |ts| - 1;
      assert forall j :: 0 <= j < i ==> ts[j] == ts[..i][j];
    }
  }

  lemma WithoutFirstRemoves(ts: seq<Timeout>, k: Requests.KeyOf<Address>)
    requires KeysDiffer(ts)
    ensures KeysDiffer(Requests.WithoutFirst(ts, k))
    ensures forall t :: t in Requests.WithoutFirst(ts, k) <==> t in ts && t.key != k
  {
    FirstOrNone(ts, k);
    if i: nat :| i < |ts| && ts[i].key == k && forall j :: 0 <= j < i ==> ts[j].key != k {
      Requests.WithoutFirstAt(ts, k, i);
      RemoveAtKeepsRest(ts, i);
      assert Requests.WithoutFirst(ts, k) == RemoveAt(ts, i);
    } else {
      Requests.WithoutFirstNone(ts, k);
    }
  }

  /** As long as no two queued gets have the same key, a read takes exactly the gets off the queue that it reads the
      reply to. */
  lemma {:induction false} AnsweredIff(ts: seq<Timeout>, a: Address, results: seq<ReadResult>)
    requires KeysDiffer(ts)
    ensures KeysDiffer(AllAnswered(ts, a, results))
    ensures forall t :: t in AllAnswered(ts, a, results) <==> t in ts && !RepliesTo(a, results, t.key)
    decreases |results|
  {
    hide RepliesTo;
    if results == [] || !IsMessage(results[0]) {
      forall t <- ts ensures !RepliesTo(a, results, t.key) { RepliesToNext(a, results, t.key); }
    } else {
      var r, b, rest := results[0], AddressAfter(a, results[0]), results[1..];
      if r.kind.Reply? { WithoutFirstRemoves(ts, Requests.Key(b, r.replyId)); }
      hide KeysDiffer;
      AnsweredIff(Answered(ts, a, r), b, rest);
      forall t <- ts ensures RepliesTo(a, results, t.key) <==> t !in Answered(ts, a, r) || RepliesTo(b, rest, t.key) {
        RepliesToNext(a, results, t.key);
      }
    }
  }

  /** The same of the rounds of a pass. */
  lemma {:induction false} PassAnsweredIff(rounds: seq<Round>, ts: seq<Timeout>, k: nat)
    requires k <= |rounds| && KeysDiffer(ts)
    ensures KeysDiffer(PassTimeouts(rounds, ts, k))
    ensures forall t :: t in PassTimeouts(rounds, ts, k) <==> t in ts && !PassReplies(rounds[..k], t.key)
  {
    if k > 0 {
      var r := rounds[k - 1];
      PassAnsweredIff(rounds, ts, k - 1);
      assert rounds[..k] == rounds[..k - 1] + [r];
      hide KeysDiffer, RepliesTo, AllAnswered;
      AnsweredIff(PassTimeouts(rounds, ts, k - 1), r.address, r.results);
      assert forall k0 :: PassReplies(rounds[..k], k0) <==> PassReplies(rounds[..k - 1], k0) || r.Answers(k0);
    }
  }

  lemma WithoutFirstTurn(ts: seq<Timeout>, k: Requests.KeyOf<Address>, t: Timeout)
    requires InTurn(ts, t) && t.key != k
    ensures InTurn(Requests.WithoutFirst(ts, k), t)
  {
    var p: nat :| InTurnAt(ts, t, p);
    FirstOrNone(ts, k);
    if i: nat :| i < |ts| && ts[i].key == k && forall j :: 0 <= j < i ==> ts[j].key != k {
      Requests.WithoutFirstAt(ts, k, i);
      RemovalTurn(ts, t, p, i);
    } else {
      Requests.WithoutFirstNone(ts, k);
    }
  }

  lemma RemovalTurn(ts: seq<Timeout>, t: Timeout, p: nat, i: nat)
    requires InTurnAt(ts, t, p) && i < |ts| && i != p
    ensures InTurn(ts[..i] + ts[i + 1..], t)
  {
    assert InTurnAt(ts[..i] + ts[i + 1..], t, if i < p then p - 1 else p);
  }

  lemma {:induction false} AnsweredTurn(ts: seq<Timeout>, a: Address, results: seq<ReadResult>, t: Timeout)
    requires InTurn(ts, t) && !RepliesTo(a, results, t.key)
    ensures InTurn(AllAnswered(ts, a, results), t)
    decreases |results|
  {
    RepliesToNext(a, results, t.key);
    if results != [] && IsMessage(results[0]) {
      var r := results[0];
      if r.kind.Reply? { WithoutFirstTurn(ts, Requests.Key(AddressAfter(a, r), r.replyId), t); }
      hide InTurn, RepliesTo;
      AnsweredTurn(Answered(ts, a, r), AddressAfter(a, r), results[1..], t);
    }
  }

  /** A get whose reply is not read stays queued, whatever the keys. */
  lemma {:induction false} PassTurn(rounds: seq<Round>, ts: seq<Timeout>, t: Timeout, k: nat)
    requires k <= |rounds| && InTurn(ts, t) && !PassReplies(rounds, t.key)
    ensures InTurn(PassTimeouts(rounds, ts, k), t)
  {
    if k > 0 {
      var r := rounds[k - 1];
      PassTurn(rounds, ts, t, k - 1);
      assert r in rounds;
      hide InTurn, RepliesTo, AllAnswered;
      if r.Hears() { AnsweredTurn(PassTimeouts(rounds, ts, k - 1), r.address, r.results, t); }
    }
  }

  /** In its turn, a get is taken off the queue at the first look that finds it due. */
  lemma DueInTurn(ts: seq<Timeout>, t: Timeout, now: int)
    requires InTurn(ts, t)
    ensures t.at <= now ==> exists q: nat :: q < DueFirst(ts, now) && ts[q] == t
    ensures t.at > now ==> InTurn(ts[DueFirst(ts, now)..], t)
  {
    var p: nat :| InTurnAt(ts, t, p);
    var n := DueFirst(ts, now);
    if t.at > now { assert InTurnAt(ts[n..], t, p - n); }
  }

  /** A get joins the queue in its turn, as long as none before it is due later: while the clock does not go back. */
  lemma LastInTurn(ts: seq<Timeout>, t: Timeout)
    requires forall u <- ts :: u.at <= t.at
    ensures InTurn(ts + [t], t)
  {
    assert InTurnAt(ts + [t], t, |ts|);
  }

  lemma TurnStays(ts: seq<Timeout>, ts': seq<Timeout>, t: Timeout)
    requires InTurn(ts, t) && ts <= ts'
    ensures InTurn(ts', t)
  {
    var p: nat :| InTurnAt(ts, t, p);
    assert InTurnAt(ts', t, p);
  }

  /** The calls queued so far are in order with the frees: a call that frees its conn is the last one for it, so
      that no callback is given freed memory, and nothing is freed twice. */
  ghost predicate FreesLast(log: seq<PendingCall>) {
    forall i, j :: 0 <= i < j < |log| && log[i].toFree ==> log[j].conn != log[i].conn
  }

  lemma FreesLastSnoc(log: seq<PendingCall>, c: PendingCall)
    ensures FreesLast(log + [c]) <==> FreesLast(log) && forall call <- log :: call.toFree ==> call.conn != c.conn
  {
    var all := log + [c];
    assert all[..|log|] == log;
    if FreesLast(all) {
      forall i, j | 0 <= i < j < |log| && log[i].toFree ensures log[j].conn != log[i].conn {
        assert all[i] == log[i] && all[j] == log[j];
      }
      forall call <- log | call.toFree ensures call.conn != c.conn {
        var i :| 0 <= i < |log| && log[i] == call;
        assert all[i] == call && all[|log|] == c;
      }
    }
  }

  predicate IsMessage(r: ReadResult) { r.Incoming? && r.kind.IsData() }

  predicate Ends(r: ReadResult) { r.PeerLost? || r.PeerClosed? }

  /** Whether the conn stays in the arrays when open_socket's system calls go as told. */
  predicate OpenKeeps(outcome: OpenOutcome, forListening: bool, tcp: bool) {
    match outcome
    case Opened => true
    case InProgress => !forListening && tcp
    case ListenFails => !(forListening && tcp)
    case _ => false
  }

  /** The event of open_socket: none yet for a tcp connect in progress. */
  function OpenEvents(conn: Conn, a: Address, forListening: bool, outcome: OpenOutcome, status: set<Address>): seq<PendingCall> {
    if !OpenKeeps(outcome, forListening, a.IsTcp()) then [Call(conn, Error, a, true)]
    else if outcome.InProgress? then []
    else if forListening then [Call(conn, Listening, a, false)]
    else SeenEvents(conn, a, status)
  }

  /** What the client hears of msg_listen and msg_connect at once, and which conns stay. */
  lemma OpenTells(conn: Conn, a: Address, outcome: OpenOutcome, status: set<Address>)
    requires a.IsTcp() || a.IsUdp()
    ensures OpenEvents(conn, a, true, Opened, status) == [Call(conn, Listening, a, false)] && OpenKeeps(Opened, true, a.IsTcp())
    ensures OpenKeeps(Opened, false, a.IsTcp())
    ensures OpenEvents(conn, a, false, Opened, status) == if a in status then [] else [Call(conn, ConnectionReady, a, false)]
    ensures OpenKeeps(InProgress, false, a.IsTcp()) <==> a.IsTcp()
    ensures a.IsTcp() ==> OpenEvents(conn, a, false, InProgress, status) == []
    ensures a.IsTcp() ==> !OpenKeeps(InProgress, true, true) && !OpenKeeps(ListenFails, true, true)
    ensures outcome.BadAddress? || outcome.NoSocket? || outcome.StaysBlocking? || outcome.OpenFails?
            ==> !OpenKeeps(outcome, true, a.IsTcp()) && !OpenKeeps(outcome, false, a.IsTcp())
    ensures forall l :: !OpenKeeps(outcome, l, a.IsTcp()) ==> OpenEvents(conn, a, l, outcome, status) == [Call(conn, Error, a, true)]
  {
  }

  lemma {:induction false} WithoutFirstIsPart(ts: seq<Timeout>, k: Requests.KeyOf<Address>)
    ensures forall t <- Requests.WithoutFirst(ts, k) :: t in ts
  {
    if ts != [] && ts[0].key != k { WithoutFirstIsPart(ts[1..], k); }
  }

  /** How many timeouts the loop of msg_runloop takes off the queue: it stops at the first that is not due. */
  function DueFirst(ts: seq<Timeout>, now: int): (n: nat)
    ensures n <= |ts| && (forall i :: 0 <= i < n ==> ts[i].at <= now) && (n < |ts| ==> ts[n].at > now)
  {
    if ts == [] || ts[0].at > now then 0 else 1 + DueFirst(ts[1..], now)
  }

  /** An error for the conn that made the get. */
  predicate IsTimeoutOf(call: PendingCall, t: Timeout) {
    call.conn == t.conn && call.kind.Error? && !call.toFree
  }

  /** One error per expired get, for the conn that made it, whatever has become of that. */
  function ExpiredCalls(ts: seq<Timeout>): (calls: seq<PendingCall>)
    reads set t <- ts :: t.conn
    ensures |calls| == |ts|
  {
    seq(|ts|, i requires 0 <= i < |ts| reads set t <- ts :: t.conn =>
      assert ts[i] in ts; Call(ts[i].conn, Error, ts[i].conn.address, false))
  }

  class Loop {
    var conns: seq<Conn>
    var pollFds: seq<PollFd>
    var removals: seq<nat>
    var connStatus: set<Address>
    var immediateCallbacks: seq<PendingCall>
    var timeouts: seq<Timeout>

    // All the conns there ever were; the calls queued so far, those made, and those being made.
    ghost var pool: set<Conn>
    ghost var log: seq<PendingCall>
    ghost var delivered: seq<PendingCall>
    ghost var saved: seq<PendingCall>

    // The public calls that the user has made.
    ghost var performed: seq<UserCall>

    // Every drain so far had its removals in an order that OrderOk accepts.
    ghost var inOrder: bool

    // Some conn was freed while it was still in the arrays.
    ghost var freedEarly: bool

    // Some expired get belonged to a conn that a call queued before it frees; some call that frees its conn was
    // queued while a timeout of that conn was.
    ghost var lateExpiry: bool
    ghost var orphaned: bool

    /** Slot i of each array is the same socket, and each conn knows its slot.  A conn is polled for writing exactly
        while its connect is in progress, and for reading otherwise. */
    ghost predicate Aligned()
      reads this`conns, this`pollFds, conns
    {
      && |conns| == |pollFds|
      && (forall i :: 0 <= i < |conns| ==>
                        conns[i].index == i && pollFds[i].fd == conns[i].socket
                        && (pollFds[i].mode.PollWrite? <==> conns[i].connecting))
    }

    /** Each pending removal is of a different live slot. */
    ghost predicate RemovalsOk()
      reads this`conns, this`removals
    {
      NoDup(removals) && forall j :: 0 <= j < |removals| ==> removals[j] < |conns|
    }

    /** The conns on their way out are exactly those marked for removal. */
    ghost predicate MarkedOk()
      reads this`conns, this`removals, this`inOrder, conns
    {
      inOrder ==> forall i: nat :: i < |conns| ==> (conns[i].closed <==> i in removals)
    }

    /** Calls made, calls being made and calls queued are, in this order, the calls that were ever queued. */
    ghost predicate Fifo()
      reads this`log, this`delivered, this`saved, this`immediateCallbacks
    {
      log == delivered + saved + immediateCallbacks
    }

    ghost predicate Pool()
      reads this`pool, this`conns, this`log, this`timeouts
    {
      (forall c <- conns :: c in pool) && (forall call <- log :: call.conn in pool) && (forall t <- timeouts :: t.conn in pool)
    }

    /** A conn that a queued call will free is on its way out. */
    ghost predicate FreesClosed()
      reads this`pool, this`log, pool
    {
      forall call <- log :: call.toFree && call.conn in pool ==> call.conn.closed
    }

    /** No queued call so far frees the conn. */
    ghost predicate Unfreed(conn: Conn)
      reads this`log
    {
      forall call <- log :: call.toFree ==> call.conn != conn
    }

    /** The conns that a queued call has freed or will free. */
    ghost function Freed(): set<Conn>
      reads this`pool, this`log
    {
      set c <- pool | !Unfreed(c)
    }

    /** In ordered runs nothing but the expiry of a freed conn's get makes a call for a freed conn. */
    ghost predicate FreesOk()
      reads this`log, this`inOrder, this`lateExpiry
    {
      (lateExpiry ==> !FreesLast(log)) && (inOrder && !lateExpiry ==> FreesLast(log))
    }

    /** Unless a conn was freed with a timeout in the queue, the timeouts are of conns that have not been freed. */
    ghost predicate Orphans()
      reads this`log, this`inOrder, this`lateExpiry, this`orphaned, this`timeouts
    {
      inOrder && !orphaned ==> !lateExpiry && forall t <- timeouts :: Unfreed(t.conn)
    }

    /** Everything but the agreement of conn_status with the events. */
    ghost predicate Rest()
      reads this, pool, conns
    {
      Aligned() && RemovalsOk() && MarkedOk() && Fifo() && Pool() && FreesClosed() && FreesOk() && Orphans()
      && (inOrder ==> !freedEarly)
    }

    ghost predicate Valid()
      reads this, pool, conns
    {
      Rest() && LifeOk(connStatus, log)
    }

    /** The conn is live: in its slot, and not marked for removal. */
    ghost predicate Live(conn: Conn)
      reads this`conns, this`removals, conn
    {
      conn.index < |conns| && conns[conn.index] == conn && conn.index !in removals
    }

    constructor ()
      ensures Valid() && conns == [] && log == [] && inOrder && saved == [] && removals == [] && pool == {}
      ensures timeouts == [] && connStatus == {} && immediateCallbacks == [] && !lateExpiry && !orphaned
      ensures delivered == [] && performed == []
    {
      timeouts, lateExpiry, orphaned := [], false, false;
      conns, pollFds, removals, connStatus, immediateCallbacks := [], [], [], {}, [];
      pool, log, delivered, saved, performed, inOrder, freedEarly := {}, [], [], [], [], true, false;
    }

    /** A live conn has not been freed, if the drains were in order. */
    lemma LiveIsUnfreed(conn: Conn)
      requires Valid() && Live(conn)
      ensures conn in pool && (inOrder ==> Unfreed(conn) && !conn.closed)
    {
      assert conns[conn.index] in conns;
    }

    lemma NewIsUnfreed(conn: Conn)
      requires Valid() && conn !in pool
      ensures Unfreed(conn) && !Waits(timeouts, conn)
    {
    }

    /** send_callback; `was` is conn_status before the change that goes with the event. */
    method SendCallback(conn: Conn, kind: EventKind, toFree: bool, ghost was: set<Address>)
      requires Rest() && LifeOk(was, log) && conn in pool && (toFree ==> conn.closed) && (inOrder ==> Unfreed(conn))
      requires kind.IsData() ==> conn.address in was && connStatus == was
      requires kind.ConnectionReady? ==> conn.address !in was && connStatus == was + {conn.address}
      requires kind.IsEnd() ==> connStatus == was - {conn.address}
      requires kind.Listening? || kind.Error? ==> connStatus == was
      modifies this`immediateCallbacks, this`log, this`orphaned
      ensures Valid() && log == old(log) + [Call(conn, kind, conn.address, toFree)]
      ensures inOrder && !toFree ==> Unfreed(conn)
      ensures orphaned == (old(orphaned) || (toFree && Waits(timeouts, conn)))
    {
      var call := Call(conn, kind, conn.address, toFree);
      QueueKeepsLife(was, log, call, connStatus);
      hide LifeOk;
      if toFree { NoteOrphan(conn); }
      hide Loop.Rest;
      Enqueue(call);
    }

    ghost method NoteOrphan(conn: Conn)
      requires Rest()
      modifies this`orphaned
      ensures Rest() && orphaned == (old(orphaned) || Waits(timeouts, conn))
    {
      orphaned := orphaned || Waits(timeouts, conn);
    }

    /** The call joins the end of the queue. */
    method Enqueue(call: PendingCall)
      requires Rest() && call.conn in pool && (call.toFree ==> call.conn.closed) && (inOrder ==> Unfreed(call.conn))
      requires call.toFree && !orphaned ==> !Waits(timeouts, call.conn)
      modifies this`immediateCallbacks, this`log
      ensures Rest() && log == old(log) + [call] && (inOrder && !call.toFree ==> Unfreed(call.conn))
    {
      hide Loop.Aligned, Loop.RemovalsOk, Loop.MarkedOk;
      FreesLastSnoc(log, call);
      hide FreesLast;
      immediateCallbacks, log := immediateCallbacks + [call], log + [call];
    }

    /** remote_address_seen: a new remote address gets a status and a ready event. */
    method RemoteAddressSeen(conn: Conn)
      requires Valid() && conn in pool && (inOrder ==> Unfreed(conn))
      modifies this`connStatus, this`immediateCallbacks, this`log, this`orphaned
      ensures Valid() && connStatus == old(connStatus) + {conn.address}
      ensures log == old(log) + SeenEvents(conn, conn.address, old(connStatus)) && (inOrder ==> Unfreed(conn))
      ensures orphaned == old(orphaned)
    {
      hide Loop.Aligned, Loop.RemovalsOk, Loop.MarkedOk, Loop.Fifo, Loop.Pool, Loop.FreesClosed, Loop.FreesOk, Loop.Orphans, Loop.Unfreed, LifeOk;
      if conn.address !in connStatus {
        ghost var was := connStatus;
        connStatus := connStatus + {conn.address};
        SendCallback(conn, ConnectionReady, false, was);
      }
    }

    /** Mark a conn that goes away for removal. */
    method MarkRemoval(conn: Conn)
      requires Valid() && Live(conn)
      modifies this`removals, conn`closed
      ensures Valid() && removals == old(removals) + [conn.index] && conn.closed
    {
      hide Loop.Fifo, Loop.FreesOk, Loop.Orphans, Loop.Unfreed, LifeOk;
      conn.closed := true;
      ghost var was := removals;
      removals := removals + [conn.index];
      assert forall i: nat :: i in removals <==> i in was || i == conn.index;
    }

    /** local_disconnect: conn_status forgets the address, the event is queued, and the conn is marked for
        removal, unless it is a listening udp conn, which lives on. */
    method LocalDisconnect(conn: Conn, kind: EventKind)
      requires Valid() && Live(conn) && kind.IsEnd()
      modifies this`connStatus, this`immediateCallbacks, this`log, this`orphaned, this`removals, conn`closed
      ensures Valid() && connStatus == old(connStatus) - {conn.address}
      ensures var stays := conn.forListening && conn.address.IsUdp();
              && log == old(log) + [Call(conn, kind, conn.address, !stays)]
              && removals == old(removals) + (if stays then [] else [conn.index])
              && conn.closed == (!stays || old(conn.closed))
      ensures orphaned == (old(orphaned) || (!(conn.forListening && conn.address.IsUdp()) && Waits(timeouts, conn)))
    {
      LiveIsUnfreed(conn);
      hide Loop.Valid, Loop.Unfreed, Waits;
      var isListeningUdp := conn.forListening && conn.address.IsUdp();
      if !isListeningUdp { MarkRemoval(conn); }
      QueueEnd(conn, kind, !isListeningUdp);
    }

    /** conn_status forgets the address, and the event is queued. */
    method QueueEnd(conn: Conn, kind: EventKind, toFree: bool)
      requires Valid() && conn in pool && (toFree ==> conn.closed) && (inOrder ==> Unfreed(conn)) && kind.IsEnd()
      modifies this`connStatus, this`immediateCallbacks, this`log, this`orphaned
      ensures Valid() && connStatus == old(connStatus) - {conn.address} && log == old(log) + [Call(conn, kind, conn.address, toFree)]
      ensures orphaned == (old(orphaned) || (toFree && Waits(timeouts, conn)))
    {
      hide Loop.Aligned, Loop.RemovalsOk, Loop.MarkedOk, Loop.Fifo, Loop.Pool, Loop.FreesClosed, Loop.FreesOk, Loop.Orphans, Loop.Unfreed, LifeOk;
      ghost var was := connStatus;
      connStatus := connStatus - {conn.address};
      SendCallback(conn, kind, toFree, was);
    }

    // ----- Opening -----

    /** A new socket's entries in conns and poll_fds. */
    method AddConn(conn: Conn, socket: int)
      requires Valid() && conn !in pool && !conn.closed && !conn.connecting
      modifies this`conns, this`pollFds, this`pool, conn`socket, conn`index
      ensures Valid() && conns == old(conns) + [conn] && pool == old(pool) + {conn}
      ensures Live(conn) && conn.index == |old(conns)|
      ensures pollFds == old(pollFds) + [PollFd(socket, PollRead, NOT_READY)]
    {
      SetSocket(conn, socket);
      RestMeans();
      hide Loop.Aligned, Loop.RemovalsOk, Loop.MarkedOk, Loop.Pool, Loop.FreesClosed, Loop.Fifo, Loop.FreesOk, Loop.Orphans, Loop.Unfreed,
        LifeOk, NoDup;
      ghost var was, wasPool := conns, pool;
      conns, pool := conns + [conn], pool + {conn};
      pollFds := pollFds + [PollFd(socket, PollRead, NOT_READY)];
      Joined(was, wasPool, conn);
    }

    /** What the invariant says of the arrays and the pool. */
    lemma RestMeans()
      requires Rest()
      ensures |conns| == |pollFds| && NoDup(removals) && (forall j :: 0 <= j < |removals| ==> removals[j] < |conns|)
      ensures forall i :: 0 <= i < |conns| ==> conns[i].index == i && pollFds[i].fd == conns[i].socket
                                               && (pollFds[i].mode.PollWrite? <==> conns[i].connecting)
      ensures inOrder ==> forall i: nat :: i < |conns| ==> (conns[i].closed <==> i in removals)
      ensures (forall i :: 0 <= i < |conns| ==> conns[i] in pool) && (forall call <- log :: call.conn in pool)
              && (forall t <- timeouts :: t.conn in pool) && forall call <- log :: call.toFree ==> call.conn.closed
    {
    }

    lemma Joined(was: seq<Conn>, wasPool: set<Conn>, conn: Conn)
      requires conns == was + [conn] && pool == wasPool + {conn} && |pollFds| == |conns| && conn.index == |was| && !conn.closed
      requires var p := pollFds[|was|]; p.fd == conn.socket && p.mode.PollRead? && !conn.connecting
      requires NoDup(removals) && (forall j :: 0 <= j < |removals| ==> removals[j] < |was|)
      requires forall i :: 0 <= i < |was| ==> was[i].index == i && pollFds[i].fd == was[i].socket
                                              && (pollFds[i].mode.PollWrite? <==> was[i].connecting)
      requires inOrder ==> forall i: nat :: i < |was| ==> (was[i].closed <==> i in removals)
      requires (forall i :: 0 <= i < |was| ==> was[i] in wasPool) && (forall call <- log :: call.conn in wasPool)
               && (forall t <- timeouts :: t.conn in wasPool) && forall call <- log :: call.toFree ==> call.conn.closed
      ensures Aligned() && RemovalsOk() && MarkedOk() && Pool() && FreesClosed()
    {
      hide NoDup;
    }

    /** The conn gets its socket, and the next index. */
    method SetSocket(conn: Conn, socket: int)
      requires Valid() && conn !in pool
      modifies conn`socket, conn`index
      ensures Valid() && conn.socket == socket && conn.index == |conns| == |pollFds| && conn !in conns
    {
      hide Loop.Fifo, Loop.FreesOk, Loop.Orphans, Loop.Unfreed, Loop.RemovalsOk, LifeOk;
      conn.socket := socket;
      conn.index := |conns|;
    }

    /** remove_last_polling_conn, for a conn that failed to open. */
    method RemoveLast(conn: Conn)
      requires Valid() && conns != [] && conns[|conns| - 1] == conn && Live(conn)
      modifies this`conns, this`pollFds, conn`closed
      ensures Valid() && conns == old(conns)[..|old(conns)| - 1] && conn.closed
      ensures pollFds == old(pollFds)[..|old(pollFds)| - 1]
    {
      hide Loop.Fifo, Loop.FreesOk, Loop.Orphans, Loop.Unfreed, LifeOk;
      conn.closed := true;
      conns := conns[..|conns| - 1];
      pollFds := pollFds[..|pollFds| - 1];
    }

    /** A conn that failed to open, after it was added: error event, and out of the arrays again. */
    method AbandonOpen(conn: Conn)
      requires Valid() && conns != [] && conns[|conns| - 1] == conn && Live(conn)
      modifies this`conns, this`pollFds, this`immediateCallbacks, this`log, this`orphaned, conn`closed
      ensures Valid() && conns == old(conns)[..|old(conns)| - 1] && pollFds == old(pollFds)[..|old(pollFds)| - 1]
      ensures log == old(log) + [Call(conn, Error, conn.address, true)]
      ensures orphaned == (old(orphaned) || Waits(timeouts, conn))
    {
      LiveIsUnfreed(conn);
      hide Loop.Rest, Loop.Unfreed, LifeOk;
      RemoveLast(conn);
      SendCallback(conn, Error, true, connStatus);
    }

    /** open_socket, behind msg_listen and msg_connect. */
    method OpenSocket(address: Address, forListening: bool, socket: int, outcome: OpenOutcome) returns (conn: Conn)
      requires Valid()
      modifies this`conns, this`pollFds, this`pool, this`connStatus, this`immediateCallbacks, this`log, this`orphaned
      ensures Valid() && fresh(conn) && conn.address == address && pool == old(pool) + {conn}
      ensures var keeps, mode := OpenKeeps(outcome, forListening, address.IsTcp()), if outcome.InProgress? then PollWrite else PollRead;
              && conns == old(conns) + (if keeps then [conn] else [])
              && pollFds == old(pollFds) + (if keeps then [PollFd(socket, mode, NOT_READY)] else [])
              && (keeps ==> conn.connecting == outcome.InProgress?)
      ensures log == old(log) + OpenEvents(conn, address, forListening, outcome, old(connStatus))
      ensures orphaned == old(orphaned)
      ensures OpenKeeps(outcome, forListening, address.IsTcp()) ==> Live(conn) && conn.forListening == forListening
      ensures connStatus == OpenStatus(address, forListening, outcome, old(connStatus))
    {
      hide Loop.Rest, Loop.Unfreed, LifeOk;
      conn := new Conn(address, forListening);
      NewIsUnfreed(conn);
      if outcome.BadAddress? || outcome.NoSocket? {
        FailUnopened(conn);
        return;
      }
      AddConn(conn, socket);
      FinishOpen(conn, outcome);
    }

    /** setup_sockaddr fails before the conn is added anywhere. */
    method FailUnopened(conn: Conn)
      requires Valid() && conn !in pool
      modifies this`pool, this`immediateCallbacks, this`log, this`orphaned, conn`closed
      ensures Valid() && pool == old(pool) + {conn} && log == old(log) + [Call(conn, Error, conn.address, true)]
      ensures orphaned == old(orphaned)
    {
      NewIsUnfreed(conn);
      Adopt(conn);
      hide Loop.Rest, Loop.Unfreed, LifeOk;
      SendCallback(conn, Error, true, connStatus);
    }

    method Adopt(conn: Conn)
      requires Valid() && conn !in pool
      modifies this`pool, conn`closed
      ensures Valid() && pool == old(pool) + {conn} && conn.closed
    {
      hide Loop.Fifo, Loop.FreesOk, Loop.Orphans, Loop.Unfreed, LifeOk;
      conn.closed := true;
      pool := pool + {conn};
    }

    /** The rest of open_socket, with the conn last in the arrays. */
    method FinishOpen(conn: Conn, outcome: OpenOutcome)
      requires Valid() && conns != [] && conns[|conns| - 1] == conn && Live(conn) && conn in pool
      requires !outcome.BadAddress? && !outcome.NoSocket?
      requires !conn.connecting
      modifies this`conns, this`pollFds, this`connStatus, this`immediateCallbacks, this`log, this`orphaned, conn`closed, conn`connecting
      ensures Valid() && |old(pollFds)| == |old(conns)|
      ensures var last := |old(conns)| - 1;
              if OpenKeeps(outcome, conn.forListening, conn.address.IsTcp()) then
                && conns == old(conns) && conn.connecting == outcome.InProgress?
                && pollFds == if outcome.InProgress? then old(pollFds)[last := old(pollFds)[last].(mode := PollWrite)] else old(pollFds)
              else conns == old(conns)[..last] && pollFds == old(pollFds)[..last]
      ensures log == old(log) + OpenEvents(conn, conn.address, conn.forListening, outcome, old(connStatus))
      ensures !Waits(timeouts, conn) ==> orphaned == old(orphaned)
      ensures connStatus == OpenStatus(conn.address, conn.forListening, outcome, old(connStatus))
    {
      LiveIsUnfreed(conn);
      hide Loop.Rest, Loop.Unfreed, LifeOk;
      var tcp := conn.address.IsTcp();
      if outcome.StaysBlocking? || outcome.OpenFails? || (outcome.InProgress? && (conn.forListening || !tcp)) {
        AbandonOpen(conn);
      } else if outcome.InProgress? {
        SetPollMode(|conns| - 1, PollWrite, conn);
      } else if conn.forListening {
        if tcp && outcome.ListenFails? {
          AbandonOpen(conn);
        } else {
          SendCallback(conn, Listening, false, connStatus);
        }
      } else {
        RemoteAddressSeen(conn);
      }
    }

    /** set_conn_to_poll_mode, on the conn whose connect gets under way or is over. */
    method SetPollMode(i: nat, mode: PollMode, ghost conn: Conn)
      requires Valid() && i < |conns| && conns[i] == conn
      modifies this`pollFds, conn`connecting
      ensures Valid() && i < |old(pollFds)| && pollFds == old(pollFds)[i := old(pollFds)[i].(mode := mode)]
      ensures conn.connecting == mode.PollWrite?
    {
      hide Loop.Fifo, Loop.Pool, Loop.FreesOk, Loop.Orphans, Loop.Unfreed, LifeOk;
      pollFds := pollFds[i := pollFds[i].(mode := mode)];
      conn.connecting := mode.PollWrite?;
    }

    /** The accept branch of read_from_socket: a new conn, after all the others. */
    method Accept(socket: int, remote: Address) returns (conn: Conn)
      requires Valid()
      modifies this`conns, this`pollFds, this`pool, this`connStatus, this`immediateCallbacks, this`log, this`orphaned
      ensures Valid() && fresh(conn) && conn.address == remote && pool == old(pool) + {conn}
      ensures conns == old(conns) + [conn] && pollFds == old(pollFds) + [PollFd(socket, PollRead, NOT_READY)]
      ensures log == old(log) + SeenEvents(conn, remote, old(connStatus)) && connStatus == old(connStatus) + {remote}
      ensures orphaned == old(orphaned)
    {
      hide Loop.Rest, Loop.Unfreed, LifeOk;
      conn := new Conn(remote, false);
      NewIsUnfreed(conn);
      AddConn(conn, socket);
      RemoteAddressSeen(conn);
    }

    // ----- Reading -----

    /** read_from_socket on a listening tcp conn. */
    method ReadListener(conn: Conn, r: ReadResult)
      requires Valid() && Live(conn)
      modifies this`conns, this`pollFds, this`pool, this`connStatus, this`immediateCallbacks, this`log, this`orphaned
      ensures Valid() && old(log) <= log && fresh(pool - old(pool)) && old(pool) <= pool
      ensures Grows(old(conns), conns, old(pollFds), pollFds)
      ensures match r
              case Accepted(socket, remote) =>
                && |conns| == |old(conns)| + 1 && pollFds == old(pollFds) + [PollFd(socket, PollRead, NOT_READY)]
                && var a, c := Address(remote.ip, remote.port, conn.address.protocolType), conns[|old(conns)|];
                c.address == a && log == old(log) + SeenEvents(c, a, old(connStatus)) && connStatus == old(connStatus) + {a}
              case ReadError =>
                conns == old(conns) && log == old(log) + [Call(conn, Error, conn.address, false)] && connStatus == old(connStatus)
              case _ => conns == old(conns) && log == old(log) && connStatus == old(connStatus)
      ensures orphaned == old(orphaned)
    {
      LiveIsUnfreed(conn);
      hide Loop.Rest, Loop.Unfreed, LifeOk;
      match r
      case Accepted(socket, remote) => var c := Accept(socket, Address(remote.ip, remote.port, conn.address.protocolType));
      case ReadError => SendCallback(conn, Error, false, connStatus);
      case _ =>
    }

    /** read_from_socket on any other conn.  On tcp the status comes first, then the data; on udp the sender
        becomes the conn's remote address once the message is read.  True iff a message was handed on. */
    method ReadMessage(conn: Conn, r: ReadResult) returns (again: bool)
      requires Valid() && Live(conn)
      modifies this`timeouts, this`connStatus, this`immediateCallbacks, this`log, this`orphaned, this`removals, conn`closed, conn`address
      ensures Valid() && conn.address == AddressAfter(old(conn.address), r)
      ensures again <==> IsMessage(r)
      ensures var a, was := old(conn.address), old(connStatus);
              var (events, status) := ReadOnce(conn, a, was, conn.forListening && a.IsUdp(), r);
              log == old(log) + events && connStatus == status
      ensures removals == old(removals) + (if Ends(r) && !(conn.forListening && conn.address.IsUdp()) then [conn.index] else [])
      ensures orphaned == (old(orphaned) || (Ends(r) && !(conn.forListening && conn.address.IsUdp()) && Waits(timeouts, conn)))
      ensures timeouts == Answered(old(timeouts), old(conn.address), r)
    {
      hide *;
      ghost var a, was, before, stays := conn.address, connStatus, log, conn.forListening && conn.address.IsUdp();
      SeeTcp(conn);
      ghost var after := log;
      again := React(conn, r);
      OnceIs(before, after, log, conn, a, was, stays, r);
    }

    /** On tcp, read_from_socket sees to the status first. */
    method SeeTcp(conn: Conn)
      requires Valid() && Live(conn)
      modifies this`connStatus, this`immediateCallbacks, this`log, this`orphaned
      ensures Valid() && conn in pool && orphaned == old(orphaned)
      ensures log == old(log) + (if conn.address.IsTcp() then SeenEvents(conn, conn.address, old(connStatus)) else [])
      ensures connStatus == if conn.address.IsTcp() then old(connStatus) + {conn.address} else old(connStatus)
      ensures conn.address.IsTcp() ==> conn.address in connStatus
    {
      LiveIsUnfreed(conn);
      hide Loop.Rest, Loop.Unfreed, LifeOk, SeenEvents;
      if conn.address.IsTcp() { RemoteAddressSeen(conn); }
    }

    /** What read_from_socket does about what it read. */
    method React(conn: Conn, r: ReadResult) returns (again: bool)
      requires Valid() && Live(conn) && conn in pool && (conn.address.IsTcp() ==> conn.address in connStatus)
      modifies this`timeouts, this`connStatus, this`immediateCallbacks, this`log, this`orphaned, this`removals, conn`closed, conn`address
      ensures Valid() && conn.address == AddressAfter(old(conn.address), r)
      ensures again <==> IsMessage(r)
      ensures var (events, status) := ReadEvents(conn, old(conn.address), old(connStatus),
                                                 conn.forListening && old(conn.address).IsUdp(), r);
              log == old(log) + events && connStatus == status
      ensures removals == old(removals) + (if Ends(r) && !(conn.forListening && conn.address.IsUdp()) then [conn.index] else [])
      ensures orphaned == (old(orphaned) || (Ends(r) && !(conn.forListening && conn.address.IsUdp()) && Waits(timeouts, conn)))
      ensures timeouts == Answered(old(timeouts), old(conn.address), r)
    {
      hide Loop.Rest, LifeOk, SeenEvents, Loop.Live;
      if IsMessage(r) || r.UnknownReply? {
        Report(conn, r.remote, if r.Incoming? then r.kind else Error);
        if IsMessage(r) && r.kind.Reply? { RemoveTimeout(Requests.Key(conn.address, r.replyId)); }
      } else {
        ReactToNone(conn, r);
      }
      again := IsMessage(r);
    }

    /** There was no whole message. */
    method ReactToNone(conn: Conn, r: ReadResult)
      requires Valid() && Live(conn) && conn in pool && !IsMessage(r) && !r.UnknownReply?
      modifies this`connStatus, this`immediateCallbacks, this`log, this`orphaned, this`removals, conn`closed
      ensures Valid()
      ensures var (events, status) := ReadEvents(conn, conn.address, old(connStatus),
                                                 conn.forListening && conn.address.IsUdp(), r);
              log == old(log) + events && connStatus == status
      ensures removals == old(removals) + (if Ends(r) && !(conn.forListening && conn.address.IsUdp()) then [conn.index] else [])
      ensures orphaned == (old(orphaned) || (Ends(r) && !(conn.forListening && conn.address.IsUdp()) && Waits(timeouts, conn)))
    {
      LiveIsUnfreed(conn);
      hide Loop.Rest, Loop.Unfreed, LifeOk, SeenEvents;
      match r
      case ReadError => SendCallback(conn, Error, false, connStatus);
      case PeerLost => LocalDisconnect(conn, ConnectionLost);
      case PeerClosed => LocalDisconnect(conn, ConnectionClosed);
      case _ =>
    }

    /** A whole message has been read: its event, or the error that an unknown reply makes. */
    method Report(conn: Conn, remote: Address, kind: EventKind)
      requires Valid() && Live(conn) && conn in pool && (conn.address.IsTcp() ==> conn.address in connStatus)
      requires kind.IsData() || kind.Error?
      modifies this`connStatus, this`immediateCallbacks, this`log, this`orphaned, conn`address
      ensures Valid() && connStatus == old(connStatus) + {conn.address}
      ensures var a := old(conn.address);
              conn.address == if a.IsTcp() then a else Address(remote.ip, remote.port, a.protocolType)
      ensures log == old(log) + SeenEvents(conn, conn.address, old(connStatus)) + [Call(conn, kind, conn.address, false)]
      ensures orphaned == old(orphaned)
    {
      hide Loop.Rest, Loop.Unfreed, LifeOk, SeenEvents, Waits;
      Hear(conn, remote);
      SendCallback(conn, kind, false, connStatus);
    }

    /** Whom a message is from: on tcp, whose address has a status, the conn's address stays. */
    method Hear(conn: Conn, remote: Address)
      requires Valid() && Live(conn) && conn in pool && (conn.address.IsTcp() ==> conn.address in connStatus)
      modifies this`connStatus, this`immediateCallbacks, this`log, this`orphaned, conn`address
      ensures Valid() && connStatus == old(connStatus) + {conn.address} && conn.address in connStatus
      ensures var a := old(conn.address);
              conn.address == if a.IsTcp() then a else Address(remote.ip, remote.port, a.protocolType)
      ensures log == old(log) + SeenEvents(conn, conn.address, old(connStatus))
      ensures orphaned == old(orphaned) && (inOrder ==> Unfreed(conn))
    {
      LiveIsUnfreed(conn);
      hide Loop.Valid, Loop.Unfreed, LifeOk;
      if !conn.address.IsTcp() { Receive(conn, remote); }
    }

    /** remove_timeout */
    method RemoveTimeout(k: Requests.KeyOf<Address>)
      requires Valid()
      modifies this`timeouts
      ensures Valid() && timeouts == Requests.WithoutFirst(old(timeouts), k)
    {
      WithoutFirstIsPart(timeouts, k);
      var i := 0;
      while i < |timeouts| && timeouts[i].key != k
        invariant i <= |timeouts| && forall j :: 0 <= j < i ==> timeouts[j].key != k
      {
        i := i + 1;
      }
      if i < |timeouts| { Requests.WithoutFirstAt(timeouts, k, i); } else { Requests.WithoutFirstNone(timeouts, k); }
      TakeTimeouts(if i < |timeouts| then timeouts[..i] + timeouts[i + 1..] else timeouts);
    }

    method TakeTimeouts(ts: seq<Timeout>)
      requires Valid() && forall t <- ts :: t in timeouts
      modifies this`timeouts
      ensures Valid() && timeouts == ts
    {
      hide Loop.Aligned, Loop.MarkedOk, Loop.Fifo, Loop.FreesOk, Loop.Unfreed, LifeOk;
      timeouts := ts;
    }

    /** A udp message has been read: its sender is the conn's remote address from now on. */
    method Receive(conn: Conn, remote: Address)
      requires Valid() && Live(conn) && conn in pool
      modifies this`connStatus, this`immediateCallbacks, this`log, this`orphaned, conn`address
      ensures Valid() && conn.address == Address(remote.ip, remote.port, old(conn.address.protocolType))
      ensures connStatus == old(connStatus) + {conn.address} && (inOrder ==> Unfreed(conn))
      ensures log == old(log) + SeenEvents(conn, conn.address, old(connStatus))
      ensures orphaned == old(orphaned)
    {
      LiveIsUnfreed(conn);
      SetAddress(conn, conn.address.(ip := remote.ip, port := remote.port));
      hide Loop.Rest, Loop.Unfreed, LifeOk;
      RemoteAddressSeen(conn);
    }

    /** The loop around read_from_socket on a conn that is not a tcp listener; results are what its calls find,
        and after them nothing. */
    method ReadAll(conn: Conn, results: seq<ReadResult>)
      requires Valid() && Live(conn)
      modifies this`timeouts, this`connStatus, this`immediateCallbacks, this`log, this`orphaned, this`removals, conn`closed, conn`address
      ensures Valid()
      ensures var (events, status) := ReadRun(conn, old(conn.address), old(connStatus),
                                              conn.forListening && old(conn.address).IsUdp(), results);
              log == old(log) + events && connStatus == status
      ensures removals == old(removals) + (if Ends(LastOf(results)) && !(conn.forListening && old(conn.address).IsUdp())
                                           then [conn.index] else [])
      ensures timeouts == AllAnswered(old(timeouts), old(conn.address), results)
      ensures orphaned == (old(orphaned) || (Ends(LastOf(results)) && !(conn.forListening && old(conn.address).IsUdp())
                                             && Waits(timeouts, conn)))
    {
      hide Loop.Rest, Loop.Unfreed, LifeOk, SeenEvents, ReadOnce, Waits, Answered, ReadRun, LastOf, AllAnswered;
      var k, again := 0, true;
      ghost var goal := ReadRun(conn, conn.address, connStatus, conn.forListening && conn.address.IsUdp(), results);
      while again
        invariant Valid() && k <= |results| && (again ==> removals == old(removals))
        invariant conn.address.protocolType == old(conn.address.protocolType)
        invariant if again then
                    var (events, status) := ReadRun(conn, conn.address, connStatus,
                                                    conn.forListening && conn.address.IsUdp(), results[k..]);
                    log + events == old(log) + goal.0 && status == goal.1
                  else log == old(log) + goal.0 && connStatus == goal.1
        invariant if again then LastOf(results[k..]) == LastOf(results)
                  else removals == old(removals) + (if Ends(LastOf(results)) && !(conn.forListening && old(conn.address).IsUdp())
                                                    then [conn.index] else [])
        invariant if again then AllAnswered(timeouts, conn.address, results[k..]) == AllAnswered(old(timeouts), old(conn.address), results)
                                && orphaned == old(orphaned)
                  else timeouts == AllAnswered(old(timeouts), old(conn.address), results)
                       && orphaned == (old(orphaned) || (Ends(LastOf(results)) && !(conn.forListening && old(conn.address).IsUdp())
                                                         && Waits(timeouts, conn)))
        decreases |results| - k, again
      {
        var r := FirstOf(results[k..]);
        ReadNext(conn, conn.address, connStatus, conn.forListening && conn.address.IsUdp(), results, k, timeouts);
        again := ReadMessage(conn, r);
        if k < |results| { k := k + 1; }
      }
    }

    /** What the polling loop does about a conn: one round. */
    method HandleReady(i: nat, conn: Conn, refused: bool, results: seq<ReadResult>)
      requires Valid() && i < |conns| == |pollFds| && conns[i] == conn && i !in removals
      modifies this`timeouts, this`conns, this`pollFds, this`pool, this`connStatus, this`immediateCallbacks, this`log, this`orphaned, this`removals
      modifies conn`closed, conn`address, conn`connecting
      ensures Valid() && fresh(pool - old(pool)) && old(pool) <= pool && |pollFds| == |conns|
      ensures var r := Round(conn, old(conn.address), conn.forListening, old(pollFds)[i].revents, refused, results);
              && Grows(old(conns), conns, if r.Connects() then old(pollFds)[i := old(pollFds)[i].(mode := PollRead)] else old(pollFds), pollFds)
              && conn.connecting == (old(conn.connecting) && !r.Connects())
      ensures var r := Round(conn, old(conn.address), conn.forListening, old(pollFds)[i].revents, refused, results);
              var (events, status) := r.Effect(old(connStatus), At(conns, |old(conns)|, conn));
              && log == old(log) + events && connStatus == status
              && |conns| == |old(conns)| + (if r.Accepts() then 1 else 0)
              && removals == old(removals) + (if r.Marks() then [i] else [])
              && timeouts == r.Timeouts(old(timeouts)) && orphaned == (old(orphaned) || (r.Marks() && Waits(timeouts, conn)))
    {
      assert Live(conn) && conn in pool by { assert conns[i] in conns; }
      hide Loop.Rest, Loop.Unfreed, LifeOk, SeenEvents, SocketEffect;
      var ready := pollFds[i].revents;
      if ready.err && refused {
        Refuse(conn);
      } else {
        Serve(i, conn, ready, refused, results);
      }
    }

    /** A conn whose socket is ready and has not been refused. */
    method Serve(i: nat, conn: Conn, ready: Readiness, ghost refused: bool, results: seq<ReadResult>)
      requires Valid() && Live(conn) && conn in pool && conn.index == i < |pollFds| == |conns| && !(ready.err && refused)
      modifies this`timeouts, this`conns, this`pollFds, this`pool, this`connStatus, this`immediateCallbacks, this`log, this`orphaned, this`removals
      modifies conn`closed, conn`address, conn`connecting
      ensures Valid() && fresh(pool - old(pool)) && old(pool) <= pool && |pollFds| == |conns|
      ensures Grows(old(conns), conns, if ready.write then old(pollFds)[i := old(pollFds)[i].(mode := PollRead)] else old(pollFds), pollFds)
      ensures conn.connecting == (old(conn.connecting) && !ready.write)
      ensures var r := Round(conn, old(conn.address), conn.forListening, ready, refused, results);
              var (events, status) := r.Effect(old(connStatus), At(conns, |old(conns)|, conn));
              && log == old(log) + events && connStatus == status
              && |conns| == |old(conns)| + (if r.Accepts() then 1 else 0)
              && removals == old(removals) + (if r.Marks() then [i] else [])
              && timeouts == r.Timeouts(old(timeouts)) && orphaned == (old(orphaned) || (r.Marks() && Waits(timeouts, conn)))
    {
      hide Loop.Rest, Loop.Unfreed, LifeOk, SeenEvents, SocketEffect;
      if ready.write { FinishConnect(i, conn); }
      if ready.read { ReadReady(conn, results); }
      SameSize();
    }

    /** A tcp connect was refused or timed out. */
    method Refuse(conn: Conn)
      requires Valid() && Live(conn) && conn in pool
      modifies this`immediateCallbacks, this`log, this`orphaned, this`removals, conn`closed
      ensures Valid() && removals == old(removals) + [conn.index]
      ensures log == old(log) + [Call(conn, Error, conn.address, true)]
      ensures orphaned == (old(orphaned) || Waits(timeouts, conn))
    {
      MarkRemoval(conn);
      hide Loop.Rest, Loop.Unfreed, LifeOk;
      SendCallback(conn, Error, true, connStatus);
    }

    /** A tcp connect is complete. */
    method FinishConnect(i: nat, conn: Conn)
      requires Valid() && Live(conn) && conn in pool && i == conn.index
      modifies this`pollFds, this`connStatus, this`immediateCallbacks, this`log, this`orphaned, conn`connecting
      ensures Valid() && connStatus == old(connStatus) + {conn.address}
      ensures log == old(log) + SeenEvents(conn, conn.address, old(connStatus))
      ensures i < |old(pollFds)| && pollFds == old(pollFds)[i := old(pollFds)[i].(mode := PollRead)] && !conn.connecting
      ensures orphaned == old(orphaned)
    {
      LiveIsUnfreed(conn);
      hide Loop.Rest, Loop.Unfreed, LifeOk, SeenEvents;
      RemoteAddressSeen(conn);
      SetPollMode(i, PollRead, conn);
    }

    /** read_from_socket, as often as it asks for. */
    method ReadReady(conn: Conn, results: seq<ReadResult>)
      requires Valid() && Live(conn)
      modifies this`timeouts, this`conns, this`pollFds, this`pool, this`connStatus, this`immediateCallbacks, this`log, this`orphaned, this`removals
      modifies conn`closed, conn`address
      ensures Valid() && fresh(pool - old(pool)) && old(pool) <= pool
      ensures Grows(old(conns), conns, old(pollFds), pollFds)
      ensures var a, listening := old(conn.address), conn.forListening;
              var (events, status) := SocketEffect(conn, a, listening, old(connStatus), results, At(conns, |old(conns)|, conn));
              && log == old(log) + events && connStatus == status
              && |conns| == |old(conns)| + (if listening && a.IsTcp() && FirstOf(results).Accepted? then 1 else 0)
              && removals == old(removals) + (if !(listening && (a.IsTcp() || a.IsUdp())) && Ends(LastOf(results))
                                              then [conn.index] else [])
      ensures var a, listening := old(conn.address), conn.forListening;
              && timeouts == (if listening && a.IsTcp() then old(timeouts) else AllAnswered(old(timeouts), a, results))
              && orphaned == (old(orphaned) || (!(listening && (a.IsTcp() || a.IsUdp())) && Ends(LastOf(results))
                                                && Waits(timeouts, conn)))
    {
      hide Loop.Rest, Loop.Unfreed, LifeOk, SeenEvents, ReadRun;
      if conn.forListening && conn.address.IsTcp() {
        ReadListener(conn, FirstOf(results));
      } else {
        ReadAll(conn, results);
      }
    }

    /** What a pass is given: a conn whose connect is in progress is only polled for the end of that, and every other
        one only for something to read; errors are reported of all. */
    lemma PolledFor(readies: seq<Readiness>, refused: seq<bool>, results: seq<seq<ReadResult>>, i: nat)
      requires Valid() && i < |conns|
      ensures |pollFds| == |conns| == |Rounds(conns, pollFds, readies, refused, results)|
      ensures var r, told := Rounds(conns, pollFds, readies, refused, results)[i], if i < |readies| then readies[i] else Readiness(false, false, false);
              && r.conn == conns[i] && r.address == conns[i].address && r.listening == conns[i].forListening
              && (r.ready.read <==> told.read && !conns[i].connecting)
              && (r.ready.write <==> told.write && conns[i].connecting)
              && r.ready.err == told.err
              && (i < |refused| ==> r.refused == refused[i]) && (i < |results| ==> r.results == results[i])
    {
    }

    lemma SameSize()
      requires Valid()
      ensures |pollFds| == |conns|
    {
    }

    /** check_poll_fds: poll reports on every socket in the arrays, of what its entry asks for. */
    method Poll(readies: seq<Readiness>)
      requires Valid()
      modifies this`pollFds
      ensures Valid() && |pollFds| == |old(pollFds)|
      ensures forall k :: 0 <= k < |pollFds| ==>
                            pollFds[k] == old(pollFds)[k].(revents := Reported(old(pollFds)[k], At(readies, k, NOT_READY)))
    {
      hide Loop.RemovalsOk, Loop.MarkedOk, Loop.Fifo, Loop.Pool, Loop.FreesClosed, Loop.FreesOk, Loop.Orphans, Loop.Unfreed, LifeOk;
      var fds := pollFds;
      pollFds := seq(|fds|, k requires 0 <= k < |fds| =>
        fds[k].(revents := Reported(fds[k], At(readies, k, NOT_READY))));
    }

    /** The polling loop of msg_runloop: one round for each conn that was there at the start.  Conns accepted
        during the pass are looked at but not read, and the removals come out in ascending order. */
    method PollPass(readies: seq<Readiness>, refused: seq<bool>, results: seq<seq<ReadResult>>)
      requires Valid() && removals == []
      modifies this`timeouts, this`conns, this`pollFds, this`pool, this`connStatus, this`immediateCallbacks, this`log, this`orphaned, this`removals
      modifies pool`closed, pool`address, pool`connecting
      ensures Valid() && fresh(pool - old(pool)) && old(pool) <= pool
      ensures |old(conns)| <= |conns| && conns[..|old(conns)|] == old(conns)
      ensures Reached(old(Rounds(conns, pollFds, readies, refused, results)), old(Now()), |old(conns)|)
    {
      PoolHolds();
      ghost var rounds := Rounds(conns, pollFds, readies, refused, results);
      Poll(readies);
      PollRounds(rounds, refused, results);
    }

    ghost function Now(): Snapshot
      reads this`conns, this`connStatus, this`log, this`removals, this`timeouts, this`orphaned
    {
      Snapshot(conns, connStatus, log, removals, timeouts, orphaned)
    }

    /** The first k rounds of a pass that began in state s have been done. */
    ghost predicate Reached(rounds: seq<Round>, s: Snapshot, k: nat)
      reads this`conns, this`connStatus, this`log, this`removals, this`timeouts, this`orphaned
    {
      PassDone(rounds, s, Now(), k)
    }

    /** The slots from i on are as the pass found them; those behind them have not been polled. */
    ghost predicate Ahead(rounds: seq<Round>, i: nat)
      reads this`conns, this`pollFds, conns
    {
      && |rounds| <= |conns| == |pollFds|
      && (forall k :: |rounds| <= k < |conns| ==> pollFds[k].revents == NOT_READY)
      && (forall k :: i <= k < |rounds| ==>
                        conns[k] == rounds[k].conn && conns[k].address == rounds[k].address
                        && conns[k].forListening == rounds[k].listening && pollFds[k].revents == rounds[k].ready)
    }

    method PollRounds(ghost rounds: seq<Round>, refused: seq<bool>, results: seq<seq<ReadResult>>)
      requires Valid() && removals == [] && |conns| == |rounds| && Ahead(rounds, 0)
      requires forall i :: 0 <= i < |rounds| ==>
                             rounds[i].refused == At(refused, i, false) && rounds[i].results == At(results, i, [])
      modifies this`timeouts, this`conns, this`pollFds, this`pool, this`connStatus, this`immediateCallbacks, this`log, this`orphaned, this`removals
      modifies pool`closed, pool`address, pool`connecting
      ensures Valid() && fresh(pool - old(pool)) && old(pool) <= pool
      ensures |old(conns)| <= |conns| && conns[..|old(conns)|] == old(conns)
      ensures Reached(rounds, old(Now()), |rounds|)
    {
      hide *;
      ghost var n, s := |rounds|, Now();
      NoneReached(rounds);
      var i := 0;
      while i < |conns|
        invariant Valid() && fresh(pool - old(pool)) && old(pool) <= pool
        invariant n <= |conns| && conns[..n] == old(conns) && i <= |conns| && Ahead(rounds, i)
        invariant Reached(rounds, s, if i <= n then i else n)
        decreases if i < n then n - i else 0, |conns| - i
      {
        SlotsDiffer(i);
        PollRound(i, conns[i], rounds, s, At(refused, i, false), At(results, i, []));
        i := i + 1;
      }
    }

    lemma NoneReached(rounds: seq<Round>)
      requires removals == [] && |conns| == |rounds|
      ensures Reached(rounds, Now(), 0)
    {
    }

    /** One round, in terms of the pass. */
    method PollRound(i: nat, conn: Conn, ghost rounds: seq<Round>, ghost s: Snapshot, refused: bool, results: seq<ReadResult>)
      requires Valid() && i < |conns| && conns[i] == conn && |rounds| <= |conns| && Ahead(rounds, i)
      requires i < |rounds| ==> rounds[i].refused == refused && rounds[i].results == results
      requires Reached(rounds, s, if i <= |rounds| then i else |rounds|)
      modifies this`timeouts, this`conns, this`pollFds, this`pool, this`connStatus, this`immediateCallbacks, this`log, this`orphaned, this`removals
      modifies conn`closed, conn`address, conn`connecting
      ensures Valid() && fresh(pool - old(pool)) && old(pool) <= pool
      ensures |old(conns)| <= |conns| && conns[..|old(conns)|] == old(conns) && Ahead(rounds, i + 1)
      ensures Reached(rounds, s, if i < |rounds| then i + 1 else |rounds|)
      ensures i >= |rounds| ==> conns == old(conns)
    {
      ghost var before := Now();
      NotMarked(rounds, s, i);
      assert PassDone(rounds, s, before, if i <= |rounds| then i else |rounds|);
      hide *;
      HandleAt(i, conn, rounds, refused, results);
      if i < |rounds| { Advance(rounds, s, before, i); } else { StillReached(rounds, s, before); }
    }

    lemma NotMarked(rounds: seq<Round>, s: Snapshot, i: nat)
      requires Reached(rounds, s, if i <= |rounds| then i else |rounds|)
      ensures i !in removals
    {
      MarksAre(rounds, s.status, conns[|rounds|..], if i <= |rounds| then i else |rounds|);
    }

    lemma StillReached(rounds: seq<Round>, s: Snapshot, before: Snapshot)
      requires PassDone(rounds, s, before, |rounds|) && before == Now()
      ensures Reached(rounds, s, |rounds|)
    {
    }

    lemma Advance(rounds: seq<Round>, s: Snapshot, before: Snapshot, i: nat)
      requires PassDone(rounds, s, before, i) && i < |rounds| && RoundDone(rounds[i], i, before, Now())
      ensures Reached(rounds, s, i + 1)
    {
      hide PassDone, RoundDone;
      PassDoneNext(rounds, s, before, Now(), i);
    }

    /** One round, in terms of the slots. */
    method HandleAt(i: nat, conn: Conn, ghost rounds: seq<Round>, refused: bool, results: seq<ReadResult>)
      requires Valid() && i < |conns| && conns[i] == conn && i !in removals && Ahead(rounds, i)
      requires i < |rounds| ==> rounds[i].refused == refused && rounds[i].results == results
      modifies this`timeouts, this`conns, this`pollFds, this`pool, this`connStatus, this`immediateCallbacks, this`log, this`orphaned, this`removals
      modifies conn`closed, conn`address, conn`connecting
      ensures Valid() && fresh(pool - old(pool)) && old(pool) <= pool
      ensures |old(conns)| <= |conns| && conns[..|old(conns)|] == old(conns) && Ahead(rounds, i + 1)
      ensures if i < |rounds| then RoundDone(rounds[i], i, old(Now()), Now()) else Now() == old(Now()) && conns == old(conns)
    {
      hide Loop.Rest, LifeOk, SocketEffect, SeenEvents, Loop.Unfreed, AllAnswered, Waits;
      SlotsDiffer(i);
      HandleReady(i, conn, refused, results);
    }

    lemma SlotsDiffer(i: nat)
      requires Valid() && i < |conns|
      ensures conns[i] in pool && forall k: nat :: k < |conns| && k != i ==> conns[k] != conns[i]
    {
      assert conns[i] in conns;
    }

    lemma PoolHolds()
      requires Valid()
      ensures |pollFds| == |conns| && forall c <- conns :: c in pool
    {
    }

    // ----- Draining -----

    /** remove_conn_at: fill the slot with the last conn, tell it its new index, and do the same to poll_fds. */
    method RemoveConnAt(i: nat)
      requires Aligned() && conns != [] && forall c <- conns :: c in pool
      modifies this`conns, this`pollFds, pool`index
      ensures Aligned() && conns == RemoveAndFill(old(conns), i) && pollFds == RemoveAndFill(old(pollFds), i)
    {
      conns := RemoveAndFill(conns, i);
      if i < |conns| { conns[i].index := i; }
      pollFds := RemoveAndFill(pollFds, i);
    }

    method RemoveAllMarked()
      requires Aligned() && |removals| <= |conns| && forall c <- conns :: c in pool
      modifies this`conns, this`pollFds, pool`index
      ensures Aligned() && conns == DrainAll(old(conns), removals)
      ensures |pollFds| + |removals| == |old(pollFds)| && pollFds == DrainAll(old(pollFds), removals)
    {
      var i := 0;
      while i < |removals|
        invariant Aligned() && 0 <= i <= |removals| <= |conns| + i
        invariant DrainAll(conns, removals[i..]) == DrainAll(old(conns), removals)
        invariant DrainAll(pollFds, removals[i..]) == DrainAll(old(pollFds), removals)
        invariant forall c <- conns :: c in pool
      {
        hide NoDup;
        RemoveAndFillSubset(conns, removals[i]);
        assert removals[i..][1..] == removals[i + 1..];
        RemoveConnAt(removals[i]);
        i := i + 1;
      }
    }

    /** What a drain of the pending removals leaves, told from the arrays before it. */
    lemma DrainIsExact()
      requires Valid()
      ensures |removals| <= |conns| && NoDup(conns) && Indices(|conns|, removals)
      ensures RemovesMarked(conns, removals) <==> OrderOk(|conns|, removals)
      ensures forall c <- conns :: c in pool
    {
      IndicesFit(|conns|, removals);
      hide DrainAll, Lands;
      DrainRemovesMarkedIff(conns, removals);
    }

    /** remove_conn_at for each pending removal.  Whatever their order, the arrays stay aligned; the conns that
        remain are exactly the live ones if and only if the order is one that OrderOk accepts. */
    method DrainRemovals()
      requires Valid()
      modifies this`conns, this`pollFds, this`removals, this`inOrder, pool`index
      ensures Valid() && removals == []
      ensures |old(removals)| <= |old(conns)| == |old(pollFds)| && conns == DrainAll(old(conns), old(removals))
      ensures pollFds == DrainAll(old(pollFds), old(removals))
      ensures inOrder == (old(inOrder) && OrderOk(|old(conns)|, old(removals)))
      ensures RemovesMarked(old(conns), old(removals)) <==> OrderOk(|old(conns)|, old(removals))
    {
      hide Loop.Aligned, Loop.RemovalsOk, Loop.MarkedOk, Loop.Fifo, Loop.Pool, DrainAll, OrderOk, Indices, NoDup, LifeOk;
      DrainIsExact();
      DrainKeeps(conns, removals);
      AlignedIsOk();
      ghost var was, rs := conns, removals;
      ghost var marks := Marks();
      RemoveAllMarked();
      if !OrderOk(|was|, rs) { inOrder := false; }
      removals := [];
      OnlyLiveRemain(was, rs, marks);
      NothingMarked();
    }

    /** Which conns are on their way out. */
    ghost function Marks(): (m: map<Conn, bool>)
      reads this`conns, conns
      ensures m.Keys == Elems(conns)
    {
      map c | c in conns :: c.closed
    }

    lemma AlignedIsOk()
      requires Valid()
      ensures Aligned() && (forall call <- log :: call.conn in pool) && forall t <- timeouts :: t.conn in pool
      ensures inOrder ==> forall p: nat :: p < |conns| ==> (conns[p].closed <==> p in removals)
    {
    }

    lemma NothingMarked()
      requires removals == [] && (forall c <- conns :: c in pool) && forall call <- log :: call.conn in pool
      requires forall t <- timeouts :: t.conn in pool
      ensures RemovalsOk() && Pool()
    {
    }

    lemma OnlyLiveRemain(was: seq<Conn>, rs: seq<nat>, marks: map<Conn, bool>)
      requires |rs| <= |was| && conns == DrainAll(was, rs) && removals == [] && marks.Keys == Elems(was)
      requires forall c <- conns :: c in was && c.closed == marks[c]
      requires inOrder ==> RemovesMarked(was, rs)
      requires inOrder ==> forall p: nat :: p < |was| ==> (marks[was[p]] <==> p in rs)
      ensures MarkedOk()
    {
      forall i: nat | i < |conns| && inOrder ensures !conns[i].closed {
        assert conns[i] in conns;
        var p: nat :| p < |was| && was[p] == conns[i];
      }
    }

    // ----- Callbacks and public calls -----

    /** The public call opens a conn: msg_listen or msg_connect. */
    twostate predicate Opens(call: UserCall, new conn: Conn)
      requires call.Open?
      reads this`conns, this`pollFds, this`log, this`connStatus, this`timeouts, this`removals, conn
    {
      var (a, l, outcome) := (call.address, call.forListening, call.outcome);
      var keeps := OpenKeeps(outcome, l, a.IsTcp());
      && conn.address == a && conns == old(conns) + (if keeps then [conn] else [])
      && pollFds == old(pollFds) + (if keeps then [PollFd(call.socket, if outcome.InProgress? then PollWrite else PollRead, NOT_READY)] else [])
      && log == old(log) + OpenEvents(conn, a, l, outcome, old(connStatus))
      && connStatus == OpenStatus(a, l, outcome, old(connStatus))
      && timeouts == old(timeouts) && removals == old(removals)
    }

    /** What a public call on a live conn, which had address a, comes to. */
    twostate predicate Does(call: UserCall, conn: Conn, a: Address, listening: bool)
      reads this`log, this`connStatus, this`timeouts, this`removals, conn
    {
      var error, stays := [Call(conn, Error, a, false)], listening && a.IsUdp();
      var ends := if call.Disconnect? then !stays else call.Unlisten? && listening && !(call.closeFails && call.badSocket);
      && removals == old(removals) + (if ends then [conn.index] else [])
      && conn.address == (if call.SetRemote? then call.address else a)
      && conn.forListening == (listening && !call.Unlisten?)
      && match call
         case Disconnect(_, fails) =>
           && log == old(log) + (if fails then error else []) + [Call(conn, ConnectionClosed, a, !stays)]
           && connStatus == old(connStatus) - {a} && timeouts == old(timeouts)
         case Unlisten(_, closeFails, _) =>
           && log == old(log) + (if !listening || closeFails then error else []) + (if ends then [Call(conn, ListeningEnded, a, true)] else [])
           && connStatus == old(connStatus) - (if ends then {a} else {}) && timeouts == old(timeouts)
         case Send(_, fails) =>
           log == old(log) + (if fails then error else []) && connStatus == old(connStatus) && timeouts == old(timeouts)
         case Get(_, fails, replyId, due) =>
           var sent := a in old(connStatus) && !fails;
           && log == old(log) + (if sent then [] else error) && connStatus == old(connStatus)
           && timeouts == old(timeouts) + (if sent then [Requests.Timeout(due, conn, Requests.Key(a, replyId))] else [])
         case _ => log == old(log) && connStatus == old(connStatus) && timeouts == old(timeouts)
    }

    /** A public call by the user, who names only conns that are still live. */
    method Perform(call: UserCall) returns (ghost added: Conn?)
      requires Valid()
      modifies this`timeouts, this`conns, this`pollFds, this`pool, this`connStatus, this`immediateCallbacks, this`log, this`orphaned, this`removals
      modifies this`performed, pool`closed, pool`address, pool`forListening
      ensures Valid() && old(log) <= log && fresh(pool - old(pool)) && old(pool) <= pool
      ensures old(conns) <= conns && forall c <- conns :: c in old(conns) || c !in old(pool)
      ensures performed == old(performed) + [call]
      ensures if call.Open? then added != null && fresh(added) && Opens(call, added)
              else if call.at < |old(conns)| && call.at !in old(removals) then
                var conn := old(conns)[call.at];
                conns == old(conns) && pollFds == old(pollFds) && Does(call, conn, old(conn.address), old(conn.forListening))
              else conns == old(conns) && log == old(log) && timeouts == old(timeouts) && connStatus == old(connStatus) && removals == old(removals)
      ensures old(timeouts) <= timeouts && (old(orphaned) ==> orphaned) && (!call.Get? ==> timeouts == old(timeouts))
    {
      hide *;
      added := null;
      if call.Open? {
        added := PerformOpen(call);
      } else if call.at < |conns| && call.at !in removals {
        SlotIsLive(call.at);
        PerformOn(call, conns[call.at]);
      }
      Note(call);
    }

    method PerformOpen(call: UserCall) returns (ghost conn: Conn)
      requires Valid() && call.Open?
      modifies this`conns, this`pollFds, this`pool, this`connStatus, this`immediateCallbacks, this`log, this`orphaned
      ensures Valid() && fresh(conn) && pool == old(pool) + {conn} && Opens(call, conn)
      ensures old(log) <= log && old(conns) <= conns && orphaned == old(orphaned)
      ensures forall c <- conns :: c in old(conns) || c == conn
    {
      hide Loop.Valid, OpenEvents, OpenStatus;
      conn := OpenSocket(call.address, call.forListening, call.socket, call.outcome);
    }

    ghost method Note(call: UserCall)
      requires Valid()
      modifies this`performed
      ensures Valid() && performed == old(performed) + [call]
    {
      performed := performed + [call];
    }

    /** A public call on a conn. */
    method PerformOn(call: UserCall, conn: Conn)
      requires Valid() && Live(conn) && conn in pool && !call.Open?
      modifies this`timeouts, this`connStatus, this`immediateCallbacks, this`log, this`orphaned, this`removals
      modifies conn`closed, conn`address, conn`forListening
      ensures Valid() && Does(call, conn, old(conn.address), old(conn.forListening)) && (!call.Get? ==> timeouts == old(timeouts))
      ensures old(log) <= log && old(timeouts) <= timeouts && (old(orphaned) ==> orphaned)
    {
      hide Loop.Rest, Loop.Unfreed, LifeOk, Waits;
      match call
      case Disconnect(_, sendFails) => MsgDisconnect(conn, sendFails);
      case Unlisten(_, closeFails, badSocket) => MsgUnlisten(conn, closeFails, badSocket);
      case SetRemote(_, address) => SetAddress(conn, address);
      case Send(_, fails) => MsgSend(conn, fails);
      case Get(_, fails, replyId, due) => MsgGet(conn, fails, replyId, due);
    }

    /** msg_disconnect */
    method MsgDisconnect(conn: Conn, sendFails: bool)
      requires Valid() && Live(conn) && conn in pool
      modifies this`connStatus, this`immediateCallbacks, this`log, this`orphaned, this`removals, conn`closed
      ensures Valid() && connStatus == old(connStatus) - {conn.address}
      ensures log == old(log) + (if sendFails then [Call(conn, Error, conn.address, false)] else [])
                     + [Call(conn, ConnectionClosed, conn.address, !(conn.forListening && conn.address.IsUdp()))]
      ensures removals == old(removals) + (if conn.forListening && conn.address.IsUdp() then [] else [conn.index])
      ensures orphaned == (old(orphaned) || (!(conn.forListening && conn.address.IsUdp()) && Waits(timeouts, conn)))
    {
      LiveIsUnfreed(conn);
      hide Loop.Rest, Loop.Unfreed, LifeOk;
      if sendFails { SendCallback(conn, Error, false, connStatus); }
      LocalDisconnect(conn, ConnectionClosed);
    }

    /** msg_send, as far as the run loop sees it. */
    method MsgSend(conn: Conn, fails: bool)
      requires Valid() && Live(conn) && conn in pool
      modifies this`immediateCallbacks, this`log, this`orphaned
      ensures Valid() && log == old(log) + if fails then [Call(conn, Error, conn.address, false)] else []
      ensures orphaned == old(orphaned)
    {
      LiveIsUnfreed(conn);
      hide Loop.Rest, Loop.Unfreed, LifeOk;
      if fails { SendCallback(conn, Error, false, connStatus); }
    }

    /** msg_get, as far as the run loop sees it: an error if the address has no status, or the send fails; else a
        timeout that names the conn.  Which id is given out is the subject of Requests. */
    method MsgGet(conn: Conn, fails: bool, replyId: uint16, due: int)
      requires Valid() && Live(conn) && conn in pool
      modifies this`timeouts, this`immediateCallbacks, this`log, this`orphaned
      ensures Valid() && orphaned == old(orphaned)
      ensures log == old(log) + if conn.address !in connStatus || fails then [Call(conn, Error, conn.address, false)] else []
      ensures timeouts == old(timeouts) + if conn.address !in connStatus || fails then []
                          else [Requests.Timeout(due, conn, Requests.Key(conn.address, replyId))]
    {
      LiveIsUnfreed(conn);
      hide Loop.Unfreed, LifeOk;
      if conn.address !in connStatus || fails {
        hide Loop.Rest;
        SendCallback(conn, Error, false, connStatus);
      } else {
        AddTimeout(Requests.Timeout(due, conn, Requests.Key(conn.address, replyId)));
      }
    }

    /** add_timeout, for a get of a live conn. */
    method AddTimeout(t: Timeout)
      requires Valid() && t.conn in pool && (inOrder ==> Unfreed(t.conn))
      modifies this`timeouts
      ensures Valid() && timeouts == old(timeouts) + [t]
    {
      hide Loop.Aligned, Loop.MarkedOk, Loop.Fifo, Loop.FreesOk, Loop.Unfreed, LifeOk;
      timeouts := timeouts + [t];
    }

    lemma SlotIsLive(i: nat)
      requires Valid() && i < |conns| && i !in removals
      ensures Live(conns[i]) && conns[i] in pool
    {
      assert conns[i] in conns;
    }

    /** The user points a conn at another remote address. */
    method SetAddress(conn: Conn, address: Address)
      requires Valid()
      modifies conn`address
      ensures Valid() && conn.address == address
    {
      hide Loop.Fifo, Loop.FreesOk, Loop.Orphans, Loop.Unfreed, LifeOk;
      conn.address := address;
    }

    /** msg_unlisten */
    method MsgUnlisten(conn: Conn, closeFails: bool, badSocket: bool)
      requires Valid() && Live(conn) && conn in pool
      modifies this`connStatus, this`immediateCallbacks, this`log, this`orphaned, this`removals, conn`closed, conn`forListening
      ensures Valid() && !conn.forListening
      ensures var error, a := [Call(conn, Error, conn.address, false)], conn.address;
              if !old(conn.forListening) then log == old(log) + error && connStatus == old(connStatus)
              else if closeFails && badSocket then log == old(log) + error && connStatus == old(connStatus)
              else log == old(log) + (if closeFails then error else []) + [Call(conn, ListeningEnded, a, true)]
                   && connStatus == old(connStatus) - {a}
      ensures orphaned == (old(orphaned) || (old(conn.forListening) && !(closeFails && badSocket) && Waits(timeouts, conn)))
      ensures removals == old(removals) + (if old(conn.forListening) && !(closeFails && badSocket) then [conn.index] else [])
    {
      LiveIsUnfreed(conn);
      hide Loop.Rest, Loop.Unfreed, LifeOk;
      if !conn.forListening {
        SendCallback(conn, Error, false, connStatus);
        return;
      }
      StopListening(conn);
      if closeFails {
        SendCallback(conn, Error, false, connStatus);
        if badSocket { return; }
      }
      LocalDisconnect(conn, ListeningEnded);
    }

    method StopListening(conn: Conn)
      requires Valid()
      modifies conn`forListening
      ensures Valid() && !conn.forListening
    {
      hide Loop.Fifo, Loop.FreesOk, Loop.Orphans, Loop.Unfreed, LifeOk;
      conn.forListening := false;
    }

    /** The conns that the calls being made will free have left the arrays. */
    ghost predicate SavedGone()
      reads this`inOrder, this`saved, this`conns
    {
      inOrder ==> forall call <- saved :: call.toFree ==> call.conn !in conns
    }

    /** A udp conn shows the callback of a message, or of a new address, the address it came from. */
    predicate ShowsSender(call: PendingCall)
      reads call.conn
    {
      call.conn.address.IsUdp() && (call.kind.IsData() || call.kind.ConnectionReady?) ==> call.conn.address == call.address
    }

    /** The start of make_call: on udp, the metadata's address goes into the conn. */
    method ShowSender(call: PendingCall)
      requires Valid()
      modifies call.conn`address
      ensures Valid() && ShowsSender(call)
    {
      if call.conn.address.IsUdp() && (call.kind.IsData() || call.kind.ConnectionReady?) {
        SetAddress(call.conn, call.address);
      }
    }

    /** The user's callback: it makes public calls, which may queue more. */
    method Callback(call: PendingCall, script: seq<UserCall>)
      requires Valid() && SavedGone() && ShowsSender(call) && (inOrder && call.toFree ==> call.conn !in conns)
      requires call.conn in pool && forall c <- saved :: c.conn in pool
      modifies this`timeouts, this`conns, this`pollFds, this`pool, this`connStatus, this`immediateCallbacks, this`log, this`orphaned, this`removals
      modifies this`performed, pool`closed, pool`address, pool`forListening
      ensures Valid() && SavedGone() && (inOrder && call.toFree ==> call.conn !in conns) && call.conn in pool
      ensures fresh(pool - old(pool)) && old(pool) <= pool && old(log) <= log && old(conns) <= conns
      ensures performed == old(performed) + script && (NoGet(script) ==> timeouts == old(timeouts))
      ensures old(timeouts) <= timeouts && (old(orphaned) ==> orphaned)
    {
      hide Loop.Rest, Loop.Unfreed, LifeOk;
      var i := 0;
      while i < |script|
        invariant Valid() && SavedGone() && (inOrder && call.toFree ==> call.conn !in conns)
        invariant inOrder == old(inOrder) && saved == old(saved) && delivered == old(delivered)
        invariant old(timeouts) <= timeouts && (old(orphaned) ==> orphaned)
        invariant fresh(pool - old(pool)) && old(pool) <= pool && old(log) <= log && old(conns) <= conns
        invariant i <= |script| && performed == old(performed) + script[..i] && (NoGet(script) ==> timeouts == old(timeouts))
      {
        var added := Perform(script[i]);
        i := i + 1;
      }
    }

    /** make_call; after the callback the conn is freed if the call says so. */
    method MakeCall(call: PendingCall, script: seq<UserCall>)
      requires Valid() && SavedGone() && saved != [] && saved[0] == call
      modifies this`timeouts, this`conns, this`pollFds, this`pool, this`connStatus, this`immediateCallbacks, this`log, this`orphaned, this`removals
      modifies this`performed, this`delivered, this`saved, this`freedEarly, pool`closed, pool`address, pool`forListening
      ensures Valid() && SavedGone() && delivered == old(delivered) + [call] && saved == old(saved)[1..]
      ensures fresh(pool - old(pool)) && old(pool) <= pool && old(log) <= log && old(conns) <= conns
      ensures performed == old(performed) + script && (NoGet(script) ==> timeouts == old(timeouts))
      ensures old(timeouts) <= timeouts && (old(orphaned) ==> orphaned)
    {
      Deliver(call);
      hide Loop.Rest, Loop.Unfreed, LifeOk;
      ShowSender(call);
      Callback(call, script);
      if call.toFree { FreeConn(call.conn); }
    }

    ghost method Deliver(call: PendingCall)
      requires Valid() && SavedGone() && saved != [] && saved[0] == call
      modifies this`delivered, this`saved
      ensures Valid() && SavedGone() && delivered == old(delivered) + [call] && saved == old(saved)[1..]
      ensures call.conn in pool && (forall c <- saved :: c.conn in pool) && (inOrder && call.toFree ==> call.conn !in conns)
    {
      delivered, saved := delivered + [call], saved[1..];
      assert old(delivered) + old(saved) == delivered + saved;
      assert call in log && forall c <- saved :: c in log;
    }

    ghost method FreeConn(conn: Conn)
      requires Valid() && (inOrder ==> conn !in conns)
      modifies this`freedEarly
      ensures Valid() && freedEarly == (old(freedEarly) || conn in conns)
    {
      hide LifeOk;
      freedEarly := freedEarly || conn in conns;
    }

    /** The last part of msg_runloop: the calls queued so far are set aside and made in order; what callbacks
        queue is left for the next pass. */
    method MakeCalls(scripts: seq<seq<UserCall>>)
      requires Valid() && removals == [] && saved == []
      modifies this`timeouts, this`conns, this`pollFds, this`pool, this`connStatus, this`immediateCallbacks, this`log, this`orphaned, this`removals
      modifies this`performed, this`delivered, this`saved, this`freedEarly, pool`closed, pool`address, pool`forListening
      ensures Valid() && saved == [] && delivered == old(delivered) + old(immediateCallbacks)
      ensures fresh(pool - old(pool)) && old(pool) <= pool && old(log) <= log && old(conns) <= conns
      ensures performed == old(performed) + AllOf(scripts, |old(immediateCallbacks)|)
      ensures (forall script <- scripts :: NoGet(script)) ==> (timeouts == old(timeouts))
      ensures old(timeouts) <= timeouts && (old(orphaned) ==> orphaned)
    {
      hide *;
      var calls := immediateCallbacks;
      SetAside();
      AllOfNothing(scripts);
      var i := 0;
      while i < |calls|
        invariant Valid() && SavedGone() && i <= |calls| && saved == calls[i..] && delivered == old(delivered) + calls[..i]
        invariant old(timeouts) <= timeouts && (old(orphaned) ==> orphaned)
        invariant fresh(pool - old(pool)) && old(pool) <= pool && old(log) <= log && old(conns) <= conns
        invariant performed == old(performed) + AllOf(scripts, i)
        invariant (forall script <- scripts :: NoGet(script)) ==> timeouts == old(timeouts)
      {
        AllOfNext(performed, old(performed), scripts, i);
        AllOfCalls(old(delivered), calls, i);
        MakeCall(calls[i], At(scripts, i, []));
        i := i + 1;
      }
    }

    method SetAside()
      requires Valid() && removals == [] && saved == []
      modifies this`immediateCallbacks, this`saved
      ensures Valid() && SavedGone() && immediateCallbacks == [] && saved == old(immediateCallbacks)
    {
      hide Loop.Aligned, LifeOk;
      saved, immediateCallbacks := immediateCallbacks, [];
      assert forall call <- saved :: call in log;
      forall call <- saved | call.toFree && inOrder ensures call.conn !in conns {
        assert call.conn.closed;
      }
    }

    // ----- The run loop -----

    /** The polling part of msg_runloop when poll reports something. */
    method PollAndDrain(readies: seq<Readiness>, refused: seq<bool>, results: seq<seq<ReadResult>>)
      returns (ghost added: seq<Conn>)
      requires Valid() && removals == [] && |conns| == |pollFds|
      modifies this`timeouts, this`conns, this`pollFds, this`pool, this`connStatus, this`immediateCallbacks, this`log, this`orphaned, this`removals
      modifies this`inOrder, pool`closed, pool`address, pool`connecting, pool`index
      ensures Valid() && removals == [] && fresh(pool - old(pool)) && old(pool) <= pool
      ensures var rounds := old(Rounds(conns, pollFds, readies, refused, results));
              var p := Pass(rounds, old(connStatus), added, |rounds|);
              log == old(log) + p.events && connStatus == p.status && |added| == p.accepted
              && timeouts == PassTimeouts(rounds, old(timeouts), |rounds|)
              && orphaned == (old(orphaned) || PassOrphans(rounds, old(timeouts), |rounds|))
              && |p.marks| <= |old(conns) + added| && conns == DrainAll(old(conns) + added, p.marks)
    {
      hide Loop.Rest, Loop.Unfreed, LifeOk, Pass, PassTimeouts, PassOrphans;
      ghost var n := |conns|;
      PollPass(readies, refused, results);
      added := conns[n..];
      assert conns == old(conns) + added;
      DrainRemovals();
    }

    /** What msg_runloop does with the outcome of poll. */
    method PollIf(pollOk: bool, readies: seq<Readiness>, refused: seq<bool>, results: seq<seq<ReadResult>>)
      returns (ghost added: seq<Conn>)
      requires Valid() && removals == [] && |conns| == |pollFds|
      modifies this`timeouts, this`conns, this`pollFds, this`pool, this`connStatus, this`immediateCallbacks, this`log, this`orphaned, this`removals
      modifies this`inOrder, pool`closed, pool`address, pool`connecting, pool`index
      ensures Valid() && removals == [] && fresh(pool - old(pool)) && old(pool) <= pool
      ensures var rounds := old(Rounds(conns, pollFds, readies, refused, results));
              var p := if pollOk then Pass(rounds, old(connStatus), added, |rounds|) else PassEffect([], old(connStatus), 0, []);
              && log == old(log) + p.events && |added| == p.accepted
              && timeouts == (if pollOk then PassTimeouts(rounds, old(timeouts), |rounds|) else old(timeouts))
              && |p.marks| <= |old(conns) + added| && conns == DrainAll(old(conns) + added, p.marks)
    {
      hide Loop.Rest, Loop.Unfreed, LifeOk, Pass, PassTimeouts, PassOrphans;
      added := [];
      if pollOk { added := PollAndDrain(readies, refused, results); } else { assert conns + added == conns; }
    }

    lemma Queued()
      requires Valid() && saved == []
      ensures log == delivered + immediateCallbacks
    {
    }

    /** The timeout loop of msg_runloop: it removes the item it stands on and backs up one.  Each expired get
        queues an error for timeout->conn, whatever has become of that conn. */
    method ExpireTimeouts(now: int) returns (ghost expired: seq<PendingCall>)
      requires Valid()
      modifies this`timeouts, this`immediateCallbacks, this`log, this`lateExpiry
      ensures Valid()
      ensures var n := DueFirst(old(timeouts), now);
              && timeouts == old(timeouts)[n..] && log == old(log) + expired && expired == ExpiredCalls(old(timeouts)[..n])
              && |expired| == n && (forall i :: 0 <= i < n ==> IsTimeoutOf(expired[i], old(timeouts)[i]))
              && lateExpiry == (old(lateExpiry) || exists i :: 0 <= i < n && old(timeouts)[i].conn in old(Freed()))
    {
      ghost var was, n, all, freed := timeouts, DueFirst(timeouts, now), ExpiredCalls(timeouts), Freed();
      ghost var log0, late := log, lateExpiry;
      NoneExpired(n);
      hide *;
      ExpireDue(now, was, all, n, log0, late, freed);
      AllExpired(was, all, n, log0, late, freed);
      expired := all[..n];
    }

    method ExpireDue(now: int, ghost was: seq<Timeout>, ghost all: seq<PendingCall>, ghost n: nat, ghost log0: seq<PendingCall>,
                     ghost late: bool, ghost freed: set<Conn>)
      requires Valid() && timeouts == was && Expired(was, all, 0, log0, late, freed)
      requires n <= |was| && (forall i :: 0 <= i < n ==> was[i].at <= now) && (n < |was| ==> was[n].at > now)
      modifies this`timeouts, this`immediateCallbacks, this`log, this`lateExpiry
      ensures Valid() && timeouts == was[n..] && Expired(was, all, n, log0, late, freed)
    {
      hide *;
      ghost var k: nat := 0;
      var i := 0;
      while i < |timeouts|
        invariant i == 0 && Valid() && k <= n && timeouts == was[k..] && Expired(was, all, k, log0, late, freed)
        decreases |timeouts|
      {
        if timeouts[i].at > now { break; }
        ExpireNext(was, all, k, log0, late, freed);
        k := k + 1;
        i := i - 1;
        i := i + 1;
      }
    }

    lemma NoneExpired(n: nat)
      requires Valid() && n <= |timeouts|
      ensures |ExpiredCalls(timeouts)| == |timeouts|
      ensures Expired(timeouts, ExpiredCalls(timeouts), 0, log, lateExpiry, Freed())
      ensures ExpiredCalls(timeouts)[..n] == ExpiredCalls(timeouts[..n])
    {
      forall i | 0 <= i < |timeouts| ensures timeouts[i].conn in pool { InPool(i); }
    }

    /** The first k of the timeouts have been taken off the queue. */
    ghost predicate Expired(was: seq<Timeout>, all: seq<PendingCall>, k: nat, log0: seq<PendingCall>, late: bool, freed: set<Conn>)
      reads this`log, this`lateExpiry, this`pool, set t <- was :: t.conn
    {
      && k <= |was| == |all| && log == log0 + all[..k]
      && (forall i :: 0 <= i < |was| ==> assert was[i] in was; all[i] == Call(was[i].conn, Error, was[i].conn.address, false))
      && lateExpiry == (late || exists j :: 0 <= j < k && was[j].conn in freed)
      && forall c <- pool :: (c in freed <==> !Unfreed(c))
    }

    method ExpireNext(ghost was: seq<Timeout>, ghost all: seq<PendingCall>, ghost k: nat, ghost log0: seq<PendingCall>,
                      ghost late: bool, ghost freed: set<Conn>)
      requires Valid() && k < |was| && timeouts == was[k..] && Expired(was, all, k, log0, late, freed)
      modifies this`timeouts, this`immediateCallbacks, this`log, this`lateExpiry
      ensures Valid() && timeouts == was[k + 1..] && Expired(was, all, k + 1, log0, late, freed)
    {
      hide Loop.Rest, LifeOk, Loop.Unfreed;
      assert timeouts[0] == was[k] && all[..k + 1] == all[..k] + [all[k]];
      InPool(0);
      ExpireOne();
    }

    lemma AllExpired(was: seq<Timeout>, all: seq<PendingCall>, n: nat, log0: seq<PendingCall>, late: bool, freed: set<Conn>)
      requires Expired(was, all, n, log0, late, freed)
      ensures log == log0 + all[..n] && forall i :: 0 <= i < n ==> IsTimeoutOf(all[i], was[i])
      ensures lateExpiry == (late || exists j :: 0 <= j < n && was[j].conn in freed)
    {
    }

    lemma InPool(i: nat)
      requires Valid() && i < |timeouts|
      ensures timeouts[i].conn in pool
    {
      assert timeouts[i] in timeouts;
    }

    /** The body of the timeout loop for the timeout at index 0. */
    method ExpireOne()
      requires Valid() && timeouts != []
      modifies this`timeouts, this`immediateCallbacks, this`log, this`lateExpiry
      ensures var conn := old(timeouts)[0].conn;
              && Valid() && timeouts == old(timeouts)[1..]
              && log == old(log) + [Call(conn, Error, conn.address, false)]
              && lateExpiry == (old(lateExpiry) || !old(Unfreed(conn)))
      ensures forall c <- pool :: Unfreed(c) == old(Unfreed(c))
    {
      var conn := timeouts[0].conn;
      OfTimeout();
      assert forall t <- timeouts[1..] :: t in timeouts;
      hide Loop.Rest, LifeOk, Loop.Unfreed;
      TakeTimeouts(timeouts[1..]);
      QueueExpired(conn);
    }

    lemma OfTimeout()
      requires Valid() && timeouts != []
      ensures timeouts[0].conn in pool && (inOrder && !orphaned ==> Unfreed(timeouts[0].conn))
    {
      assert timeouts[0] in timeouts;
    }

    /** send_callback for an expired get. */
    method QueueExpired(conn: Conn)
      requires Valid() && conn in pool && (inOrder && !orphaned ==> Unfreed(conn))
      modifies this`immediateCallbacks, this`log, this`lateExpiry
      ensures Valid() && log == old(log) + [Call(conn, Error, conn.address, false)]
      ensures lateExpiry == (old(lateExpiry) || !old(Unfreed(conn)))
      ensures forall c <- pool :: Unfreed(c) == old(Unfreed(c))
    {
      var call := Call(conn, Error, conn.address, false);
      QueueKeepsLife(connStatus, log, call, connStatus);
      hide Loop.Rest, LifeOk;
      EnqueueExpired(call);
    }

    method EnqueueExpired(call: PendingCall)
      requires Rest() && call.conn in pool && !call.toFree && (inOrder && !orphaned ==> Unfreed(call.conn))
      modifies this`immediateCallbacks, this`log, this`lateExpiry
      ensures Rest() && log == old(log) + [call] && lateExpiry == (old(lateExpiry) || !old(Unfreed(call.conn)))
    {
      FreesLastSnoc(log, call);
      hide Loop.Aligned, Loop.RemovalsOk, Loop.MarkedOk, FreesLast;
      lateExpiry := lateExpiry || !Unfreed(call.conn);
      immediateCallbacks, log := immediateCallbacks + [call], log + [call];
    }

    /** In ordered runs no call is for a freed conn exactly when no get expired whose conn had been freed; and that
        cannot happen if no conn is freed while a timeout of its own is in the queue. */
    lemma FreedCallsIff()
      requires Valid() && inOrder
      ensures FreesLast(log) <==> !lateExpiry
      ensures !orphaned ==> !lateExpiry
    {
    }

    /** The middle part of msg_runloop: what poll tells, and then the gets that are due. */
    method PollAndExpire(pollOk: bool, readies: seq<Readiness>, refused: seq<bool>, results: seq<seq<ReadResult>>, now: int)
      returns (ghost added: seq<Conn>, ghost expired: seq<PendingCall>)
      requires Valid() && saved == [] && removals == [] && |conns| == |pollFds|
      modifies this`timeouts, this`conns, this`pollFds, this`pool, this`connStatus, this`immediateCallbacks, this`log, this`orphaned, this`removals
      modifies this`inOrder, this`lateExpiry, pool`closed, pool`address, pool`connecting, pool`index
      ensures Valid() && removals == [] && fresh(pool - old(pool)) && old(pool) <= pool
      ensures var rounds := old(Rounds(conns, pollFds, readies, refused, results));
              var p := if pollOk then Pass(rounds, old(connStatus), added, |rounds|) else PassEffect([], old(connStatus), 0, []);
              && log == old(log) + p.events + expired && immediateCallbacks == old(immediateCallbacks) + p.events + expired
              && |added| == p.accepted && |p.marks| <= |old(conns) + added| && conns == DrainAll(old(conns) + added, p.marks)
      ensures var rounds := old(Rounds(conns, pollFds, readies, refused, results));
              var ts := if pollOk then PassTimeouts(rounds, old(timeouts), |rounds|) else old(timeouts);
              var n := DueFirst(ts, now);
              timeouts == ts[n..] && |expired| == n && forall i :: 0 <= i < n ==> IsTimeoutOf(expired[i], ts[i])
    {
      hide *;
      ghost var was, queue, status := log, immediateCallbacks, connStatus;
      ghost var rounds := Rounds(conns, pollFds, readies, refused, results);
      Queued();
      added := PollIf(pollOk, readies, refused, results);
      ghost var p := if pollOk then Pass(rounds, status, added, |rounds|) else PassEffect([], status, 0, []);
      expired := ExpireTimeouts(now);
      Queued();
      QueueGrew(was, p.events, delivered, queue, expired, immediateCallbacks);
    }

    /** msg_runloop, at time now.  After the first drain every conn gets its round of polling, with the events that
        Pass tells, and the conns marked leave the arrays.  Then every get that is due and has nothing before it that
        is not due expires, with one error each, and all the others stay queued.  In the end every call queued before
        the callbacks started is made, in order. */
    method RunOnce(pollOk: bool, readies: seq<Readiness>, refused: seq<bool>, results: seq<seq<ReadResult>>,
                   now: int, scripts: seq<seq<UserCall>>)
      returns (ghost added: seq<Conn>, ghost expired: seq<PendingCall>)
      requires Valid() && saved == []
      modifies this, pool
      ensures Valid() && saved == [] && fresh(pool - old(pool)) && old(pool) <= pool
      ensures |old(removals)| <= |old(conns)| == |old(pollFds)|
      ensures var rounds := old(Rounds(DrainAll(conns, removals), DrainAll(pollFds, removals), readies, refused, results));
              var p := if pollOk then Pass(rounds, old(connStatus), added, |rounds|) else PassEffect([], old(connStatus), 0, []);
              var calls := old(immediateCallbacks) + p.events + expired;
              && delivered == old(delivered) + calls && old(log) + p.events + expired <= log
              && performed == old(performed) + AllOf(scripts, |calls|)
              && |added| == p.accepted && |p.marks| <= |rounds| + |added|
              && DrainAll(DrainAll(old(conns), old(removals)) + added, p.marks) <= conns
      ensures var rounds := old(Rounds(DrainAll(conns, removals), DrainAll(pollFds, removals), readies, refused, results));
              var ts := if pollOk then PassTimeouts(rounds, old(timeouts), |rounds|) else old(timeouts);
              var n := DueFirst(ts, now);
              && |expired| == n && (forall i :: 0 <= i < n ==> IsTimeoutOf(expired[i], ts[i]))
              && ts[n..] <= timeouts && ((forall script <- scripts :: NoGet(script)) ==> timeouts == ts[n..])
    {
      hide Loop.Rest, Loop.Unfreed, LifeOk, DrainAll, Pass, PassTimeouts, PassOrphans, ExpiredCalls, DueFirst, NoGet, AllOf;
      DrainRemovals();
      assert Rounds(conns, pollFds, readies, refused, results)
          == old(Rounds(DrainAll(conns, removals), DrainAll(pollFds, removals), readies, refused, results));
      added, expired := PollAndExpire(pollOk, readies, refused, results, now);
      MakeCalls(scripts);
    }
  }

  datatype Step =
    | UserStep(call: UserCall)
    | PassStep(pollOk: bool, readies: seq<Readiness>, refused: seq<bool>, results: seq<seq<ReadResult>>,
               now: int, scripts: seq<seq<UserCall>>)

  /** What has come of a step: for a pass, the rounds of polling, the time, the timeout queue after the reads, the
      errors of the gets that expired, and the calls made. */
  datatype Moment =
    | UserMoment
    | PassMoment(rounds: seq<Round>, now: int, queue: seq<Timeout>, expired: seq<PendingCall>, made: seq<PendingCall>)
  {
    /** Exactly the leading due gets have expired, and their errors are the last calls made. */
    ghost predicate Ok() {
      PassMoment? ==>
        && |expired| == DueFirst(queue, now) && (forall i :: 0 <= i < |expired| ==> IsTimeoutOf(expired[i], queue[i]))
        && |expired| <= |made| && made[|made| - |expired|..] == expired
    }

    /** The step neither reads the reply to the get nor looks at it when it is due. */
    ghost predicate Quiet(t: Timeout) {
      PassMoment? ==> !PassReplies(rounds, t.key) && now < t.at
    }

    /** The pass makes the call that tells of the get's expiry. */
    ghost predicate Expires(t: Timeout) {
      PassMoment? && exists q: nat :: q < |expired| <= |queue| && queue[q] == t && IsTimeoutOf(expired[q], t)
    }

    function Made(): seq<PendingCall> { if PassMoment? then made else [] }
  }

  function AllMade(moments: seq<Moment>): seq<PendingCall> {
    if moments == [] then [] else AllMade(moments[..|moments| - 1]) + moments[|moments| - 1].Made()
  }

  /** The moments are those of the steps. */
  ghost predicate Tell(moments: seq<Moment>, steps: seq<Step>) {
    && |moments| == |steps|
    && forall i :: 0 <= i < |steps| ==> Tells(moments[i], steps[i])
  }

  ghost predicate Tells(m: Moment, step: Step) {
    m.Ok() && (step.PassStep? <==> m.PassMoment?) && (step.PassStep? ==> m.now == step.now && (!step.pollOk ==> m.rounds == []))
  }

  /** One step of a run. */
  method Take(loop: Loop, step: Step) returns (ghost m: Moment)
    requires loop.Valid() && loop.saved == []
    modifies loop, loop.pool
    ensures loop.Valid() && loop.saved == [] && fresh(loop.pool - old(loop.pool)) && Tells(m, step)
    ensures step.UserStep? ==> loop.performed == old(loop.performed) + [step.call] && old(loop.timeouts) <= loop.timeouts
    ensures loop.delivered == old(loop.delivered) + m.Made()
    ensures step.PassStep? ==>
              && |old(loop.removals)| <= |old(loop.conns)| == |old(loop.pollFds)|
              && m.rounds == (if step.pollOk then old(Rounds(DrainAll(loop.conns, loop.removals), DrainAll(loop.pollFds, loop.removals),
                                                             step.readies, step.refused, step.results)) else [])
              && m.queue == PassTimeouts(m.rounds, old(loop.timeouts), |m.rounds|)
              && m.queue[DueFirst(m.queue, m.now)..] <= loop.timeouts
  {
    hide Loop.Rest, Loop.Unfreed, LifeOk, DrainAll, Rounds, PassReplies, Pass, AllOf, NoGet, DueFirst, Loop.Opens, Loop.Does;
    match step {
      case UserStep(call) =>
        var added := loop.Perform(call);
        m := UserMoment;
      case PassStep(pollOk, readies, refused, results, now, scripts) =>
        ghost var rounds, was, made := [], loop.timeouts, loop.delivered;
        var added, expired := loop.RunOnce(pollOk, readies, refused, results, now, scripts);
        if pollOk {
          rounds := old(Rounds(DrainAll(loop.conns, loop.removals), DrainAll(loop.pollFds, loop.removals), readies, refused, results));
        }
        m := PassMoment(rounds, now, PassTimeouts(rounds, was, |rounds|), expired, loop.delivered[|made|..]);
    }
  }

  /** Any run: public calls and passes of the run loop in any order, with anything happening in them.  At the
      end, and so at every point between two steps, the whole invariant holds; the calls made are those that the
      passes tell of.  Of the C program this tells something as long as no conn has been freed early, which takes a
      drain that was not in order. */
  method Run(steps: seq<Step>) returns (loop: Loop, ghost moments: seq<Moment>)
    ensures loop.Valid() && loop.saved == [] && loop.log == loop.delivered + loop.immediateCallbacks
    ensures Tell(moments, steps) && loop.delivered == AllMade(moments)
  {
    loop := Start();
    hide *;
    moments := [];
    TellNothing();
    var i := 0;
    while i < |steps|
      invariant fresh(loop) && loop.Valid() && loop.saved == [] && fresh(loop.pool)
      invariant i <= |steps| && Tell(moments, steps[..i]) && loop.delivered == AllMade(moments)
    {
      ghost var m := Take(loop, steps[i]);
      MoreTold(moments, m, steps, i);
      moments := moments + [m];
      i := i + 1;
    }
    assert steps[..i] == steps;
    loop.Queued();
  }

  method Start() returns (loop: Loop)
    ensures fresh(loop) && fresh(loop.pool) && loop.Valid() && loop.saved == [] && loop.delivered == []
  {
    loop := new Loop();
  }

  lemma TellNothing()
    ensures Tell([], []) && AllMade([]) == []
  {
  }

  /** What becomes of a get: it still waits, the ith step reads its reply, or the ith step makes the call that tells
      of its expiry. */
  datatype Fate = Waiting | GotReply(i: nat) | TimedOut(i: nat)

  ghost predicate IsFate(fate: Fate, moments: seq<Moment>, t: Timeout) {
    match fate
    case Waiting => forall m <- moments :: m.Quiet(t)
    case GotReply(i) => i < |moments| && (forall m <- moments[..i] :: m.Quiet(t)) && moments[i].PassMoment? && PassReplies(moments[i].rounds, t.key)
    case TimedOut(i) =>
      && i < |moments| && (forall m <- moments[..i] :: m.Quiet(t)) && moments[i].PassMoment? && !PassReplies(moments[i].rounds, t.key)
      && moments[i].now >= t.at && moments[i].Expires(t)
  }

  /** A get whose turn is not held up by one due later: until a pass reads its reply or finds it due, it stays queued;
      and if the first pass at or after its due time is reached without its reply, that pass queues the error and makes
      the call. */
  method FollowGet(loop: Loop, t: Timeout, steps: seq<Step>) returns (ghost fate: Fate, ghost moments: seq<Moment>)
    requires loop.Valid() && loop.saved == [] && InTurn(loop.timeouts, t)
    modifies loop, loop.pool
    ensures loop.Valid() && loop.saved == [] && Tell(moments, steps)
    ensures loop.delivered == old(loop.delivered) + AllMade(moments)
    ensures IsFate(fate, moments, t) && (fate.Waiting? ==> InTurn(loop.timeouts, t))
  {
    hide *;
    fate, moments := NothingYet(t);
    var i := 0;
    assert loop.delivered == old(loop.delivered) + [];
    while i < |steps|
      invariant loop.Valid() && loop.saved == [] && fresh(loop.pool - old(loop.pool))
      invariant i <= |steps| && Tell(moments, steps[..i]) && loop.delivered == old(loop.delivered) + AllMade(moments)
      invariant IsFate(fate, moments, t) && (fate.Waiting? ==> InTurn(loop.timeouts, t))
    {
      ghost var m;
      fate, m := FollowStep(loop, t, steps[i], fate, moments);
      MoreTold(moments, m, steps, i);
      moments := moments + [m];
      i := i + 1;
    }
    assert steps[..i] == steps;
  }

  ghost method NothingYet(t: Timeout) returns (fate: Fate, moments: seq<Moment>)
    ensures fate == Waiting && moments == [] && AllMade(moments) == [] && Tell(moments, []) && IsFate(fate, moments, t)
  {
    fate, moments := Waiting, [];
  }

  lemma MoreTold(moments: seq<Moment>, m: Moment, steps: seq<Step>, i: nat)
    requires i < |steps| && Tell(moments, steps[..i]) && Tells(m, steps[i])
    ensures Tell(moments + [m], steps[..i + 1]) && AllMade(moments + [m]) == AllMade(moments) + m.Made()
  {
    assert steps[..i + 1] == steps[..i] + [steps[i]] && (moments + [m])[..|moments|] == moments;
    hide Tells;
  }

  method FollowStep(loop: Loop, t: Timeout, step: Step, ghost fate: Fate, ghost moments: seq<Moment>)
    returns (ghost fate': Fate, ghost m: Moment)
    requires loop.Valid() && loop.saved == [] && IsFate(fate, moments, t) && (fate.Waiting? ==> InTurn(loop.timeouts, t))
    modifies loop, loop.pool
    ensures loop.Valid() && loop.saved == [] && fresh(loop.pool - old(loop.pool)) && Tells(m, step)
    ensures loop.delivered == old(loop.delivered) + m.Made()
    ensures IsFate(fate', moments + [m], t) && (fate'.Waiting? ==> InTurn(loop.timeouts, t))
  {
    hide Loop.Valid, InTurn, PassReplies, PassTimeouts, DueFirst, DrainAll, Rounds, IsFate, Moment.Ok, Moment.Expires;
    ghost var was := loop.timeouts;
    m := Take(loop, step);
    fate' := FateAfter(fate, moments, m, t);
    if fate.Waiting? { StaysInTurn(was, m, loop.timeouts, t); }
    FateNext(fate, moments, m, t);
  }

  /** The get's fate after one more step. */
  ghost function FateAfter(fate: Fate, moments: seq<Moment>, m: Moment, t: Timeout): Fate {
    if !fate.Waiting? || m.Quiet(t) then fate
    else if PassReplies(m.rounds, t.key) then GotReply(|moments|)
    else TimedOut(|moments|)
  }

  lemma StaysInTurn(was: seq<Timeout>, m: Moment, ts: seq<Timeout>, t: Timeout)
    requires InTurn(was, t) && m.Ok()
    requires m.UserMoment? ==> was <= ts
    requires m.PassMoment? ==> m.queue == PassTimeouts(m.rounds, was, |m.rounds|) && m.queue[DueFirst(m.queue, m.now)..] <= ts
    ensures m.Quiet(t) ==> InTurn(ts, t)
    ensures m.PassMoment? && !PassReplies(m.rounds, t.key) && m.now >= t.at ==> m.Expires(t)
  {
    hide InTurn, PassReplies, PassTimeouts, DueFirst;
    if m.UserMoment? {
      TurnStays(was, ts, t);
    } else if !PassReplies(m.rounds, t.key) {
      PassTurn(m.rounds, was, t, |m.rounds|);
      DueInTurn(m.queue, t, m.now);
      if m.now < t.at {
        TurnStays(m.queue[DueFirst(m.queue, m.now)..], ts, t);
      } else {
        var q: nat :| q < DueFirst(m.queue, m.now) && m.queue[q] == t;
        assert IsTimeoutOf(m.expired[q], m.queue[q]);
      }
    }
  }

  lemma FateNext(fate: Fate, moments: seq<Moment>, m: Moment, t: Timeout)
    requires IsFate(fate, moments, t)
    requires fate.Waiting? && m.PassMoment? && !PassReplies(m.rounds, t.key) && m.now >= t.at ==> m.Expires(t)
    ensures IsFate(FateAfter(fate, moments, m, t), moments + [m], t)
  {
    hide PassReplies, Moment.Expires;
    var all := moments + [m];
    assert all[..|moments|] == moments;
    if !fate.Waiting? { assert all[..fate.i] == moments[..fate.i]; }
  }

  lemma QueueGrew<T>(was: seq<T>, events: seq<T>, made: seq<T>, queue: seq<T>, expired: seq<T>, queue': seq<T>)
    requires was == made + queue && was + events + expired == made + queue'
    ensures queue' == queue + events + expired
  {
    assert (made + queue + events + expired)[|made|..] == queue + events + expired && (made + queue')[|made|..] == queue';
  }

  lemma RemoveAndFillSubset<T>(s: seq<T>, i: nat)
    requires s != []
    ensures forall x <- RemoveAndFill(s, i) :: x in s
  {
  }

  // ----- The first event of a connect -----

  lemma {:induction false} NoSecondReady(conn: Conn, a: Address, status: set<Address>, stays: bool, results: seq<ReadResult>)
    requires a.IsTcp() && a in status
    ensures forall e <- ReadRun(conn, a, status, stays, results).0 :: !e.kind.ConnectionReady?
    decreases |results|
  {
    var r := FirstOf(results);
    assert status + {a} == status;
    if results != [] && IsMessage(r) {
      var (_, status') := ReadEvents(conn, a, status, stays, r);
      NoSecondReady(conn, a, status', stays, results[1..]);
    }
  }

  /** The documentation promises that the first event after a successful msg_connect is a ready event.  That is so
      exactly when the address has no status yet: at once, or, for a tcp connect in progress, when it is done. */
  lemma ReadyOnConnectIff(conn: Conn, a: Address, outcome: OpenOutcome, status: set<Address>, ready: Readiness,
                          refused: bool, results: seq<ReadResult>, c: Conn)
    requires OpenKeeps(outcome, false, a.IsTcp())
    ensures var first := Call(conn, ConnectionReady, a, false);
            && (!outcome.InProgress? ==> OpenEvents(conn, a, false, outcome, status) == if a in status then [] else [first])
            && (outcome.InProgress? && ready.write && !(ready.err && refused) ==>
                  var events := Round(conn, a, false, ready, refused, results).Effect(status, c).0;
                  events != [] && events[0] == first <==> a !in status)
  {
    if outcome.InProgress? && a in status {
      NoSecondReady(conn, a, status, false, results);
      assert status + {a} == status;
    }
  }

  /** A udp connect that is refused, and then another to the same address: the refusal left the status behind, and
      the second conn gets no ready event. */
  method ConnectAgain(remote: Address) returns (loop: Loop, second: Conn)
    requires remote.IsUdp()
    ensures loop.Valid() && loop.inOrder && loop.Live(second) && second.address == remote
    ensures forall call <- loop.log :: call.conn != second
  {
    loop := OneRefused(remote);
    hide Loop.Rest, LifeOk, Loop.Unfreed;
    second := loop.OpenSocket(remote, false, 4, Opened);
  }

  method OneRefused(remote: Address) returns (loop: Loop)
    requires remote.IsUdp()
    ensures fresh(loop) && fresh(loop.pool) && loop.Valid() && loop.inOrder && remote in loop.connStatus
    ensures forall call <- loop.log :: call.conn in loop.pool
  {
    var conn;
    loop, conn := OneConn(remote, false);
    hide Loop.Rest, LifeOk, Loop.Unfreed, Waits;
    loop.Refuse(conn);
    LogInPool(loop);
  }

  lemma LogInPool(loop: Loop)
    requires loop.Valid()
    ensures forall call <- loop.log :: call.conn in loop.pool
  {
  }

  // ----- Calls for freed conns, with every drain in order -----

  /** A connected udp conn makes a get, which goes out; nothing listens at the peer, so the next poll reports a
      refusal.  The conn is freed, its timeout stays, and a second later it queues a call for the freed conn. */
  method RefusedAfterGet(remote: Address, replyId: uint16, due: int) returns (loop: Loop)
    requires remote.IsUdp()
    ensures loop.Valid() && loop.inOrder && !loop.freedEarly && loop.orphaned && loop.lateExpiry && !FreesLast(loop.log)
  {
    var conn;
    loop, conn := OneConn(remote, false);
    hide *;
    MakesGet(loop, conn, replyId, due);
    RefuseOnly(loop, conn);
    EndsAlone(loop, conn, due);
  }

  /** A get to address a on a listening udp conn, a message from b, and then msg_unlisten: only b's status goes,
      and a's timeout outlives the conn. */
  method UnlistenedAfterGet(local: Address, a: Address, b: Address, replyId: uint16, due: int) returns (loop: Loop)
    requires local.IsUdp()
    ensures loop.Valid() && loop.inOrder && !loop.freedEarly && loop.orphaned && loop.lateExpiry && !FreesLast(loop.log)
  {
    var conn;
    loop, conn := OneConn(local, true);
    hide *;
    HearsAndGets(loop, conn, a, replyId, due);
    Hears(loop, conn, b);
    UnlistenOnly(loop, conn);
    EndsAlone(loop, conn, due);
  }

  /** A loop with one conn, which is live. */
  ghost predicate Alone(loop: Loop, conn: Conn)
    reads loop, loop.pool, loop.conns, conn
  {
    && loop.Valid() && loop.inOrder && loop.saved == [] && loop.conns == [conn] && loop.removals == []
    && loop.Live(conn) && conn in loop.pool && conn.index == 0
  }

  method OneConn(address: Address, forListening: bool) returns (loop: Loop, conn: Conn)
    requires address.IsUdp()
    ensures fresh(loop) && fresh(conn) && fresh(loop.pool) && Alone(loop, conn) && loop.timeouts == []
    ensures conn.forListening == forListening && conn.address == address
    ensures !forListening ==> conn.address in loop.connStatus
  {
    loop := new Loop();
    conn := loop.OpenSocket(address, forListening, 3, Opened);
    loop.LiveIsUnfreed(conn);
    hide Loop.Rest, LifeOk, Loop.Unfreed, SeenEvents;
  }

  method MakesGet(loop: Loop, conn: Conn, replyId: uint16, due: int)
    requires Alone(loop, conn) && loop.timeouts == [] && conn.address in loop.connStatus
    modifies loop`timeouts, loop`immediateCallbacks, loop`log, loop`orphaned
    ensures Alone(loop, conn) && loop.timeouts == [Requests.Timeout(due, conn, Requests.Key(conn.address, replyId))]
  {
    hide Loop.Rest, LifeOk, Loop.Unfreed;
    loop.MsgGet(conn, false, replyId, due);
  }

  /** A message arrives from an address. */
  method Hears(loop: Loop, conn: Conn, from: Address)
    requires Alone(loop, conn) && conn.address.IsUdp()
    modifies loop`timeouts, loop`connStatus, loop`immediateCallbacks, loop`log, loop`orphaned, loop`removals
    modifies conn`closed, conn`address
    ensures Alone(loop, conn) && conn.address.IsUdp() && conn.address in loop.connStatus && loop.timeouts == old(loop.timeouts)
  {
    hide Loop.Rest, LifeOk, Loop.Unfreed, SeenEvents;
    var again := loop.ReadMessage(conn, Incoming(Message, from, 0));
  }

  method HearsAndGets(loop: Loop, conn: Conn, from: Address, replyId: uint16, due: int)
    requires Alone(loop, conn) && conn.address.IsUdp() && loop.timeouts == []
    modifies loop`timeouts, loop`connStatus, loop`immediateCallbacks, loop`log, loop`orphaned, loop`removals
    modifies conn`closed, conn`address
    ensures Alone(loop, conn) && conn.address.IsUdp() && |loop.timeouts| == 1
    ensures loop.timeouts[0].conn == conn && loop.timeouts[0].at == due
  {
    hide *;
    Hears(loop, conn, from);
    MakesGet(loop, conn, replyId, due);
  }

  method RefuseOnly(loop: Loop, conn: Conn)
    requires Alone(loop, conn) && Waits(loop.timeouts, conn)
    modifies loop`immediateCallbacks, loop`log, loop`orphaned, loop`removals, conn`closed
    ensures loop.Valid() && loop.removals == [0] && loop.orphaned && !loop.Unfreed(conn)
  {
    hide Loop.Rest, LifeOk;
    loop.Refuse(conn);
    FreedByLast(loop, conn);
  }

  method UnlistenOnly(loop: Loop, conn: Conn)
    requires Alone(loop, conn) && Waits(loop.timeouts, conn) && conn.forListening
    modifies loop`connStatus, loop`immediateCallbacks, loop`log, loop`orphaned, loop`removals, conn`closed, conn`forListening
    ensures loop.Valid() && loop.removals == [0] && loop.orphaned && !loop.Unfreed(conn)
  {
    hide Loop.Rest, LifeOk;
    loop.MsgUnlisten(conn, false, false);
    FreedByLast(loop, conn);
  }

  lemma FreedByLast(loop: Loop, conn: Conn)
    requires loop.log != [] && loop.log[|loop.log| - 1].toFree && loop.log[|loop.log| - 1].conn == conn
    ensures !loop.Unfreed(conn)
  {
    assert loop.log[|loop.log| - 1] in loop.log;
  }

  /** The rest of the pass, and the next one once the get is due. */
  method EndsAlone(loop: Loop, conn: Conn, due: int)
    requires loop.Valid() && loop.inOrder && loop.saved == [] && loop.conns == [conn] && loop.removals == [0]
    requires |loop.timeouts| == 1 && loop.timeouts[0].conn == conn && loop.timeouts[0].at == due && !loop.Unfreed(conn)
    requires loop.orphaned
    modifies loop, loop.pool
    ensures loop.Valid() && loop.inOrder && !loop.freedEarly && loop.orphaned && loop.lateExpiry && !FreesLast(loop.log)
  {
    ghost var call :| call in loop.log && call.toFree && call.conn == conn;
    hide Loop.Rest, LifeOk;
    OneInOrder();
    loop.DrainRemovals();
    loop.MakeCalls([]);
    assert call in loop.log;
    AllAlone(loop, conn, due);
  }

  lemma OneInOrder()
    ensures Indices(1, [0]) && OrderOk(1, [0])
  {
    DescendingIsOk(1, [0]);
  }

  method AllAlone(loop: Loop, conn: Conn, due: int)
    requires loop.Valid() && loop.inOrder && |loop.timeouts| > 0
    requires loop.timeouts[0].conn == conn && loop.timeouts[0].at == due && !loop.Unfreed(conn)
    modifies loop`timeouts, loop`immediateCallbacks, loop`log, loop`lateExpiry
    ensures loop.Valid() && loop.inOrder && !loop.freedEarly && loop.lateExpiry && !FreesLast(loop.log)
  {
    loop.InPool(0);
    assert conn in loop.Freed();
    hide Loop.Freed, Loop.Unfreed, LifeOk, FreesLast;
    ghost var expired := loop.ExpireTimeouts(due);
  }
}
