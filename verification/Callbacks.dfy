/** What a user's callback finds in its msg_Conn.

    Reads fill in the conn's reply_id and reply_context at once, but callbacks run at the end of the pass.
    A udp message carries its reply context and remote address along; a listening udp conn also has its
    conn_context swapped in and out per remote address. */
module Callbacks {
  import opened Common
  import Lifecycle

  type EventKind = Lifecycle.EventKind

  // ----- Reply ids and reply contexts within one pass -----

  /** A message read: one way, a request with its id, or a recognized reply with the context of its get. */
  datatype Read = OneWay | Request(replyId: nat) | Reply(replyId: nat, context: Ptr) {
    function Kind(): EventKind {
      if OneWay? then Lifecycle.Message else if Request? then Lifecycle.Request else Lifecycle.Reply
    }

    function ReplyContext(): Ptr { if Reply? then context else NULL }

    // read_header stores the header's id; anything but a request then clears it.
    function ReplyId(): nat { if Request? then replyId else 0 }
  }

  /** A message; whether its address is new, so that a ready event comes first; and whether an earlier pass has
      read its header, on tcp, maybe on another conn with the same remote address. */
  datatype Arrival = Arrival(read: Read, isNew: bool, continued: bool)

  /** How the reading of a pass ends.  A header that gives no message leaves its id in the conn: that of a
      message not whole yet, of a reply with an unknown id, or of a close.  The events are the ones that the
      end makes: an error, a lost or closed connection, or none. */
  datatype Ending = Ending(header: Option<nat>, events: seq<EventKind>)

  const NO_MORE := Ending(None, [])

  /** What the callback of a queued call ought to see: a request its own id, and every other event 0; a reply or
      an expired get its own context. */
  datatype Due = Due(kind: EventKind, replyId: nat, context: Option<Ptr>)

  /** What it sees in conn->reply_id and conn->reply_context. */
  datatype Sight = Sight(replyId: nat, replyContext: Ptr)

  /** A PendingCall, with the reply_context that its metadata has been given, if it has. */
  datatype Pending = Pending(due: Due, metadata: Option<Ptr>)

  function Plain(kind: EventKind): Due {
    Due(kind, 0, None)
  }

  function PlainAll(kinds: seq<EventKind>): (r: seq<Due>)
    ensures |r| == |kinds|
  {
    seq(|kinds|, i requires 0 <= i < |kinds| => Plain(kinds[i]))
  }

  function MessageDue(r: Read): Due {
    Due(r.Kind(), r.ReplyId(), if r.Reply? then Some(r.context) else None)
  }

  function ArrivalDues(arrivals: seq<Arrival>): seq<Due> {
    if arrivals == [] then []
    else
      var a := arrivals[|arrivals| - 1];
      ArrivalDues(arrivals[..|arrivals| - 1]) + (if a.isNew then [Plain(Lifecycle.ConnectionReady)] else []) + [MessageDue(a.read)]
  }

  function ExpiredDues(expired: seq<Ptr>): (r: seq<Due>)
    ensures |r| == |expired|
  {
    seq(|expired|, i requires 0 <= i < |expired| => Due(Lifecycle.Error, 0, Some(expired[i])))
  }

  /** The calls of one conn in one pass: those queued before it, those of the messages read, those of the end of
      the reading, and those of the gets that expire. */
  function Dues(queued: seq<EventKind>, arrivals: seq<Arrival>, ending: Ending, expired: seq<Ptr>): seq<Due> {
    PlainAll(queued) + ArrivalDues(arrivals) + PlainAll(ending.events) + ExpiredDues(expired)
  }

  /** The reply id after a pass that starts with `was`: that of the header read last, cleared by a message that is
      not a request.  A message continued from an earlier pass reads no header. */
  function FinalId(was: nat, arrivals: seq<Arrival>, ending: Ending): nat {
    if ending.header.Some? then ending.header.value else IdAfter(was, arrivals)
  }

  function IdAfter(was: nat, arrivals: seq<Arrival>): nat {
    if arrivals == [] then was
    else
      var a := arrivals[|arrivals| - 1];
      if !a.read.Request? then 0 else if a.continued then IdAfter(was, arrivals[..|arrivals| - 1]) else a.read.replyId
  }

  /** The rest of a request whose header an earlier pass has read: it leaves the conn's reply id as it is. */
  predicate KeepsId(a: Arrival) {
    a.read.Request? && a.continued
  }

  /** The last message of a pass that sets the conn's reply id. */
  ghost predicate LastToSet(arrivals: seq<Arrival>, i: nat) {
    i < |arrivals| && !KeepsId(arrivals[i]) && forall j :: i < j < |arrivals| ==> KeepsId(arrivals[j])
  }

  /** What FinalId comes to, told without going through the messages. */
  lemma {:induction false} FinalIdIs(was: nat, arrivals: seq<Arrival>, ending: Ending)
    ensures ending.header.Some? ==> FinalId(was, arrivals, ending) == ending.header.value
    ensures forall i: nat :: ending.header.None? && LastToSet(arrivals, i) ==>
                               FinalId(was, arrivals, ending) == if arrivals[i].read.Request? then arrivals[i].read.replyId else 0
    ensures ending.header.None? && (forall a <- arrivals :: KeepsId(a)) ==> FinalId(was, arrivals, ending) == was
  {
    if arrivals != [] {
      var n := |arrivals| - 1;
      var init := arrivals[..n];
      FinalIdIs(was, init, ending);
      assert arrivals[n] in arrivals;
      forall i: nat | LastToSet(arrivals, i) ensures if KeepsId(arrivals[n]) then LastToSet(init, i) else i == n {
        assert i < n ==> KeepsId(arrivals[n]);
      }
    }
  }

  /** The context in the conn before its callbacks run: that of the last expiry, or of the message read last. */
  function FinalContext(was: Ptr, arrivals: seq<Arrival>, expired: seq<Ptr>): Ptr {
    if expired != [] then expired[|expired| - 1]
    else if arrivals != [] then arrivals[|arrivals| - 1].read.ReplyContext()
    else was
  }

  class MsgConn {
    const isUdp: bool
    var replyId: nat
    var replyContext: Ptr

    constructor (isUdp: bool)
      ensures this.isUdp == isUdp && replyId == 0 && replyContext == NULL
    {
      this.isUdp, replyId, replyContext := isUdp, 0, NULL;
    }

    /** The end of read_from_socket: the conn's fields are set, the call is queued.  The header of a message
        begun in an earlier pass is not read again. */
    method ReadOne(r: Read, continued: bool) returns (call: Pending)
      modifies this
      ensures replyId == (if !r.Request? then 0 else if continued then old(replyId) else r.replyId)
      ensures replyContext == r.ReplyContext()
      ensures call == Pending(MessageDue(r), if isUdp then Some(r.ReplyContext()) else None)
    {
      if !continued { replyId := if r.OneWay? then 0 else r.replyId; }
      if r.OneWay? { replyId := 0; }
      if r.Reply? {
        replyContext := r.context;
        replyId := 0;
      } else {
        replyContext := NULL;
      }
      call := Pending(MessageDue(r), if isUdp then Some(replyContext) else None);
    }

    /** The timeout loop, for an expired get of this conn. */
    method ExpireOne(context: Ptr) returns (call: Pending)
      modifies this`replyContext
      ensures replyContext == context && call == Pending(Due(Lifecycle.Error, 0, Some(context)), Some(context))
    {
      replyContext := context;
      call := Pending(Due(Lifecycle.Error, 0, Some(context)), Some(replyContext));
    }

    /** make_call: on udp the metadata of a call with data goes back into the conn (junk, if it was never given
        a context); then the callback looks. */
    method MakeCall(call: Pending, junk: Ptr) returns (s: Sight)
      modifies this`replyContext
      ensures !isUdp ==> replyContext == old(replyContext)
      ensures isUdp && call.metadata.Some? && HasData(call.due.kind) ==> replyContext == call.metadata.value
      ensures s == Sight(replyId, replyContext)
    {
      if isUdp && HasData(call.due.kind) {
        replyContext := if call.metadata.Some? then call.metadata.value else junk;
      }
      s := Sight(replyId, replyContext);
    }

    /** The calls queued are those due; on udp, each with a context of its own has it in its metadata. */
    predicate Carry(calls: seq<Pending>, dues: seq<Due>) {
      && |calls| == |dues|
      && forall k :: 0 <= k < |calls| ==>
                       calls[k].due == dues[k] && (isUdp && dues[k].context.Some? ==> calls[k].metadata == dues[k].context)
    }

    lemma CarryAll(calls: seq<Pending>, dues: seq<Due>, more: seq<Pending>, moreDues: seq<Due>)
      requires Carry(calls, dues) && Carry(more, moreDues)
      ensures Carry(calls + more, dues + moreDues)
    {
    }

    /** The messages of a pass. */
    method ReadMessages(arrivals: seq<Arrival>) returns (calls: seq<Pending>)
      modifies this
      ensures Carry(calls, ArrivalDues(arrivals))
      ensures replyId == FinalId(old(replyId), arrivals, NO_MORE)
      ensures replyContext == FinalContext(old(replyContext), arrivals, [])
    {
      calls := [];
      for i := 0 to |arrivals|
        invariant Carry(calls, ArrivalDues(arrivals[..i]))
        invariant replyId == FinalId(old(replyId), arrivals[..i], NO_MORE)
        invariant replyContext == FinalContext(old(replyContext), arrivals[..i], [])
      {
        var a := arrivals[i];
        assert arrivals[..i + 1][..i] == arrivals[..i];
        ghost var dues := ArrivalDues(arrivals[..i]);
        var ready := if a.isNew then [Pending(Plain(Lifecycle.ConnectionReady), None)] else [];
        var call := ReadOne(a.read, a.continued);
        CarryAll(calls, dues, ready, if a.isNew then [Plain(Lifecycle.ConnectionReady)] else []);
        CarryAll(calls + ready, dues + (if a.isNew then [Plain(Lifecycle.ConnectionReady)] else []), [call], [MessageDue(a.read)]);
        calls := calls + ready + [call];
      }
      assert arrivals[..|arrivals|] == arrivals;
    }

    /** The expired gets of a pass. */
    method Expire(expired: seq<Ptr>) returns (calls: seq<Pending>)
      modifies this`replyContext
      ensures Carry(calls, ExpiredDues(expired))
      ensures replyContext == if expired != [] then expired[|expired| - 1] else old(replyContext)
    {
      calls := [];
      for i := 0 to |expired|
        invariant Carry(calls, ExpiredDues(expired[..i]))
        invariant replyContext == if i > 0 then expired[i - 1] else old(replyContext)
      {
        var call := ExpireOne(expired[i]);
        CarryAll(calls, ExpiredDues(expired[..i]), [call], [Due(Lifecycle.Error, 0, Some(expired[i]))]);
        assert ExpiredDues(expired[..i + 1]) == ExpiredDues(expired[..i]) + [Due(Lifecycle.Error, 0, Some(expired[i]))];
        calls := calls + [call];
      }
      assert expired[..|expired|] == expired;
    }

    /** The calls of a pass: those queued before it, the messages', the end's and the expired gets'. */
    method Collect(queued: seq<EventKind>, arrivals: seq<Arrival>, ending: Ending, expired: seq<Ptr>)
      returns (calls: seq<Pending>)
      modifies this
      ensures Carry(calls, Dues(queued, arrivals, ending, expired))
      ensures replyId == FinalId(old(replyId), arrivals, ending)
      ensures replyContext == FinalContext(old(replyContext), arrivals, expired)
    {
      hide MsgConn.Carry;
      var first := Queue(queued);
      var messages := ReadMessages(arrivals);
      if ending.header.Some? { replyId := ending.header.value; }
      var last := Queue(ending.events);
      var timeouts := Expire(expired);
      CarryAll(first, PlainAll(queued), messages, ArrivalDues(arrivals));
      CarryAll(first + messages, PlainAll(queued) + ArrivalDues(arrivals), last, PlainAll(ending.events));
      CarryAll(first + messages + last, PlainAll(queued) + ArrivalDues(arrivals) + PlainAll(ending.events),
               timeouts, ExpiredDues(expired));
      calls := first + messages + last + timeouts;
    }

    /** One pass of msg_runloop for this conn: whole messages are read, gets expire, and only then the
        callbacks run, after those of the calls queued before.  A header left over is there for the pass that
        continues its message, unless that is on another conn. */
    method Pass(queued: seq<EventKind>, arrivals: seq<Arrival>, ending: Ending, expired: seq<Ptr>,
                junk: nat -> Ptr)
      returns (sights: seq<Sight>)
      modifies this
      ensures var dues := Dues(queued, arrivals, ending, expired);
              && |sights| == |dues|
              && forall i :: 0 <= i < |sights| ==>
                               && sights[i].replyId == FinalId(old(replyId), arrivals, ending)
                               && (!isUdp ==> sights[i].replyContext == FinalContext(old(replyContext), arrivals, expired))
                               && (isUdp && dues[i].context.Some? ==> sights[i].replyContext == dues[i].context.value)
      ensures replyId == FinalId(old(replyId), arrivals, ending)
      ensures ending.header.Some? ==> replyId == ending.header.value
      ensures forall i: nat :: ending.header.None? && LastToSet(arrivals, i) ==>
                                 replyId == if arrivals[i].read.Request? then arrivals[i].read.replyId else 0
      ensures ending.header.None? && (forall a <- arrivals :: KeepsId(a)) ==> replyId == old(replyId)
      ensures forall s <- sights :: !isUdp ==>
                                      s.replyContext == if expired != [] then expired[|expired| - 1]
                                      else if arrivals == [] then old(replyContext)
                                      else if arrivals[|arrivals| - 1].read.Reply? then arrivals[|arrivals| - 1].read.context
                                      else NULL
    {
      FinalIdIs(replyId, arrivals, ending);
      assert FinalContext(replyContext, arrivals, expired)
          == if expired != [] then expired[|expired| - 1]
             else if arrivals == [] then replyContext
             else if arrivals[|arrivals| - 1].read.Reply? then arrivals[|arrivals| - 1].read.context
             else NULL;
      ContextsHaveData(queued, arrivals, ending, expired);
      hide Dues, FinalId, FinalContext;
      ghost var dues := Dues(queued, arrivals, ending, expired);
      var calls := Collect(queued, arrivals, ending, expired);
      sights := [];
      for i := 0 to |calls|
        invariant |sights| == i && replyId == FinalId(old(replyId), arrivals, ending)
        invariant !isUdp ==> replyContext == FinalContext(old(replyContext), arrivals, expired)
        invariant forall k :: 0 <= k < i ==> sights[k].replyId == replyId
        invariant !isUdp ==> forall k :: 0 <= k < i ==> sights[k].replyContext == replyContext
        invariant isUdp ==> forall k :: 0 <= k < i && dues[k].context.Some? ==> sights[k].replyContext == dues[k].context.value
      {
        var s := MakeCall(calls[i], junk(i));
        sights := sights + [s];
      }
    }

    /** Calls that carry no context. */
    method Queue(kinds: seq<EventKind>) returns (calls: seq<Pending>)
      ensures Carry(calls, PlainAll(kinds))
    {
      calls := seq(|kinds|, i requires 0 <= i < |kinds| => Pending(Plain(kinds[i]), None));
    }
  }

  /** The events that come with a msg_Data. */
  predicate HasData(kind: EventKind) {
    kind.IsData() || kind.ConnectionReady? || kind.Error?
  }

  lemma {:induction false} ArrivalsHaveData(arrivals: seq<Arrival>)
    ensures forall d <- ArrivalDues(arrivals) :: d.context.Some? ==> HasData(d.kind)
  {
    if arrivals != [] { ArrivalsHaveData(arrivals[..|arrivals| - 1]); }
  }

  lemma ContextsHaveData(queued: seq<EventKind>, arrivals: seq<Arrival>, ending: Ending, expired: seq<Ptr>)
    ensures forall d <- Dues(queued, arrivals, ending, expired) :: d.context.Some? ==> HasData(d.kind)
  {
    ArrivalsHaveData(arrivals);
  }

  // ----- Which promises that keeps -----

  /** The call is one of those that the arrival makes. */
  ghost predicate IsDueTo(d: Due, a: Arrival) {
    d == MessageDue(a.read) || (a.isNew && d == Plain(Lifecycle.ConnectionReady))
  }

  /** What the calls of the messages are. */
  lemma {:induction false} ArrivalDuesAre(arrivals: seq<Arrival>)
    ensures forall a <- arrivals :: MessageDue(a.read) in ArrivalDues(arrivals)
    ensures forall a <- arrivals :: a.isNew ==> Plain(Lifecycle.ConnectionReady) in ArrivalDues(arrivals)
    ensures forall d <- ArrivalDues(arrivals) :: exists a :: a in arrivals && IsDueTo(d, a)
  {
    if arrivals != [] {
      var init, last := arrivals[..|arrivals| - 1], arrivals[|arrivals| - 1];
      ArrivalDuesAre(init);
      assert arrivals == init + [last];
      var mid := if last.isNew then [Plain(Lifecycle.ConnectionReady)] else [];
      forall d <- ArrivalDues(arrivals)
        ensures exists a :: a in arrivals && IsDueTo(d, a)
      {
        assert d in ArrivalDues(init) || d in mid || d == MessageDue(last.read);
        if d in ArrivalDues(init) {
          var a :| a in init && IsDueTo(d, a);
          assert a in arrivals;
        } else {
          assert last in arrivals && IsDueTo(d, last);
        }
      }
    }
  }

  /** The call of each message: its kind, the id that its callback ought to see, and the context; it comes right after
      the ready event of a new address, and the calls of later messages come behind it. */
  lemma {:induction false} ArrivalDuesAt(arrivals: seq<Arrival>, i: nat)
    requires i < |arrivals|
    ensures var a, dues, p := arrivals[i], ArrivalDues(arrivals), |ArrivalDues(arrivals[..i])| + (if arrivals[i].isNew then 1 else 0);
            && p < |dues| && dues[..|ArrivalDues(arrivals[..i])|] == ArrivalDues(arrivals[..i])
            && (a.read.OneWay? ==> dues[p] == Due(Lifecycle.Message, 0, None))
            && (a.read.Request? ==> dues[p] == Due(Lifecycle.Request, a.read.replyId, None))
            && (a.read.Reply? ==> dues[p] == Due(Lifecycle.Reply, 0, Some(a.read.context)))
            && (a.isNew ==> dues[p - 1] == Due(Lifecycle.ConnectionReady, 0, None))
            && (i == |arrivals| - 1 ==> p == |dues| - 1)
  {
    var n := |arrivals| - 1;
    if i < n {
      var init := arrivals[..n];
      ArrivalDuesAt(init, i);
      assert init[..i] == arrivals[..i] && init[i] == arrivals[i];
      assert ArrivalDues(init) <= ArrivalDues(arrivals);
    }
  }

  /** A request whose header is read in one pass and whose payload comes in the next, on one conn: its callback, and
      every other one of that pass, sees the request's own id. */
  method SplitRequest(conn: MsgConn, id: nat, queued0: seq<EventKind>, arrivals0: seq<Arrival>, events0: seq<EventKind>,
                      expired0: seq<Ptr>, queued: seq<EventKind>, events: seq<EventKind>, expired: seq<Ptr>, junk: nat -> Ptr)
    returns (sights0: seq<Sight>, sights: seq<Sight>)
    modifies conn
    ensures |sights| == |queued| + 1 + |events| + |expired| && forall s <- sights :: s.replyId == id
    ensures var dues := Dues(queued, [Arrival(Request(id), false, true)], Ending(None, events), expired);
            |dues| == |sights| && dues[|queued|] == Due(Lifecycle.Request, id, None)
    ensures conn.replyId == id
  {
    var rest := Arrival(Request(id), false, true);
    sights0 := conn.Pass(queued0, arrivals0, Ending(Some(id), events0), expired0, junk);
    sights := conn.Pass(queued, [rest], Ending(None, events), expired, junk);
    assert [rest][..0] == [];
    ArrivalDuesAt([rest], 0);
  }

  /** The documented promise for conn->reply_id: 0 before every event except a request. */
  ghost predicate RightIds(dues: seq<Due>, seen: nat) {
    forall d <- dues :: d.replyId == seen
  }

  /** If the pass leaves the id 0, the promise is kept exactly when no request has another id; if it leaves an id,
      exactly when all the calls of the conn are requests with that id. */
  lemma IdsRightIff(queued: seq<EventKind>, arrivals: seq<Arrival>, ending: Ending, expired: seq<Ptr>, was: nat)
    ensures var f := FinalId(was, arrivals, ending);
            RightIds(Dues(queued, arrivals, ending, expired), f) <==>
            if f == 0 then forall a <- arrivals :: a.read.ReplyId() == 0
            else queued == [] && ending.events == [] && expired == []
                 && forall a <- arrivals :: !a.isNew && a.read == Request(f)
  {
    var f, dues := FinalId(was, arrivals, ending), Dues(queued, arrivals, ending, expired);
    ArrivalDuesAre(arrivals);
    hide FinalId, ArrivalDues;
    assert forall d <- ArrivalDues(arrivals) :: d in dues;
    assert queued != [] ==> PlainAll(queued)[0] in dues;
    assert ending.events != [] ==> PlainAll(ending.events)[0] in dues;
    assert expired != [] ==> ExpiredDues(expired)[0] in dues;
    assert forall d <- dues :: d.replyId == 0 || d in ArrivalDues(arrivals);
    if RightIds(dues, f) {
      forall a <- arrivals ensures a.read.ReplyId() == f && (f != 0 ==> !a.isNew) {
        assert MessageDue(a.read) in dues;
        assert a.isNew ==> Plain(Lifecycle.ConnectionReady) in dues;
      }
    }
  }

  /** Inputs that break it: a get expires in the pass of a request; a request is the first message of a new udp
      address; a close follows a request; a request's id is left over when the connection is lost; two requests
      come in one pass; a request is continued on a conn that did not read its header. */
  lemma StaleIds(id: nat, other: nat, context: Ptr, was: nat)
    requires id != 0 && other != id
    ensures !RightIds(Dues([], [Arrival(Request(id), false, false)], NO_MORE, [context]), FinalId(was, [Arrival(Request(id), false, false)], NO_MORE))
    ensures !RightIds(Dues([], [Arrival(Request(id), true, false)], NO_MORE, []), FinalId(was, [Arrival(Request(id), true, false)], NO_MORE))
    ensures var closed := Ending(Some(0), [Lifecycle.ConnectionClosed]);
            !RightIds(Dues([], [Arrival(Request(id), false, false)], closed, []), FinalId(was, [Arrival(Request(id), false, false)], closed))
    ensures var lost := Ending(None, [Lifecycle.ConnectionLost]);
            !RightIds(Dues([], [], lost, []), FinalId(id, [], lost))
    ensures var two := [Arrival(Request(id), false, false), Arrival(Request(other), false, false)];
            !RightIds(Dues([], two, NO_MORE, []), FinalId(was, two, NO_MORE))
    ensures var continued := Arrival(Request(id), false, true);
            !RightIds(Dues([], [continued], NO_MORE, []), FinalId(other, [continued], NO_MORE))
  {
    var a, b, c := Arrival(Request(id), false, false), Arrival(Request(id), true, false), Arrival(Request(other), false, false);
    var d := Arrival(Request(id), false, true);
    assert a in [a] && b in [b] && a in [a, c] && d in [d];
    assert IdAfter(other, [d][..0]) == other;
    IdsRightIff([], [d], NO_MORE, [], other);
    IdsRightIff([], [a], NO_MORE, [context], was);
    IdsRightIff([], [b], NO_MORE, [], was);
    IdsRightIff([], [a], Ending(Some(0), [Lifecycle.ConnectionClosed]), [], was);
    IdsRightIff([], [], Ending(None, [Lifecycle.ConnectionLost]), [], id);
    IdsRightIff([], [a, c], NO_MORE, [], was);
    hide Dues, RightIds;
    assert c in [a, c];
  }

  /** The context that a call with a context of its own sees, when the conn holds `final`. */
  function SeenBy(isUdp: bool, d: Due, final: Ptr): Ptr
    requires d.context.Some?
  {
    if isUdp then d.context.value else final
  }

  /** The documented promise: a reply's callback sees the context given to its msg_get. */
  ghost predicate RightReplies(isUdp: bool, dues: seq<Due>, final: Ptr) {
    forall d <- dues :: d.kind.Reply? && d.context.Some? ==> SeenBy(isUdp, d, final) == d.context.value
  }

  /** What the source sets out to do for timeouts: an expired get's callback sees that get's context. */
  ghost predicate RightExpiries(isUdp: bool, dues: seq<Due>, final: Ptr) {
    forall d <- dues :: d.kind.Error? && d.context.Some? ==> SeenBy(isUdp, d, final) == d.context.value
  }

  /** Only the calls of messages and of expired gets have contexts of their own. */
  lemma DuesAre(queued: seq<EventKind>, arrivals: seq<Arrival>, ending: Ending, expired: seq<Ptr>)
    ensures forall d <- Dues(queued, arrivals, ending, expired) ::
              d in ArrivalDues(arrivals) || (d in ExpiredDues(expired) && d.kind.Error?) || d.context.None?
    ensures forall d <- ArrivalDues(arrivals) :: d in Dues(queued, arrivals, ending, expired)
  {
    hide ArrivalDues;
  }

  /** On udp the promise for replies is kept.  On tcp it is kept exactly when every reply of the pass has the
      context that the conn holds at the end of it. */
  lemma RepliesRightIff(isUdp: bool, queued: seq<EventKind>, arrivals: seq<Arrival>, ending: Ending, expired: seq<Ptr>, was: Ptr)
    ensures var final := FinalContext(was, arrivals, expired);
            RightReplies(isUdp, Dues(queued, arrivals, ending, expired), final) <==>
            isUdp || forall a <- arrivals :: a.read.Reply? ==> a.read.context == final
  {
    var final, dues := FinalContext(was, arrivals, expired), Dues(queued, arrivals, ending, expired);
    ArrivalDuesAre(arrivals);
    DuesAre(queued, arrivals, ending, expired);
    hide FinalContext, ArrivalDues, ExpiredDues, PlainAll, Dues;
    if RightReplies(isUdp, dues, final) && !isUdp {
      forall a <- arrivals | a.read.Reply? ensures a.read.context == final {
        assert MessageDue(a.read) in dues;
      }
    }
  }

  /** On udp the timeouts are right too; on tcp exactly when all the gets that expire have one context. */
  lemma ExpiriesRightIff(isUdp: bool, queued: seq<EventKind>, arrivals: seq<Arrival>, ending: Ending, expired: seq<Ptr>, was: Ptr)
    ensures RightExpiries(isUdp, Dues(queued, arrivals, ending, expired), FinalContext(was, arrivals, expired)) <==>
            isUdp || forall e <- expired :: e == expired[|expired| - 1]
  {
    var final, dues := FinalContext(was, arrivals, expired), Dues(queued, arrivals, ending, expired);
    ArrivalDuesAre(arrivals);
    hide ArrivalDues;
    assert forall d <- dues :: d.kind.Error? && d.context.Some? ==> d in ExpiredDues(expired);
    forall d <- ExpiredDues(expired) ensures d.context.Some? && d.context.value in expired {
      var i :| 0 <= i < |expired| && ExpiredDues(expired)[i] == d;
      assert d.context == Some(expired[i]);
    }
    forall e <- expired ensures Due(Lifecycle.Error, 0, Some(e)) in dues {
      var i :| 0 <= i < |expired| && expired[i] == e;
      assert ExpiredDues(expired)[i] in dues;
    }
    if RightExpiries(isUdp, dues, final) && !isUdp {
      forall e <- expired ensures e == final {
        assert Due(Lifecycle.Error, 0, Some(e)) in dues;
      }
    }
  }

  /** For gets with different contexts a tcp conn may thus have one reply in a pass, read last, and no expiry. */
  lemma DistinctContextsRightIff(queued: seq<EventKind>, arrivals: seq<Arrival>, ending: Ending, expired: seq<Ptr>, was: Ptr)
    requires forall i, j :: 0 <= i < j < |arrivals| && arrivals[i].read.Reply? && arrivals[j].read.Reply? ==>
                              arrivals[i].read.context != arrivals[j].read.context
    requires forall a <- arrivals :: a.read.Reply? ==> a.read.context != NULL && a.read.context !in expired
    ensures RightReplies(false, Dues(queued, arrivals, ending, expired), FinalContext(was, arrivals, expired)) <==>
            forall i :: 0 <= i < |arrivals| && arrivals[i].read.Reply? ==> i == |arrivals| - 1 && expired == []
  {
    RepliesRightIff(false, queued, arrivals, ending, expired, was);
    var final := FinalContext(was, arrivals, expired);
    if forall a <- arrivals :: a.read.Reply? ==> a.read.context == final {
      forall i | 0 <= i < |arrivals| && arrivals[i].read.Reply? ensures i == |arrivals| - 1 && expired == [] {
        assert arrivals[i] in arrivals && arrivals[|arrivals| - 1] in arrivals;
      }
    }
  }

  /** Inputs that break it on tcp: two replies in a pass, or a reply and an expiry. */
  lemma StaleContexts(a: Ptr, b: Ptr, was: Ptr)
    requires a != b
    ensures var two := [Arrival(Reply(1, a), false, false), Arrival(Reply(2, b), false, false)];
            !RightReplies(false, Dues([], two, NO_MORE, []), FinalContext(was, two, []))
    ensures var one := [Arrival(Reply(1, a), false, false)];
            !RightReplies(false, Dues([], one, NO_MORE, [b]), FinalContext(was, one, [b]))
  {
    var x, y := Arrival(Reply(1, a), false, false), Arrival(Reply(2, b), false, false);
    assert x in [x, y] && x in [x];
    RepliesRightIff(false, [], [x, y], NO_MORE, [], was);
    RepliesRightIff(false, [], [x], NO_MORE, [b], was);
  }

  // ----- conn_context on a listening udp conn -----

  class ConnStatus {
    var connContext: Ptr

    constructor (c: Ptr)
      ensures connContext == c
    {
      connContext := c;
    }
  }

  /** What happens to statuses, and which contexts callbacks leave.  `kept` says that the status of the
      callback's address was not dropped while the callback ran. */
  datatype Happening =
    | Created(address: Address, context: Ptr)
    | Dropped(address: Address)
    | Called(address: Address, left: Ptr, kept: bool)

  /** What a user's callback does: calls that drop or create statuses, then what it leaves in the conn. */
  datatype Inner = Drop(address: Address) | Create(address: Address, context: Ptr)
  datatype Effect = Effect(inner: seq<Inner>, left: Ptr, remote: Address)

  /** The reference: the context left by the last callback for the address since its status was made, or the
      one captured when it was made; None while the address has no status. */
  ghost function Expected(history: seq<Happening>, a: Address): Option<Ptr> {
    if history == [] then None
    else
      var h, before := history[|history| - 1], history[..|history| - 1];
      match h
      case Created(b, c) => if b == a then Some(c) else Expected(before, a)
      case Dropped(b) => if b == a then None else Expected(before, a)
      case Called(b, left, kept) => if b == a && kept then Some(left) else Expected(before, a)
  }

  lemma ExpectedSnoc(history: seq<Happening>, h: Happening, a: Address)
    ensures Expected(history + [h], a) ==
            match h
            case Created(b, c) => if b == a then Some(c) else Expected(history, a)
            case Dropped(b) => if b == a then None else Expected(history, a)
            case Called(b, left, kept) => if b == a && kept then Some(left) else Expected(history, a)
  {
    assert (history + [h])[..|history|] == history;
  }

  /** The happening settles the context of the address: its status is made or dropped, or a callback's context is
      saved in it. */
  predicate Settles(h: Happening, a: Address) {
    h.address == a && (h.Called? ==> h.kept)
  }

  ghost predicate LastToSettle(history: seq<Happening>, a: Address, i: nat) {
    i < |history| && Settles(history[i], a) && forall j :: i < j < |history| ==> !Settles(history[j], a)
  }

  /** What Expected comes to, told by the last happening that settles it. */
  lemma {:induction false} ExpectedIs(history: seq<Happening>, a: Address)
    ensures forall i: nat :: LastToSettle(history, a, i) ==>
                               && (history[i].Created? ==> Expected(history, a) == Some(history[i].context))
                               && (history[i].Dropped? ==> Expected(history, a) == None)
                               && (history[i].Called? ==> Expected(history, a) == Some(history[i].left))
    ensures (forall h <- history :: !Settles(h, a)) ==> Expected(history, a) == None
  {
    if history != [] {
      var n := |history| - 1;
      var init := history[..n];
      ExpectedIs(init, a);
      assert history[n] in history;
      forall i: nat | LastToSettle(history, a, i) ensures if Settles(history[n], a) then i == n else LastToSettle(init, a, i) {
        assert i < n ==> !Settles(history[n], a);
      }
    }
  }

  /** What the calls that a callback makes do to the statuses; live are the addresses that have one. */
  ghost function Happenings(inner: seq<Inner>, live: set<Address>): seq<Happening> {
    if inner == [] then []
    else
      match inner[0]
      case Drop(b) => [Dropped(b)] + Happenings(inner[1..], live - {b})
      case Create(b, c) =>
        if b in live then Happenings(inner[1..], live)
        else [Created(b, c)] + Happenings(inner[1..], live + {b})
  }

  ghost function LiveAfter(inner: seq<Inner>, live: set<Address>): set<Address> {
    if inner == [] then live
    else
      match inner[0]
      case Drop(b) => LiveAfter(inner[1..], live - {b})
      case Create(b, _) => LiveAfter(inner[1..], live + {b})
  }

  lemma HappeningsOne(call: Inner, live: set<Address>)
    ensures Happenings([call], live) == if call.Drop? then [Dropped(call.address)]
                                        else if call.address in live then []
                                        else [Created(call.address, call.context)]
    ensures LiveAfter([call], live) == if call.Drop? then live - {call.address} else live + {call.address}
  {
    assert [call][1..] == [];
  }

  lemma HappeningsNext(inner: seq<Inner>, live: set<Address>)
    requires inner != []
    ensures var live' := LiveAfter([inner[0]], live);
            && Happenings(inner, live) == Happenings([inner[0]], live) + Happenings(inner[1..], live')
            && LiveAfter(inner, live) == LiveAfter(inner[1..], live')
  {
    HappeningsOne(inner[0], live);
    if inner[0].Create? && inner[0].address in live { assert live + {inner[0].address} == live; }
  }

  /** What happens on a listening udp conn: a message arrives, a queued call for an address is made, or an
      address is dropped. */
  datatype UdpStep = FromPeer(address: Address) | Deliver(address: Address, effect: Effect) | Forget(address: Address)

  /** What steps come to: the happenings, the live addresses, and the context left in the conn. */
  ghost function Recorded(c: Ptr, steps: seq<UdpStep>): (seq<Happening>, set<Address>, Ptr) {
    if steps == [] then ([], {}, c)
    else
      var (history, live, context) := Recorded(c, steps[..|steps| - 1]);
      match steps[|steps| - 1]
      case FromPeer(a) => (history + (if a in live then [] else [Created(a, context)]), live + {a}, context)
      case Deliver(a, e) =>
        (history + Happenings(e.inner, live) + (if a in live then [Called(a, e.left, Drop(a) !in e.inner)] else []),
         LiveAfter(e.inner, live), e.left)
      case Forget(a) => (history + [Dropped(a)], live - {a}, context)
  }

  class UdpListener {
    var connContext: Ptr
    var remote: Address
    var connStatus: map<Address, ConnStatus>
    ghost var history: seq<Happening>
    ghost var statuses: set<ConnStatus>

    /** Each live address has its own status, holding the context expected for it. */
    ghost predicate Valid()
      reads this, statuses
    {
      && (forall a <- connStatus :: connStatus[a] in statuses)
      && (forall a, b :: a in connStatus && b in connStatus && connStatus[a] == connStatus[b] ==> a == b)
      && (forall a :: a in connStatus <==> Expected(history, a).Some?)
      && (forall a <- connStatus :: Expected(history, a) == Some(connStatus[a].connContext))
    }

    constructor (c: Ptr)
      ensures Valid() && connStatus == map[] && history == [] && statuses == {} && connContext == c
    {
      connContext, remote, connStatus, history, statuses := c, Address(Ip(0, 0, 0, 0), 0, SOCK_DGRAM), map[], [], {};
    }

    /** new_conn_status and map__set for an address without a status. */
    method CreateStatus(a: Address, context: Ptr)
      requires Valid() && a !in connStatus
      modifies this`connStatus, this`history, this`statuses
      ensures Valid() && history == old(history) + [Created(a, context)]
      ensures connStatus.Keys == old(connStatus).Keys + {a} && fresh(statuses - old(statuses)) && old(statuses) <= statuses
      ensures forall b <- old(connStatus) :: connStatus[b] == old(connStatus)[b]
      ensures connStatus[a] !in old(statuses)
    {
      var status := new ConnStatus(context);
      ghost var was := history;
      connStatus, statuses, history := connStatus[a := status], statuses + {status}, history + [Created(a, context)];
      forall b ensures Expected(history, b) == if b == a then Some(context) else Expected(was, b) {
        ExpectedSnoc(was, Created(a, context), b);
      }
    }

    /** map__unset on conn_status, as local_disconnect does it. */
    method DropStatus(a: Address)
      requires Valid()
      modifies this`connStatus, this`history
      ensures Valid() && history == old(history) + [Dropped(a)] && connStatus == old(connStatus) - {a}
    {
      ghost var was := history;
      connStatus, history := connStatus - {a}, history + [Dropped(a)];
      forall b ensures Expected(history, b) == if b == a then None else Expected(was, b) {
        ExpectedSnoc(was, Dropped(a), b);
      }
    }

    /** A message from address a is read: remote_address_seen captures the conn's context of the moment. */
    method Receive(a: Address)
      requires Valid()
      modifies this`remote, this`connStatus, this`history, this`statuses
      ensures Valid() && remote == a && connStatus.Keys == old(connStatus).Keys + {a}
      ensures fresh(statuses - old(statuses)) && old(statuses) <= statuses
      ensures history == old(history) + (if a in old(connStatus) then [] else [Created(a, old(connContext))])
    {
      remote := a;
      if a !in connStatus { CreateStatus(a, connContext); }
    }

    /** One call that a callback makes; `kept` says whether the status of address a is still the one given. */
    method PerformOne(call: Inner, a: Address, status: ConnStatus?, ghost kept: bool) returns (ghost kept': bool)
      requires Valid() && (status != null ==> status in statuses) && IsKept(a, status, kept)
      modifies this`connStatus, this`history, this`statuses
      ensures Valid() && fresh(statuses - old(statuses)) && old(statuses) <= statuses
      ensures kept' == (kept && call != Drop(a)) && IsKept(a, status, kept')
      ensures history == old(history) + Happenings([call], old(connStatus).Keys)
      ensures connStatus.Keys == LiveAfter([call], old(connStatus).Keys)
    {
      hide Expected;
      assert [call][1..] == [];
      match call
      case Drop(b) =>
        ghost var before := connStatus.Keys;
        DropStatus(b);
        assert connStatus.Keys == before - {b};
        kept' := kept && b != a;
      case Create(b, c) =>
        kept' := kept;
        if b !in connStatus { CreateStatus(b, c); }
    }

    ghost predicate IsKept(a: Address, status: ConnStatus?, kept: bool)
      reads this`connStatus
    {
      if kept then status != null && a in connStatus && connStatus[a] == status
      else forall b <- connStatus :: connStatus[b] != status
    }

    /** The calls that a callback makes, one after the other. */
    method PerformAll(inner: seq<Inner>, a: Address, status: ConnStatus?, ghost kept: bool) returns (ghost kept': bool)
      requires Valid() && (status != null ==> status in statuses) && IsKept(a, status, kept)
      modifies this`connStatus, this`history, this`statuses
      ensures Valid() && fresh(statuses - old(statuses)) && old(statuses) <= statuses
      ensures kept' == (kept && Drop(a) !in inner) && IsKept(a, status, kept')
      ensures history == old(history) + Happenings(inner, old(connStatus).Keys)
      ensures connStatus.Keys == LiveAfter(inner, old(connStatus).Keys)
      decreases |inner|
    {
      hide Expected, UdpListener.Valid, UdpListener.IsKept;
      kept' := kept;
      if inner != [] {
        HappeningsNext(inner, connStatus.Keys);
        hide Happenings, LiveAfter;
        kept' := PerformOne(inner[0], a, status, kept');
        kept' := PerformAll(inner[1..], a, status, kept');
      }
    }

    /** make_call for an event with data on a udp conn: the address's context is swapped in, the callback
        runs, and what it left is saved in the status it came from. */
    method MakeCall(a: Address, effect: Effect) returns (seen: Ptr)
      requires Valid()
      modifies this, statuses
      ensures Valid() && fresh(statuses - old(statuses))
      ensures a in old(connStatus) ==> Some(seen) == old(Expected(history, a))
      ensures a !in old(connStatus) ==> seen == old(connContext)
      ensures connContext == effect.left && remote == effect.remote
      ensures connStatus.Keys == LiveAfter(effect.inner, old(connStatus).Keys) && old(statuses) <= statuses
      ensures history == old(history) + Happenings(effect.inner, old(connStatus).Keys)
                         + if a in old(connStatus) then [Called(a, effect.left, Drop(a) !in effect.inner)] else []
    {
      remote := a;
      var status: ConnStatus? := null;
      if a in connStatus {
        status := connStatus[a];
        connContext := status.connContext;
      }
      seen := connContext;
      ghost var kept := PerformAll(effect.inner, a, status, status != null);
      connContext, remote := effect.left, effect.remote;
      if status != null { SaveContext(a, status, kept); }
    }

    /** Save the conn's context in the status that the callback was given, which may be detached by now. */
    method SaveContext(a: Address, status: ConnStatus, ghost kept: bool)
      requires Valid() && status in statuses
      requires IsKept(a, status, kept)
      modifies this`history, status
      ensures Valid() && history == old(history) + [Called(a, connContext, kept)]
    {
      ghost var was := history;
      status.connContext := connContext;
      history := history + [Called(a, connContext, kept)];
      forall b ensures Expected(history, b) == if b == a && kept then Some(connContext) else Expected(was, b) {
        ExpectedSnoc(was, Called(a, connContext, kept), b);
      }
    }
  }

  /** One step; a call answers with what its callback saw. */
  method Perform(l: UdpListener, step: UdpStep) returns (seen: Option<Ptr>)
    requires l.Valid()
    modifies l, l.statuses
    ensures l.Valid() && fresh(l.statuses - old(l.statuses))
    ensures step.Deliver? && step.address in old(l.connStatus) ==> seen == old(Expected(l.history, step.address))
    ensures Follows(step, old(l.history), old(l.connStatus.Keys), old(l.connContext), l.history, l.connStatus.Keys, l.connContext)
  {
    hide Expected, UdpListener.Valid;
    seen := None;
    match step
    case FromPeer(a) => l.Receive(a);
    case Deliver(a, e) =>
      ghost var live := l.connStatus.Keys;
      var context := l.MakeCall(a, e);
      seen := Some(context);
    case Forget(a) => l.DropStatus(a);
  }

  /** How one step moves what Recorded tells on. */
  ghost predicate Follows(step: UdpStep, h: seq<Happening>, live: set<Address>, c: Ptr,
                          h': seq<Happening>, live': set<Address>, c': Ptr) {
    match step
    case FromPeer(a) => h' == h + (if a in live then [] else [Created(a, c)]) && live' == live + {a} && c' == c
    case Deliver(a, e) =>
      && h' == h + Happenings(e.inner, live) + (if a in live then [Called(a, e.left, Drop(a) !in e.inner)] else [])
      && live' == LiveAfter(e.inner, live) && c' == e.left
    case Forget(a) => h' == h + [Dropped(a)] && live' == live - {a} && c' == c
  }

  lemma RecordedNext(c: Ptr, steps: seq<UdpStep>, i: nat, h: seq<Happening>, live: set<Address>, c': Ptr)
    requires i < |steps|
    requires var (h0, live0, c0) := Recorded(c, steps[..i]); Follows(steps[i], h0, live0, c0, h, live, c')
    ensures Recorded(c, steps[..i + 1]) == (h, live, c')
  {
    assert steps[..i + 1][..i] == steps[..i];
  }

  /** Any interleaving of messages, calls and drops for any addresses: each call for a live address sees the
      context that the last call for it left, or the one captured when its status was made. */
  method Run(c: Ptr, steps: seq<UdpStep>) returns (l: UdpListener, seen: seq<Option<Ptr>>)
    ensures l.Valid() && (l.history, l.connStatus.Keys, l.connContext) == Recorded(c, steps)
    ensures |seen| == |steps|
    ensures forall i :: 0 <= i < |steps| && steps[i].Deliver? && steps[i].address in Recorded(c, steps[..i]).1 ==>
                          seen[i] == Expected(Recorded(c, steps[..i]).0, steps[i].address)
  {
    l := new UdpListener(c);
    seen := [];
    assert steps[..0] == [] && l.connStatus.Keys == {};
    hide Recorded, Expected, UdpListener.Valid, Follows;
    for i := 0 to |steps|
      invariant fresh(l) && fresh(l.statuses) && l.Valid() && |seen| == i
      invariant (l.history, l.connStatus.Keys, l.connContext) == Recorded(c, steps[..i])
      invariant forall k :: 0 <= k < i && steps[k].Deliver? && steps[k].address in Recorded(c, steps[..k]).1 ==>
                              seen[k] == Expected(Recorded(c, steps[..k]).0, steps[k].address)
    {
      var s := Perform(l, steps[i]);
      RecordedNext(c, steps, i, l.history, l.connStatus.Keys, l.connContext);
      seen := seen + [s];
    }
    assert steps[..|steps|] == steps;
  }
}
