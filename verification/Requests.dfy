/** msg_get, replies and timeouts: the request protocol of msgbox as a state machine.

    The peer and the network are arbitrary: any reply id may arrive on any status at any time, any number of
    times, or never.  What is recorded besides the program's own state is history: the gets made, the events
    queued, and which get each event answers. */
module Requests {
  import opened Common

  // now() counts microseconds; udp_timeout_sec is 1.
  const UDP_TIMEOUT: int := 1_000_000
  const IDS: nat := 0x1_0000

  type ConnId = int

  // The identity of a ConnStatus; there is one per live remote address.
  type StatusId = int

  datatype KeyOf<S> = Key(status: S, replyId: uint16)
  type Key = KeyOf<StatusId>

  datatype TimeoutOf<C, S> = Timeout(at: int, conn: C, key: KeyOf<S>)
  type Timeout = TimeoutOf<ConnId, StatusId>

  datatype Get = Get(key: Key, context: Ptr)

  datatype Event =
    | ReplyEvent(conn: ConnId, key: Key, context: Ptr)     // msg_reply
    | TimeoutError(conn: ConnId, key: Key, context: Ptr)   // msg_error, "... get timed out"
    | Unrecognized(conn: ConnId, key: Key)                 // msg_error, "Unrecognized reply_id"
    | SendError(conn: ConnId, key: Key)                    // msg_error, the failing system call
    | NoStatus(conn: ConnId)                               // msg_error, "No known connection with ..."
  {
    predicate Resolves() { ReplyEvent? || TimeoutError? }
  }

  /** contexts is the reply_contexts maps of all statuses; nextId their next_reply_id; timeouts the queue.
      The rest is history: answers[j] is the get that events[j] answers, and live[k] the get that stored the
      context now found under k. */
  datatype State = State(
    contexts: map<Key, Ptr>,
    nextId: map<StatusId, uint16>,
    timeouts: seq<Timeout>,
    clock: int,
    gets: seq<Get>,
    live: map<Key, nat>,
    events: seq<Event>,
    answers: seq<Option<nat>>)

  function Bump(id: uint16): uint16 {
    (id + 1) % IDS
  }

  /** Queue an event; g is the get that it answers. */
  function Log(s: State, e: Event, g: Option<nat>): State {
    s.(events := s.events + [e], answers := s.answers + [g])
  }

  /** msg_get at time now, which fails to send unless sent. */
  function DoGet(s: State, conn: ConnId, status: StatusId, context: Ptr, sent: bool, now: int): State {
    if status !in s.nextId then Log(s, NoStatus(conn), None)
    else
      var k := Key(status, s.nextId[status]);
      var s' := s.(contexts := s.contexts[k := context], nextId := s.nextId[status := Bump(k.replyId)],
                gets := s.gets + [Get(k, context)], live := s.live[k := |s.gets|], clock := now);
      if sent then s'.(timeouts := s'.timeouts + [Timeout(now + UDP_TIMEOUT, conn, k)])
      else Log(s', SendError(conn, k), None)
  }

  /** What msg_get does: nothing but an error for an address without a status; else the id is taken and the context
      stored, and the get then waits one second, unless it could not be sent. */
  lemma GetOutcome(s: State, conn: ConnId, status: StatusId, context: Ptr, sent: bool, now: int, t: int)
    ensures var s' := DoGet(s, conn, status, context, sent, now);
            if status !in s.nextId then s' == s.(events := s.events + [NoStatus(conn)], answers := s.answers + [None])
            else
              var k := Key(status, s.nextId[status]);
              && k in s'.contexts && s'.contexts[k] == context
              && status in s'.nextId && s'.nextId[status] == (if k.replyId == 65535 then 0 else k.replyId + 1)
              && s'.gets == s.gets + [Get(k, context)]
              && (sent ==> s'.events == s.events && |s'.timeouts| == |s.timeouts| + 1 && s'.timeouts[..|s.timeouts|] == s.timeouts
                           && var added := s'.timeouts[|s.timeouts|];
                           added.conn == conn && added.key == k && (added.at > t <==> t < now + 1_000_000))
              && (!sent ==> s'.timeouts == s.timeouts && s'.events == s.events + [SendError(conn, k)])
  {
  }

  /** remove_timeout: drop the first timeout of the key, if there is one. */
  function WithoutFirst<C, S(==)>(ts: seq<TimeoutOf<C, S>>, k: KeyOf<S>): seq<TimeoutOf<C, S>> {
    if ts == [] then []
    else if ts[0].key == k then ts[1..]
    else [ts[0]] + WithoutFirst(ts[1..], k)
  }

  lemma {:induction false} WithoutFirstAt<C, S>(ts: seq<TimeoutOf<C, S>>, k: KeyOf<S>, i: nat)
    requires i < |ts| && ts[i].key == k && forall j :: 0 <= j < i ==> ts[j].key != k
    ensures WithoutFirst(ts, k) == ts[..i] + ts[i + 1..]
  {
    if i > 0 {
      WithoutFirstAt(ts[1..], k, i - 1);
      assert ts[..i] == [ts[0]] + ts[1..][..i - 1] && ts[1..][i..] == ts[i + 1..];
    }
  }

  lemma {:induction false} WithoutFirstNone<C, S>(ts: seq<TimeoutOf<C, S>>, k: KeyOf<S>)
    requires forall j :: 0 <= j < |ts| ==> ts[j].key != k
    ensures WithoutFirst(ts, k) == ts
  {
    if ts != [] { WithoutFirstNone(ts[1..], k); }
  }

  /** The end of read_from_socket for a message of type msg_type_reply. */
  function DoReply(s: State, conn: ConnId, k: Key): State {
    if k !in s.contexts then Log(s, Unrecognized(conn, k), None)
    else
      Log(s.(timeouts := WithoutFirst(s.timeouts, k), contexts := s.contexts - {k}, live := s.live - {k}),
          ReplyEvent(conn, k, s.contexts[k]), if k in s.live then Some(s.live[k]) else None)
  }

  /** One round of the timeout loop of msg_runloop. */
  function ExpireFirst(s: State): State
    requires s.timeouts != [] && s.timeouts[0].key in s.contexts
  {
    var t := s.timeouts[0];
    Log(s.(timeouts := s.timeouts[1..], contexts := s.contexts - {t.key}, live := s.live - {t.key}),
        TimeoutError(t.conn, t.key, s.contexts[t.key]), if t.key in s.live then Some(s.live[t.key]) else None)
  }

  // ----- The invariant -----

  /** A get's answer: event j is the reply or the timeout that ends it. */
  ghost predicate Answers(s: State, j: nat, g: nat)
    requires |s.answers| == |s.events|
  {
    j < |s.events| && s.answers[j] == Some(g)
  }

  ghost predicate Resolved(s: State, g: nat)
    requires |s.answers| == |s.events|
  {
    exists j :: 0 <= j < |s.events| && Answers(s, j, g)
  }

  ghost predicate IsPending(s: State, g: nat) {
    g < |s.gets| && s.gets[g].key in s.live && s.live[s.gets[g].key] == g
  }

  /** Every context in a map belongs to the get that stored it. */
  ghost predicate ContextsOk(s: State) {
    && s.contexts.Keys == s.live.Keys
    && (forall k <- s.live :: s.live[k] < |s.gets| && s.gets[s.live[k]] == Get(k, s.contexts[k]))
  }

  /** Exactly the replies and timeouts answer a get, each with that get's own id and context; no get is
      answered twice, and none that is still pending. */
  ghost predicate AnswersOk(s: State) {
    && |s.answers| == |s.events|
    && (forall j :: 0 <= j < |s.events| ==> (s.answers[j].Some? <==> s.events[j].Resolves()))
    && (forall j :: 0 <= j < |s.events| && s.answers[j].Some? ==>
                      s.answers[j].value < |s.gets| && s.gets[s.answers[j].value] == Get(s.events[j].key, s.events[j].context))
    && (forall i, j :: 0 <= i < j < |s.events| && s.answers[i].Some? ==> s.answers[i] != s.answers[j])
    && (forall k, j :: k in s.live && 0 <= j < |s.events| ==> s.answers[j] != Some(s.live[k]))
  }

  /** No get is forgotten: each is pending or has its answer. */
  ghost predicate NoneLost(s: State)
    requires |s.answers| == |s.events|
  {
    forall g :: 0 <= g < |s.gets| ==> IsPending(s, g) || Resolved(s, g)
  }

  ghost predicate Sorted(ts: seq<Timeout>) {
    forall i, j :: 0 <= i < j < |ts| ==> ts[i].at <= ts[j].at
  }

  ghost predicate DistinctKeys(ts: seq<Timeout>) {
    forall i, j :: 0 <= i < j < |ts| ==> ts[i].key != ts[j].key
  }

  /** The queue is soonest-first, holds each key once, and every timeout has its context. */
  ghost predicate TimeoutsOk(s: State) {
    && Sorted(s.timeouts) && DistinctKeys(s.timeouts)
    && (forall t <- s.timeouts :: t.key in s.contexts && t.at <= s.clock + UDP_TIMEOUT)
  }

  ghost predicate Inv(s: State) {
    ContextsOk(s) && AnswersOk(s) && NoneLost(s) && TimeoutsOk(s)
  }

  // ----- Steps keep it -----

  lemma LogKeeps(s: State, e: Event)
    requires Inv(s) && !e.Resolves()
    ensures Inv(Log(s, e, None))
  {
    var s' := Log(s, e, None);
    forall g | 0 <= g < |s.gets| ensures IsPending(s', g) || Resolved(s', g) {
      if Resolved(s, g) {
        var j :| 0 <= j < |s.events| && Answers(s, j, g);
        assert Answers(s', j, g);
      }
    }
  }

  /** The get whose context is taken out under k is answered by the new event; nothing else changes. */
  lemma ResolveKeeps(s: State, k: Key, e: Event, ts: seq<Timeout>)
    requires Inv(s) && k in s.contexts && e.Resolves() && e.key == k && e.context == s.contexts[k]
    requires Sorted(ts) && DistinctKeys(ts) && forall t <- ts :: t in s.timeouts && t.key != k
    ensures Inv(Log(s.(timeouts := ts, contexts := s.contexts - {k}, live := s.live - {k}), e, Some(s.live[k])))
  {
    var g0, n := s.live[k], |s.events|;
    var s' := Log(s.(timeouts := ts, contexts := s.contexts - {k}, live := s.live - {k}), e, Some(g0));
    assert s'.contexts.Keys == s'.live.Keys;
    assert ContextsOk(s');
    assert AnswersOk(s') by {
      forall k', j | k' in s'.live && 0 <= j < |s'.events| ensures s'.answers[j] != Some(s'.live[k']) {
        assert s.gets[s.live[k']].key == k' != k;
      }
    }
    forall g | 0 <= g < |s.gets| ensures IsPending(s', g) || Resolved(s', g) {
      if g == g0 {
        assert Answers(s', n, g);
      } else if Resolved(s, g) {
        var j :| 0 <= j < |s.events| && Answers(s, j, g);
        assert Answers(s', j, g);
      }
    }
  }

  lemma {:induction false} WithoutFirstHolds(ts: seq<Timeout>, k: Key)
    requires DistinctKeys(ts)
    ensures forall t :: t in WithoutFirst(ts, k) <==> t in ts && t.key != k
  {
    if ts != [] {
      assert ts == [ts[0]] + ts[1..];
      if ts[0].key != k { WithoutFirstHolds(ts[1..], k); }
    }
  }

  lemma {:induction false} WithoutFirstKeeps(ts: seq<Timeout>, k: Key)
    requires DistinctKeys(ts)
    ensures var r := WithoutFirst(ts, k);
            && (forall t :: t in r <==> t in ts && t.key != k)
            && (Sorted(ts) ==> Sorted(r)) && DistinctKeys(r)
  {
    WithoutFirstHolds(ts, k);
    if ts != [] && ts[0].key != k {
      WithoutFirstKeeps(ts[1..], k);
      var r := WithoutFirst(ts[1..], k);
      forall t <- r ensures t.key != ts[0].key && (Sorted(ts) ==> ts[0].at <= t.at) {
        var i :| 0 <= i < |ts[1..]| && ts[1..][i] == t;
        assert ts[i + 1] == t;
      }
    }
  }

  lemma ReplyKeeps(s: State, conn: ConnId, k: Key)
    requires Inv(s)
    ensures Inv(DoReply(s, conn, k))
  {
    if k in s.contexts {
      WithoutFirstKeeps(s.timeouts, k);
      ResolveKeeps(s, k, ReplyEvent(conn, k, s.contexts[k]), WithoutFirst(s.timeouts, k));
    } else {
      LogKeeps(s, Unrecognized(conn, k));
    }
  }

  lemma ExpireFirstKeeps(s: State)
    requires Inv(s) && s.timeouts != []
    ensures s.timeouts[0].key in s.contexts && Inv(ExpireFirst(s))
  {
    var t := s.timeouts[0];
    assert t in s.timeouts;
    ResolveKeeps(s, t.key, TimeoutError(t.conn, t.key, s.contexts[t.key]), s.timeouts[1..]);
  }

  /** The id that msg_get is about to give out is still waiting for its answer. */
  ghost predicate IdTaken(s: State, status: StatusId) {
    status in s.nextId && Key(status, s.nextId[status]) in s.contexts
  }

  /** What msg_get does before it sends. */
  function Stored(s: State, k: Key, context: Ptr, now: int): State {
    s.(contexts := s.contexts[k := context], nextId := s.nextId[k.status := Bump(k.replyId)],
    gets := s.gets + [Get(k, context)], live := s.live[k := |s.gets|], clock := now)
  }

  lemma StoreKeeps(s: State, k: Key, context: Ptr, now: int)
    requires Inv(s) && now >= s.clock && k !in s.contexts
    ensures Inv(Stored(s, k, context, now))
  {
    var s' := Stored(s, k, context, now);
    forall g | 0 <= g < |s'.gets| ensures IsPending(s', g) || Resolved(s', g) {
      if g < |s.gets| && Resolved(s, g) {
        var j :| 0 <= j < |s.events| && Answers(s, j, g);
        assert Answers(s', j, g);
      }
    }
    assert s'.contexts.Keys == s'.live.Keys;
  }

  lemma QueueTimeoutKeeps(s: State, t: Timeout)
    requires Inv(s) && t.at == s.clock + UDP_TIMEOUT && t.key in s.contexts
    requires forall u <- s.timeouts :: u.key != t.key
    ensures Inv(s.(timeouts := s.timeouts + [t]))
  {
    var s' := s.(timeouts := s.timeouts + [t]);
    forall g | 0 <= g < |s'.gets| ensures IsPending(s', g) || Resolved(s', g) {
      if Resolved(s, g) {
        var j :| 0 <= j < |s.events| && Answers(s, j, g);
        assert Answers(s', j, g);
      }
    }
  }

  lemma GetKeeps(s: State, conn: ConnId, status: StatusId, context: Ptr, sent: bool, now: int)
    requires Inv(s) && now >= s.clock && !IdTaken(s, status)
    ensures Inv(DoGet(s, conn, status, context, sent, now))
  {
    if status !in s.nextId {
      LogKeeps(s, NoStatus(conn));
    } else {
      var k := Key(status, s.nextId[status]);
      var stored := Stored(s, k, context, now);
      assert forall u <- s.timeouts :: u.key in s.contexts;
      hide Inv;
      StoreKeeps(s, k, context, now);
      if sent {
        QueueTimeoutKeeps(stored, Timeout(now + UDP_TIMEOUT, conn, k));
      } else {
        LogKeeps(stored, SendError(conn, k));
      }
    }
  }

  /** Giving out an id that is still waiting is exactly what breaks the protocol's bookkeeping: the earlier
      get on that id is then forgotten, neither pending nor ever answered. */
  lemma GetKeepsIff(s: State, conn: ConnId, status: StatusId, context: Ptr, sent: bool, now: int)
    requires Inv(s) && now >= s.clock
    ensures Inv(DoGet(s, conn, status, context, sent, now)) <==> !IdTaken(s, status)
    ensures IdTaken(s, status) ==>
              var s' := DoGet(s, conn, status, context, sent, now);
              var g := s.live[Key(status, s.nextId[status])];
              g < |s.gets| && !IsPending(s', g) && !Resolved(s', g)
  {
    if IdTaken(s, status) {
      var s' := DoGet(s, conn, status, context, sent, now);
      var k := Key(status, s.nextId[status]);
      var g := s.live[k];
      assert s'.live[k] == |s.gets| != g;
      forall j | 0 <= j < |s'.events| ensures !Answers(s', j, g) {
        assert j < |s.events| ==> s.answers[j] != Some(g);
      }
      assert !IsPending(s', g) && !Resolved(s', g) && !NoneLost(s');
    } else {
      GetKeeps(s, conn, status, context, sent, now);
    }
  }

  // ----- The timeout loop -----

  /** The timeout loop of msg_runloop at time now.  A due timeout without a context would make the program
      follow a NULL pair; that is where this function stops, and the invariant excludes it. */
  function Expire(s: State, now: int): State
    decreases |s.timeouts|
  {
    if s.timeouts == [] || s.timeouts[0].at > now || s.timeouts[0].key !in s.contexts then s
    else Expire(ExpireFirst(s), now)
  }

  lemma {:induction false} ExpireKeeps(s: State, now: int)
    requires Inv(s)
    ensures Inv(Expire(s, now))
    decreases |s.timeouts|
  {
    hide Inv;
    if s.timeouts != [] && s.timeouts[0].at <= now {
      ExpireFirstKeeps(s);
      ExpireKeeps(ExpireFirst(s), now);
    }
  }

  // ----- The queue by itself -----

  lemma QueueOk(s: State)
    requires TimeoutsOk(s)
    ensures Sorted(s.timeouts) && DistinctKeys(s.timeouts) && forall t <- s.timeouts :: t.key in s.contexts
  {
  }

  /** The id that msg_get is about to give out still has its timeout in the queue. */
  ghost predicate TimeoutClash(s: State, status: StatusId) {
    status in s.nextId && exists t :: t in s.timeouts && t.key == Key(status, s.nextId[status])
  }

  /** A get keeps the queue sound if and only if it does not queue a second timeout for one id.  Contexts that
      failed sends left behind do no harm. */
  lemma GetKeepsQueueIff(s: State, conn: ConnId, status: StatusId, context: Ptr, sent: bool, now: int)
    requires TimeoutsOk(s) && now >= s.clock
    ensures TimeoutsOk(DoGet(s, conn, status, context, sent, now)) <==> !(sent && TimeoutClash(s, status))
  {
    if status in s.nextId && sent {
      var k, n := Key(status, s.nextId[status]), |s.timeouts|;
      var s' := DoGet(s, conn, status, context, sent, now);
      assert s'.timeouts[n].key == k && forall i :: 0 <= i < n ==> s'.timeouts[i] == s.timeouts[i];
      if TimeoutClash(s, status) {
        var t :| t in s.timeouts && t.key == k;
        var i :| 0 <= i < n && s.timeouts[i] == t;
        assert s'.timeouts[i].key == s'.timeouts[n].key;
      }
    }
  }

  lemma ReplyKeepsQueue(s: State, conn: ConnId, k: Key)
    requires TimeoutsOk(s)
    ensures TimeoutsOk(DoReply(s, conn, k))
  {
    WithoutFirstKeeps(s.timeouts, k);
  }

  lemma ExpireFirstKeepsQueue(s: State)
    requires TimeoutsOk(s) && s.timeouts != []
    ensures s.timeouts[0].key in s.contexts && TimeoutsOk(ExpireFirst(s))
  {
    assert s.timeouts[0] in s.timeouts;
    forall t <- s.timeouts[1..] ensures t in s.timeouts && t.key != s.timeouts[0].key {
      var i :| 0 <= i < |s.timeouts[1..]| && s.timeouts[1..][i] == t;
      assert s.timeouts[i + 1] == t;
    }
  }

  lemma {:induction false} ExpireKeepsQueue(s: State, now: int)
    requires TimeoutsOk(s)
    ensures TimeoutsOk(Expire(s, now))
    decreases |s.timeouts|
  {
    hide TimeoutsOk;
    if s.timeouts != [] && s.timeouts[0].at <= now {
      ExpireFirstKeepsQueue(s);
      ExpireKeepsQueue(ExpireFirst(s), now);
    }
  }

  /** How many of the queued timeouts are due. */
  function Due(ts: seq<Timeout>, now: int): (n: nat)
    ensures n <= |ts|
  {
    if ts == [] then 0 else Due(ts[1..], now) + (if ts[0].at <= now then 1 else 0)
  }

  /** The errors for timeouts ts, each with the context stored under its key. */
  function ErrorsOf(ts: seq<Timeout>, contexts: map<Key, Ptr>): seq<Event> {
    if ts == [] then []
    else [TimeoutError(ts[0].conn, ts[0].key, if ts[0].key in contexts then contexts[ts[0].key] else 0)]
         + ErrorsOf(ts[1..], contexts)
  }

  lemma {:induction false} ErrorsOfOthers(ts: seq<Timeout>, contexts: map<Key, Ptr>, k: Key)
    requires forall t <- ts :: t.key != k
    ensures ErrorsOf(ts, contexts - {k}) == ErrorsOf(ts, contexts)
  {
    if ts != [] { ErrorsOfOthers(ts[1..], contexts, k); }
  }

  lemma {:induction false} DueIsPrefix(ts: seq<Timeout>, now: int)
    requires Sorted(ts)
    ensures forall i :: 0 <= i < |ts| ==> (ts[i].at <= now <==> i < Due(ts, now))
  {
    if ts != [] {
      DueIsPrefix(ts[1..], now);
      forall i | 0 <= i < |ts| ensures ts[i].at <= now <==> i < Due(ts, now) {
        if i > 0 { assert ts[i] == ts[1..][i - 1]; }
        if ts[0].at > now && |ts| > 1 { assert ts[1].at >= ts[0].at && ts[1] == ts[1..][0]; }
      }
    }
  }

  lemma {:induction false} ExpireTakesDue(s: State, now: int)
    requires TimeoutsOk(s)
    ensures var n, s' := Due(s.timeouts, now), Expire(s, now);
            s'.timeouts == s.timeouts[n..] && s'.events == s.events + ErrorsOf(s.timeouts[..n], s.contexts)
    decreases |s.timeouts|
  {
    hide TimeoutsOk, Sorted, DistinctKeys;
    assert Sorted(s.timeouts) && DistinctKeys(s.timeouts) by { QueueOk(s); }
    DueIsPrefix(s.timeouts, now);
    var n := Due(s.timeouts, now);
    if n > 0 {
      ExpireFirstKeepsQueue(s);
      var first, rest := s.timeouts[0], s.timeouts[1..];
      assert s.timeouts[..n][1..] == rest[..n - 1] && s.timeouts[n..] == rest[n - 1..];
      assert Expire(s, now) == Expire(ExpireFirst(s), now) && ExpireFirst(s).timeouts == rest && Due(rest, now) == n - 1;
      hide Expire, Due;
      ExpireTakesDue(ExpireFirst(s), now);
      OthersDiffer(s.timeouts, n);
      ErrorsOfOthers(rest[..n - 1], s.contexts, first.key);
    } else {
      assert s.timeouts[..0] == [];
    }
  }

  lemma OthersDiffer(ts: seq<Timeout>, n: nat)
    requires DistinctKeys(ts) && 0 < n <= |ts|
    ensures forall t <- ts[1..][..n - 1] :: t.key != ts[0].key
  {
  }

  /** The loop stops at the first timeout that is not due, and that is enough: it removes exactly the due
      ones, with one error each, in order and with the context stored under its id, and keeps the rest.  A sound
      queue is enough for that, whatever became of the gets. */
  lemma ExpiresExactlyTheDue(s: State, now: int)
    requires TimeoutsOk(s)
    ensures var n, s' := Due(s.timeouts, now), Expire(s, now);
            && (forall i :: 0 <= i < |s.timeouts| ==> (s.timeouts[i].at <= now <==> i < n))
            && s'.timeouts == s.timeouts[n..]
            && s'.events == s.events + ErrorsOf(s.timeouts[..n], s.contexts)
            && (forall t <- s.timeouts :: t.key in s.contexts)
  {
    DueIsPrefix(s.timeouts, now);
    ExpireTakesDue(s, now);
  }

  // ----- Whole runs -----

  datatype Action =
    | GetAction(conn: ConnId, status: StatusId, context: Ptr, sent: bool, now: int)
    | ReplyAction(conn: ConnId, key: Key)
    | ExpireAction(now: int)
    | ConnectAction(status: StatusId)   // a new ConnStatus: next_reply_id is 1

  function DoConnect(s: State, status: StatusId): State {
    s.(nextId := s.nextId[status := 1])
  }

  /** Anything may happen in any order; only the clock does not run backwards, and a status is new once. */
  ghost predicate Step(s: State, a: Action, s': State) {
    match a
    case GetAction(conn, status, context, sent, now) =>
      now >= s.clock && s' == DoGet(s, conn, status, context, sent, now)
    case ReplyAction(conn, key) => s' == DoReply(s, conn, key)
    case ExpireAction(now) => s' == Expire(s, now)
    case ConnectAction(status) => status !in s.nextId && s' == DoConnect(s, status)
  }

  ghost predicate Starts(s: State) {
    s == State(map[], map[], [], s.clock, [], map[], [], [])
  }

  ghost predicate IsRun(run: seq<State>, actions: seq<Action>) {
    && |run| == |actions| + 1 && Starts(run[0])
    && forall i :: 0 <= i < |actions| ==> Step(run[i], actions[i], run[i + 1])
  }

  /** No get is given an id that is still waiting for its answer. */
  ghost predicate NeverTaken(run: seq<State>, actions: seq<Action>)
    requires |run| == |actions| + 1
  {
    forall i :: 0 <= i < |actions| && actions[i].GetAction? ==> !IdTaken(run[i], actions[i].status)
  }

  lemma ConnectKeeps(s: State, status: StatusId)
    requires Inv(s)
    ensures Inv(DoConnect(s, status))
  {
    var s' := DoConnect(s, status);
    forall g | 0 <= g < |s.gets| ensures IsPending(s', g) || Resolved(s', g) {
      if Resolved(s, g) {
        var j :| 0 <= j < |s.events| && Answers(s, j, g);
        assert Answers(s', j, g);
      }
    }
  }

  lemma StepKeeps(s: State, a: Action, s': State)
    requires Inv(s) && Step(s, a, s') && (a.GetAction? ==> !IdTaken(s, a.status))
    ensures Inv(s')
  {
    hide Inv;
    match a
    case GetAction(conn, status, context, sent, now) => GetKeeps(s, conn, status, context, sent, now);
    case ReplyAction(conn, key) => ReplyKeeps(s, conn, key);
    case ExpireAction(now) => ExpireKeeps(s, now);
    case ConnectAction(status) => ConnectKeeps(s, status);
  }

  lemma {:induction false} RunKeeps(run: seq<State>, actions: seq<Action>, i: nat)
    requires IsRun(run, actions) && NeverTaken(run, actions) && i <= |actions|
    ensures Inv(run[i])
  {
    if i > 0 {
      RunKeeps(run, actions, i - 1);
      assert Step(run[i - 1], actions[i - 1], run[i]);
      hide Inv, Step;
      StepKeeps(run[i - 1], actions[i - 1], run[i]);
    }
  }

  /** No send succeeds under an id whose timeout is still queued. */
  ghost predicate NeverClashes(run: seq<State>, actions: seq<Action>)
    requires |run| == |actions| + 1
  {
    forall i :: 0 <= i < |actions| && actions[i].GetAction? && actions[i].sent ==> !TimeoutClash(run[i], actions[i].status)
  }

  lemma StepKeepsQueue(s: State, a: Action, s': State)
    requires TimeoutsOk(s) && Step(s, a, s') && (a.GetAction? && a.sent ==> !TimeoutClash(s, a.status))
    ensures TimeoutsOk(s')
  {
    hide TimeoutsOk, TimeoutClash;
    match a
    case GetAction(conn, status, context, sent, now) => GetKeepsQueueIff(s, conn, status, context, sent, now);
    case ReplyAction(conn, key) => ReplyKeepsQueue(s, conn, key);
    case ExpireAction(now) => ExpireKeepsQueue(s, now);
    case ConnectAction(status) => ConnectKeepsQueue(s, status);
  }

  lemma ConnectKeepsQueue(s: State, status: StatusId)
    requires TimeoutsOk(s)
    ensures TimeoutsOk(DoConnect(s, status))
  {
  }

  /** The queue is sound in every state of a run as long as no second timeout is queued for one id. */
  lemma {:induction false} RunKeepsQueue(run: seq<State>, actions: seq<Action>, i: nat)
    requires IsRun(run, actions) && NeverClashes(run, actions) && i <= |actions|
    ensures TimeoutsOk(run[i])
  {
    if i > 0 {
      RunKeepsQueue(run, actions, i - 1);
      assert Step(run[i - 1], actions[i - 1], run[i]);
      hide TimeoutsOk, Step, TimeoutClash;
      StepKeepsQueue(run[i - 1], actions[i - 1], run[i]);
    }
  }

  // ----- Reply ids -----

  /** The gets made on a status. */
  function GetsOn(gets: seq<Get>, status: StatusId): nat {
    if gets == [] then 0
    else GetsOn(gets[..|gets| - 1], status) + (if gets[|gets| - 1].key.status == status then 1 else 0)
  }

  lemma {:induction false} GetsOnSplits(gets: seq<Get>, status: StatusId, g: nat)
    requires g < |gets| && gets[g].key.status == status
    ensures GetsOn(gets, status) > GetsOn(gets[..g], status)
  {
    if g < |gets| - 1 {
      GetsOnSplits(gets[..|gets| - 1], status, g);
      assert gets[..|gets| - 1][..g] == gets[..g];
    }
  }

  /** The id of the get that follows n others on its status: ids count from 1 and wrap. */
  function IdAfter(n: nat): uint16 {
    (1 + n) % IDS
  }

  lemma IdsOfFew(n: nat)
    ensures Bump(IdAfter(n)) == IdAfter(n + 1)
    ensures n < IDS ==> IdAfter(n) == if n == IDS - 1 then 0 else 1 + n
  {
  }

  /** Ids count the gets on a status. */
  ghost predicate IdsCount(gets: seq<Get>, nextId: map<StatusId, uint16>) {
    && (forall st <- nextId :: nextId[st] == IdAfter(GetsOn(gets, st)))
    && (forall g <- gets :: g.key.status in nextId)
    && (forall g :: 0 <= g < |gets| ==> gets[g].key.replyId == IdAfter(GetsOn(gets[..g], gets[g].key.status)))
  }

  ghost predicate IdsOk(s: State) {
    IdsCount(s.gets, s.nextId)
  }

  lemma {:induction false} NoGetsOn(gets: seq<Get>, status: StatusId)
    requires forall g <- gets :: g.key.status != status
    ensures GetsOn(gets, status) == 0
  {
    if gets != [] { NoGetsOn(gets[..|gets| - 1], status); }
  }

  lemma {:induction false} ExpireKeepsIds(s: State, now: int)
    ensures Expire(s, now).gets == s.gets && Expire(s, now).nextId == s.nextId
    decreases |s.timeouts|
  {
    if !(s.timeouts == [] || s.timeouts[0].at > now || s.timeouts[0].key !in s.contexts) {
      ExpireKeepsIds(ExpireFirst(s), now);
    }
  }

  lemma GetsOnSnoc(gets: seq<Get>, g: Get, st: StatusId)
    ensures GetsOn(gets + [g], st) == GetsOn(gets, st) + (if g.key.status == st then 1 else 0)
  {
    assert (gets + [g])[..|gets|] == gets;
  }

  lemma GetKeepsCount(gets: seq<Get>, nextId: map<StatusId, uint16>, status: StatusId, context: Ptr)
    requires IdsCount(gets, nextId) && status in nextId
    ensures IdsCount(gets + [Get(Key(status, nextId[status]), context)], nextId[status := Bump(nextId[status])])
  {
    hide IdAfter, Bump, GetsOn;
    var get := Get(Key(status, nextId[status]), context);
    var gets', n := gets + [get], |gets|;
    var nextId' := nextId[status := Bump(nextId[status])];
    IdsOfFew(GetsOn(gets, status));
    forall st <- nextId' ensures nextId'[st] == IdAfter(GetsOn(gets', st)) {
      GetsOnSnoc(gets, get, st);
    }
    forall g | 0 <= g < |gets'| ensures gets'[g].key.replyId == IdAfter(GetsOn(gets'[..g], gets'[g].key.status)) {
      assert gets'[..g] == gets[..g];
      assert g < n ==> gets'[g] == gets[g];
    }
  }

  lemma StepKeepsIds(s: State, a: Action, s': State)
    requires IdsOk(s) && Step(s, a, s')
    ensures IdsOk(s')
  {
    hide IdAfter, GetsOn;
    match a
    case GetAction(conn, status, context, sent, now) =>
      if status in s.nextId {
        GetKeepsCount(s.gets, s.nextId, status, context);
        hide IdsCount;
      }
    case ReplyAction(conn, key) =>
    case ExpireAction(now) => ExpireKeepsIds(s, now);
    case ConnectAction(status) =>
      NoGetsOn(s.gets, status);
      IdsOfFew(0);
  }

  lemma {:induction false} RunKeepsIds(run: seq<State>, actions: seq<Action>, i: nat)
    requires IsRun(run, actions) && i <= |actions|
    ensures IdsOk(run[i])
  {
    if i > 0 {
      RunKeepsIds(run, actions, i - 1);
      assert Step(run[i - 1], actions[i - 1], run[i]);
      hide IdsOk, Step;
      StepKeepsIds(run[i - 1], actions[i - 1], run[i]);
    }
  }

  /** Ids do not come round within 65,536 gets. */
  lemma IdsDiffer(m: nat, n: nat)
    requires m < n < m + IDS
    ensures IdAfter(m) != IdAfter(n)
  {
  }

  /** The first 65,536 gets of a status never take a waiting id; only the last of them takes the id 0. */
  lemma FewGetsAreFresh(s: State, status: StatusId)
    requires ContextsOk(s) && IdsOk(s) && GetsOn(s.gets, status) < IDS
    ensures !IdTaken(s, status)
    ensures status in s.nextId ==> (s.nextId[status] == 0 <==> GetsOn(s.gets, status) == IDS - 1)
  {
    if status in s.nextId {
      hide IdAfter, GetsOn;
      IdsOfFew(GetsOn(s.gets, status));
      var k := Key(status, s.nextId[status]);
      forall g | 0 <= g < |s.gets| && s.gets[g].key.status == status ensures s.gets[g].key != k {
        GetsOnSplits(s.gets, status, g);
        IdsDiffer(GetsOn(s.gets[..g], status), GetsOn(s.gets, status));
      }
    }
  }

  /** Every queued timeout is of a get since which, itself included, fewer than 65,536 were made on its status. */
  ghost predicate InTime(s: State) {
    forall t <- s.timeouts :: exists g :: 0 <= g < |s.gets| && IsRecent(s, t, g)
  }

  ghost predicate IsRecent(s: State, t: Timeout, g: nat)
    requires g < |s.gets|
  {
    s.gets[g].key == t.key && GetsOn(s.gets, t.key.status) < GetsOn(s.gets[..g], t.key.status) + IDS
  }

  lemma InTimeNeverClashes(s: State, status: StatusId)
    requires IdsOk(s) && InTime(s)
    ensures !TimeoutClash(s, status)
  {
    hide IdAfter, GetsOn;
    if status in s.nextId {
      forall t <- s.timeouts ensures t.key != Key(status, s.nextId[status]) {
        var g :| 0 <= g < |s.gets| && IsRecent(s, t, g);
        GetsOnSplits(s.gets, t.key.status, g);
        IdsDiffer(GetsOn(s.gets[..g], t.key.status), GetsOn(s.gets, t.key.status));
      }
    }
  }

  /** Every run in which each timeout is resolved before 65,536 further gets on its status: the queue is sound
      in every state. */
  lemma QueueStaysSound(run: seq<State>, actions: seq<Action>, i: nat)
    requires IsRun(run, actions) && i <= |actions|
    requires forall k :: 0 <= k < |actions| && actions[k].GetAction? ==> InTime(run[k])
    ensures TimeoutsOk(run[i])
  {
    forall k | 0 <= k < |actions| && actions[k].GetAction? && actions[k].sent
      ensures !TimeoutClash(run[k], actions[k].status)
    {
      RunKeepsIds(run, actions, k);
      hide IdsOk, TimeoutClash;
      InTimeNeverClashes(run[k], actions[k].status);
    }
    hide TimeoutClash, InTime;
    RunKeepsQueue(run, actions, i);
  }

  /** One status has been made and asked for n gets; nothing else has happened. */
  ghost predicate AskedOnly(s: State, status: StatusId, n: nat, sent: bool) {
    && s.clock == 0 && s.nextId == map[status := IdAfter(n)] && GetsOn(s.gets, status) == n
    && (forall st :: GetsOn(s.gets, st) <= n)
    && (n > 0 ==> Key(status, IdAfter(0)) in s.contexts) && (!sent ==> s.timeouts == [])
  }

  lemma AskedOnce(s: State, status: StatusId, n: nat, sent: bool, conn: ConnId, context: Ptr)
    requires AskedOnly(s, status, n, sent)
    ensures AskedOnly(DoGet(s, conn, status, context, sent, 0), status, n + 1, sent)
  {
    var k := Key(status, IdAfter(n));
    IdsOfFew(n);
    hide IdAfter;
    forall st ensures GetsOn(s.gets + [Get(k, context)], st) == GetsOn(s.gets, st) + (if status == st then 1 else 0) {
      GetsOnSnoc(s.gets, Get(k, context), st);
    }
  }

  /** A run that makes a status and asks it for n gets, which all go out or all fail. */
  lemma {:induction false} OnlyGets(status: StatusId, conn: ConnId, context: Ptr, sent: bool, n: nat)
    returns (run: seq<State>, actions: seq<Action>)
    requires n <= IDS
    ensures IsRun(run, actions) && |actions| == n + 1 && |run| == n + 2
    ensures forall i :: 0 <= i < |actions| && actions[i].GetAction? ==> GetsOn(run[i].gets, actions[i].status) < IDS
    ensures AskedOnly(run[n + 1], status, n, sent)
  {
    if n == 0 {
      var s := State(map[], map[], [], 0, [], map[], [], []);
      run, actions := [s, DoConnect(s, status)], [ConnectAction(status)];
    } else {
      run, actions := OnlyGets(status, conn, context, sent, n - 1);
      var s, a := run[n], GetAction(conn, status, context, sent, 0);
      AskedOnce(s, status, n - 1, sent, conn, context);
      hide IdAfter, GetsOn, DoGet;
      assert GetsOn(s.gets, status) < IDS && Step(s, a, DoGet(s, conn, status, context, sent, 0));
      hide Step, AskedOnly;
      run, actions := run + [DoGet(s, conn, status, context, sent, 0)], actions + [a];
    }
  }

  /** The bound is sharp: after 65,536 gets, whether they went out or failed, the next one forgets the first.
      If they failed, the timeout queue is none the worse for it. */
  lemma OneGetMore(status: StatusId, conn: ConnId, context: Ptr, sent: bool)
    returns (run: seq<State>, actions: seq<Action>)
    ensures IsRun(run, actions) && |actions| == IDS + 1 && |run| == IDS + 2
    ensures var s := run[IDS + 1];
            var s' := DoGet(s, conn, status, context, sent, 0);
            Inv(s) && GetsOn(s.gets, status) == IDS && !Inv(s') && (!sent ==> TimeoutsOk(s'))
  {
    run, actions := OnlyGets(status, conn, context, sent, IDS);
    var s := run[IDS + 1];
    FewGetsRunKeeps(run, actions, IDS + 1);
    assert IdAfter(IDS) == IdAfter(0) && IdTaken(s, status);
    hide GetsOn, Step;
    GetKeepsIff(s, conn, status, context, sent, 0);
    if !sent { GetKeepsQueueIff(s, conn, status, context, sent, 0); }
  }

  /** Every run in which no status makes more than 65,536 gets: each get has at most one answer, a reply or a
      timeout; an answer carries the get's own id and context; a get without an answer is still pending, and
      one with an answer is not; every reply or timeout event answers a get. */
  lemma AnsweredAtMostOnce(run: seq<State>, actions: seq<Action>)
    requires IsRun(run, actions)
    requires forall i :: 0 <= i < |actions| && actions[i].GetAction? ==> GetsOn(run[i].gets, actions[i].status) < IDS
    ensures var s := run[|actions|];
            && |s.answers| == |s.events|
            && (forall i: nat, j: nat, g: nat :: Answers(s, i, g) && Answers(s, j, g) ==> i == j)
            && (forall j: nat, g: nat :: Answers(s, j, g) ==>
                                           s.events[j].Resolves() && g < |s.gets| && s.gets[g] == Get(s.events[j].key, s.events[j].context))
            && (forall j :: 0 <= j < |s.events| && s.events[j].Resolves() ==> s.answers[j].Some?)
            && (forall g :: 0 <= g < |s.gets| ==> (IsPending(s, g) <==> !Resolved(s, g)))
  {
    FewGetsRunKeeps(run, actions, |actions|);
  }

  lemma {:induction false} FewGetsRunKeeps(run: seq<State>, actions: seq<Action>, i: nat)
    requires IsRun(run, actions) && i <= |actions|
    requires forall k :: 0 <= k < |actions| && actions[k].GetAction? ==> GetsOn(run[k].gets, actions[k].status) < IDS
    ensures Inv(run[i])
  {
    if i > 0 {
      FewGetsRunKeeps(run, actions, i - 1);
      RunKeepsIds(run, actions, i - 1);
      assert Step(run[i - 1], actions[i - 1], run[i]);
      hide IdsOk, Step;
      if actions[i - 1].GetAction? { FewGetsAreFresh(run[i - 1], actions[i - 1].status); }
      StepKeeps(run[i - 1], actions[i - 1], run[i]);
    }
  }

  /** A reply gives a reply event, with the context of the one get waiting under its id, exactly when such a
      get is waiting; any other reply gives the error "Unrecognized reply_id" and changes nothing else. */
  lemma ReplyOutcome(s: State, conn: ConnId, k: Key)
    requires Inv(s)
    ensures var s' := DoReply(s, conn, k);
            if exists g: nat :: IsPending(s, g) && s.gets[g].key == k then
              exists g: nat :: IsPending(s, g) && s.gets[g].key == k && !IsPending(s', g)
                               && s'.events == s.events + [ReplyEvent(conn, k, s.gets[g].context)]
                               && (forall t :: t in s'.timeouts <==> t in s.timeouts && t.key != k)
                               && (forall h: nat :: h < |s.gets| && h != g ==> (IsPending(s', h) <==> IsPending(s, h)))
            else s' == s.(events := s.events + [Unrecognized(conn, k)], answers := s.answers + [None])
  {
    if k in s.contexts {
      var g := s.live[k];
      assert IsPending(s, g) && s.gets[g].key == k;
      WithoutFirstKeeps(s.timeouts, k);
      assert !IsPending(DoReply(s, conn, k), g);
    }
  }
}
