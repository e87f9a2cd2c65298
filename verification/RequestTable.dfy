/** The program's own state for requests, updated in place: the ConnStatus objects with their reply_contexts
    maps, and the timeouts array.  Each operation is proved to be the step that Requests reasons about. */
module RequestTable {
  import opened Common
  import opened Requests

  class ConnStatus {
    const id: StatusId
    var replyContexts: map<uint16, Ptr>
    var nextReplyId: uint16

    constructor (id: StatusId)
      ensures this.id == id && replyContexts == map[] && nextReplyId == 1
    {
      this.id, replyContexts, nextReplyId := id, map[], 1;
    }
  }

  class Table {
    var connStatus: map<StatusId, ConnStatus>
    var timeouts: seq<Timeout>
    var events: seq<Event>

    // History.
    ghost var clock: int
    ghost var gets: seq<Get>
    ghost var live: map<Key, nat>
    ghost var answers: seq<Option<nat>>

    ghost predicate Valid()
      reads this, connStatus.Values
    {
      forall st <- connStatus :: connStatus[st].id == st
    }

    ghost function Contexts(): map<Key, Ptr>
      reads this`connStatus, connStatus.Values
    {
      map st, r | st in connStatus && r in connStatus[st].replyContexts :: Key(st, r) := connStatus[st].replyContexts[r]
    }

    ghost function NextIds(): map<StatusId, uint16>
      reads this`connStatus, connStatus.Values
    {
      map st | st in connStatus :: connStatus[st].nextReplyId
    }

    ghost function Abs(): State
      reads this, connStatus.Values
    {
      State(Contexts(), NextIds(), timeouts, clock, gets, live, events, answers)
    }

    constructor ()
      ensures Valid() && Starts(Abs()) && connStatus == map[] && Abs().clock == 0
    {
      connStatus, timeouts, events := map[], [], [];
      clock, gets, live, answers := 0, [], map[], [];
    }

    method SendCallback(e: Event, ghost g: Option<nat>)
      modifies this`events, this`answers
      ensures events == old(events) + [e] && answers == old(answers) + [g]
    {
      events, answers := events + [e], answers + [g];
    }

    /** new_conn_status for an address that has none. */
    method Connect(status: StatusId)
      requires Valid() && status !in connStatus
      modifies this`connStatus
      ensures Valid() && Abs() == DoConnect(old(Abs()), status)
      ensures fresh(connStatus.Values - old(connStatus.Values))
    {
      AddStatus(status);
      hide Table.Contexts, Table.NextIds;
    }

    method AddStatus(status: StatusId)
      requires Valid() && status !in connStatus
      modifies this`connStatus
      ensures Valid() && fresh(connStatus.Values - old(connStatus.Values))
      ensures NextIds() == old(NextIds())[status := 1] && Contexts() == old(Contexts())
    {
      var cs := new ConnStatus(status);
      ghost var was, contexts := connStatus, Contexts();
      connStatus := connStatus[status := cs];
      assert forall st :: st in connStatus && st != status ==> st in was && connStatus[st] == was[st];
      assert cs.replyContexts == map[];
      forall k ensures k in Contexts() <==> k in contexts {}
      forall k <- contexts ensures Contexts()[k] == contexts[k] {}
    }

    /** Give out the next reply id of a status and store the context under it. */
    method Store(status: StatusId, context: Ptr) returns (replyId: uint16)
      requires Valid() && status in connStatus
      modifies connStatus[status]
      ensures Valid() && replyId == old(connStatus[status].nextReplyId)
      ensures NextIds() == old(NextIds())[status := Bump(replyId)]
      ensures Contexts() == old(Contexts())[Key(status, replyId) := context]
    {
      var cs := connStatus[status];
      replyId := cs.nextReplyId;
      cs.nextReplyId := (cs.nextReplyId + 1) % IDS;
      cs.replyContexts := cs.replyContexts[replyId := context];
      forall st | st in connStatus && st != status
        ensures connStatus[st].replyContexts == old(connStatus[st].replyContexts)
        ensures connStatus[st].nextReplyId == old(connStatus[st].nextReplyId)
      {
        assert connStatus[st].id != cs.id;
      }
      hide Bump;
    }

    /** map__unset on the reply_contexts of a status. */
    method Forget(status: StatusId, replyId: uint16)
      requires Valid() && status in connStatus
      modifies connStatus[status]
      ensures Valid() && NextIds() == old(NextIds()) && Contexts() == old(Contexts()) - {Key(status, replyId)}
    {
      var cs := connStatus[status];
      cs.replyContexts := cs.replyContexts - {replyId};
      forall st | st in connStatus && st != status
        ensures connStatus[st].replyContexts == old(connStatus[st].replyContexts)
        ensures connStatus[st].nextReplyId == old(connStatus[st].nextReplyId)
      {
        assert connStatus[st].id != cs.id;
      }
    }

    /** map__get on the reply_contexts of a status. */
    method Find(status: StatusId, replyId: uint16) returns (pair: Option<Ptr>)
      requires Valid() && status in connStatus
      ensures var k := Key(status, replyId);
              pair == if k in Contexts() then Some(Contexts()[k]) else None
    {
      var cs := connStatus[status];
      pair := if replyId in cs.replyContexts then Some(cs.replyContexts[replyId]) else None;
    }

    /** The rest of msg_get: the send, and the timeout or the error that comes of it. */
    method FinishGet(conn: ConnId, k: Key, context: Ptr, sent: bool, now: int)
      modifies this`timeouts, this`events, this`answers, this`live, this`gets, this`clock
      ensures gets == old(gets) + [Get(k, context)] && live == old(live)[k := |old(gets)|] && clock == now
      ensures timeouts == old(timeouts) + (if sent then [Timeout(now + UDP_TIMEOUT, conn, k)] else [])
      ensures events == old(events) + (if sent then [] else [SendError(conn, k)])
      ensures answers == old(answers) + (if sent then [] else [None])
    {
      gets, live, clock := gets + [Get(k, context)], live[k := |gets|], now;
      if sent {
        timeouts := timeouts + [Timeout(now + UDP_TIMEOUT, conn, k)];
      } else {
        SendCallback(SendError(conn, k), None);
      }
    }

    method MsgGet(conn: ConnId, status: StatusId, context: Ptr, sent: bool, now: int)
      requires Valid()
      modifies this`timeouts, this`events, this`answers, this`live, this`gets, this`clock, connStatus.Values
      ensures Valid() && connStatus == old(connStatus)
      ensures Abs() == DoGet(old(Abs()), conn, status, context, sent, now)
    {
      hide Bump, Table.Contexts;
      if status in connStatus {
        var replyId := Store(status, context);
        hide Table.NextIds;
        FinishGet(conn, Key(status, replyId), context, sent, now);
      } else {
        SendCallback(NoStatus(conn), None);
      }
    }

    /** remove_timeout: remove the first timeout of the status and id, if it can be found. */
    method RemoveTimeout(k: Key)
      modifies this`timeouts
      ensures timeouts == WithoutFirst(old(timeouts), k)
    {
      var i := 0;
      while i < |timeouts|
        invariant 0 <= i <= |timeouts| && timeouts == old(timeouts)
        invariant forall j :: 0 <= j < i ==> timeouts[j].key != k
      {
        if timeouts[i].key == k {
          WithoutFirstAt(timeouts, k, i);
          timeouts := timeouts[..i] + timeouts[i + 1..];
          return;
        }
        i := i + 1;
      }
      WithoutFirstNone(timeouts, k);
    }

    /** The end of read_from_socket for a reply on a connection that has a status. */
    method OnReply(conn: ConnId, status: StatusId, replyId: uint16)
      requires Valid() && status in connStatus
      modifies this`timeouts, this`events, this`answers, this`live, connStatus.Values
      ensures Valid() && connStatus == old(connStatus)
      ensures Abs() == DoReply(old(Abs()), conn, Key(status, replyId))
    {
      hide Table.Contexts, Table.NextIds;
      var k := Key(status, replyId);
      var pair := Find(status, replyId);
      if pair.None? {
        SendCallback(Unrecognized(conn, k), None);
        return;
      }
      RemoveTimeout(k);
      Forget(status, replyId);
      SendCallback(ReplyEvent(conn, k, pair.value), if k in live then Some(live[k]) else None);
      live := live - {k};
    }

    lemma Statuses()
      ensures Abs().nextId.Keys == connStatus.Keys
    {
    }

    lemma StatusOfContext(k: Key)
      requires k in Contexts()
      ensures k.status in connStatus
    {
    }

    /** The body of the timeout loop for the due timeout at index 0. */
    method ExpireOne()
      requires Valid() && timeouts != [] && timeouts[0].key in Contexts()
      modifies this`timeouts, this`events, this`answers, this`live, connStatus.Values
      ensures Valid() && connStatus == old(connStatus)
      ensures Abs() == ExpireFirst(old(Abs()))
    {
      hide Table.Contexts, Table.NextIds;
      var timeout := timeouts[0];
      var k := timeout.key;
      StatusOfContext(k);
      var pair := Find(k.status, k.replyId);
      Forget(k.status, k.replyId);
      timeouts := timeouts[1..];
      SendCallback(TimeoutError(timeout.conn, k, pair.value), if k in live then Some(live[k]) else None);
      live := live - {k};
    }

    /** The timeout loop of msg_runloop: it removes the item it stands on and backs up one. */
    method ExpireTimeouts(now: int)
      requires Valid() && TimeoutsOk(Abs())
      modifies this`timeouts, this`events, this`answers, this`live, connStatus.Values
      ensures Valid() && connStatus == old(connStatus)
      ensures Abs() == Expire(old(Abs()), now)
    {
      ghost var goal := Expire(Abs(), now);
      var i := 0;
      hide TimeoutsOk;
      while i < |timeouts|
        invariant i == 0 && Valid() && connStatus == old(connStatus) && TimeoutsOk(Abs())
        invariant Expire(Abs(), now) == goal
        decreases |timeouts|
      {
        if timeouts[i].at > now { break; }
        ExpireFirstKeepsQueue(Abs());
        ExpireOne();
        i := i - 1;
        i := i + 1;
      }
    }
  }

  // ----- Runs of the program -----

  /** The gets asked of a status. */
  function GetsAsked(actions: seq<Action>, status: StatusId): nat {
    if actions == [] then 0
    else
      var last := actions[|actions| - 1];
      GetsAsked(actions[..|actions| - 1], status) + (if last.GetAction? && last.status == status then 1 else 0)
  }

  predicate Connected(actions: seq<Action>, status: StatusId) { ConnectAction(status) in actions }

  /** What the surroundings see to: the clock does not run backwards, a status is made once, replies come on
      conns that have a status, and no status is asked for more than 65,536 gets. */
  ghost predicate Orderly(actions: seq<Action>) {
    && (forall i :: 0 <= i < |actions| && actions[i].GetAction? ==> actions[i].now >= 0)
    && (forall i, j :: 0 <= i < j < |actions| && actions[i].GetAction? && actions[j].GetAction? ==>
                         actions[i].now <= actions[j].now)
    && (forall i :: 0 <= i < |actions| && actions[i].ConnectAction? ==> !Connected(actions[..i], actions[i].status))
    && (forall i :: 0 <= i < |actions| && actions[i].ReplyAction? ==> Connected(actions[..i], actions[i].key.status))
    && (forall status :: GetsAsked(actions, status) <= IDS)
  }

  lemma {:induction false} AskedGrows(actions: seq<Action>, i: nat, status: StatusId)
    requires i <= |actions|
    ensures GetsAsked(actions[..i], status) <= GetsAsked(actions, status)
    ensures i < |actions| && actions[i].GetAction? && actions[i].status == status ==>
              GetsAsked(actions[..i], status) < GetsAsked(actions, status)
  {
    if i < |actions| {
      var n := |actions| - 1;
      AskedGrows(actions[..n], i, status);
      assert actions[..n][..i] == actions[..i];
    } else {
      assert actions[..i] == actions;
    }
  }

  /** How the table stands after the first i actions. */
  ghost predicate KeepsUp(s: State, actions: seq<Action>, i: nat)
    requires i <= |actions|
  {
    && (forall status :: status in s.nextId <==> Connected(actions[..i], status))
    && (forall status :: GetsOn(s.gets, status) <= GetsAsked(actions[..i], status))
    && (s.clock == 0 || exists k :: 0 <= k < i && actions[k].GetAction? && actions[k].now == s.clock)
  }

  /** The next action is one that the table can take. */
  lemma Allowed(s: State, actions: seq<Action>, i: nat)
    requires Orderly(actions) && i < |actions| && KeepsUp(s, actions, i)
    ensures actions[i].GetAction? ==> actions[i].now >= s.clock && GetsOn(s.gets, actions[i].status) < IDS
    ensures actions[i].ConnectAction? ==> actions[i].status !in s.nextId
    ensures actions[i].ReplyAction? ==> actions[i].key.status in s.nextId
  {
    hide GetsOn, GetsAsked;
    if actions[i].GetAction? { AskedGrows(actions, i, actions[i].status); }
  }

  lemma NextKeepsUp(s: State, actions: seq<Action>, i: nat, s': State)
    requires i < |actions| && KeepsUp(s, actions, i) && Step(s, actions[i], s')
    ensures KeepsUp(s', actions, i + 1)
  {
    var a := actions[i];
    hide Step, Connected, GetsOn, GetsAsked;
    assert actions[..i + 1] == actions[..i] + [a];
    ClockKeepsUp(s, a, s');
    StatusesKeepUp(s, actions[..i], a, s');
    GetsKeepUp(s, actions[..i], a, s');
  }

  lemma ClockKeepsUp(s: State, a: Action, s': State)
    requires Step(s, a, s')
    ensures s'.clock == s.clock || (a.GetAction? && s'.clock == a.now)
  {
    if a.ExpireAction? { ExpireKeepsClock(s, a.now); }
  }

  lemma StatusesKeepUp(s: State, done: seq<Action>, a: Action, s': State)
    requires Step(s, a, s') && forall status :: status in s.nextId <==> Connected(done, status)
    ensures forall status :: status in s'.nextId <==> Connected(done + [a], status)
  {
    if a.ExpireAction? { ExpireKeepsIds(s, a.now); }
  }

  lemma GetsKeepUp(s: State, done: seq<Action>, a: Action, s': State)
    requires Step(s, a, s') && forall status :: GetsOn(s.gets, status) <= GetsAsked(done, status)
    ensures forall status :: GetsOn(s'.gets, status) <= GetsAsked(done + [a], status)
  {
    if a.ExpireAction? { ExpireKeepsIds(s, a.now); }
    assert (done + [a])[..|done|] == done && (done + [a])[|done|] == a;
    assert s'.gets == s.gets || (a.GetAction? && a.status in s.nextId
                                 && s'.gets == s.gets + [Get(Key(a.status, s.nextId[a.status]), a.context)]);
    hide GetsOn, Step;
    forall status ensures GetsOn(s'.gets, status) <= GetsAsked(done + [a], status) {
      if s'.gets != s.gets {
        GetsOnSnoc(s.gets, Get(Key(a.status, s.nextId[a.status]), a.context), status);
      }
    }
  }

  lemma {:induction false} ExpireKeepsClock(s: State, now: int)
    ensures Expire(s, now).clock == s.clock
    decreases |s.timeouts|
  {
    if !(s.timeouts == [] || s.timeouts[0].at > now || s.timeouts[0].key !in s.contexts) {
      ExpireKeepsClock(ExpireFirst(s), now);
    }
  }

  /** One action of the surroundings or the user. */
  method Perform(t: Table, a: Action)
    requires t.Valid() && TimeoutsOk(t.Abs())
    requires a.GetAction? ==> a.now >= t.Abs().clock
    requires a.ConnectAction? ==> a.status !in t.Abs().nextId
    requires a.ReplyAction? ==> a.key.status in t.Abs().nextId
    modifies t, t.connStatus.Values
    ensures t.Valid() && Step(old(t.Abs()), a, t.Abs()) && fresh(t.connStatus.Values - old(t.connStatus.Values))
  {
    t.Statuses();
    hide TimeoutsOk, Table.Contexts, Table.NextIds;
    match a
    case GetAction(conn, status, context, sent, now) => t.MsgGet(conn, status, context, sent, now);
    case ReplyAction(conn, key) => t.OnReply(conn, key.status, key.replyId);
    case ExpireAction(now) => t.ExpireTimeouts(now);
    case ConnectAction(status) => t.Connect(status);
  }

  /** The first i actions have been a run, in a state to go on from. */
  ghost predicate GoneWell(run: seq<State>, actions: seq<Action>, i: nat) {
    && i <= |actions| && |run| == i + 1 && IsRun(run, actions[..i])
    && KeepsUp(run[i], actions, i) && IdsOk(run[i]) && forall k :: 0 <= k <= i ==> Inv(run[k])
  }

  lemma StartsWell(s: State, actions: seq<Action>)
    requires Starts(s) && s.clock == 0
    ensures GoneWell([s], actions, 0)
  {
  }

  lemma GoesOn(run: seq<State>, actions: seq<Action>, i: nat, s: State)
    requires Orderly(actions) && i < |actions| && GoneWell(run, actions, i) && Step(run[i], actions[i], s)
    ensures GoneWell(run + [s], actions, i + 1)
  {
    hide KeepsUp, IdsOk, Inv, Orderly, Step, Starts;
    Allowed(run[i], actions, i);
    if actions[i].GetAction? { Unused(run[i], actions[i].status); }
    StepKeeps(run[i], actions[i], s);
    StepKeepsIds(run[i], actions[i], s);
    NextKeepsUp(run[i], actions, i, s);
    assert forall k :: 0 <= k < i ==> actions[..i][k] == actions[..i + 1][k];
  }

  /** Any orderly actions on a new table are a run of the protocol, and its invariant holds throughout: each
      get is answered at most once, and only the due timeouts expire. */
  method Run(actions: seq<Action>) returns (t: Table, ghost run: seq<State>)
    requires Orderly(actions)
    ensures t.Valid() && IsRun(run, actions) && |run| == |actions| + 1 && t.Abs() == run[|actions|]
    ensures forall i :: 0 <= i <= |actions| ==> Inv(run[i])
  {
    hide *;
    t := new Table();
    run := [t.Abs()];
    StartsWell(t.Abs(), actions);
    for i := 0 to |actions|
      invariant fresh(t) && fresh(t.connStatus.Values) && t.Valid()
      invariant GoneWell(run, actions, i) && |run| == i + 1 && t.Abs() == run[i]
    {
      run := Take(t, run, actions, i);
    }
    WentWell(run, actions);
  }

  /** The next action of a run. */
  method Take(t: Table, ghost run: seq<State>, actions: seq<Action>, i: nat) returns (ghost run': seq<State>)
    requires t.Valid() && Orderly(actions) && i < |actions| && |run| == i + 1 && run[i] == t.Abs()
    requires GoneWell(run, actions, i)
    modifies t, t.connStatus.Values
    ensures t.Valid() && GoneWell(run', actions, i + 1) && |run'| == i + 2 && run'[i + 1] == t.Abs()
    ensures fresh(t.connStatus.Values - old(t.connStatus.Values))
  {
    hide *;
    MayGoOn(run, actions, i);
    Perform(t, actions[i]);
    GoesOn(run, actions, i, t.Abs());
    run' := run + [t.Abs()];
  }

  lemma MayGoOn(run: seq<State>, actions: seq<Action>, i: nat)
    requires Orderly(actions) && i < |actions| && GoneWell(run, actions, i)
    ensures var s, a := run[i], actions[i];
            && TimeoutsOk(s) && (a.GetAction? ==> a.now >= s.clock)
            && (a.ConnectAction? ==> a.status !in s.nextId) && (a.ReplyAction? ==> a.key.status in s.nextId)
  {
    Allowed(run[i], actions, i);
  }

  lemma WentWell(run: seq<State>, actions: seq<Action>)
    requires GoneWell(run, actions, |actions|)
    ensures IsRun(run, actions) && forall i :: 0 <= i <= |actions| ==> Inv(run[i])
  {
    assert actions[..|actions|] == actions;
  }

  lemma Unused(s: State, status: StatusId)
    requires Inv(s) && IdsOk(s) && GetsOn(s.gets, status) < IDS
    ensures !IdTaken(s, status)
  {
    FewGetsAreFresh(s, status);
  }
}
