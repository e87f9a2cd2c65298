/** The event stream that a client sees per remote address.  An address is open from a connection_ready event
    until a closed, lost or listening_ended event. */
module Lifecycle {
  import opened Common

  datatype EventKind =
    | Message | Request | Reply                    // msg_message, msg_request, msg_reply
    | Listening | ListeningEnded                   // msg_listening, msg_listening_ended
    | ConnectionReady | ConnectionClosed | ConnectionLost
    | Error
  {
    predicate IsData() { Message? || Request? || Reply? }
    predicate IsEnd() { ConnectionClosed? || ConnectionLost? || ListeningEnded? }
  }

  /** A PendingCall, with the remote address that its conn had when it was queued. */
  datatype Call<C> = Call(conn: C, kind: EventKind, address: Address, toFree: bool)

  /** The last lifecycle event queued for the address is msg_connection_ready. */
  ghost predicate IsOpen<C>(log: seq<Call<C>>, a: Address) {
    if log == [] then false
    else
      var last := log[|log| - 1];
      if last.address == a && last.kind.ConnectionReady? then true
      else if last.address == a && last.kind.IsEnd() then false
      else IsOpen(log[..|log| - 1], a)
  }

  /** Data events come while their address is open; a ready event comes while it is not. */
  ghost predicate WellOrdered<C>(log: seq<Call<C>>) {
    && (forall j :: 0 <= j < |log| && log[j].kind.IsData() ==> IsOpen(log[..j], log[j].address))
    && (forall j :: 0 <= j < |log| && log[j].kind.ConnectionReady? ==> !IsOpen(log[..j], log[j].address))
  }

  /** conn_status holds exactly the open addresses. */
  ghost predicate LifeOk<C>(status: set<Address>, log: seq<Call<C>>) {
    WellOrdered(log) && forall a :: a in status <==> IsOpen(log, a)
  }

  lemma IsOpenSnoc<C>(log: seq<Call<C>>, c: Call<C>, a: Address)
    ensures IsOpen(log + [c], a) ==
            if c.address == a && c.kind.ConnectionReady? then true
            else if c.address == a && c.kind.IsEnd() then false
            else IsOpen(log, a)
  {
    assert (log + [c])[..|log|] == log;
  }

  /** Queueing an event keeps the order if conn_status is consulted and updated as the kind of event asks. */
  lemma QueueKeepsLife<C>(status: set<Address>, log: seq<Call<C>>, c: Call<C>, status': set<Address>)
    requires LifeOk(status, log)
    requires c.kind.IsData() ==> c.address in status && status' == status
    requires c.kind.ConnectionReady? ==> c.address !in status && status' == status + {c.address}
    requires c.kind.IsEnd() ==> status' == status - {c.address}
    requires c.kind.Listening? || c.kind.Error? ==> status' == status
    ensures LifeOk(status', log + [c])
  {
    var log' := log + [c];
    forall j | 0 <= j <= |log| ensures log'[..j] == log[..j] {}
    assert log[..|log|] == log;
    assert WellOrdered(log');
    forall a ensures a in status' <==> IsOpen(log', a) { IsOpenSnoc(log, c, a); }
  }

  /** The events of an address between positions i and j contain no end. */
  ghost predicate NoEndBetween<C>(log: seq<Call<C>>, a: Address, i: nat, j: nat) {
    forall k :: i < k < j && k < |log| && log[k].address == a ==> !log[k].kind.IsEnd()
  }

  ghost predicate ReadyAt<C>(log: seq<Call<C>>, a: Address, i: nat) {
    i < |log| && log[i].address == a && log[i].kind.ConnectionReady?
  }

  /** Being open means that some ready event has had no end after it. */
  lemma {:induction false} OpenSince<C>(log: seq<Call<C>>, a: Address)
    ensures IsOpen(log, a) <==> exists i: nat :: ReadyAt(log, a, i) && NoEndBetween(log, a, i, |log|)
  {
    if log != [] {
      var n := |log| - 1;
      var init := log[..n];
      OpenSince(init, a);
      if log[n].address == a && log[n].kind.ConnectionReady? {
        assert ReadyAt(log, a, n) && NoEndBetween(log, a, n, |log|);
      } else if IsOpen(log, a) {
        var i: nat :| ReadyAt(init, a, i) && NoEndBetween(init, a, i, n);
        assert ReadyAt(log, a, i) && NoEndBetween(log, a, i, |log|);
      } else {
        forall i: nat | ReadyAt(log, a, i) ensures !NoEndBetween(log, a, i, |log|) {
          assert ReadyAt(init, a, i);
          assert !(log[n].address == a && log[n].kind.IsEnd()) ==> !NoEndBetween(init, a, i, n);
        }
      }
    }
  }

  /** What the client may rely on: every message, request or reply follows a ready event for its address with
      no end in between, and between two ready events for an address there is an end. */
  lemma ClientView<C>(status: set<Address>, log: seq<Call<C>>, j: nat)
    requires LifeOk(status, log) && j < |log|
    ensures log[j].kind.IsData() ==>
              exists i: nat :: i < j && ReadyAt(log, log[j].address, i) && NoEndBetween(log, log[j].address, i, j)
    ensures log[j].kind.ConnectionReady? ==>
              forall i: nat :: i < j && ReadyAt(log, log[j].address, i) ==> !NoEndBetween(log, log[j].address, i, j)
  {
    var a, before := log[j].address, log[..j];
    OpenSince(before, a);
    if log[j].kind.IsData() {
      var i: nat :| ReadyAt(before, a, i) && NoEndBetween(before, a, i, j);
      assert i < j && ReadyAt(log, a, i) && NoEndBetween(log, a, i, j);
    }
    if log[j].kind.ConnectionReady? {
      forall i: nat | i < j && ReadyAt(log, a, i) ensures !NoEndBetween(log, a, i, j) {
        assert ReadyAt(before, a, i) && !NoEndBetween(before, a, i, j);
      }
    }
  }
}
