/** The periodic cleanup: expires old dedup keys and evicts registry entries
    whose socket no longer reports itself connected. */
module Janitor {
  import opened SocketState
  import opened Dispatch

  /** A key's timestamp is strictly earlier than five minutes before `now`. */
  predicate Expired(k: DedupKey, now: int): (b: bool)
    ensures b <==> now - k.time > 300000
    ensures b ==> k.time < now
  {
    k.time < now - DedupWindowMs
  }

  /** The state one sweep at `now` should leave, stated as a reference. */
  function Swept(st: State, now: int, live: set<SocketId>): State {
    State(map v | v in st.sockets && st.sockets[v] in live :: st.sockets[v],
          set k | k in st.sent && !Expired(k, now))
  }

  /** The `sentMessages` loop: visits every key once and deletes the expired
      ones. */
  method SweepSent(sent: set<DedupKey>, now: int) returns (kept: set<DedupKey>)
    ensures forall k :: k in kept <==> k in sent && !Expired(k, now)
  {
    kept := sent;
    var todo := sent;
    while todo != {}
      invariant todo <= sent
      invariant forall k :: k in kept <==> k in sent && (k in todo || !Expired(k, now))
      decreases todo
    {
      var k :| k in todo;
      if Expired(k, now) {
        kept := kept - {k};
      }
      todo := todo - {k};
    }
  }

  /** The `userSockets` loop: visits every entry once and deletes those whose
      socket is not connected. */
  method SweepSockets(sockets: map<UserId, SocketId>, live: set<SocketId>) returns (kept: map<UserId, SocketId>)
    ensures forall u :: u in kept <==> u in sockets && sockets[u] in live
    ensures forall u :: u in kept ==> kept[u] == sockets[u]
  {
    kept := sockets;
    var todo := sockets.Items;
    while todo != {}
      invariant todo <= sockets.Items
      invariant forall u :: u in kept <==> u in sockets && ((u, sockets[u]) in todo || sockets[u] in live)
      invariant forall u :: u in kept ==> kept[u] == sockets[u]
      decreases todo
    {
      var entry :| entry in todo;
      var (u, socket) := entry;
      if socket !in live {
        kept := kept - {u};
      }
      todo := todo - {entry};
    }
  }

  /** One run of the cleanup interval: removes exactly the keys whose time is
      strictly earlier than `now` minus five minutes and exactly the entries
      whose socket is not live, keeping everything else as it was. */
  method Cleanup(st: State, now: int, live: set<SocketId>) returns (r: State)
    ensures forall k :: k in r.sent <==> k in st.sent && k.time >= now - DedupWindowMs
    ensures forall u :: u in r.sockets <==> u in st.sockets && st.sockets[u] in live
    ensures forall u :: u in r.sockets ==> r.sockets[u] == st.sockets[u]
    ensures r == Swept(st, now, live)
  {
    var sent := SweepSent(st.sent, now);
    var sockets := SweepSockets(st.sockets, live);
    r := State(sockets, sent);
  }

  /** A second sweep with the same clock and liveness changes nothing. */
  lemma SweptIdempotent(st: State, now: int, live: set<SocketId>)
    ensures Swept(Swept(st, now, live), now, live) == Swept(st, now, live)
  {
  }

  /** After a sweep, every registered user is live, so a notification is
      refused only as a duplicate. */
  lemma SweptRegistryIsLive(st: State, now: int, live: set<SocketId>, u: UserId)
    ensures u in Swept(st, now, live).sockets <==> IsLive(st, live, u)
    ensures u in Swept(st, now, live).sockets ==> IsLive(Swept(st, now, live), live, u)
  {
  }

  /** The dedup window: the key a delivery records at time `t` survives every
      sweep up to `t + 5 minutes` and is removed by any later sweep, after
      which the same notification at the same clock reading is no longer
      refused as a duplicate. */
  lemma DeliveredKeyLifetime(st: State, env: Env, u: UserId, event: string, p: Payload, now: int, live: set<SocketId>)
    requires Notify(st, env, u, event, p).result
    ensures var after := Swept(Notify(st, env, u, event, p).state, now, live);
      KeyFor(env, u, event, p) in after.sent <==> now <= env.now + DedupWindowMs
  {
  }
}
