/** `sendNotificationToUser` (dedup-checked, liveness-checked delivery) and
    `emitToUser` (a bare emit to whatever socket is registered). */
module Dispatch {
  import opened SocketState

  /** `JSON.stringify(data).slice(0, 50)`. */
  function Prefix(text: string): (r: string)
    ensures |r| == if |text| <= PayloadPrefixLength then |text| else PayloadPrefixLength
    ensures r <= text
    ensures |text| <= PayloadPrefixLength ==> r == text
  {
    if |text| <= PayloadPrefixLength then text else text[..PayloadPrefixLength]
  }

  /** The dedup key of one dispatch: event name, current millisecond,
      recipient id and the payload prefix. */
  function KeyFor(env: Env, u: UserId, event: string, p: Payload): (k: DedupKey)
    ensures k.event == event && k.time == env.now && k.userId == u
    ensures k.payloadPrefix <= env.render(p)
    ensures |env.render(p)| <= PayloadPrefixLength ==> k.payloadPrefix == env.render(p)
    ensures |env.render(p)| > PayloadPrefixLength ==> |k.payloadPrefix| == PayloadPrefixLength
  {
    DedupKey(event, env.now, u, Prefix(env.render(p)))
  }

  /** `sendNotificationToUser(u, event, p)`: delivers and records the key
      exactly when the key is new and `u`'s registered socket is connected;
      otherwise it emits nothing, records nothing and returns false. The
      registry is never touched. */
  function Notify(st: State, env: Env, u: UserId, event: string, p: Payload): (r: Step<bool>)
    ensures r.state.sockets == st.sockets
    ensures r.result <==> KeyFor(env, u, event, p) !in st.sent && IsLive(st, env.live, u)
    ensures r.result ==>
      && r.events == [Emit(st.sockets[u], event, p)]
      && r.state.sent == st.sent + {KeyFor(env, u, event, p)}
    ensures !r.result ==> r.events == [] && r.state == st
  {
    var key := KeyFor(env, u, event, p);
    if key in st.sent then
      Step(st, [], false)
    else if u in st.sockets && st.sockets[u] in env.live then
      Step(st.(sent := st.sent + {key}), [Emit(st.sockets[u], event, p)], true)
    else
      Step(st, [], false)
  }

  /** `emitToUser(u, event, p)`: emits to the registered socket whether or
      not it is connected, with no dedup; the state is unchanged. */
  function EmitToUser(st: State, u: UserId, event: string, p: Payload): (r: Step<bool>)
    ensures r.state == st
    ensures r.result <==> u in st.sockets
    ensures r.result ==> r.events == [Emit(st.sockets[u], event, p)]
    ensures !r.result ==> r.events == []
  {
    if u in st.sockets then Step(st, [Emit(st.sockets[u], event, p)], true)
    else Step(st, [], false)
  }

  /** `emitToUser` checks neither dedup nor liveness: wherever
      `sendNotificationToUser` would deliver, it emits the same event; and to
      a registered socket that is disconnected, or whose key was already
      recorded, it still emits where the dedup-checked path stays silent. */
  lemma EmitToUserBypassesChecks(st: State, env: Env, u: UserId, event: string, p: Payload)
    ensures Notify(st, env, u, event, p).result ==>
      EmitToUser(st, u, event, p).events == Notify(st, env, u, event, p).events
    ensures u in st.sockets && (KeyFor(env, u, event, p) in st.sent || st.sockets[u] !in env.live) ==>
      && Notify(st, env, u, event, p).events == []
      && EmitToUser(st, u, event, p).events == [Emit(st.sockets[u], event, p)]
  {
  }

  /** A repeat of a delivered notification within the same millisecond, with
      the same recipient, event and payload prefix, is suppressed. */
  lemma SameMillisecondRepeatSuppressed(st: State, env: Env, u: UserId, event: string, p: Payload)
    ensures var first := Notify(st, env, u, event, p);
      first.result ==> !Notify(first.state, env, u, event, p).result
  {
  }

  /** The key includes the clock, so the same notification one millisecond
      later (or any other time whose key was never recorded) is delivered
      again whenever the recipient is still live. */
  lemma LaterRepeatDelivered(st: State, env: Env, later: Env, u: UserId, event: string, p: Payload)
    requires later.now != env.now
    requires later.live == env.live && later.render == env.render
    requires KeyFor(later, u, event, p) !in st.sent
    ensures var first := Notify(st, env, u, event, p);
      first.result ==> Notify(first.state, later, u, event, p).result
  {
  }

  /** Number of `true` entries: the deliveries in a sequence of dispatches. */
  function Delivered(results: seq<bool>): nat
    decreases |results|
  {
    if |results| == 0 then 0
    else (if results[0] then 1 else 0) + Delivered(results[1..])
  }

  /** The emits a fan-out should produce, in plan order: one per planned
      dispatch whose result is a delivery, to the recipient's socket. */
  function EmitsOf(sockets: map<UserId, SocketId>, event: string, plan: seq<(UserId, Payload)>, results: seq<bool>): seq<Event>
    requires |results| == |plan|
    requires forall i :: 0 <= i < |plan| && results[i] ==> plan[i].0 in sockets
    decreases |plan|
  {
    if |plan| == 0 then []
    else
      (if results[0] then [Emit(sockets[plan[0].0], event, plan[0].1)] else [])
      + EmitsOf(sockets, event, plan[1..], results[1..])
  }

  /** One `sendNotificationToUser` per planned `(recipient, payload)`, in
      order, each against the state the previous one left. Every attempt is
      made (none aborts the rest), only dedup keys are added, and each event
      is an emit of a planned payload to its recipient's registered socket. */
  function NotifyEach(st: State, env: Env, event: string, plan: seq<(UserId, Payload)>): (r: Step<seq<bool>>)
    ensures |r.result| == |plan|
    ensures r.state.sockets == st.sockets
    ensures st.sent <= r.state.sent
    ensures |r.events| == Delivered(r.result)
    ensures forall e :: e in r.events ==>
      e.Emit? && e.name == event &&
      exists i :: 0 <= i < |plan| && plan[i].0 in st.sockets &&
        e.to == st.sockets[plan[i].0] && e.payload == plan[i].1
    ensures forall i :: 0 <= i < |plan| && r.result[i] ==>
      plan[i].0 in st.sockets && Emit(st.sockets[plan[i].0], event, plan[i].1) in r.events
    ensures r.events == EmitsOf(st.sockets, event, plan, r.result)
    decreases |plan|
  {
    if |plan| == 0 then Step(st, [], [])
    else
      var first := Notify(st, env, plan[0].0, event, plan[0].1);
      var rest := NotifyEach(first.state, env, event, plan[1..]);
      assert forall e :: e in rest.events ==>
        exists i :: 1 <= i < |plan| && plan[i].0 in st.sockets &&
          e.to == st.sockets[plan[i].0] && e.payload == plan[i].1 by {
        forall e | e in rest.events
          ensures (exists i :: 1 <= i < |plan| && plan[i].0 in st.sockets &&
                    e.to == st.sockets[plan[i].0] && e.payload == plan[i].1)
        {
          var j :| 0 <= j < |plan[1..]| && plan[1..][j].0 in st.sockets &&
            e.to == st.sockets[plan[1..][j].0] && e.payload == plan[1..][j].1;
          assert plan[1..][j] == plan[j + 1];
        }
      }
      assert forall i :: 1 <= i < |plan| && rest.result[i - 1] ==>
        plan[i].0 in st.sockets && Emit(st.sockets[plan[i].0], event, plan[i].1) in rest.events by {
        forall i | 1 <= i < |plan| && rest.result[i - 1]
          ensures plan[i].0 in st.sockets && Emit(st.sockets[plan[i].0], event, plan[i].1) in rest.events
        {
          assert plan[1..][i - 1] == plan[i];
        }
      }
      assert ([first.result] + rest.result)[1..] == rest.result;
      Step(rest.state, first.events + rest.events, [first.result] + rest.result)
  }

  /** Per-recipient isolation: when the planned recipients are pairwise
      distinct, each one is delivered exactly when its own key was not yet
      recorded and its own socket is live, whatever happens to the others. */
  lemma {:induction false} NotifyEachIsolated(st: State, env: Env, event: string, plan: seq<(UserId, Payload)>)
    requires forall i, j :: 0 <= i < j < |plan| ==> plan[i].0 != plan[j].0
    ensures forall i :: 0 <= i < |plan| ==>
      (NotifyEach(st, env, event, plan).result[i] <==>
        KeyFor(env, plan[i].0, event, plan[i].1) !in st.sent && IsLive(st, env.live, plan[i].0))
    decreases |plan|
  {
    if |plan| > 0 {
      var first := Notify(st, env, plan[0].0, event, plan[0].1);
      var tail := plan[1..];
      NotifyEachIsolated(first.state, env, event, tail);
      var r := NotifyEach(st, env, event, plan);
      assert r.result == [first.result] + NotifyEach(first.state, env, event, tail).result;
      forall i | 1 <= i < |plan|
        ensures r.result[i] <==>
          KeyFor(env, plan[i].0, event, plan[i].1) !in st.sent && IsLive(st, env.live, plan[i].0)
      {
        assert tail[i - 1] == plan[i];
        assert KeyFor(env, plan[i].0, event, plan[i].1) != KeyFor(env, plan[0].0, event, plan[0].1);
      }
    }
  }

  /** The fan-out records exactly the keys of its deliveries: every key it
      adds belongs to a dispatch that emitted, and every dispatch that
      emitted has its key recorded. An undelivered attempt records nothing. */
  lemma {:induction false} NotifyEachRecordsDelivered(st: State, env: Env, event: string, plan: seq<(UserId, Payload)>)
    ensures var r := NotifyEach(st, env, event, plan);
      forall k :: k in r.state.sent && k !in st.sent ==>
        exists i :: 0 <= i < |plan| && r.result[i] && k == KeyFor(env, plan[i].0, event, plan[i].1)
    ensures var r := NotifyEach(st, env, event, plan);
      forall i :: 0 <= i < |plan| && r.result[i] ==> KeyFor(env, plan[i].0, event, plan[i].1) in r.state.sent
    decreases |plan|
  {
    if |plan| > 0 {
      var first := Notify(st, env, plan[0].0, event, plan[0].1);
      var tail := plan[1..];
      var rest := NotifyEach(first.state, env, event, tail);
      NotifyEachRecordsDelivered(first.state, env, event, tail);
      var r := NotifyEach(st, env, event, plan);
      assert r.state == rest.state && r.result == [first.result] + rest.result;
      forall k | k in r.state.sent && k !in st.sent
        ensures exists i :: 0 <= i < |plan| && r.result[i] && k == KeyFor(env, plan[i].0, event, plan[i].1)
      {
        if k in first.state.sent {
          assert r.result[0] && k == KeyFor(env, plan[0].0, event, plan[0].1);
        } else {
          var i :| 0 <= i < |tail| && rest.result[i] && k == KeyFor(env, tail[i].0, event, tail[i].1);
          assert tail[i] == plan[i + 1] && r.result[i + 1];
        }
      }
      forall i | 0 <= i < |plan| && r.result[i]
        ensures KeyFor(env, plan[i].0, event, plan[i].1) in r.state.sent
      {
        if i > 0 {
          assert tail[i - 1] == plan[i] && rest.result[i - 1];
        }
      }
    }
  }
}
