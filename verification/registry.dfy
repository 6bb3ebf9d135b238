/** Registration of sockets by user id: the `connection` handler's handshake
    check and the per-socket `disconnect` handler. */
module Registry {
  import opened Wrappers
  import opened SocketState

  /** The handshake's `userId` query parameter: its text, and the id
      `parseInt` reads from it. */
  datatype UserParam = UserParam(text: string, id: UserId)

  /** The `connection` handler for socket `s`. A non-empty `userId` registers
      `s` under `parseInt(userId)`, replacing (without closing) any socket
      already registered there, and greets `s`; the id is returned because the
      socket's own `disconnect` handler later deletes by it. A missing or
      empty `userId` closes `s` and registers nothing. */
  function Connect(st: State, s: SocketId, param: Option<UserParam>): (r: Step<Option<UserId>>)
    ensures r.state.sent == st.sent
    ensures r.result.Some? <==> param.Some? && |param.value.text| > 0
    ensures r.result.None? ==> r.state == st && r.events == [Close(s)]
    ensures r.result.Some? ==>
      && r.result.value == param.value.id
      && r.state.sockets.Keys == st.sockets.Keys + {param.value.id}
      && r.state.sockets[param.value.id] == s
      && (forall v :: v in st.sockets && v != param.value.id ==> r.state.sockets[v] == st.sockets[v])
      && r.events == [Emit(s, ConnectionSuccessEvent, ConnectionSuccess(param.value.text))]
  {
    if param.Some? && |param.value.text| > 0 then
      var u := param.value.id;
      Step(st.(sockets := st.sockets[u := s]),
           [Emit(s, ConnectionSuccessEvent, ConnectionSuccess(param.value.text))],
           Some(u))
    else
      Step(st, [Close(s)], None)
  }

  /** The `disconnect` handler of a socket registered as `u`: it deletes the
      entry for `u` whichever socket currently holds it. */
  function Disconnect(st: State, u: UserId): (r: State)
    ensures u !in r.sockets
    ensures r.sockets.Keys == st.sockets.Keys - {u}
    ensures forall v :: v in r.sockets ==> r.sockets[v] == st.sockets[v]
    ensures r.sent == st.sent
  {
    st.(sockets := st.sockets - {u})
  }

  /** Disconnecting twice leaves the state the first disconnect left. */
  lemma DisconnectIdempotent(st: State, u: UserId)
    ensures Disconnect(Disconnect(st, u), u) == Disconnect(st, u)
  {
  }

  /** Registering a fresh id and then disconnecting it restores the state. */
  lemma ConnectThenDisconnect(st: State, s: SocketId, p: UserParam)
    requires |p.text| > 0
    requires p.id !in st.sockets
    ensures Disconnect(Connect(st, s, Some(p)).state, p.id) == st
  {
    assert Connect(st, s, Some(p)).state.sockets - {p.id} == st.sockets;
  }

  /** Handshakes of the sockets `ss`, in order, all with the same parameter. */
  function ConnectAll(st: State, p: UserParam, ss: seq<SocketId>): State
    decreases |ss|
  {
    if |ss| == 0 then st
    else ConnectAll(Connect(st, ss[0], Some(p)).state, p, ss[1..])
  }

  /** Last writer wins: after any non-empty run of handshakes with the same
      user id, the registry holds the most recent socket for that id and every
      other entry is as before. */
  lemma {:induction false} LastWriterWins(st: State, p: UserParam, ss: seq<SocketId>)
    requires |p.text| > 0
    requires |ss| > 0
    ensures p.id in ConnectAll(st, p, ss).sockets
    ensures ConnectAll(st, p, ss).sockets[p.id] == ss[|ss| - 1]
    ensures forall v :: v != p.id ==>
      (v in ConnectAll(st, p, ss).sockets <==> v in st.sockets)
    ensures forall v :: v != p.id && v in st.sockets ==>
      ConnectAll(st, p, ss).sockets[v] == st.sockets[v]
    decreases |ss|
  {
    var next := Connect(st, ss[0], Some(p)).state;
    if |ss| == 1 {
      assert ConnectAll(next, p, ss[1..]) == next;
    } else {
      LastWriterWins(next, p, ss[1..]);
      assert ss[1..][|ss[1..]| - 1] == ss[|ss| - 1];
    }
  }

  /** Disconnect deletes by id, not by socket: when `old` was replaced by a
      newer socket for the same id and `old` then disconnects, the newer,
      still-connected registration is evicted too. */
  lemma StaleDisconnectEvictsNewer(st: State, p: UserParam, older: SocketId, newer: SocketId)
    requires |p.text| > 0
    requires older != newer
    ensures var afterBoth := ConnectAll(st, p, [older, newer]);
      && p.id in afterBoth.sockets
      && afterBoth.sockets[p.id] == newer
      && p.id !in Disconnect(afterBoth, p.id).sockets
  {
    LastWriterWins(st, p, [older, newer]);
  }
}
