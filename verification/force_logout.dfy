/** `sendForceLogout`: a direct `force_logout`, a broadcast
    `global_force_logout`, and a step one second later that disconnects the
    socket and deletes the registry entry. */
module ForceLogout {
  import opened Wrappers
  import opened SocketState

  const DefaultReason := "Tài khoản của bạn đã bị khóa"
  const HighPriority := "high"

  /** The delayed step scheduled by a successful force logout. It captures
      the user id and the socket that was registered when it was scheduled. */
  datatype Timer = LogoutTimer(userId: UserId, socket: SocketId)

  /** `reason || 'Tài khoản của bạn đã bị khóa'`. */
  function EffectiveReason(reason: Option<string>): (r: string)
    ensures |r| > 0
    ensures reason.Some? && |reason.value| > 0 ==> r == reason.value
    ensures !(reason.Some? && |reason.value| > 0) ==> r == DefaultReason
  {
    if reason.Some? && |reason.value| > 0 then reason.value else DefaultReason
  }

  /** `sendForceLogout(u, reason)`. With no registered socket for `u` it
      emits nothing and returns false (`None`). Otherwise it emits a
      high-priority forced `force_logout` to that socket, broadcasts
      `global_force_logout` from it, schedules the delayed step and returns
      true (`Some(timer)`). The state itself is untouched until the timer
      fires. */
  function SendForceLogout(st: State, u: UserId, reason: Option<string>): (r: Step<Option<Timer>>)
    ensures r.state == st
    ensures r.result.Some? <==> u in st.sockets
    ensures u !in st.sockets ==> r.events == []
    ensures u in st.sockets ==>
      && r.result.value == LogoutTimer(u, st.sockets[u])
      && r.events == [
           Emit(st.sockets[u], ForceLogoutEvent, ForceLogoutNotice(u, EffectiveReason(reason), HighPriority, true)),
           Broadcast(st.sockets[u], GlobalForceLogoutEvent, GlobalForceLogout(u, EffectiveReason(reason)))]
  {
    if u in st.sockets then
      var s := st.sockets[u];
      var why := EffectiveReason(reason);
      Step(st,
           [Emit(s, ForceLogoutEvent, ForceLogoutNotice(u, why, HighPriority, true)),
            Broadcast(s, GlobalForceLogoutEvent, GlobalForceLogout(u, why))],
           Some(LogoutTimer(u, s)))
    else
      Step(st, [], None)
  }

  /** The delayed step. If some socket is still registered under the id, it
      closes the socket captured at scheduling time and deletes the id,
      without checking that the two are the same socket; otherwise it does
      nothing. Either way the id is absent afterwards and no other entry
      changes. */
  function FireLogoutTimer(st: State, t: Timer): (r: Step<()>)
    ensures t.userId !in r.state.sockets
    ensures r.state.sockets.Keys == st.sockets.Keys - {t.userId}
    ensures forall v :: v in r.state.sockets ==> r.state.sockets[v] == st.sockets[v]
    ensures r.state.sent == st.sent
    ensures t.userId in st.sockets ==> r.events == [Close(t.socket)]
    ensures t.userId !in st.sockets ==> r.events == [] && r.state == st
  {
    if t.userId in st.sockets then
      Step(st.(sockets := st.sockets - {t.userId}), [Close(t.socket)], ())
    else
      Step(st, [], ())
  }

  /** Force logout sequencing: whenever the call returns true, firing its
      timer, after any state changes in between, leaves the user
      unregistered. */
  lemma ForceLogoutUnregisters(st: State, u: UserId, reason: Option<string>, between: State)
    requires SendForceLogout(st, u, reason).result.Some?
    ensures var t := SendForceLogout(st, u, reason).result.value;
      t.userId == u && u !in FireLogoutTimer(between, t).state.sockets
  {
  }

  /** The delayed step deletes by id: if the user reconnected on a new socket
      within the second, the timer closes the old socket yet evicts the new
      registration. */
  lemma StaleTimerEvictsReconnection(st: State, u: UserId, reason: Option<string>, newer: SocketId)
    requires u in st.sockets && st.sockets[u] != newer
    ensures var t := SendForceLogout(st, u, reason).result.value;
      var reconnected := st.(sockets := st.sockets[u := newer]);
      var fired := FireLogoutTimer(reconnected, t);
      fired.events == [Close(st.sockets[u])] && u !in fired.state.sockets
  {
  }
}
