/** `sendUnreadCountUpdate`: two storage queries, then one dispatch. */
module UnreadUpdate {
  import opened Wrappers
  import opened SocketState
  import opened Dispatch

  /** One row of the unread-count query; `totalUnread` may be null. */
  datatype CountRow = CountRow(totalUnread: Option<int>)

  /** `unreadCountResult[0]?.total_unread || 0`. */
  function TotalUnread(rows: seq<CountRow>): (n: int)
    ensures |rows| == 0 ==> n == 0
    ensures |rows| > 0 && rows[0].totalUnread.None? ==> n == 0
    ensures |rows| > 0 && rows[0].totalUnread.Some? ==> n == rows[0].totalUnread.value
  {
    if |rows| > 0 && rows[0].totalUnread.Some? then rows[0].totalUnread.value else 0
  }

  /** `sendUnreadCountUpdate(u)`. When either query fails it returns false
      and changes nothing (the conversations query is not even issued after
      a failed count). When both succeed it makes one `unread_count_update`
      dispatch through `Notify`, carrying the total and the conversation
      rows as returned, and returns true whether or not that dispatch was
      delivered. */
  function SendUnreadCountUpdate(st: State, env: Env, u: UserId,
                                 counts: DbResult<seq<CountRow>>,
                                 conversations: DbResult<seq<ConversationRow>>): (r: Step<bool>)
    ensures r.result <==> counts.Rows? && conversations.Rows?
    ensures !r.result ==> r.state == st && r.events == []
    ensures r.state.sockets == st.sockets
    ensures r.result ==>
      var payload := UnreadCount(u, TotalUnread(counts.value), conversations.value);
      && |r.events| <= 1
      && (|r.events| == 1 <==> KeyFor(env, u, UnreadEvent, payload) !in st.sent && IsLive(st, env.live, u))
      && (|r.events| == 1 ==> r.events[0] == Emit(st.sockets[u], UnreadEvent, payload))
      && r.state.sent == st.sent + (if |r.events| == 1 then {KeyFor(env, u, UnreadEvent, payload)} else {})
  {
    match (counts, conversations)
    case (Rows(rows), Rows(convs)) =>
      var d := Notify(st, env, u, UnreadEvent, UnreadCount(u, TotalUnread(rows), convs));
      Step(d.state, d.events, true)
    case _ =>
      Step(st, [], false)
  }

  /** The result reports that the queries succeeded, not that anything was
      delivered: for an offline user it is still true, with nothing emitted. */
  lemma OfflineUpdateStillSucceeds(st: State, env: Env, u: UserId, rows: seq<CountRow>, convs: seq<ConversationRow>)
    requires !IsLive(st, env.live, u)
    ensures var r := SendUnreadCountUpdate(st, env, u, Rows(rows), Rows(convs));
      r.result && r.events == [] && r.state == st
  {
  }
}
