/** The in-memory state of the realtime socket server and the events its
    handlers emit. Every handler is modelled as one atomic transition from a
    `State` (plus explicit inputs) to a `Step`: the next state, the events
    emitted in order, and the handler's return value. */
module SocketState {
  import opened Wrappers
  import opened JsValues

  /** The numeric user id a socket is registered under (`parseInt` of the
      handshake text, or an id a caller passes). */
  type UserId = int

  /** Identity of one transport session; the server never looks inside it. */
  type SocketId = nat

  /** Dedup keys older than this many milliseconds are swept. */
  const DedupWindowMs: int := 5 * 60 * 1000

  /** Number of leading characters of the serialized payload kept in a key. */
  const PayloadPrefixLength: nat := 50

  /** Event names the socket server itself emits. */
  const ConnectionSuccessEvent := "connection_success"
  const ErrorEvent := "error"
  const ReceiptEvent := "message_read_receipt"
  const UnreadEvent := "unread_count_update"
  const ForceLogoutEvent := "force_logout"
  const GlobalForceLogoutEvent := "global_force_logout"

  /** A dedup key `event-time-userId-prefix`, kept structured. The periodic
      sweep reads the second `-`-separated field as the time, which is
      `time` exactly when `event` holds no `-`; event names are assumed so. */
  datatype DedupKey = DedupKey(event: string, time: int, userId: UserId, payloadPrefix: string)

  /** One conversation summary row, passed through from storage untouched. */
  datatype ConversationRow = ConversationRow(
    conversationId: int,
    unreadCount: int,
    lastMessageId: Option<int>,
    lastMessageContent: Option<string>)

  /** The payloads the server builds. `Custom` stands for a payload a caller
      outside this module hands to `sendNotificationToUser` or `emitToUser`.
      ISO timestamps the source adds to payloads are left out. */
  datatype Payload =
    | ConnectionSuccess(userIdText: string)
    | ErrorNotice(message: string)
    | ReadReceipt(conversationId: Scalar, readerId: Scalar, messageIds: Option<seq<int>>, readAt: int)
    | UnreadCount(userId: UserId, totalUnread: int, conversations: seq<ConversationRow>)
    | ForceLogoutNotice(userId: UserId, reason: string, priority: string, force: bool)
    | GlobalForceLogout(targetUserId: UserId, reason: string)
    | Custom(body: string)

  /** An observable effect on the transport: an emit to one socket, a
      broadcast to every socket except the sender, or a forced disconnect. */
  datatype Event =
    | Emit(to: SocketId, name: string, payload: Payload)
    | Broadcast(from: SocketId, name: string, payload: Payload)
    | Close(socket: SocketId)

  /** `userSockets` and `sentMessages`. */
  datatype State = State(sockets: map<UserId, SocketId>, sent: set<DedupKey>)

  /** Inputs the source reads from its surroundings during a dispatch: the
      clock (`Date.now()`), which sockets report `connected`, and
      `JSON.stringify`. */
  datatype Env = Env(now: int, live: set<SocketId>, render: Payload -> string)

  /** The result of one handler: next state, events in emission order, and
      the handler's return value. */
  datatype Step<R> = Step(state: State, events: seq<Event>, result: R)

  /** `userSockets.get(u)` exists and reports itself connected. */
  predicate IsLive(st: State, live: set<SocketId>, u: UserId) {
    u in st.sockets && st.sockets[u] in live
  }
}
