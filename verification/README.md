# Realtime presence and dispatch core, and the announcement controller's pure logic

This project is a Dafny model of the chat backend's realtime socket server (`socket.js`). It covers three pieces of in-memory state:

- the registry `userSockets`, which maps a user id to a socket;
- the dedup set `sentMessages`;
- which sockets still report themselves connected.

Every handler is one atomic transition from a `State` and its explicit inputs to a `Step`. A step holds the next state, the transport events emitted in order, and the handler's return value. The inputs are the clock, the set of live sockets, `JSON.stringify` and the storage query results.

The modelled transitions are:

- handshake registration and disconnect (`Registry`);
- `sendNotificationToUser` and `emitToUser` (`Dispatch`);
- the `message_read` fan-out (`ReadReceipts`);
- the periodic cleanup (`Janitor`);
- `sendForceLogout`, with its delayed step as an explicit timer value (`ForceLogout`);
- `sendUnreadCountUpdate` (`UnreadUpdate`).

The model also covers the pure logic of `controllers/announcementController.js` (`Announcements`):

- the input guards;
- the UPDATE statement builder;
- the offline operations on the in-memory mock list.

Two quirks of the source are modelled as written, and lemmas exhibit them:

- Disconnect and the force-logout timer delete by user id without checking which socket holds the entry. A stale socket can therefore evict a newer registration (`Registry.StaleDisconnectEvictsNewer`, `ForceLogout.StaleTimerEvictsReconnection`).
- The dedup key contains the current millisecond. Only same-millisecond repeats are suppressed (`Dispatch.SameMillisecondRepeatSuppressed`, `Dispatch.LaterRepeatDelivered`).

Offline announcement ids are `length + 1`, so they can repeat after a delete (`Announcements.OfflineIdsCanCollide`).

Other behaviours of the code that the model keeps as they are:

- The sweep keeps a key that is exactly five minutes old. Only keys strictly older are removed.
- `sendUnreadCountUpdate` returns true whenever both queries succeed, whatever the dispatch returned.
- The force-logout timer does not check that the same socket is still registered.
- The handshake accepts any non-empty `userId` text.
- A per-sender storage failure in the fan-out is only logged. No `error` event goes back to the reader.

Files: `wrappers.dfy`, `js_values.dfy` (JavaScript truthiness and string-to-number conversion), `socket_state.dfy` (state, keys, payloads, events), `registry.dfy`, `dispatch.dfy`, `read_receipts.dfy`, `janitor.dfy`, `force_logout.dfy`, `unread_update.dfy`, `announcements.dfy`.

## Model

| member | source | states |
|---|---|---|
| Registry.Connect | socket.js:44-59 | A non-empty `userId` registers the socket under `parseInt(userId)`. The previous socket for that id is overwritten, not closed, and every other entry is unchanged. The socket gets `connection_success`. With no `userId` (the else branch at lines 164-167), the socket is closed and the registry is unchanged. |
| Registry.Disconnect | socket.js:152-159 | Removes the entry for the captured id, whichever socket holds it. All other entries and the dedup set are unchanged. |
| Registry.DisconnectIdempotent | socket.js:155 | A repeated disconnect yields the same state as a single one. |
| Registry.ConnectThenDisconnect | socket.js:152-155 | Registering a fresh id and then disconnecting it restores the original state. |
| Registry.LastWriterWins | socket.js:52 | After any non-empty run of handshakes with one id, the registry holds the most recent socket for it. Every other entry is as before. |
| Registry.StaleDisconnectEvictsNewer | socket.js:152-155 | The disconnect of a replaced socket also evicts the newer registration under the same id. |
| Dispatch.Prefix | socket.js:231 | The payload part of the key is a prefix of the serialized payload: all of it when it has at most 50 characters, and exactly its first 50 characters otherwise. |
| Dispatch.KeyFor | socket.js:231 | A dedup key records the event name, the current millisecond, the recipient id and the payload prefix as described for `Dispatch.Prefix`. |
| Dispatch.Notify | socket.js:226-254 | Returns true exactly when the key (event, millisecond, user, payload prefix) is unseen and the registered socket is connected. In that case it emits once and records the key. Otherwise it emits nothing and the state is unchanged. The registry is never touched. |
| Dispatch.SameMillisecondRepeatSuppressed | socket.js:231-237 | After a delivery, the identical call in the same millisecond returns false. |
| Dispatch.LaterRepeatDelivered | socket.js:231-245 | After a delivery, the same notification at another millisecond whose key is unseen is delivered again to a live recipient. |
| Dispatch.EmitToUser | socket.js:308-318 | Emits to the registered socket whether or not it is connected, with no dedup. Returns true exactly when a socket is registered. The state is unchanged. |
| Dispatch.EmitToUserBypassesChecks | socket.js:308-318 | Wherever the dedup-checked dispatch delivers, `emitToUser` emits the same event. It also emits to a registered socket that is disconnected or whose key is already recorded, where the dedup-checked dispatch emits nothing. |
| Dispatch.NotifyEach | socket.js:94-125 | Every planned dispatch is attempted, one result each. Only dedup keys are added. The events are exactly the emits of the delivered dispatches, in plan order, each carrying its planned payload to its recipient's registered socket. |
| Dispatch.NotifyEachRecordsDelivered | socket.js:94-125 | The fan-out records exactly the keys of its deliveries. Every key it adds belongs to a dispatch that emitted, and every dispatch that emitted has its key recorded. An attempt to an offline or already-notified sender records nothing. |
| Dispatch.NotifyEachIsolated | socket.js:94-125 | With distinct recipients, each one is delivered exactly when its own key is unseen and its own socket is live, independent of the others. |
| ReadReceipts.ValidSignal | socket.js:67 | A read signal is accepted exactly when neither `conversation_id` nor `reader_id` is missing, the number 0 or the empty string. |
| ReadReceipts.ReceiptFor | socket.js:96-121 | Without `message_ids`, every sender gets a receipt. With them, a sender gets one only when its narrowing query returned ids, and the receipt carries exactly those ids. |
| ReadReceipts.ReceiptPlan | socket.js:91-125 | The planned receipts go only to listed senders, at most one per sender row. All carry the same conversation, reader and `read_at`. Without `message_ids` there is exactly one per row, in order. With them, none carries an empty id list. |
| ReadReceipts.ReceiptPlanAppend | socket.js:94-125 | The plan for a concatenated sender list is the concatenation of the plans. |
| ReadReceipts.ReceiptPlanIsolation | socket.js:94-124 | A failure or empty result for one sender changes only that sender's receipt. Earlier and later senders are still served. |
| ReadReceipts.DistinctSendersDistinctRecipients | socket.js:85-94 | Given distinct senders from storage, at most one receipt goes to each sender. |
| ReadReceipts.MessageRead | socket.js:62-131 | A missing payload fails at the first field access, and the handler's catch answers 'Lỗi xử lý thông báo'. Each of these produces exactly one `error` event to the reading socket and changes nothing: a missing payload, a falsy `conversation_id` or `reader_id`, a disconnected database, or a failing time or senders query. Otherwise its events and its new state are those of dispatching the receipt plan one sender at a time. So it emits only receipts, each carrying the database time and each sent to a listed sender's socket. |
| ReadReceipts.FanoutCompleteness | socket.js:91-121 | Without `message_ids` and with distinct senders, sender j's receipt is delivered exactly when its key is unseen and its socket is live. |
| ReadReceipts.MessageReadReachesEverySender | socket.js:62-125 | For a valid signal without `message_ids` whose queries succeed, each of the distinct senders whose key is unseen and whose socket is live gets the receipt from the handler, whatever happens to the other senders. |
| Janitor.Expired | socket.js:176-180 | A key expires exactly when its timestamp is more than 300000 ms before the sweep's time. |
| Janitor.SweepSent | socket.js:176-188 | Keeps exactly the keys whose timestamp is not strictly earlier than `now` minus five minutes. |
| Janitor.SweepSockets | socket.js:190-201 | Keeps exactly the entries whose socket is connected, with their values unchanged. |
| Janitor.Cleanup | socket.js:171-205 | One cleanup run removes exactly the expired keys and exactly the disconnected entries. Everything else is kept. |
| Janitor.SweptIdempotent | socket.js:176-201 | A second sweep with the same clock and liveness changes nothing. |
| Janitor.SweptRegistryIsLive | socket.js:190-201 | An id survives the sweep exactly when its socket was live, so afterwards every registered user is live. |
| Janitor.DeliveredKeyLifetime | socket.js:177-183 | A key recorded at time t survives a sweep at `now` exactly when `now <= t + 300000`. |
| ForceLogout.EffectiveReason | socket.js:331 | A non-empty reason is used as given. Otherwise the reason is 'Tài khoản của bạn đã bị khóa'. |
| ForceLogout.SendForceLogout | socket.js:321-366 | For an unregistered id it emits nothing and returns false. For a registered id it emits `force_logout` with `priority: 'high'` and `force: true`, then broadcasts `global_force_logout` from the same socket. It returns true with a timer that captures the id and the socket. The state is unchanged. |
| ForceLogout.FireLogoutTimer | socket.js:345-355 | If the id is still registered, it closes the captured socket and deletes the id. Otherwise it does nothing. Either way the id is absent afterwards and other entries are unchanged. |
| ForceLogout.ForceLogoutUnregisters | socket.js:345-357 | After a force logout that returned true, firing its timer, whatever happened in between, leaves the user unregistered. |
| ForceLogout.StaleTimerEvictsReconnection | socket.js:345-349 | If the user reconnected within the second, the timer closes the old socket and evicts the new registration. |
| UnreadUpdate.TotalUnread | socket.js:267 | The total is the first row's count, or 0 when there is no row or its count is null. |
| UnreadUpdate.SendUnreadCountUpdate | socket.js:257-305 | Returns true exactly when both queries succeed, and then makes one `unread_count_update` dispatch carrying the total and the rows. That dispatch records its key exactly when it emits. A query error returns false with nothing emitted or changed. |
| UnreadUpdate.OfflineUpdateStillSucceeds | socket.js:294-300 | For an offline user the result is still true, with nothing emitted and the state unchanged. |
| Announcements.IdGuard | controllers/announcementController.js:74-79 | An empty route id is rejected with 400 'Thiếu ID thông báo', and only an empty one. Get, update and delete apply this check before anything else. |
| Announcements.CreateGuard | controllers/announcementController.js:142-147 | Rejects with 400 exactly when `content` or `announcementType` is falsy. |
| Announcements.UpdateGuard | controllers/announcementController.js:286-298 | Rejects with 400 when the id is empty, or when both fields are falsy. The id check comes first. |
| Announcements.BuildUpdate | controllers/announcementController.js:301-319 | The route id is always the last parameter, and the number of `?` equals the number of parameters. A comma appears exactly when both fields are set. With both fields the text is `UPDATE GeneralAnnouncement SET AnnouncementContent = ?, AnnouncementType = ? WHERE AnnouncementID = ?` with params `[content, type, id]`. With one field it has that field's assignment only. |
| Announcements.UpdateTextCounts | controllers/announcementController.js:301-319 | The assembled text holds one `?` per field present plus one for the WHERE clause. It holds one comma only when both fields are present. |
| Announcements.UpdateTextComma | controllers/announcementController.js:309-311 | The separator appears exactly when both fields are set. |
| Announcements.UpdateAnnouncement | controllers/announcementController.js:282-346 | If a guard rejects, no statement is run. Otherwise the built statement runs. Zero affected rows is a 404, a query error a 500, and anything else a 200 echoing the request. |
| Announcements.FirstMatch | controllers/announcementController.js:362 | Finds the index of the first item whose id loosely equals the route id, or none when nothing matches. |
| Announcements.GetAnnouncementOffline | controllers/announcementController.js:83-96 | Returns the first item whose id matches, or 404 when none does. An empty id gives 400. The list is only read. |
| Announcements.CreateAnnouncementOffline | controllers/announcementController.js:151-171 | After the guard, prepends exactly one item whose id is the old length + 1 and which has the given content and type. It reports `users_notified: 0` with status 201. The rest of the list is unchanged. |
| Announcements.DeleteAnnouncementOffline | controllers/announcementController.js:361-374 | Removes exactly the first matching item and keeps the order of the rest. When nothing matches it answers 404 and the list is unchanged. |
| Announcements.CreateThenGet | controllers/announcementController.js:154-160 | Fetching the id of a just-created item returns that item. |
| Announcements.CreateThenDelete | controllers/announcementController.js:362-364 | Deleting the id of a just-created item restores the previous list. |
| Announcements.OfflineIdsCanCollide | controllers/announcementController.js:155 | After deleting item 1 of three, a new item gets id 3, which is already in use. |

## Left out

- Socket.io server construction, CORS and transport options, engine `connection_error` logging and the SIGTERM handler (socket.js:12-42, 207-216). These are library configuration and process plumbing.
- Real timers. The cleanup interval is a transition (`Janitor.Cleanup`) the caller may run at any time. The one-second force-logout delay is a `Timer` value the caller fires.
- Interleaving at `await` points. Each handler is atomic, because the concurrency is not expressible in this functional model.
- SQL text and MySQL semantics: DISTINCT, joins, ordering, and the `IN (...)` narrowing. Query results are inputs. Distinct senders are a precondition of the lemmas that need them, not of the operations.
- `JSON.stringify` is the `render` input. ISO timestamps in payloads and `Date` formatting are omitted. `slice(0, 50)` counts characters, not UTF-16 code units.
- `parseInt` of the handshake text is a given id next to the text (`Registry.UserParam`). A non-numeric `userId` whose `parseInt` is NaN is not modelled.
- Ping/pong and socket `error` logging (socket.js:134-149). These only echo and log.
- The catch blocks for exceptions the model cannot raise: a throwing emit, a throwing `JSON.stringify` on cyclic data, a throwing `socket.connected`, and the registration catch at socket.js:160-163.
- Dedup keys whose event name contains `-`. The sweep reads the second `-`-separated field of the key string, which equals the key's time only when the event name has no `-`. The structured `DedupKey` assumes this holds.
- A caller passing `sendNotificationToUser` a user id that is a string: the source's map lookup uses strict key equality and would miss. Ids are integers throughout the model.
- In `message_read`, a non-array `message_ids` counts as absent. An empty array takes the narrowing branch, and each sender's narrowing result is an input there.
- `index.js` (Express wiring, health endpoint, shutdown) and `db.js` (pool configuration, reconnect loop): plumbing around timers and network I/O.
- The announcement controller's database paths: transactions, `sendSystemMessage`, `Promise.all`, the `announcement_created` emits, `getAllAnnouncements`, and the ETIMEDOUT/ECONNREFUSED fallbacks to the mock list. What is modelled is the offline paths of get, create and delete, and `updateAnnouncement` with its query result as an input.
- Request fields are `Scalar` values (undefined, integer or string). Booleans, `null`, objects and fractional numbers are not modelled.
- JsValues.ToNumber: string-to-number conversion covers only the empty string and optionally signed decimal digits. Whitespace, fractions, exponents and hex texts count as NaN, so loose equality with such a route id is weaker than in JavaScript.
- Announcements.UpdateAnnouncement: the success reply echoes the route id text instead of `parseInt(id)`.
