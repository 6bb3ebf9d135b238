/** The `message_read` handler: validation, then one `message_read_receipt`
    per sender of the conversation, dispatched through `Notify`. */
module ReadReceipts {
  import opened Wrappers
  import opened JsValues
  import opened SocketState
  import opened Dispatch

  /** The `message_read` payload. `messageIds` is `Some` exactly when the
      payload carries an array (possibly empty); any other value counts as
      absent, as `data.message_ids && Array.isArray(...)` does. */
  datatype ReadSignal = ReadSignal(conversationId: Scalar, readerId: Scalar, messageIds: Option<seq<int>>)

  /** One row of the distinct-senders query, with the result of that sender's
      own narrowing query (consulted only when `messageIds` is present). */
  datatype SenderRow = SenderRow(senderId: UserId, narrowed: DbResult<seq<int>>)

  /** What storage answers during one `message_read`: `isConnected()`, the
      `NOW()` query, and the senders query. */
  datatype ReadQueries = ReadQueries(dbConnected: bool, readAt: DbResult<int>, senders: DbResult<seq<SenderRow>>)

  const InvalidDataMessage := "Dữ liệu không hợp lệ"
  const UnavailableMessage := "Dịch vụ tạm thời không khả dụng"
  const ProcessingErrorMessage := "Lỗi xử lý thông báo"

  /** Both `conversation_id` and `reader_id` are truthy: neither is missing,
      the number 0 or the empty string. */
  predicate ValidSignal(sig: ReadSignal): (b: bool)
    ensures b <==>
      && sig.conversationId !in {Undefined, Num(0), Str("")}
      && sig.readerId !in {Undefined, Num(0), Str("")}
  {
    Truthy(sig.conversationId) && Truthy(sig.readerId)
  }

  /** The receipt one sender gets, if any. Without `messageIds` every sender
      gets one; with them a sender gets one only when its narrowing query
      succeeded with at least one id, and the receipt carries exactly those. */
  function ReceiptFor(sig: ReadSignal, readAt: int, row: SenderRow): (r: Option<(UserId, Payload)>)
    ensures r.Some? <==> sig.messageIds.None? || (row.narrowed.Rows? && |row.narrowed.value| > 0)
    ensures r.Some? ==> r.value.0 == row.senderId
    ensures r.Some? ==> r.value.1 == ReadReceipt(sig.conversationId, sig.readerId,
      if sig.messageIds.None? then None else Some(row.narrowed.value), readAt)
  {
    match sig.messageIds
    case None => Some((row.senderId, ReadReceipt(sig.conversationId, sig.readerId, None, readAt)))
    case Some(_) =>
      match row.narrowed
      case DbError => None
      case Rows(ids) =>
        if |ids| == 0 then None
        else Some((row.senderId, ReadReceipt(sig.conversationId, sig.readerId, Some(ids), readAt)))
  }

  function AsSeq<T>(o: Option<T>): seq<T> {
    if o.Some? then [o.value] else []
  }

  /** The dispatches the sender loop makes, in the order storage returned the
      senders. All receipts carry the same conversation, reader and `readAt`;
      each goes to a sender listed in `rows`; without `messageIds` there is
      exactly one per row; with them none carries an empty id list. */
  function ReceiptPlan(sig: ReadSignal, readAt: int, rows: seq<SenderRow>): (plan: seq<(UserId, Payload)>)
    ensures |plan| <= |rows|
    ensures forall k :: 0 <= k < |plan| ==>
      && plan[k].1.ReadReceipt?
      && plan[k].1.conversationId == sig.conversationId
      && plan[k].1.readerId == sig.readerId
      && plan[k].1.readAt == readAt
      && (plan[k].1.messageIds.Some? <==> sig.messageIds.Some?)
      && (plan[k].1.messageIds.Some? ==> |plan[k].1.messageIds.value| > 0)
    ensures forall k :: 0 <= k < |plan| ==>
      exists j :: 0 <= j < |rows| && ReceiptFor(sig, readAt, rows[j]) == Some(plan[k])
    ensures sig.messageIds.None? ==>
      && |plan| == |rows|
      && (forall j :: 0 <= j < |rows| ==>
            plan[j] == (rows[j].senderId, ReadReceipt(sig.conversationId, sig.readerId, None, readAt)))
    decreases |rows|
  {
    if |rows| == 0 then []
    else
      var tail := ReceiptPlan(sig, readAt, rows[1..]);
      assert forall k :: 0 <= k < |tail| ==>
        exists j :: 0 <= j < |rows| && ReceiptFor(sig, readAt, rows[j]) == Some(tail[k]) by {
        forall k | 0 <= k < |tail|
          ensures (exists j :: 0 <= j < |rows| && ReceiptFor(sig, readAt, rows[j]) == Some(tail[k]))
        {
          var j :| 0 <= j < |rows[1..]| && ReceiptFor(sig, readAt, rows[1..][j]) == Some(tail[k]);
          assert rows[1..][j] == rows[j + 1];
        }
      }
      AsSeq(ReceiptFor(sig, readAt, rows[0])) + tail
  }

  /** The plan for a concatenation of sender lists is the concatenation of
      the plans: each sender is handled on its own. */
  lemma {:induction false} ReceiptPlanAppend(sig: ReadSignal, readAt: int, a: seq<SenderRow>, b: seq<SenderRow>)
    ensures ReceiptPlan(sig, readAt, a + b) == ReceiptPlan(sig, readAt, a) + ReceiptPlan(sig, readAt, b)
    decreases |a|
  {
    if |a| == 0 {
      assert a + b == b;
    } else {
      assert (a + b)[0] == a[0] && (a + b)[1..] == a[1..] + b;
      ReceiptPlanAppend(sig, readAt, a[1..], b);
    }
  }

  /** Failure isolation: what happens to sender `i` (its narrowing query
      failing, or returning no ids) changes only sender `i`'s receipt; the
      receipts of the senders before and after it are the same as ever. */
  lemma ReceiptPlanIsolation(sig: ReadSignal, readAt: int, rows: seq<SenderRow>, i: nat, row: SenderRow)
    requires i < |rows|
    ensures ReceiptPlan(sig, readAt, rows[i := row]) ==
      ReceiptPlan(sig, readAt, rows[..i]) + AsSeq(ReceiptFor(sig, readAt, row)) + ReceiptPlan(sig, readAt, rows[i + 1..])
  {
    var changed := rows[i := row];
    assert changed == rows[..i] + ([row] + rows[i + 1..]);
    ReceiptPlanAppend(sig, readAt, rows[..i], [row] + rows[i + 1..]);
    ReceiptPlanAppend(sig, readAt, [row], rows[i + 1..]);
    assert ReceiptPlan(sig, readAt, [row]) == AsSeq(ReceiptFor(sig, readAt, row)) by {
      assert [row][1..] == [];
    }
  }

  /** At most one receipt per sender: when storage returns pairwise distinct
      senders, the planned recipients are pairwise distinct. */
  lemma {:induction false} DistinctSendersDistinctRecipients(sig: ReadSignal, readAt: int, rows: seq<SenderRow>)
    requires forall i, j :: 0 <= i < j < |rows| ==> rows[i].senderId != rows[j].senderId
    ensures forall k, l :: 0 <= k < l < |ReceiptPlan(sig, readAt, rows)| ==>
      ReceiptPlan(sig, readAt, rows)[k].0 != ReceiptPlan(sig, readAt, rows)[l].0
    decreases |rows|
  {
    if |rows| > 0 {
      DistinctSendersDistinctRecipients(sig, readAt, rows[1..]);
      var tail := ReceiptPlan(sig, readAt, rows[1..]);
      forall k | 0 <= k < |tail|
        ensures tail[k].0 != rows[0].senderId
      {
        var j :| 0 <= j < |rows[1..]| && ReceiptFor(sig, readAt, rows[1..][j]) == Some(tail[k]);
        assert rows[1..][j] == rows[j + 1];
      }
      var head := AsSeq(ReceiptFor(sig, readAt, rows[0]));
      var plan := ReceiptPlan(sig, readAt, rows);
      assert plan == head + tail;
      forall k, l | 0 <= k < l < |plan|
        ensures plan[k].0 != plan[l].0
      {
        if k < |head| {
          assert plan[k] == head[0] == ReceiptFor(sig, readAt, rows[0]).value;
          assert plan[l] == tail[l - |head|];
        } else {
          assert plan[k] == tail[k - |head|] && plan[l] == tail[l - |head|];
          assert tail[k - |head|].0 != tail[l - |head|].0;
        }
      }
    }
  }

  /** The `message_read` handler of socket `reader`. A missing payload
      (`data` undefined) throws on the first field access and is answered by
      the handler's catch with the generic processing error. A payload without a
      truthy `conversation_id` and `reader_id`, a disconnected database, or a
      failing time or senders query each answer `reader` with exactly one
      `error` event and change nothing. Otherwise the planned receipts are
      dispatched one after another through `Notify`; only receipts are
      emitted, each to a listed sender's registered socket, and only dedup
      keys are added. */
  function MessageRead(st: State, env: Env, reader: SocketId, data: Option<ReadSignal>, q: ReadQueries): (r: Step<()>)
    ensures r.state.sockets == st.sockets
    ensures st.sent <= r.state.sent
    ensures data.None? ==>
      r.state == st && r.events == [Emit(reader, ErrorEvent, ErrorNotice(ProcessingErrorMessage))]
    ensures data.Some? && !ValidSignal(data.value) ==>
      r.state == st && r.events == [Emit(reader, ErrorEvent, ErrorNotice(InvalidDataMessage))]
    ensures data.Some? && ValidSignal(data.value) && !q.dbConnected ==>
      r.state == st && r.events == [Emit(reader, ErrorEvent, ErrorNotice(UnavailableMessage))]
    ensures data.Some? && ValidSignal(data.value) && q.dbConnected && (q.readAt.DbError? || q.senders.DbError?) ==>
      r.state == st && r.events == [Emit(reader, ErrorEvent, ErrorNotice(ProcessingErrorMessage))]
    ensures data.Some? && ValidSignal(data.value) && q.dbConnected && q.readAt.Rows? && q.senders.Rows? ==>
      && |r.events| <= |q.senders.value|
      && forall e :: e in r.events ==>
        && e.Emit? && e.name == ReceiptEvent
        && e.payload.ReadReceipt? && e.payload.readAt == q.readAt.value
        && exists j :: 0 <= j < |q.senders.value| && q.senders.value[j].senderId in st.sockets &&
             e.to == st.sockets[q.senders.value[j].senderId]
    ensures data.Some? && ValidSignal(data.value) && q.dbConnected && q.readAt.Rows? && q.senders.Rows? ==>
      var d := NotifyEach(st, env, ReceiptEvent, ReceiptPlan(data.value, q.readAt.value, q.senders.value));
      r.state == d.state && r.events == d.events
  {
    match data
    case None =>
      Step(st, [Emit(reader, ErrorEvent, ErrorNotice(ProcessingErrorMessage))], ())
    case Some(sig) =>
      if !ValidSignal(sig) then
        Step(st, [Emit(reader, ErrorEvent, ErrorNotice(InvalidDataMessage))], ())
      else if !q.dbConnected then
        Step(st, [Emit(reader, ErrorEvent, ErrorNotice(UnavailableMessage))], ())
      else
        match (q.readAt, q.senders)
        case (Rows(readAt), Rows(rows)) =>
          var plan := ReceiptPlan(sig, readAt, rows);
          var d := NotifyEach(st, env, ReceiptEvent, plan);
          assert |d.events| <= |rows| by {
            DeliveredAtMostLength(d.result);
          }
          assert forall e :: e in d.events ==>
            exists j :: 0 <= j < |rows| && rows[j].senderId in st.sockets && e.to == st.sockets[rows[j].senderId] by {
            forall e | e in d.events
              ensures (exists j :: 0 <= j < |rows| && rows[j].senderId in st.sockets &&
                         e.to == st.sockets[rows[j].senderId])
            {
              var k :| 0 <= k < |plan| && plan[k].0 in st.sockets && e.to == st.sockets[plan[k].0] && e.payload == plan[k].1;
              var j :| 0 <= j < |rows| && ReceiptFor(sig, readAt, rows[j]) == Some(plan[k]);
            }
          }
          Step(d.state, d.events, ())
        case _ =>
          Step(st, [Emit(reader, ErrorEvent, ErrorNotice(ProcessingErrorMessage))], ())
  }

  lemma {:induction false} DeliveredAtMostLength(results: seq<bool>)
    ensures Delivered(results) <= |results|
    decreases |results|
  {
    if |results| > 0 {
      DeliveredAtMostLength(results[1..]);
    }
  }

  /** Fan-out completeness without `messageIds`: with distinct senders, every
      sender is attempted, and sender `j` receives its receipt exactly when
      its own key is new and its socket is live, whatever the others do. */
  lemma FanoutCompleteness(st: State, env: Env, sig: ReadSignal, readAt: int, rows: seq<SenderRow>, j: nat)
    requires sig.messageIds.None?
    requires forall a, b :: 0 <= a < b < |rows| ==> rows[a].senderId != rows[b].senderId
    requires j < |rows|
    ensures var plan := ReceiptPlan(sig, readAt, rows);
      var receipt := ReadReceipt(sig.conversationId, sig.readerId, None, readAt);
      NotifyEach(st, env, ReceiptEvent, plan).result[j] <==>
        KeyFor(env, rows[j].senderId, ReceiptEvent, receipt) !in st.sent && IsLive(st, env.live, rows[j].senderId)
  {
    DistinctSendersDistinctRecipients(sig, readAt, rows);
    NotifyEachIsolated(st, env, ReceiptEvent, ReceiptPlan(sig, readAt, rows));
  }

  /** The handler serves every sender: for a valid signal without
      `messageIds` whose storage queries succeed, each distinct sender whose
      receipt key is new and whose socket is live receives the receipt, and
      no other sender's outcome can prevent it. */
  lemma MessageReadReachesEverySender(st: State, env: Env, reader: SocketId, sig: ReadSignal, q: ReadQueries, j: nat)
    requires ValidSignal(sig) && sig.messageIds.None?
    requires q.dbConnected && q.readAt.Rows? && q.senders.Rows?
    requires forall a, b :: 0 <= a < b < |q.senders.value| ==> q.senders.value[a].senderId != q.senders.value[b].senderId
    requires j < |q.senders.value|
    requires var receipt := ReadReceipt(sig.conversationId, sig.readerId, None, q.readAt.value);
      KeyFor(env, q.senders.value[j].senderId, ReceiptEvent, receipt) !in st.sent
    requires IsLive(st, env.live, q.senders.value[j].senderId)
    ensures Emit(st.sockets[q.senders.value[j].senderId], ReceiptEvent,
                 ReadReceipt(sig.conversationId, sig.readerId, None, q.readAt.value))
            in MessageRead(st, env, reader, Some(sig), q).events
  {
    var rows := q.senders.value;
    var plan := ReceiptPlan(sig, q.readAt.value, rows);
    FanoutCompleteness(st, env, sig, q.readAt.value, rows, j);
    assert plan[j] == (rows[j].senderId, ReadReceipt(sig.conversationId, sig.readerId, None, q.readAt.value));
  }
}
