/** The pure logic of the announcement controller: its input guards, the
    UPDATE statement it assembles, and the offline operations on the
    in-memory mock list used while the database is unreachable. */
module Announcements {
  import opened Wrappers
  import opened JsValues

  /** One announcement of the mock list. Ids are numbers; the request's id is
      the route parameter text. */
  datatype Announcement = Announcement(id: int, content: Scalar, kind: Scalar, createdAt: string)

  /** The HTTP replies of the modelled paths. */
  datatype Reply =
    | Found(item: Announcement)
    | Created(announcementId: int, content: Scalar, kind: Scalar, usersNotified: nat)
    | Updated(id: string, content: Scalar, kind: Scalar)
    | Deleted
    | BadRequest(message: string)
    | NotFound(message: string)
    | ServerError(message: string)

  function Status(r: Reply): int {
    match r
    case Created(_, _, _, _) => 201
    case BadRequest(_) => 400
    case NotFound(_) => 404
    case ServerError(_) => 500
    case _ => 200
  }

  const MissingIdMessage := "Thiếu ID thông báo"
  const MissingFieldsMessage := "Thiếu thông tin thông báo hoặc loại thông báo"
  const NothingToUpdateMessage := "Không có thông tin cần cập nhật"
  const NotFoundMessage := "Không tìm thấy thông báo"
  const UpdateNotFoundMessage := "Không tìm thấy thông báo hoặc không có thay đổi"
  const UpdateFailedMessage := "Lỗi khi cập nhật thông báo"

  // ---------------------------------------------------------------- guards

  /** The guard shared by get, update and delete: an empty route id is
      rejected with 400 'Thiếu ID thông báo'. */
  function IdGuard(id: string): (r: Option<Reply>)
    ensures r.Some? <==> id == ""
    ensures r.Some? ==> r.value == BadRequest(MissingIdMessage) && Status(r.value) == 400
  {
    if id == "" then Some(BadRequest(MissingIdMessage)) else None
  }

  /** `createAnnouncement` rejects unless both fields are truthy. */
  function CreateGuard(content: Scalar, kind: Scalar): (r: Option<Reply>)
    ensures r.Some? <==> !Truthy(content) || !Truthy(kind)
    ensures r.Some? ==> r.value == BadRequest(MissingFieldsMessage) && Status(r.value) == 400
  {
    if !Truthy(content) || !Truthy(kind) then Some(BadRequest(MissingFieldsMessage)) else None
  }

  /** `updateAnnouncement` rejects an empty id first, then a request where
      neither field is truthy. */
  function UpdateGuard(id: string, content: Scalar, kind: Scalar): (r: Option<Reply>)
    ensures r.Some? <==> id == "" || (!Truthy(content) && !Truthy(kind))
    ensures r.Some? ==> Status(r.value) == 400
    ensures id == "" ==> r == Some(BadRequest(MissingIdMessage))
    ensures id != "" && r.Some? ==> r.value == BadRequest(NothingToUpdateMessage)
  {
    if IdGuard(id).Some? then IdGuard(id)
    else if !Truthy(content) && !Truthy(kind) then Some(BadRequest(NothingToUpdateMessage))
    else None
  }

  // --------------------------------------------------------- UPDATE builder

  const UpdateHead := "UPDATE GeneralAnnouncement SET "
  const ContentAssignment := "AnnouncementContent = ?"
  const Separator := ", "
  const KindAssignment := "AnnouncementType = ?"
  const WhereClause := " WHERE AnnouncementID = ?"

  /** The statement text and its positional parameters. */
  datatype UpdateQuery = UpdateQuery(sql: string, params: seq<Scalar>)

  /** Number of occurrences of `c` in `s`. */
  function Occurrences(s: string, c: char): nat
    decreases |s|
  {
    if |s| == 0 then 0 else (if s[0] == c then 1 else 0) + Occurrences(s[1..], c)
  }

  lemma {:induction false} OccurrencesAppend(a: string, b: string, c: char)
    ensures Occurrences(a + b, c) == Occurrences(a, c) + Occurrences(b, c)
    decreases |a|
  {
    if |a| == 0 {
      assert a + b == b;
    } else {
      assert (a + b)[1..] == a[1..] + b;
      OccurrencesAppend(a[1..], b, c);
    }
  }

  lemma {:induction false} OccurrencesAbsent(s: string, c: char)
    requires c !in s
    ensures Occurrences(s, c) == 0
    decreases |s|
  {
    if |s| > 0 {
      assert forall x :: x in s[1..] ==> x in s;
      OccurrencesAbsent(s[1..], c);
    }
  }

  lemma {:induction false} OccurrencesMembership(s: string, c: char)
    ensures c in s <==> Occurrences(s, c) > 0
    decreases |s|
  {
    if |s| > 0 {
      OccurrencesMembership(s[1..], c);
      assert s == [s[0]] + s[1..];
    }
  }

  /** The marks the builder's contract counts: placeholders and commas. */
  predicate IsMark(c: char) {
    c == '?' || c == ','
  }

  /** A fragment `name + "?"` has one `?` and no comma when `name` has
      neither. */
  lemma AssignmentCounts(name: string, c: char)
    requires IsMark(c) && '?' !in name && ',' !in name
    ensures Occurrences(name + "?", c) == (if c == '?' then 1 else 0)
  {
    OccurrencesAbsent(name, c);
    OccurrencesAppend(name, "?", c);
  }

  /** How many of each mark the fixed fragments hold. */
  lemma HeadCounts(c: char)
    requires IsMark(c)
    ensures Occurrences(UpdateHead, c) == 0
  {
    OccurrencesAbsent(UpdateHead, c);
  }

  lemma ContentCounts(c: char)
    requires IsMark(c)
    ensures Occurrences(ContentAssignment, c) == (if c == '?' then 1 else 0)
  {
    assert ContentAssignment == "AnnouncementContent = " + "?";
    AssignmentCounts("AnnouncementContent = ", c);
  }

  lemma SeparatorCounts(c: char)
    requires IsMark(c)
    ensures Occurrences(Separator, c) == (if c == ',' then 1 else 0)
  {
    assert Separator[1..][1..] == "";
  }

  lemma KindCounts(c: char)
    requires IsMark(c)
    ensures Occurrences(KindAssignment, c) == (if c == '?' then 1 else 0)
  {
    assert KindAssignment == "AnnouncementType = " + "?";
    AssignmentCounts("AnnouncementType = ", c);
  }

  lemma WhereCounts(c: char)
    requires IsMark(c)
    ensures Occurrences(WhereClause, c) == (if c == '?' then 1 else 0)
  {
    assert WhereClause == " WHERE AnnouncementID = " + "?";
    AssignmentCounts(" WHERE AnnouncementID = ", c);
  }

  function When(b: bool, s: string): string {
    if b then s else ""
  }

  function WhenParam(b: bool, v: Scalar): seq<Scalar> {
    if b then [v] else []
  }

  /** `head`, then each optional fragment that is present, then `tail`; the
      separator only between two present assignments. */
  function Assemble(head: string, content: string, sep: string, kind: string, tail: string,
                    withContent: bool, withKind: bool): string {
    head + When(withContent, content) + When(withContent && withKind, sep) + When(withKind, kind) + tail
  }

  /** The text the builder produces for the given choice of fields. */
  function UpdateText(withContent: bool, withKind: bool): string {
    Assemble(UpdateHead, ContentAssignment, Separator, KindAssignment, WhereClause, withContent, withKind)
  }

  /** Counting a character in an assembled text, fragment by fragment. */
  lemma AssembleCounts(head: string, content: string, sep: string, kind: string, tail: string,
                       withContent: bool, withKind: bool, c: char)
    ensures Occurrences(Assemble(head, content, sep, kind, tail, withContent, withKind), c) ==
      Occurrences(head, c) + (if withContent then Occurrences(content, c) else 0)
      + (if withContent && withKind then Occurrences(sep, c) else 0)
      + (if withKind then Occurrences(kind, c) else 0) + Occurrences(tail, c)
  {
    var c1 := When(withContent, content);
    var c2 := When(withContent && withKind, sep);
    var c3 := When(withKind, kind);
    assert Occurrences("", c) == 0;
    OccurrencesAppend(head, c1, c);
    OccurrencesAppend(head + c1, c2, c);
    OccurrencesAppend(head + c1 + c2, c3, c);
    OccurrencesAppend(head + c1 + c2 + c3, tail, c);
  }

  /** One `?` per assignment present plus the one in the WHERE clause, and a
      comma only when both assignments are present. */
  lemma UpdateTextCounts(withContent: bool, withKind: bool, c: char)
    requires IsMark(c)
    ensures Occurrences(UpdateText(withContent, withKind), c) ==
      if c == '?' then 1 + (if withContent then 1 else 0) + (if withKind then 1 else 0)
      else (if withContent && withKind then 1 else 0)
  {
    HeadCounts(c);
    ContentCounts(c);
    SeparatorCounts(c);
    KindCounts(c);
    WhereCounts(c);
    AssembleCounts(UpdateHead, ContentAssignment, Separator, KindAssignment, WhereClause, withContent, withKind, c);
  }

  /** A comma appears exactly when both assignments do. */
  lemma UpdateTextComma(withContent: bool, withKind: bool)
    ensures ',' in UpdateText(withContent, withKind) <==> withContent && withKind
  {
    UpdateTextCounts(withContent, withKind, ',');
    OccurrencesMembership(UpdateText(withContent, withKind), ',');
  }

  /** The shape of an assembled text, for any fragments: it starts with the
      head and, case by case, is the concatenation of the fragments present. */
  lemma AssembleShape(head: string, content: string, sep: string, kind: string, tail: string, withContent: bool, withKind: bool)
    ensures head <= Assemble(head, content, sep, kind, tail, withContent, withKind)
    ensures withContent && withKind ==>
      Assemble(head, content, sep, kind, tail, withContent, withKind) == head + content + sep + kind + tail
    ensures withContent && !withKind ==>
      Assemble(head, content, sep, kind, tail, withContent, withKind) == head + content + tail
    ensures !withContent && withKind ==>
      Assemble(head, content, sep, kind, tail, withContent, withKind) == head + kind + tail
  {
    var c1 := When(withContent, content);
    var c2 := When(withContent && withKind, sep);
    var c3 := When(withKind, kind);
    var rest := c1 + c2 + c3 + tail;
    assert Assemble(head, content, sep, kind, tail, withContent, withKind) == head + rest;
    if withContent && !withKind {
      assert c2 == "" && c3 == "";
      assert head + c1 + c2 + c3 + tail == head + content + tail;
    } else if !withContent && withKind {
      assert c1 == "" && c2 == "";
      assert head + c1 + c2 + c3 + tail == head + kind + tail;
    }
  }

  /** The statement `updateAnnouncement` assembles. The route id is always
      the last parameter, there is one `?` per parameter, and a comma appears
      exactly when both fields are set. */
  function BuildUpdate(id: string, content: Scalar, kind: Scalar): (q: UpdateQuery)
    ensures |q.params| == 1 + |WhenParam(Truthy(content), content)| + |WhenParam(Truthy(kind), kind)|
    ensures q.params[|q.params| - 1] == Str(id)
    ensures Occurrences(q.sql, '?') == |q.params|
    ensures ',' in q.sql <==> Truthy(content) && Truthy(kind)
    ensures UpdateHead <= q.sql
    ensures Truthy(content) && Truthy(kind) ==> q == UpdateQuery(
      UpdateHead + ContentAssignment + Separator + KindAssignment + WhereClause,
      [content, kind, Str(id)])
    ensures Truthy(content) && !Truthy(kind) ==> q == UpdateQuery(
      UpdateHead + ContentAssignment + WhereClause,
      [content, Str(id)])
    ensures !Truthy(content) && Truthy(kind) ==> q == UpdateQuery(
      UpdateHead + KindAssignment + WhereClause,
      [kind, Str(id)])
  {
    var c := Truthy(content);
    var k := Truthy(kind);
    UpdateTextCounts(c, k, '?');
    UpdateTextComma(c, k);
    AssembleShape(UpdateHead, ContentAssignment, Separator, KindAssignment, WhereClause, c, k);
    UpdateQuery(UpdateText(c, k), WhenParam(c, content) + WhenParam(k, kind) + [Str(id)])
  }

  /** `updateAnnouncement`: the statement it runs (none when a guard
      rejects) and its reply. Zero affected rows is a 404, a failing query a
      500, anything else a 200 echoing the request. */
  function UpdateAnnouncement(id: string, content: Scalar, kind: Scalar, affected: DbResult<int>): (r: (Option<UpdateQuery>, Reply))
    ensures UpdateGuard(id, content, kind).Some? ==> r == (None, UpdateGuard(id, content, kind).value)
    ensures UpdateGuard(id, content, kind).None? ==>
      && r.0 == Some(BuildUpdate(id, content, kind))
      && (affected.DbError? ==> r.1 == ServerError(UpdateFailedMessage))
      && (affected == Rows(0) ==> r.1 == NotFound(UpdateNotFoundMessage))
      && (affected.Rows? && affected.value != 0 ==> r.1 == Updated(id, content, kind))
  {
    match UpdateGuard(id, content, kind)
    case Some(reject) => (None, reject)
    case None =>
      var q := BuildUpdate(id, content, kind);
      match affected
      case DbError => (Some(q), ServerError(UpdateFailedMessage))
      case Rows(n) => (Some(q), if n == 0 then NotFound(UpdateNotFoundMessage) else Updated(id, content, kind))
  }

  // ------------------------------------------------------- offline mock list

  /** `item.AnnouncementID == id`. */
  predicate Matches(a: Announcement, id: string) {
    LooseEquals(a.id, id)
  }

  /** `find`/`findIndex`: the index of the first item matching `id`. */
  function FirstMatch(list: seq<Announcement>, id: string): (r: Option<nat>)
    ensures r.Some? ==> r.value < |list| && Matches(list[r.value], id)
    ensures r.Some? ==> forall j :: 0 <= j < r.value ==> !Matches(list[j], id)
    ensures r.None? <==> forall j :: 0 <= j < |list| ==> !Matches(list[j], id)
    decreases |list|
  {
    if |list| == 0 then None
    else if Matches(list[0], id) then Some(0)
    else
      match FirstMatch(list[1..], id)
      case None => None
      case Some(i) => Some(i + 1)
  }

  /** `getAnnouncementById` while the database is unreachable: the first
      item whose id matches, or 404 when none does. The list is only read. */
  function GetAnnouncementOffline(list: seq<Announcement>, id: string): (r: Reply)
    ensures id == "" ==> r == BadRequest(MissingIdMessage)
    ensures id != "" ==> (r.Found? || r == NotFound(NotFoundMessage))
    ensures id != "" ==> (r.Found? <==> exists i :: 0 <= i < |list| && Matches(list[i], id))
    ensures r.Found? ==> exists i ::
      && 0 <= i < |list|
      && r.item == list[i]
      && Matches(list[i], id)
      && (forall j :: 0 <= j < i ==> !Matches(list[j], id))
  {
    match IdGuard(id)
    case Some(reject) => reject
    case None =>
      match FirstMatch(list, id)
      case Some(i) => Found(list[i])
      case None => NotFound(NotFoundMessage)
  }

  /** `createAnnouncement` while the database is unreachable. After the
      guard, it prepends one item numbered one past the old length (no claim
      of uniqueness: deletions make collisions possible) and reports that no
      user was notified. */
  function CreateAnnouncementOffline(list: seq<Announcement>, content: Scalar, kind: Scalar, createdAt: string): (r: (seq<Announcement>, Reply))
    ensures CreateGuard(content, kind).Some? ==> r == (list, BadRequest(MissingFieldsMessage))
    ensures CreateGuard(content, kind).None? ==>
      && |r.0| == |list| + 1
      && r.0[0] == Announcement(|list| + 1, content, kind, createdAt)
      && r.0[1..] == list
      && r.1 == Created(|list| + 1, content, kind, 0)
      && Status(r.1) == 201
  {
    match CreateGuard(content, kind)
    case Some(reject) => (list, reject)
    case None =>
      var id := |list| + 1;
      ([Announcement(id, content, kind, createdAt)] + list, Created(id, content, kind, 0))
  }

  /** `deleteAnnouncement` while the database is unreachable: removes exactly
      the first matching item, keeping the order of the rest, or answers 404
      and keeps the list when nothing matches. */
  function DeleteAnnouncementOffline(list: seq<Announcement>, id: string): (r: (seq<Announcement>, Reply))
    ensures id == "" ==> r == (list, BadRequest(MissingIdMessage))
    ensures id != "" && (forall j :: 0 <= j < |list| ==> !Matches(list[j], id)) ==>
      r == (list, NotFound(NotFoundMessage))
    ensures id != "" && r.1 == Deleted ==> exists i ::
      && 0 <= i < |list|
      && Matches(list[i], id)
      && (forall j :: 0 <= j < i ==> !Matches(list[j], id))
      && r.0 == list[..i] + list[i + 1..]
    ensures id != "" ==> (r.1 == Deleted <==> exists i :: 0 <= i < |list| && Matches(list[i], id))
  {
    match IdGuard(id)
    case Some(reject) => (list, reject)
    case None =>
      match FirstMatch(list, id)
      case Some(i) => (list[..i] + list[i + 1..], Deleted)
      case None => (list, NotFound(NotFoundMessage))
  }

  /** Creating and then fetching the new id returns the new item. */
  lemma CreateThenGet(list: seq<Announcement>, content: Scalar, kind: Scalar, createdAt: string, idText: string)
    requires CreateGuard(content, kind).None?
    requires ToNumber(idText) == Some(|list| + 1)
    ensures GetAnnouncementOffline(CreateAnnouncementOffline(list, content, kind, createdAt).0, idText)
      == Found(Announcement(|list| + 1, content, kind, createdAt))
  {
  }

  /** Creating and then deleting the new id restores the list: the new item
      is first, so it is the match removed. */
  lemma CreateThenDelete(list: seq<Announcement>, content: Scalar, kind: Scalar, createdAt: string, idText: string)
    requires CreateGuard(content, kind).None?
    requires ToNumber(idText) == Some(|list| + 1)
    ensures DeleteAnnouncementOffline(CreateAnnouncementOffline(list, content, kind, createdAt).0, idText) == (list, Deleted)
  {
    var created := CreateAnnouncementOffline(list, content, kind, createdAt).0;
    assert created[..0] + created[1..] == list;
  }

  /** Ids can repeat: deleting the first of three items and creating a new
      one numbers it 3, the id of an item still in the list. */
  lemma OfflineIdsCanCollide(a: Announcement, b: Announcement, c: Announcement, content: Scalar, kind: Scalar, createdAt: string)
    requires a.id == 1 && b.id == 2 && c.id == 3
    requires CreateGuard(content, kind).None?
    ensures var afterDelete := DeleteAnnouncementOffline([a, b, c], "1").0;
      var afterCreate := CreateAnnouncementOffline(afterDelete, content, kind, createdAt).0;
      afterDelete == [b, c] && afterCreate[0].id == 3 && afterCreate[2] == c && c.id == 3
  {
    assert AllDigits("1");
    assert DigitsValue("1") == 1 by {
      assert "1"[..0] == "";
    }
    assert Matches(a, "1");
  }
}
