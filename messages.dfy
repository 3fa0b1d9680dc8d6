/** The routes of backend/routes/messages.js: the paged history of a chat room, the soft
    delete of one's own message, and the keyword search of a room. Rows are joined with
    their sender through the `user_id` column, which the model identifies with `senderId`. */
module Messages {
  import opened Common
  import opened Query
  import opened Tables
  import opened Conversations

  /** `m.room_id = @room_id AND m.is_deleted = 0`. */
  predicate InRoom(m: Message, room: int) {
    m.roomId == Some(room) && !m.isDeleted
  }

  predicate RoomListed(us: seq<User>, m: Message, room: int) {
    InRoom(m, room) && FindUser(us, m.senderId).Some?
  }

  /** The room's visible messages joined with their sender (`INNER JOIN Users`), in table order. */
  function RoomRows(ms: seq<Message>, us: seq<User>, room: int): (r: seq<Sent>)
    ensures forall i :: 0 <= i < |r| ==>
      r[i].message in ms && InRoom(r[i].message, room) && FindUser(us, r[i].message.senderId) == Some(r[i].sender)
  {
    var vis := Filter(ms, (m: Message) => RoomListed(us, m, room));
    seq(|vis|, i requires 0 <= i < |vis| => Sent(vis[i], FindUser(us, vis[i].senderId).value))
  }

  /** Every visible room message whose sender exists is among the rows. */
  lemma RoomRowsComplete(ms: seq<Message>, us: seq<User>, room: int, j: int)
    requires 0 <= j < |ms| && RoomListed(us, ms[j], room)
    ensures Sent(ms[j], FindUser(us, ms[j].senderId).value) in RoomRows(ms, us, room)
  {
    var vis := Filter(ms, (m: Message) => RoomListed(us, m, room));
    var k :| 0 <= k < |vis| && vis[k] == ms[j];
    assert RoomRows(ms, us, room)[k] == Sent(ms[j], FindUser(us, ms[j].senderId).value);
  }

  /** The `data` of a room history answer. */
  datatype RoomPage = RoomPage(messages: seq<Sent>, total: nat)

  /** GET /history/:roomId: newest first, `OFFSET`/`FETCH` (50 and 0 by default), delivered
      reversed, with `total` the length of the page. An invalid page size or offset fails in
      the database. No membership of the room is checked. */
  function RoomHistory(db: Db, room: int, limit: Option<int>, offset: Option<int>): (r: Reply<RoomPage>)
    reads db
    ensures BadPaging(limit, offset) <==> r == Refused(ServerError)
    ensures r.Done? ==> r.value.total == |r.value.messages|
    ensures r.Done? ==> r.value.total == PageSize(|RoomRows(db.messages, db.users, room)|, OffsetOf(offset), LimitOf(limit))
    ensures r.Done? ==> SortedBy(r.value.messages, OlderFirst)
    ensures r.Done? ==> WindowOf(Reverse(r.value.messages), RoomRows(db.messages, db.users, room), NewerFirst, OffsetOf(offset))
    ensures r.Done? ==> multiset(r.value.messages) <= multiset(RoomRows(db.messages, db.users, room))
    ensures r.Done? ==> forall i :: 0 <= i < |r.value.messages| ==>
      r.value.messages[i].message in db.messages && InRoom(r.value.messages[i].message, room)
      && FindUser(db.users, r.value.messages[i].message.senderId) == Some(r.value.messages[i].sender)
  {
    if BadPaging(limit, offset) then Refused(ServerError)
    else
      var ms, us := db.messages, db.users;
      var all := RoomRows(ms, us, room);
      assert TotalPreorder(NewerFirst);
      SortedPage(all, NewerFirst, OffsetOf(offset) as nat, LimitOf(limit) as nat,
        (x: Sent) => x.message in ms && InRoom(x.message, room) && FindUser(us, x.message.senderId) == Some(x.sender));
      var page := Page(SortBy(all, NewerFirst), OffsetOf(offset) as nat, LimitOf(limit) as nat);
      ReverseReverse(page);
      ReverseMultiset(page);
      Done(RoomPage(Reverse(page), |page|))
  }

  // ----- DELETE /:messageId -----

  /** `UPDATE Messages SET is_deleted = 1 WHERE message_id = id`. */
  function SoftDelete(ms: seq<Message>, id: int): (r: seq<Message>)
    ensures |r| == |ms|
    ensures forall i :: 0 <= i < |ms| && ms[i].messageId == id ==> r[i] == ms[i].(isDeleted := true)
    ensures forall i :: 0 <= i < |ms| && ms[i].messageId != id ==> r[i] == ms[i]
  {
    UpdateWhere(ms, (m: Message) => m.messageId == id, (m: Message) => m.(isDeleted := true))
  }

  /** After the soft delete the message is kept but hidden from every listing, and no other
      message changes; ids stay a primary key. */
  lemma SoftDeleteHides(ms: seq<Message>, id: int, room: int, c: int)
    requires UniqueKeys(ms, MessageIdOf)
    ensures UniqueKeys(SoftDelete(ms, id), MessageIdOf)
    ensures FindMessage(ms, id).Some? ==> FindMessage(SoftDelete(ms, id), id).Some?
    ensures forall i :: 0 <= i < |ms| && ms[i].messageId == id ==>
      !InRoom(SoftDelete(ms, id)[i], room) && !Visible(SoftDelete(ms, id)[i], c)
  {
    var r := SoftDelete(ms, id);
    assert forall i :: 0 <= i < |ms| ==> MessageIdOf(r[i]) == MessageIdOf(ms[i]);
    if FindMessage(ms, id).Some? {
      var k :| 0 <= k < |ms| && ms[k].messageId == id;
      assert r[k].messageId == id;
    }
  }

  /** A second delete of the same message changes nothing. */
  lemma SoftDeleteIdempotent(ms: seq<Message>, id: int)
    ensures SoftDelete(SoftDelete(ms, id), id) == SoftDelete(ms, id)
  {
  }

  /** DELETE /:messageId: 404 when no row has the id, 403 when the row's sender is not the
      caller (both without change); otherwise the row is soft-deleted. A row already deleted
      can be deleted again. */
  method DeleteMessage(db: Db, caller: int, messageId: int) returns (status: Status)
    requires db.Valid()
    modifies db`messages
    ensures db.Valid()
    ensures FindMessage(old(db.messages), messageId).None? ==> status == NotFound && unchanged(db)
    ensures FindMessage(old(db.messages), messageId).Some? && FindMessage(old(db.messages), messageId).value.senderId != caller ==>
      status == Forbidden && unchanged(db)
    ensures FindMessage(old(db.messages), messageId).Some? && FindMessage(old(db.messages), messageId).value.senderId == caller ==>
      status == Ok && db.messages == SoftDelete(old(db.messages), messageId)
  {
    var found := FindMessage(db.messages, messageId);
    if found.None? {
      return NotFound;
    }
    if found.value.senderId != caller {
      return Forbidden;
    }
    SoftDeleteHides(db.messages, messageId, 0, 0);
    db.messages := SoftDelete(db.messages, messageId);
    assert UniquePairs(db.participants) && InConversations(db.participants, db.conversations);
    return Ok;
  }

  // ----- GET /search -----

  /** The pattern `%${keyword}%`: a missing keyword is rendered as the text "undefined". */
  function KeywordText(keyword: Option<string>): string {
    if keyword.Some? then keyword.value else "undefined"
  }

  /** `message_text LIKE '%k%'`. */
  predicate Matches(m: Message, k: string) {
    Like(m.text, k)
  }

  predicate Found(us: seq<User>, m: Message, room: int, k: string) {
    RoomListed(us, m, room) && Matches(m, k)
  }

  /** The `TOP 50` limit of the search. */
  const SearchLimit: nat := 50

  /** The matching rows joined with their sender, in table order. */
  function Hits(ms: seq<Message>, us: seq<User>, room: int, k: string): (r: seq<Sent>)
    ensures forall i :: 0 <= i < |r| ==>
      r[i].message in ms && Found(us, r[i].message, room, k) && FindUser(us, r[i].message.senderId) == Some(r[i].sender)
    ensures |r| == Count(ms, (m: Message) => Found(us, m, room, k))
  {
    var hits := Filter(ms, (m: Message) => Found(us, m, room, k));
    CountIsFilterLength(ms, (m: Message) => Found(us, m, room, k));
    seq(|hits|, i requires 0 <= i < |hits| => Sent(hits[i], FindUser(us, hits[i].senderId).value))
  }

  lemma HitsComplete(ms: seq<Message>, us: seq<User>, room: int, k: string, j: int)
    requires 0 <= j < |ms| && Found(us, ms[j], room, k)
    ensures exists i :: 0 <= i < |Hits(ms, us, room, k)| && Hits(ms, us, room, k)[i].message == ms[j]
  {
    var hits := Filter(ms, (m: Message) => Found(us, m, room, k));
    var t :| 0 <= t < |hits| && hits[t] == ms[j];
    assert Hits(ms, us, room, k)[t].message == ms[j];
  }

  /** The search over given tables: newest first, then `TOP 50`. The answer holds the 50
      newest hits (all of them when there are fewer): row `i` stands at position `i` of the
      newest-first order, and no hit left out is newer than a returned row. */
  function SearchRows(ms: seq<Message>, us: seq<User>, room: int, k: string): (r: seq<Sent>)
    ensures TopOf(r, Hits(ms, us, room, k), NewerFirst, SearchLimit)
    ensures forall i :: 0 <= i < |r| ==>
      r[i].message in ms && Found(us, r[i].message, room, k) && FindUser(us, r[i].message.senderId) == Some(r[i].sender)
    ensures |Hits(ms, us, room, k)| <= SearchLimit ==> multiset(r) == multiset(Hits(ms, us, room, k))
  {
    var rows := Hits(ms, us, room, k);
    assert TotalPreorder(NewerFirst);
    SortedTake(rows, NewerFirst, SearchLimit,
      (x: Sent) => x.message in ms && Found(us, x.message, room, k) && FindUser(us, x.message.senderId) == Some(x.sender));
    Take(SortBy(rows, NewerFirst), SearchLimit)
  }

  /** The room searched: `roomId = 1` unless given. */
  function RoomOf(roomId: Option<int>): int {
    if roomId.Some? then roomId.value else 1
  }

  /** GET /search: the 50 newest visible messages of the room whose text contains the keyword
      (all of them when there are fewer), newest first, each with its sender. */
  function Search(db: Db, keyword: Option<string>, roomId: Option<int>): (r: seq<Sent>)
    reads db
    ensures TopOf(r, Hits(db.messages, db.users, RoomOf(roomId), KeywordText(keyword)), NewerFirst, SearchLimit)
    ensures forall i :: 0 <= i < |r| ==>
      r[i].message in db.messages && Found(db.users, r[i].message, RoomOf(roomId), KeywordText(keyword))
      && FindUser(db.users, r[i].message.senderId) == Some(r[i].sender)
    ensures |Hits(db.messages, db.users, RoomOf(roomId), KeywordText(keyword))| <= SearchLimit
      ==> multiset(r) == multiset(Hits(db.messages, db.users, RoomOf(roomId), KeywordText(keyword)))
  {
    SearchRows(db.messages, db.users, RoomOf(roomId), KeywordText(keyword))
  }

  /** A missing keyword is not "match everything": it finds exactly the listed messages whose
      text contains "undefined" in any letter case, so none shorter than nine characters. An
      empty keyword, by contrast, finds every listed message. */
  lemma MissingKeywordIsLiteral(us: seq<User>, m: Message, room: int)
    ensures Found(us, m, room, KeywordText(None)) <==> RoomListed(us, m, room) && Contains(ToLower(m.text), "undefined")
    ensures Found(us, m, room, KeywordText(None)) ==> |m.text| >= 9
    ensures Found(us, m, room, KeywordText(Some(""))) <==> RoomListed(us, m, room)
  {
    assert ToLower("undefined") == "undefined";
    assert ToLower("") == "";
    if Found(us, m, room, KeywordText(None)) {
      ContainsLength(ToLower(m.text), "undefined");
    }
    assert StartsWith(ToLower(m.text), "");
  }

  lemma {:induction false} ContainsLength(s: string, sub: string)
    requires Contains(s, sub)
    ensures |sub| <= |s|
    decreases |s|
  {
    if !StartsWith(s, sub) {
      ContainsLength(s[1..], sub);
    }
  }
}
