/** The conversation directory of backend/routes/conversations.js: the list of a user's
    conversations, get-or-create of a private conversation, the paged history with its
    reactions grouped in, mark-read and the soft delete of one's own participation. */
module Conversations {
  import opened Common
  import opened Query
  import opened Tables
  import opened Reactions

  // ----- GET / -----

  /** A message that counts towards the unread badge of user `u` in conversation `c`. */
  predicate Unread(m: Message, c: int, u: int) {
    m.conversationId == Some(c) && m.receiverId == Some(u) && !m.isRead && !m.isDeleted
  }

  /** A message of `c` that has not been soft-deleted. */
  predicate Visible(m: Message, c: int) {
    m.conversationId == Some(c) && !m.isDeleted
  }

  /** `unread_count`. */
  function UnreadCount(ms: seq<Message>, c: int, u: int): (n: nat)
    ensures n <= |ms|
    ensures n == 0 <==> forall i :: 0 <= i < |ms| ==> !Unread(ms[i], c, u)
  {
    Count(ms, (m: Message) => Unread(m, c, u))
  }

  /** `OUTER APPLY (SELECT TOP 1 ... ORDER BY created_at DESC)`: the newest visible message
      (among equally new ones, the first in table order). */
  function LastMessage(ms: seq<Message>, c: int): (r: Option<Message>)
    ensures r.None? <==> forall i :: 0 <= i < |ms| ==> !Visible(ms[i], c)
    ensures r.Some? ==> r.value in ms && Visible(r.value, c)
    ensures r.Some? ==> forall i :: 0 <= i < |ms| && Visible(ms[i], c) ==> ms[i].createdAt <= r.value.createdAt
  {
    if ms == [] then None
    else
      var rest := LastMessage(ms[1..], c);
      assert forall i :: 1 <= i < |ms| ==> ms[i] == ms[1..][i - 1];
      if Visible(ms[0], c) && (rest.None? || ms[0].createdAt >= rest.value.createdAt) then Some(ms[0]) else rest
  }

  /** `cp_other.conversation_id = c.conversation_id AND cp_other.user_id != @user_id`
      (active or not). */
  predicate OtherRow(p: Participant, c: Conversation, u: int) {
    p.conversationId == c.conversationId && p.userId != u
  }

  /** `LEFT JOIN ConversationParticipants cp_other ... LEFT JOIN Users other_user`: for a
      private conversation, the user of the first other participant row (none when there is
      no such row or its user row is missing). */
  function OtherUser(ps: seq<Participant>, us: seq<User>, c: Conversation, u: int): (r: Option<User>)
    ensures c.conversationType == Group ==> r.None?
    ensures c.conversationType == Private && (forall j :: 0 <= j < |ps| ==> !OtherRow(ps[j], c, u)) ==> r.None?
    ensures c.conversationType == Private ==>
      forall j :: 0 <= j < |ps| && OtherRow(ps[j], c, u) && (forall i :: 0 <= i < j ==> !OtherRow(ps[i], c, u)) ==>
        r == FindUser(us, ps[j].userId)
    ensures r.Some? ==> r.value in us && r.value.userId != u
    ensures r.Some? ==> exists i :: 0 <= i < |ps| && ps[i].conversationId == c.conversationId && ps[i].userId == r.value.userId
  {
    if c.conversationType == Group then None
    else
      var k := FirstIndex(ps, (p: Participant) => OtherRow(p, c, u));
      if k < |ps| then FindUser(us, ps[k].userId) else None
  }

  /** A private conversation whose other participant rows all have a user row shows one of
      those users, as soon as there is such a row. */
  lemma OtherUserPresent(ps: seq<Participant>, us: seq<User>, c: Conversation, u: int, j: int)
    requires c.conversationType == Private
    requires 0 <= j < |ps| && OtherRow(ps[j], c, u)
    requires forall i :: 0 <= i < |ps| && OtherRow(ps[i], c, u) ==> FindUser(us, ps[i].userId).Some?
    ensures OtherUser(ps, us, c, u).Some?
    ensures exists i :: 0 <= i < |ps| && OtherRow(ps[i], c, u) && OtherUser(ps, us, c, u) == FindUser(us, ps[i].userId)
  {
    var k := FirstIndex(ps, (p: Participant) => OtherRow(p, c, u));
    assert k < |ps|;
    assert OtherUser(ps, us, c, u) == FindUser(us, ps[k].userId);
  }

  /** One row of the conversation list. */
  datatype Summary = Summary(
    conversation: Conversation,
    otherUser: Option<User>,
    lastMessage: Option<Message>,
    unreadCount: nat,
    memberCount: nat)

  /** One row of GET /: the conversation, the other user of a private conversation, the
      newest visible message, the unread count of `u` and the active member count. */
  function Summarize(ps: seq<Participant>, us: seq<User>, ms: seq<Message>, c: Conversation, u: int): (r: Summary)
    ensures r.conversation == c
    ensures c.conversationType == Group ==> r.otherUser.None?
    ensures r.otherUser.Some? ==> r.otherUser.value in us && r.otherUser.value.userId != u
    ensures r.lastMessage.Some? ==> r.lastMessage.value in ms && Visible(r.lastMessage.value, c.conversationId)
    ensures r.unreadCount <= |ms| && r.memberCount <= |ps|
    ensures r.memberCount == 0 <==> forall i :: 0 <= i < |ps| ==> !(ps[i].conversationId == c.conversationId && ps[i].isActive)
  {
    Summary(c, OtherUser(ps, us, c, u), LastMessage(ms, c.conversationId),
            UnreadCount(ms, c.conversationId, u), MemberCount(ps, c.conversationId))
  }

  /** `ORDER BY c.updated_at DESC`. */
  predicate RecentFirst(a: Summary, b: Summary) {
    a.conversation.updatedAt >= b.conversation.updatedAt
  }

  /** The conversation a row of the list is about. */
  function ConversationOf(x: Summary): Conversation {
    x.conversation
  }

  /** `WHERE cp.user_id = @user_id AND cp.is_active = 1`. */
  function ListedFor(ps: seq<Participant>, u: int): Conversation -> bool {
    (c: Conversation) => IsActiveMember(ps, c.conversationId, u)
  }

  /** The summaries of `cs`, in table order. */
  function SummaryRows(ps: seq<Participant>, us: seq<User>, ms: seq<Message>, cs: seq<Conversation>, u: int): (rows: seq<Summary>)
    ensures |rows| == |cs|
    ensures forall i :: 0 <= i < |cs| ==> rows[i] == Summarize(ps, us, ms, cs[i], u)
    ensures Map(rows, ConversationOf) == cs
  {
    seq(|cs|, i requires 0 <= i < |cs| => Summarize(ps, us, ms, cs[i], u))
  }

  /** GET /: a summary of every conversation in which the user has an active row, each as
      often as it stands in the conversations table, most recently updated first. */
  function ListConversations(db: Db, u: int): (r: seq<Summary>)
    reads db
    ensures SortedBy(r, RecentFirst)
    ensures forall i :: 0 <= i < |r| ==>
      r[i].conversation in db.conversations
      && IsActiveMember(db.participants, r[i].conversation.conversationId, u)
      && r[i] == Summarize(db.participants, db.users, db.messages, r[i].conversation, u)
    ensures forall c :: multiset(Map(r, ConversationOf))[c] ==
                          (if IsActiveMember(db.participants, c.conversationId, u) then multiset(db.conversations)[c] else 0)
  {
    var ps := db.participants;
    var us := db.users;
    var ms := db.messages;
    var cs := db.conversations;
    var mine := Filter(cs, ListedFor(ps, u));
    var rows := SummaryRows(ps, us, ms, mine, u);
    assert TotalPreorder(RecentFirst);
    SortByIsSorted(rows, RecentFirst);
    SortByKeeps(rows, RecentFirst, (x: Summary) =>
      x.conversation in cs && IsActiveMember(ps, x.conversation.conversationId, u)
      && x == Summarize(ps, us, ms, x.conversation, u));
    var r := SortBy(rows, RecentFirst);
    ListedMultiplicity(ps, cs, u, rows, r);
    r
  }

  /** Reordering the summaries of the user's conversations lists each of them as often as it
      stands in the table. */
  lemma ListedMultiplicity(ps: seq<Participant>, cs: seq<Conversation>, u: int, rows: seq<Summary>, r: seq<Summary>)
    requires Map(rows, ConversationOf) == Filter(cs, ListedFor(ps, u))
    requires multiset(r) == multiset(rows)
    ensures forall c :: multiset(Map(r, ConversationOf))[c] ==
                          (if IsActiveMember(ps, c.conversationId, u) then multiset(cs)[c] else 0)
  {
    MapPermutation(rows, r, ConversationOf);
    FilterMultisets(cs, ListedFor(ps, u));
  }

  /** Every conversation with an active row of the user is listed. */
  lemma ListConversationsComplete(db: Db, u: int, c: Conversation)
    requires c in db.conversations && IsActiveMember(db.participants, c.conversationId, u)
    ensures exists i :: 0 <= i < |ListConversations(db, u)| && ListConversations(db, u)[i].conversation == c
  {
    var ps := db.participants;
    var us := db.users;
    var ms := db.messages;
    var mine := Filter(db.conversations, ListedFor(ps, u));
    var rows := SummaryRows(ps, us, ms, mine, u);
    var k :| 0 <= k < |db.conversations| && db.conversations[k] == c;
    assert c in mine;
    var j :| 0 <= j < |mine| && mine[j] == c;
    var r := ListConversations(db, u);
    assert rows[j] in multiset(r);
    var i :| 0 <= i < |r| && r[i] == rows[j];
  }

  // ----- POST /get-or-create -----

  /** A private conversation in which both users have an active row. */
  predicate PrivateBetween(ps: seq<Participant>, c: Conversation, u: int, o: int) {
    c.conversationType == Private && IsActiveMember(ps, c.conversationId, u) && IsActiveMember(ps, c.conversationId, o)
  }

  /** `existingConv.recordset[0].conversation_id`, taking rows in table order. */
  function ExistingPrivate(ps: seq<Participant>, cs: seq<Conversation>, u: int, o: int): (r: Option<int>)
    ensures r.None? <==> forall j :: 0 <= j < |cs| ==> !PrivateBetween(ps, cs[j], u, o)
    ensures r.Some? ==> exists j :: 0 <= j < |cs| && cs[j].conversationId == r.value && PrivateBetween(ps, cs[j], u, o)
  {
    match FindFirst(cs, (c: Conversation) => PrivateBetween(ps, c, u, o))
    case None => None
    case Some(c) => Some(c.conversationId)
  }

  function NewPrivate(id: int, now: int): Conversation {
    Conversation(id, Private, None, None, None, None, now, now)
  }

  /** The two participant rows of a new private conversation (role left at its default). */
  function PrivateRows(id: int, u: int, o: int, now: int): (r: seq<Participant>)
    ensures forall i :: 0 <= i < |r| ==> r[i].conversationId == id
    ensures ActiveRole(r, id, u) == Some(Member) && ActiveRole(r, id, o) == Some(Member)
    ensures forall x :: HasRow(r, id, x) <==> x == u || x == o
  {
    var r := [Participant(id, u, Member, true, now), Participant(id, o, Member, true, now)];
    assert IsPair(r[0], id, u) && IsPair(r[1], id, o);
    r
  }

  /** Rows of a conversation no existing row belongs to do not change any existing
      conversation's membership. */
  lemma FreshRowsKeepMembership(ps: seq<Participant>, cs: seq<Conversation>, rows: seq<Participant>, c2: int, u2: int)
    requires InConversations(ps, cs)
    requires forall i :: 0 <= i < |rows| ==> rows[i].conversationId == NextConversationId(cs)
    requires c2 != NextConversationId(cs)
    ensures ActiveRole(ps + rows, c2, u2) == ActiveRole(ps, c2, u2)
  {
    FindFirstAppend(ps, rows, (p: Participant) => IsPair(p, c2, u2) && p.isActive);
  }

  /** Creating the private conversation keeps the tables valid and makes it the one a
      later get-or-create for the same pair finds. */
  lemma GetOrCreateFindsNew(ps: seq<Participant>, cs: seq<Conversation>, u: int, o: int, now: int)
    requires UniquePairs(ps) && InConversations(ps, cs)
    requires u != o
    requires ExistingPrivate(ps, cs, u, o).None?
    ensures var id := NextConversationId(cs);
      UniquePairs(ps + PrivateRows(id, u, o, now))
      && InConversations(ps + PrivateRows(id, u, o, now), cs + [NewPrivate(id, now)])
      && ExistingPrivate(ps + PrivateRows(id, u, o, now), cs + [NewPrivate(id, now)], u, o) == Some(id)
  {
    var id := NextConversationId(cs);
    PrivateRowsKeepTables(ps, cs, u, o, now);
    PrivateRowsFound(ps, cs, u, o, now);
  }

  /** The two new rows keep the pairs unique and name the new conversation. */
  lemma PrivateRowsKeepTables(ps: seq<Participant>, cs: seq<Conversation>, u: int, o: int, now: int)
    requires UniquePairs(ps) && InConversations(ps, cs)
    requires u != o
    ensures var id := NextConversationId(cs);
      UniquePairs(ps + PrivateRows(id, u, o, now))
      && InConversations(ps + PrivateRows(id, u, o, now), cs + [NewPrivate(id, now)])
  {
    var id := NextConversationId(cs);
    var ps2 := ps + PrivateRows(id, u, o, now);
    var cs2 := cs + [NewPrivate(id, now)];
    forall i | 0 <= i < |ps| ensures ps[i].conversationId != id {
      var j := ConversationRowOf(ps, cs, i);
    }
    assert UniquePairs(ps2);
    forall i | 0 <= i < |ps2|
      ensures NamesConversation(cs2, ps2[i].conversationId)
    {
      var c := ps2[i].conversationId;
      var j := |cs|;
      if i < |ps| {
        assert ps2[i] == ps[i];
        j := ConversationRowOf(ps, cs, i);
        assert cs2[j] == cs[j];
      }
      assert 0 <= j < |cs2| && cs2[j].conversationId == c;
    }
  }

  /** With no private conversation between the pair before, the new one is the first found. */
  lemma PrivateRowsFound(ps: seq<Participant>, cs: seq<Conversation>, u: int, o: int, now: int)
    requires UniquePairs(ps) && InConversations(ps, cs)
    requires u != o
    requires ExistingPrivate(ps, cs, u, o).None?
    requires UniquePairs(ps + PrivateRows(NextConversationId(cs), u, o, now))
    ensures var id := NextConversationId(cs);
      ExistingPrivate(ps + PrivateRows(id, u, o, now), cs + [NewPrivate(id, now)], u, o) == Some(id)
  {
    var id := NextConversationId(cs);
    var rows := PrivateRows(id, u, o, now);
    var ps2 := ps + rows;
    var cs2 := cs + [NewPrivate(id, now)];
    forall j | 0 <= j < |cs| ensures !PrivateBetween(ps2, cs[j], u, o) {
      NoOldPrivate(ps, cs, u, o, now, j);
    }
    ActiveRoleUnique(ps2, id, u, |ps|);
    ActiveRoleUnique(ps2, id, o, |ps| + 1);
    assert PrivateBetween(ps2, cs2[|cs|], u, o);
    FindFirstAppendHit(cs, NewPrivate(id, now), (c: Conversation) => PrivateBetween(ps2, c, u, o));
  }

  /** The new rows do not make an existing conversation private between the pair. */
  lemma NoOldPrivate(ps: seq<Participant>, cs: seq<Conversation>, u: int, o: int, now: int, j: int)
    requires InConversations(ps, cs)
    requires 0 <= j < |cs| && !PrivateBetween(ps, cs[j], u, o)
    ensures !PrivateBetween(ps + PrivateRows(NextConversationId(cs), u, o, now), cs[j], u, o)
  {
    var rows := PrivateRows(NextConversationId(cs), u, o, now);
    FreshRowsKeepMembership(ps, cs, rows, cs[j].conversationId, u);
    FreshRowsKeepMembership(ps, cs, rows, cs[j].conversationId, o);
  }

  /** When no row of `s` satisfies `p` but `x` does, the first match of `s + [x]` is `x`. */
  lemma FindFirstAppendHit<T>(s: seq<T>, x: T, p: T -> bool)
    requires forall i :: 0 <= i < |s| ==> !p(s[i])
    requires p(x)
    ensures FindFirst(s + [x], p) == Some(x)
  {
    assert (s + [x])[|s|] == x;
  }

  /** POST /get-or-create. A missing id or the caller's own id is refused, then an unknown
      user; an existing private conversation of the pair is returned as it is; otherwise one
      is created with both users. Either way the answer is the conversation a repeated call
      finds. */
  method GetOrCreate(db: Db, caller: int, otherUserId: Option<int>, now: int)
      returns (status: Status, conversationId: Option<int>, otherUser: Option<User>)
    requires db.Valid()
    modifies db`conversations, db`participants
    ensures db.Valid()
    ensures !PresentId(otherUserId) || otherUserId.value == caller ==>
      status == BadRequest && conversationId == None && unchanged(db)
    ensures PresentId(otherUserId) && otherUserId.value != caller && !UserExists(db.users, otherUserId.value) ==>
      status == NotFound && conversationId == None && unchanged(db)
    ensures PresentId(otherUserId) && otherUserId.value != caller && UserExists(db.users, otherUserId.value) ==>
      status == Ok && otherUser == FindUser(db.users, otherUserId.value)
      && conversationId.Some?
      && ExistingPrivate(db.participants, db.conversations, caller, otherUserId.value) == conversationId
      && (ExistingPrivate(old(db.participants), old(db.conversations), caller, otherUserId.value).Some? ==>
            conversationId == ExistingPrivate(old(db.participants), old(db.conversations), caller, otherUserId.value)
            && unchanged(db))
      && (ExistingPrivate(old(db.participants), old(db.conversations), caller, otherUserId.value).None? ==>
            var id := NextConversationId(old(db.conversations));
            conversationId == Some(id)
            && db.conversations == old(db.conversations) + [NewPrivate(id, now)]
            && db.participants == old(db.participants) + PrivateRows(id, caller, otherUserId.value, now))
  {
    if !PresentId(otherUserId) || otherUserId.value == caller {
      return BadRequest, None, None;
    }
    var o := otherUserId.value;
    otherUser := FindUser(db.users, o);
    if otherUser.None? {
      return NotFound, None, None;
    }
    var existing := ExistingPrivate(db.participants, db.conversations, caller, o);
    if existing.Some? {
      return Ok, existing, otherUser;
    }
    var id := CreatePrivate(db, caller, o, now);
    return Ok, Some(id), otherUser;
  }

  /** The creating branch of get-or-create: a new private conversation with both users, which
      the lookup then finds. */
  method CreatePrivate(db: Db, u: int, o: int, now: int) returns (id: int)
    requires db.Valid()
    requires u != o && ExistingPrivate(db.participants, db.conversations, u, o).None?
    modifies db`conversations, db`participants
    ensures db.Valid()
    ensures id == NextConversationId(old(db.conversations))
    ensures db.conversations == old(db.conversations) + [NewPrivate(id, now)]
    ensures db.participants == old(db.participants) + PrivateRows(id, u, o, now)
    ensures ExistingPrivate(db.participants, db.conversations, u, o) == Some(id)
  {
    var ps, cs := db.participants, db.conversations;
    id := NextConversationId(cs);
    GetOrCreateFindsNew(ps, cs, u, o, now);
    db.conversations := cs + [NewPrivate(id, now)];
    db.participants := ps + PrivateRows(id, u, o, now);
  }

  // ----- GET /:conversationId/messages -----

  /** A message joined with its sender (`INNER JOIN Users sender`). */
  datatype Sent = Sent(message: Message, sender: User)

  function SentId(s: Sent): int {
    s.message.messageId
  }

  /** A message the history query returns: visible in `c`, with a sender row. */
  predicate Listed(us: seq<User>, m: Message, c: int) {
    Visible(m, c) && FindUser(us, m.senderId).Some?
  }

  /** The visible messages of `c` whose sender exists, each with that sender, in table order. */
  function WithSenders(ms: seq<Message>, us: seq<User>, c: int): (r: seq<Sent>)
    ensures forall i :: 0 <= i < |r| ==>
      r[i].message in ms && Visible(r[i].message, c) && FindUser(us, r[i].message.senderId) == Some(r[i].sender)
  {
    var vis := Filter(ms, (m: Message) => Listed(us, m, c));
    seq(|vis|, i requires 0 <= i < |vis| => Sent(vis[i], FindUser(us, vis[i].senderId).value))
  }

  /** Every visible message with a sender row is in the history. */
  lemma WithSendersComplete(ms: seq<Message>, us: seq<User>, c: int, j: int)
    requires 0 <= j < |ms| && Listed(us, ms[j], c)
    ensures Sent(ms[j], FindUser(us, ms[j].senderId).value) in WithSenders(ms, us, c)
  {
    var vis := Filter(ms, (m: Message) => Listed(us, m, c));
    var k :| 0 <= k < |vis| && vis[k] == ms[j];
    assert WithSenders(ms, us, c)[k] == Sent(ms[j], FindUser(us, ms[j].senderId).value);
  }

  lemma WithSendersUniqueKeys(ms: seq<Message>, us: seq<User>, c: int)
    requires UniqueKeys(ms, MessageIdOf)
    ensures UniqueKeys(WithSenders(ms, us, c), SentId)
  {
    var vis := Filter(ms, (m: Message) => Listed(us, m, c));
    FilterUniqueKeys(ms, (m: Message) => Listed(us, m, c), MessageIdOf);
    var r := WithSenders(ms, us, c);
    assert forall i :: 0 <= i < |r| ==> SentId(r[i]) == MessageIdOf(vis[i]);
  }

  /** `ORDER BY m.created_at DESC`. */
  predicate NewerFirst(a: Sent, b: Sent) {
    a.message.createdAt >= b.message.createdAt
  }

  predicate OlderFirst(a: Sent, b: Sent) {
    a.message.createdAt <= b.message.createdAt
  }

  /** `limit = 50, offset = 0` unless given. */
  function LimitOf(limit: Option<int>): int {
    if limit.Some? then limit.value else 50
  }

  function OffsetOf(offset: Option<int>): int {
    if offset.Some? then offset.value else 0
  }

  /** SQL Server rejects `FETCH NEXT n` with n < 1 and a negative `OFFSET`. */
  predicate BadPaging(limit: Option<int>, offset: Option<int>) {
    LimitOf(limit) < 1 || OffsetOf(offset) < 0
  }

  /** The page the query returns: visible messages with senders, newest first, then
      `OFFSET`/`FETCH`. */
  function HistoryPage(db: Db, c: int, limit: Option<int>, offset: Option<int>): (r: seq<Sent>)
    reads db
    requires !BadPaging(limit, offset)
    ensures |r| == PageSize(|WithSenders(db.messages, db.users, c)|, OffsetOf(offset), LimitOf(limit))
    ensures SortedBy(r, NewerFirst)
    ensures WindowOf(r, WithSenders(db.messages, db.users, c), NewerFirst, OffsetOf(offset))
    ensures multiset(r) <= multiset(WithSenders(db.messages, db.users, c))
    ensures forall i :: 0 <= i < |r| ==>
      r[i].message in db.messages && Visible(r[i].message, c)
      && FindUser(db.users, r[i].message.senderId) == Some(r[i].sender)
    ensures UniqueKeys(db.messages, MessageIdOf) ==> UniqueKeys(r, SentId)
  {
    var ms, us := db.messages, db.users;
    var all := WithSenders(ms, us, c);
    assert TotalPreorder(NewerFirst);
    SortedPage(all, NewerFirst, OffsetOf(offset) as nat, LimitOf(limit) as nat,
      (x: Sent) => x.message in ms && Visible(x.message, c) && FindUser(us, x.message.senderId) == Some(x.sender));
    var r := Page(SortBy(all, NewerFirst), OffsetOf(offset) as nat, LimitOf(limit) as nat);
    SortedSendersUnique(db.messages, db.users, c);
    r
  }

  /** From offset 0 with a page size covering every visible message, the page holds exactly
      the visible messages. */
  lemma HistoryPageWhole(db: Db, c: int, limit: Option<int>, offset: Option<int>)
    requires !BadPaging(limit, offset) && OffsetOf(offset) == 0
    requires |WithSenders(db.messages, db.users, c)| <= LimitOf(limit)
    ensures multiset(HistoryPage(db, c, limit, offset)) == multiset(WithSenders(db.messages, db.users, c))
  {
    SubMultisetSameSize(HistoryPage(db, c, limit, offset), WithSenders(db.messages, db.users, c));
  }

  lemma SortedSendersUnique(ms: seq<Message>, us: seq<User>, c: int)
    ensures UniqueKeys(ms, MessageIdOf) ==> UniqueKeys(SortBy(WithSenders(ms, us, c), NewerFirst), SentId)
  {
    if UniqueKeys(ms, MessageIdOf) {
      WithSendersUniqueKeys(ms, us, c);
      PermutationUniqueKeys(WithSenders(ms, us, c), SortBy(WithSenders(ms, us, c), NewerFirst), SentId);
    }
  }

  /** The emoji groups of message `id`. */
  function GroupsOn(rs: seq<Reaction>, id: int): seq<EmojiSummary> {
    Groups(Filter(rs, (x: Reaction) => OnMessage(id, x)))
  }

  /** One row of the `GROUP BY message_id, emoji` query. */
  datatype ReactionRow = ReactionRow(messageId: int, summary: EmojiSummary)

  /** The rows of the reactions query for the page's messages: per message in page order,
      one row per emoji. */
  function ReactionRows(rs: seq<Reaction>, ids: seq<int>): seq<ReactionRow> {
    RowsBy((id: int) => GroupsOn(rs, id), ids)
  }

  /** Per id in order, the rows of its groups. */
  function RowsBy(groups: int -> seq<EmojiSummary>, ids: seq<int>): seq<ReactionRow>
    decreases |ids|
  {
    if ids == [] then []
    else
      var id := ids[|ids| - 1];
      RowsBy(groups, ids[..|ids| - 1]) + RowsOf(id, groups(id))
  }

  /** The rows of one message: one per emoji group, in order. */
  function RowsOf(id: int, g: seq<EmojiSummary>): (r: seq<ReactionRow>)
    ensures |r| == |g|
    ensures forall i :: 0 <= i < |g| ==> r[i].messageId == id && r[i].summary == g[i]
  {
    seq(|g|, i requires 0 <= i < |g| => ReactionRow(id, g[i]))
  }

  /** The entries `reactionsMap[k]` collects: the summaries of the rows for message `k`, in order. */
  function SummariesFor(rows: seq<ReactionRow>, k: int): seq<EmojiSummary>
    decreases |rows|
  {
    if rows == [] then []
    else
      var last := rows[|rows| - 1];
      SummariesFor(rows[..|rows| - 1], k) + (if last.messageId == k then [last.summary] else [])
  }

  lemma {:induction false} SummariesForAppend(a: seq<ReactionRow>, b: seq<ReactionRow>, k: int)
    ensures SummariesFor(a + b, k) == SummariesFor(a, k) + SummariesFor(b, k)
    decreases |b|
  {
    if b == [] {
      assert a + b == a;
    } else {
      assert (a + b)[..|a + b| - 1] == a + b[..|b| - 1];
      SummariesForAppend(a, b[..|b| - 1], k);
    }
  }

  lemma {:induction false} SummariesForOne(id: int, g: seq<EmojiSummary>, k: int)
    ensures SummariesFor(RowsOf(id, g), k) == if id == k then g else []
    decreases |g|
  {
    var rows := RowsOf(id, g);
    if g != [] {
      var init := g[..|g| - 1];
      assert rows[..|rows| - 1] == RowsOf(id, init);
      SummariesForOne(id, init, k);
      assert g == init + [g[|g| - 1]];
    }
  }

  /** For distinct page ids, message `k` collects exactly its own emoji groups when it is on
      the page, and nothing otherwise. */
  lemma ReactionRowsFor(rs: seq<Reaction>, ids: seq<int>, k: int)
    requires NoDup(ids)
    ensures SummariesFor(ReactionRows(rs, ids), k) ==
      if k in ids then GroupsOn(rs, k) else []
  {
    RowsByFor((id: int) => GroupsOn(rs, id), ids, k);
  }

  lemma {:induction false} RowsByFor(groups: int -> seq<EmojiSummary>, ids: seq<int>, k: int)
    requires NoDup(ids)
    ensures SummariesFor(RowsBy(groups, ids), k) == if k in ids then groups(k) else []
    decreases |ids|
  {
    if ids != [] {
      var init := ids[..|ids| - 1];
      var id := ids[|ids| - 1];
      var before := RowsBy(groups, init);
      assert NoDup(init);
      RowsByFor(groups, init, k);
      SummariesForAppend(before, RowsOf(id, groups(id)), k);
      SummariesForOne(id, groups(id), k);
      assert ids == init + [id];
      if id == k {
        assert k !in init;
      }
    }
  }

  lemma SummariesForStep(rows: seq<ReactionRow>, i: int, k: int)
    requires 0 <= i < |rows|
    ensures SummariesFor(rows[..i + 1], k)
      == SummariesFor(rows[..i], k) + (if rows[i].messageId == k then [rows[i].summary] else [])
  {
    assert rows[..i + 1][..i] == rows[..i];
  }

  /** Message `k` collects nothing exactly when no row is about it. */
  lemma {:induction false} SummariesForEmpty(rows: seq<ReactionRow>, k: int)
    ensures SummariesFor(rows, k) == [] <==> forall i :: 0 <= i < |rows| ==> rows[i].messageId != k
    decreases |rows|
  {
    if rows != [] {
      var init := rows[..|rows| - 1];
      SummariesForEmpty(init, k);
      assert forall i :: 0 <= i < |init| ==> init[i] == rows[i];
    }
  }

  /** The entry `reactionsMap[k] || []`. */
  function Entry(m: map<int, seq<EmojiSummary>>, k: int): seq<EmojiSummary> {
    if k in m then m[k] else []
  }

  /** `reactionsResult.recordset.forEach(...)`: collect the rows into a map from message id to
      the list of its entries, appending in row order. */
  method BuildReactionsMap(rows: seq<ReactionRow>) returns (m: map<int, seq<EmojiSummary>>)
    ensures forall k :: k in m <==> exists i :: 0 <= i < |rows| && rows[i].messageId == k
    ensures forall k :: Entry(m, k) == SummariesFor(rows, k)
  {
    m := map[];
    for i := 0 to |rows|
      invariant forall k :: k in m ==> m[k] != []
      invariant forall k :: Entry(m, k) == SummariesFor(rows[..i], k)
    {
      var row := rows[i];
      var m2 := m[row.messageId := Entry(m, row.messageId) + [row.summary]];
      forall k ensures Entry(m2, k) == SummariesFor(rows[..i + 1], k) {
        SummariesForStep(rows, i, k);
      }
      m := m2;
    }
    assert rows[..|rows|] == rows;
    forall k ensures k in m <==> exists i :: 0 <= i < |rows| && rows[i].messageId == k {
      SummariesForEmpty(rows, k);
    }
  }

  /** One message of the history with its reactions. */
  datatype MessageView = MessageView(message: Message, sender: User, reactions: seq<EmojiSummary>)

  function PageIds(page: seq<Sent>): (r: seq<int>)
    ensures |r| == |page|
    ensures forall i :: 0 <= i < |page| ==> r[i] == page[i].message.messageId
    ensures UniqueKeys(page, SentId) ==> NoDup(r)
  {
    seq(|page|, i requires 0 <= i < |page| => page[i].message.messageId)
  }

  /** The page with each message's entry of the reactions map. */
  function Views(page: seq<Sent>, m: map<int, seq<EmojiSummary>>): (r: seq<MessageView>)
    ensures |r| == |page|
    ensures forall i :: 0 <= i < |page| ==>
      r[i] == MessageView(page[i].message, page[i].sender, Entry(m, page[i].message.messageId))
  {
    seq(|page|, i requires 0 <= i < |page| => MessageView(page[i].message, page[i].sender, Entry(m, page[i].message.messageId)))
  }

  /** With distinct message ids on the page, each message's entry is its own emoji groups. */
  lemma ViewsReactions(rs: seq<Reaction>, page: seq<Sent>, m: map<int, seq<EmojiSummary>>)
    requires UniqueKeys(page, SentId)
    requires forall k :: Entry(m, k) == SummariesFor(ReactionRows(rs, PageIds(page)), k)
    ensures Views(page, m) == seq(|page|, i requires 0 <= i < |page| =>
      MessageView(page[i].message, page[i].sender, GroupsOn(rs, page[i].message.messageId)))
  {
    var ids := PageIds(page);
    forall i | 0 <= i < |page| ensures Entry(m, page[i].message.messageId) == GroupsOn(rs, page[i].message.messageId) {
      assert ids[i] == page[i].message.messageId;
      ReactionRowsFor(rs, ids, ids[i]);
    }
  }

  /** Delivery order of the history: oldest first. */
  predicate OlderView(a: MessageView, b: MessageView) {
    a.message.createdAt <= b.message.createdAt
  }

  /** What GET /:conversationId/messages answers. Refused unless the caller has an active row;
      an invalid page size or offset fails in the database; otherwise the newest page,
      delivered oldest first, each message with its sender and its reactions grouped by emoji
      (`[]` when it has none). */
  function HistoryReply(db: Db, caller: int, c: int, limit: Option<int>, offset: Option<int>): (r: Reply<seq<MessageView>>)
    reads db
    ensures !IsActiveMember(db.participants, c, caller) ==> r == Refused(Forbidden)
    ensures IsActiveMember(db.participants, c, caller) && BadPaging(limit, offset) ==> r == Refused(ServerError)
    ensures IsActiveMember(db.participants, c, caller) && !BadPaging(limit, offset) ==>
      r.Done? && |r.value| == PageSize(|WithSenders(db.messages, db.users, c)|, OffsetOf(offset), LimitOf(limit))
      && SortedBy(r.value, OlderView)
    ensures r.Done? ==> WindowOf(Reverse(SentsOf(r.value)), WithSenders(db.messages, db.users, c), NewerFirst, OffsetOf(offset))
    ensures r.Done? ==> multiset(SentsOf(r.value)) <= multiset(WithSenders(db.messages, db.users, c))
    ensures r.Done? ==> forall i :: 0 <= i < |r.value| ==>
      r.value[i].message in db.messages && Visible(r.value[i].message, c)
      && FindUser(db.users, r.value[i].message.senderId) == Some(r.value[i].sender)
      && r.value[i].reactions == GroupsOn(db.reactions, r.value[i].message.messageId)
  {
    if !IsActiveMember(db.participants, c, caller) then Refused(Forbidden)
    else if BadPaging(limit, offset) then Refused(ServerError)
    else
      var page := HistoryPage(db, c, limit, offset);
      var views := GroupedViews(page, db.reactions);
      OldestFirstViews(page, views);
      ReversedViews(page, views);
      Done(Reverse(views))
  }

  /** Each message of the page with its sender and its emoji groups. */
  function GroupedViews(page: seq<Sent>, rs: seq<Reaction>): (r: seq<MessageView>)
    ensures |r| == |page|
    ensures forall i :: 0 <= i < |page| ==>
      r[i].message == page[i].message && r[i].sender == page[i].sender
      && r[i].reactions == GroupsOn(rs, page[i].message.messageId)
  {
    seq(|page|, i requires 0 <= i < |page| => MessageView(page[i].message, page[i].sender, GroupsOn(rs, page[i].message.messageId)))
  }

  /** A newest-first page of messages, reversed, is oldest first. */
  lemma OldestFirstViews(page: seq<Sent>, views: seq<MessageView>)
    requires SortedBy(page, NewerFirst)
    requires |views| == |page| && forall i :: 0 <= i < |page| ==> views[i].message == page[i].message
    ensures SortedBy(Reverse(views), OlderView)
  {
    var r := Reverse(views);
    forall i, j | 0 <= i < j < |r| ensures OlderView(r[i], r[j]) {
      assert NewerFirst(page[|page| - 1 - j], page[|page| - 1 - i]);
    }
  }

  /** The message and sender of each view. */
  function SentsOf(vs: seq<MessageView>): (r: seq<Sent>)
    ensures |r| == |vs|
    ensures forall i :: 0 <= i < |vs| ==> r[i].message == vs[i].message && r[i].sender == vs[i].sender
  {
    seq(|vs|, i requires 0 <= i < |vs| => Sent(vs[i].message, vs[i].sender))
  }

  /** The delivered views, reversed back, are the page the query returned. */
  lemma ReversedViews(page: seq<Sent>, views: seq<MessageView>)
    requires |views| == |page|
    requires forall i :: 0 <= i < |page| ==> views[i].message == page[i].message && views[i].sender == page[i].sender
    ensures Reverse(SentsOf(Reverse(views))) == page
    ensures multiset(SentsOf(Reverse(views))) == multiset(page)
  {
    var rv := Reverse(views);
    var sv := SentsOf(rv);
    var r := Reverse(sv);
    forall i | 0 <= i < |r| ensures r[i] == page[i] {
      var j := |page| - 1 - i;
      assert r[i] == sv[j] && rv[j] == views[i];
    }
    assert r == page;
    ReverseMultiset(sv);
  }

  /** GET /:conversationId/messages: the page query, then one reactions query for the page's
      ids whose rows are gathered into a map. Message ids being a primary key, the answer is
      `HistoryReply`. */
  method History(db: Db, caller: int, c: int, limit: Option<int>, offset: Option<int>)
      returns (r: Reply<seq<MessageView>>)
    ensures UniqueKeys(db.messages, MessageIdOf) ==> r == HistoryReply(db, caller, c, limit, offset)
    ensures r.Refused? ==> r == HistoryReply(db, caller, c, limit, offset)
  {
    if !IsActiveMember(db.participants, c, caller) {
      return Refused(Forbidden);
    }
    if BadPaging(limit, offset) {
      return Refused(ServerError);
    }
    var page := HistoryPage(db, c, limit, offset);
    var m := BuildReactionsMap(ReactionRows(db.reactions, PageIds(page)));
    var views := Views(page, m);
    if UniqueKeys(db.messages, MessageIdOf) {
      ViewsReactions(db.reactions, page, m);
    }
    return Done(Reverse(views));
  }

  // ----- POST /:conversationId/mark-read -----

  /** The rows `mark-read` updates: unread messages of `c` addressed to `u` (deleted ones
      included). */
  predicate ToMark(m: Message, c: int, u: int) {
    m.conversationId == Some(c) && m.receiverId == Some(u) && !m.isRead
  }

  function MarkReadRows(ms: seq<Message>, c: int, u: int, now: int): (r: seq<Message>)
    ensures |r| == |ms|
    ensures forall i :: 0 <= i < |ms| && ToMark(ms[i], c, u) ==> r[i] == ms[i].(isRead := true, readAt := Some(now))
    ensures forall i :: 0 <= i < |ms| && !ToMark(ms[i], c, u) ==> r[i] == ms[i]
  {
    UpdateWhere(ms, (m: Message) => ToMark(m, c, u), (m: Message) => m.(isRead := true, readAt := Some(now)))
  }

  /** After mark-read the caller has no unread message left in the conversation. */
  lemma MarkReadClearsUnread(ms: seq<Message>, c: int, u: int, now: int)
    ensures UnreadCount(MarkReadRows(ms, c, u, now), c, u) == 0
  {
  }

  /** A second mark-read, at any time, changes nothing. */
  lemma MarkReadIdempotent(ms: seq<Message>, c: int, u: int, now: int, later: int)
    ensures MarkReadRows(MarkReadRows(ms, c, u, now), c, u, later) == MarkReadRows(ms, c, u, now)
  {
  }

  /** Mark-read keeps message ids, so the primary key stays unique. */
  lemma MarkReadKeepsIds(ms: seq<Message>, c: int, u: int, now: int)
    requires UniqueKeys(ms, MessageIdOf)
    ensures UniqueKeys(MarkReadRows(ms, c, u, now), MessageIdOf)
  {
    var r := MarkReadRows(ms, c, u, now);
    assert forall i :: 0 <= i < |ms| ==> MessageIdOf(r[i]) == MessageIdOf(ms[i]);
  }

  /** POST /:conversationId/mark-read (no membership check is made). */
  method MarkRead(db: Db, caller: int, c: int, now: int) returns (status: Status)
    requires db.Valid()
    modifies db`messages
    ensures db.Valid()
    ensures status == Ok && db.messages == MarkReadRows(old(db.messages), c, caller, now)
  {
    MarkReadKeepsIds(db.messages, c, caller, now);
    db.messages := MarkReadRows(db.messages, c, caller, now);
    assert UniqueKeys(db.messages, MessageIdOf);
    assert UniquePairs(db.participants);
    assert InConversations(db.participants, db.conversations);
    return Ok;
  }

  // ----- DELETE /:conversationId -----

  /** DELETE /:conversationId: deactivate the caller's own row only. */
  method DeleteConversation(db: Db, caller: int, c: int) returns (status: Status)
    requires db.Valid()
    modifies db`participants
    ensures db.Valid()
    ensures status == Ok && db.participants == SetActive(old(db.participants), c, caller, false)
  {
    SetActiveKeepsPairs(db.participants, c, caller, false);
    SetActiveKeepsIn(db.participants, db.conversations, c, caller, false);
    db.participants := SetActive(db.participants, c, caller, false);
    return Ok;
  }
}
