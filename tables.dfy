/** The relational tables the route handlers read and write, held in memory:
    Users, Conversations, ConversationParticipants, Messages, MessageReactions
    and UserSessions. Column sets follow the queries in backend/routes and
    backend/server.js; timestamps (`GETDATE()`) are integers supplied by the
    caller. */
module Tables {
  import opened Common
  import opened Query

  datatype Date = Date(year: int, month: int, day: int)

  datatype User = User(
    userId: int,
    username: string,
    email: string,
    passwordHash: string,
    displayName: string,
    fullName: Option<string>,
    dateOfBirth: Option<Date>,
    gender: Option<string>,
    avatarUrl: Option<string>,
    profileCompleted: bool,
    isOnline: bool,
    lastSeen: Option<int>,
    theme: Option<string>,
    createdAt: int,
    updatedAt: int)

  datatype ConversationType = Private | Group

  datatype Conversation = Conversation(
    conversationId: int,
    conversationType: ConversationType,
    groupName: Option<string>,
    groupDescription: Option<string>,
    groupAvatarUrl: Option<string>,
    createdBy: Option<int>,
    createdAt: int,
    updatedAt: int)

  datatype Role = Admin | Member

  /** The text stored in the `role` column. */
  function RoleText(r: Role): string {
    match r
    case Admin => "admin"
    case Member => "member"
  }

  datatype Participant = Participant(
    conversationId: int,
    userId: int,
    role: Role,
    isActive: bool,
    joinedAt: int)

  /** One row of Messages. `senderId` is the `sender_id` column, which every
      insert also writes to the legacy `user_id` column. */
  datatype Message = Message(
    messageId: int,
    conversationId: Option<int>,
    senderId: int,
    receiverId: Option<int>,
    text: string,
    messageType: string,
    fileUrl: Option<string>,
    fileName: Option<string>,
    fileSize: Option<int>,
    fileType: Option<string>,
    isRead: bool,
    readAt: Option<int>,
    isDeleted: bool,
    roomId: Option<int>,
    createdAt: int)

  function MessageIdOf(m: Message): int {
    m.messageId
  }

  datatype Reaction = Reaction(messageId: int, userId: int, emoji: string)

  datatype Session = Session(
    userId: int,
    socketId: string,
    loginTime: int,
    logoutTime: Option<int>,
    isActive: bool)

  /** The database: one sequence per table, in insertion order. */
  class Db {
    var users: seq<User>
    var conversations: seq<Conversation>
    var participants: seq<Participant>
    var messages: seq<Message>
    var reactions: seq<Reaction>
    var sessions: seq<Session>

    constructor ()
      ensures users == [] && conversations == [] && participants == []
      ensures messages == [] && reactions == [] && sessions == []
    {
      users, conversations, participants := [], [], [];
      messages, reactions, sessions := [], [], [];
    }

    /** The integrity the handlers maintain: one participant row per (conversation, user)
        pair, every participant row belongs to an existing conversation, and message ids
        are a primary key. */
    ghost predicate Valid()
      reads this
    {
      UniquePairs(participants) && InConversations(participants, conversations)
      && UniqueKeys(messages, MessageIdOf)
    }
  }

  // ----- ConversationParticipants -----

  predicate IsPair(p: Participant, c: int, u: int) {
    p.conversationId == c && p.userId == u
  }

  /** At most one participant row per (conversation, user) pair. */
  ghost predicate UniquePairs(ps: seq<Participant>) {
    forall i, j :: 0 <= i < j < |ps| ==>
      !(ps[i].conversationId == ps[j].conversationId && ps[i].userId == ps[j].userId)
  }

  /** Every participant row names a conversation that exists. */
  ghost predicate InConversations(ps: seq<Participant>, cs: seq<Conversation>) {
    forall i :: 0 <= i < |ps| ==> NamesConversation(cs, ps[i].conversationId)
  }

  /** Some conversation row has id `c`. */
  ghost predicate NamesConversation(cs: seq<Conversation>, c: int) {
    exists j :: 0 <= j < |cs| && cs[j].conversationId == c
  }

  /** The conversation row that participant row `i` names. */
  lemma ConversationRowOf(ps: seq<Participant>, cs: seq<Conversation>, i: int) returns (j: int)
    requires InConversations(ps, cs) && 0 <= i < |ps|
    ensures 0 <= j < |cs| && cs[j].conversationId == ps[i].conversationId
  {
    var c := ps[i].conversationId;
    assert NamesConversation(cs, c);
    j :| 0 <= j < |cs| && cs[j].conversationId == c;
  }

  /** `SELECT participant_id FROM ConversationParticipants WHERE conversation_id = c AND user_id = u`
      returns at least one row. */
  predicate HasRow(ps: seq<Participant>, c: int, u: int) {
    exists i :: 0 <= i < |ps| && IsPair(ps[i], c, u)
  }

  /** `recordset[0].role` of `SELECT role ... WHERE conversation_id = c AND user_id = u AND is_active = 1`. */
  function ActiveRole(ps: seq<Participant>, c: int, u: int): (r: Option<Role>)
    ensures r.None? <==> forall i :: 0 <= i < |ps| ==> !(IsPair(ps[i], c, u) && ps[i].isActive)
    ensures r.Some? ==> exists i :: 0 <= i < |ps| && IsPair(ps[i], c, u) && ps[i].isActive && ps[i].role == r.value
  {
    match FindFirst(ps, (p: Participant) => IsPair(p, c, u) && p.isActive)
    case None => None
    case Some(p) => Some(p.role)
  }

  /** The membership check of every conversation route: an active row exists. */
  predicate IsActiveMember(ps: seq<Participant>, c: int, u: int) {
    ActiveRole(ps, c, u).Some?
  }

  /** The admin check of the group routes: the active row's role is 'admin'. */
  predicate IsActiveAdmin(ps: seq<Participant>, c: int, u: int) {
    ActiveRole(ps, c, u) == Some(Admin)
  }

  lemma ActiveRoleUnique(ps: seq<Participant>, c: int, u: int, k: nat)
    requires UniquePairs(ps)
    requires k < |ps| && IsPair(ps[k], c, u)
    ensures ActiveRole(ps, c, u) == if ps[k].isActive then Some(ps[k].role) else None
  {
  }

  /** `UPDATE ConversationParticipants SET is_active = a WHERE conversation_id = c AND user_id = u`. */
  function SetActive(ps: seq<Participant>, c: int, u: int, a: bool): (r: seq<Participant>)
    ensures |r| == |ps|
    ensures forall i :: 0 <= i < |ps| && IsPair(ps[i], c, u) ==> r[i] == ps[i].(isActive := a)
    ensures forall i :: 0 <= i < |ps| && !IsPair(ps[i], c, u) ==> r[i] == ps[i]
  {
    UpdateWhere(ps, (p: Participant) => IsPair(p, c, u), (p: Participant) => p.(isActive := a))
  }

  /** Rewriting columns other than the pair keeps the pairs, so uniqueness is kept too. */
  lemma SetActiveKeepsPairs(ps: seq<Participant>, c: int, u: int, a: bool)
    requires UniquePairs(ps)
    ensures UniquePairs(SetActive(ps, c, u, a))
  {
  }

  /** The update keeps every row's conversation, so every row still names an existing one. */
  lemma SetActiveKeepsIn(ps: seq<Participant>, cs: seq<Conversation>, c: int, u: int, a: bool)
    requires InConversations(ps, cs)
    ensures InConversations(SetActive(ps, c, u, a), cs)
  {
    var r := SetActive(ps, c, u, a);
    forall i | 0 <= i < |r| ensures NamesConversation(cs, r[i].conversationId) {
      var j := ConversationRowOf(ps, cs, i);
      assert cs[j].conversationId == r[i].conversationId;
    }
  }

  /** After the update the pair is active exactly when `a` (if it has a row), and every other pair
      keeps its membership. */
  lemma SetActiveEffect(ps: seq<Participant>, c: int, u: int, a: bool, c2: int, u2: int)
    requires UniquePairs(ps)
    ensures var r := SetActive(ps, c, u, a);
      (c2 == c && u2 == u ==> (IsActiveMember(r, c, u) <==> a && HasRow(ps, c, u)))
      && (!(c2 == c && u2 == u) ==> ActiveRole(r, c2, u2) == ActiveRole(ps, c2, u2))
  {
    var r := SetActive(ps, c, u, a);
    if !(c2 == c && u2 == u) {
      var P := (p: Participant) => IsPair(p, c2, u2) && p.isActive;
      assert forall i :: 0 <= i < |ps| ==> (P(r[i]) <==> P(ps[i]));
      FirstIndexAgree(ps, r, P);
    }
  }

  /** `SELECT COUNT(*) FROM ConversationParticipants WHERE conversation_id = c AND is_active = 1`. */
  function MemberCount(ps: seq<Participant>, c: int): (n: nat)
    ensures n <= |ps|
    ensures n == 0 <==> forall i :: 0 <= i < |ps| ==> !(ps[i].conversationId == c && ps[i].isActive)
  {
    Count(ps, ActiveIn(c))
  }

  function ActiveIn(c: int): Participant -> bool {
    (p: Participant) => p.conversationId == c && p.isActive
  }

  /** The role on the (first) row of the pair, active or not. */
  function RowRole(ps: seq<Participant>, c: int, u: int): (r: Option<Role>)
    ensures r.None? <==> !HasRow(ps, c, u)
    ensures r.Some? ==> exists i :: 0 <= i < |ps| && IsPair(ps[i], c, u) && ps[i].role == r.value
  {
    match FindFirst(ps, (p: Participant) => IsPair(p, c, u))
    case None => None
    case Some(p) => Some(p.role)
  }

  lemma RowRoleUnique(ps: seq<Participant>, c: int, u: int, k: nat)
    requires UniquePairs(ps)
    requires k < |ps| && IsPair(ps[k], c, u)
    ensures RowRole(ps, c, u) == Some(ps[k].role)
  {
  }

  // ----- Identity columns -----

  function MaxConversationId(cs: seq<Conversation>): (m: int)
    ensures m >= 0
    ensures forall i :: 0 <= i < |cs| ==> cs[i].conversationId <= m
  {
    if cs == [] then 0
    else
      var m := MaxConversationId(cs[1..]);
      if cs[0].conversationId > m then cs[0].conversationId else m
  }

  /** The value `IDENTITY(1,1)` hands to the next inserted conversation: above every existing id. */
  function NextConversationId(cs: seq<Conversation>): (r: int)
    ensures r >= 1
    ensures forall i :: 0 <= i < |cs| ==> cs[i].conversationId < r
  {
    MaxConversationId(cs) + 1
  }

  function MaxMessageId(ms: seq<Message>): (m: int)
    ensures m >= 0
    ensures forall i :: 0 <= i < |ms| ==> ms[i].messageId <= m
  {
    if ms == [] then 0
    else
      var m := MaxMessageId(ms[1..]);
      if ms[0].messageId > m then ms[0].messageId else m
  }

  function NextMessageId(ms: seq<Message>): (r: int)
    ensures r >= 1
    ensures forall i :: 0 <= i < |ms| ==> ms[i].messageId < r
  {
    MaxMessageId(ms) + 1
  }

  function MaxUserId(us: seq<User>): (m: int)
    ensures m >= 0
    ensures forall i :: 0 <= i < |us| ==> us[i].userId <= m
  {
    if us == [] then 0
    else
      var m := MaxUserId(us[1..]);
      if us[0].userId > m then us[0].userId else m
  }

  function NextUserId(us: seq<User>): (r: int)
    ensures r >= 1
    ensures forall i :: 0 <= i < |us| ==> us[i].userId < r
  {
    MaxUserId(us) + 1
  }

  // ----- Lookups by primary key -----

  function FindUser(us: seq<User>, id: int): (r: Option<User>)
    ensures r.None? <==> forall i :: 0 <= i < |us| ==> us[i].userId != id
    ensures r.Some? ==> r.value in us && r.value.userId == id
  {
    FindFirst(us, (u: User) => u.userId == id)
  }

  function FindConversation(cs: seq<Conversation>, id: int): (r: Option<Conversation>)
    ensures r.None? <==> forall i :: 0 <= i < |cs| ==> cs[i].conversationId != id
    ensures r.Some? ==> r.value in cs && r.value.conversationId == id
  {
    FindFirst(cs, (c: Conversation) => c.conversationId == id)
  }

  function FindMessage(ms: seq<Message>, id: int): (r: Option<Message>)
    ensures r.None? <==> forall i :: 0 <= i < |ms| ==> ms[i].messageId != id
    ensures r.Some? ==> r.value in ms && r.value.messageId == id
  {
    FindFirst(ms, (m: Message) => m.messageId == id)
  }

  predicate UserExists(us: seq<User>, id: int) {
    FindUser(us, id).Some?
  }

  /** `UPDATE Users SET f WHERE user_id = id`. */
  function UpdateUser(us: seq<User>, id: int, f: User -> User): (r: seq<User>)
    ensures |r| == |us|
    ensures forall i :: 0 <= i < |us| ==> r[i] == if us[i].userId == id then f(us[i]) else us[i]
  {
    UpdateWhere(us, (u: User) => u.userId == id, f)
  }

  /** `UPDATE Conversations SET f WHERE conversation_id = id`. */
  function UpdateConversation(cs: seq<Conversation>, id: int, f: Conversation -> Conversation): (r: seq<Conversation>)
    ensures |r| == |cs|
    ensures forall i :: 0 <= i < |cs| ==> r[i] == if cs[i].conversationId == id then f(cs[i]) else cs[i]
  {
    UpdateWhere(cs, (c: Conversation) => c.conversationId == id, f)
  }
}
