/** The group routes of backend/routes/groups.js: creating a group, reading it, and the
    admin-gated changes to its participants and its row in Conversations. Every handler
    is a method on the `Db` tables; the rows a handler writes are described by pure
    functions, and the lemmas below state what those rows mean. */
module Groups {
  import opened Common
  import opened Query
  import opened Tables

  // ----- create -----

  /** The member rows the create loop inserts: one active `member` row per listed id
      other than the creator, in list order. */
  function MemberRows(c: int, creator: int, ids: seq<int>, now: int): (r: seq<Participant>)
    ensures |r| <= |ids|
    ensures forall i :: 0 <= i < |r| ==>
      r[i].conversationId == c && r[i].userId in ids && r[i].userId != creator
      && r[i].role == Member && r[i].isActive && r[i].joinedAt == now
    decreases |ids|
  {
    if ids == [] then []
    else
      var prefix := MemberRows(c, creator, ids[..|ids| - 1], now);
      var last := ids[|ids| - 1];
      assert forall k :: 0 <= k < |ids| - 1 ==> ids[k] == ids[..|ids| - 1][k];
      prefix + (if last != creator then [Participant(c, last, Member, true, now)] else [])
  }

  /** All rows a successful create inserts: the creator as `admin`, then the members. */
  function CreateGroupRows(c: int, creator: int, ids: seq<int>, now: int): (r: seq<Participant>)
    ensures r != [] && r[0] == Participant(c, creator, Admin, true, now)
    ensures forall i :: 1 <= i < |r| ==> r[i].userId != creator && r[i].role == Member
    ensures forall i :: 0 <= i < |r| ==> r[i].conversationId == c && r[i].isActive
  {
    [Participant(c, creator, Admin, true, now)] + MemberRows(c, creator, ids, now)
  }

  /** Every listed id other than the creator gets a member row. */
  lemma {:induction false} MemberRowsCover(c: int, creator: int, ids: seq<int>, now: int, k: nat)
    requires k < |ids| && ids[k] != creator
    ensures exists i :: 0 <= i < |MemberRows(c, creator, ids, now)| && MemberRows(c, creator, ids, now)[i].userId == ids[k]
    decreases |ids|
  {
    var init := ids[..|ids| - 1];
    var prefix := MemberRows(c, creator, init, now);
    if k < |ids| - 1 {
      assert init[k] == ids[k];
      MemberRowsCover(c, creator, init, now, k);
      var i :| 0 <= i < |prefix| && prefix[i].userId == ids[k];
      assert MemberRows(c, creator, ids, now)[i] == prefix[i];
    } else {
      assert MemberRows(c, creator, ids, now)[|prefix|].userId == ids[k];
    }
  }

  /** After a create every listed id, the creator included, has a row in the new group. */
  lemma CreateGroupCoversIds(c: int, creator: int, ids: seq<int>, now: int, k: nat)
    requires k < |ids|
    ensures exists i :: 0 <= i < |CreateGroupRows(c, creator, ids, now)| && CreateGroupRows(c, creator, ids, now)[i].userId == ids[k]
  {
    var r := CreateGroupRows(c, creator, ids, now);
    if ids[k] == creator {
      assert r[0].userId == ids[k];
    } else {
      MemberRowsCover(c, creator, ids, now, k);
      var i :| 0 <= i < |MemberRows(c, creator, ids, now)| && MemberRows(c, creator, ids, now)[i].userId == ids[k];
      assert r[i + 1].userId == ids[k];
    }
  }

  ghost predicate UserIdsDistinct(r: seq<Participant>) {
    forall i, j :: 0 <= i < j < |r| ==> r[i].userId != r[j].userId
  }

  /** With distinct requested ids, no two member rows name the same user. */
  lemma {:induction false} MemberRowsDistinct(c: int, creator: int, ids: seq<int>, now: int)
    requires NoDup(ids)
    ensures UserIdsDistinct(MemberRows(c, creator, ids, now))
    decreases |ids|
  {
    if ids != [] {
      var init := ids[..|ids| - 1];
      assert NoDup(init);
      MemberRowsDistinct(c, creator, init, now);
      var prefix := MemberRows(c, creator, init, now);
      var r := MemberRows(c, creator, ids, now);
      forall i | 0 <= i < |prefix| ensures prefix[i].userId != ids[|ids| - 1] {
        var k :| 0 <= k < |init| && init[k] == prefix[i].userId;
        assert ids[k] == init[k];
      }
      forall i, j | 0 <= i < j < |r| ensures r[i].userId != r[j].userId {
        assert r[i] == prefix[i];
        if j < |prefix| {
          assert r[j] == prefix[j];
        } else {
          assert r[j].userId == ids[|ids| - 1];
        }
      }
    }
  }

  /** A create with distinct member ids keeps one row per pair, and every row still belongs
      to an existing conversation. */
  lemma CreateGroupKeepsValid(ps: seq<Participant>, cs: seq<Conversation>, g: Conversation,
                              creator: int, ids: seq<int>, now: int)
    requires UniquePairs(ps) && InConversations(ps, cs)
    requires g.conversationId == NextConversationId(cs)
    requires NoDup(ids)
    ensures UniquePairs(ps + CreateGroupRows(g.conversationId, creator, ids, now))
    ensures InConversations(ps + CreateGroupRows(g.conversationId, creator, ids, now), cs + [g])
  {
    var c := g.conversationId;
    var rows := CreateGroupRows(c, creator, ids, now);
    MemberRowsDistinct(c, creator, ids, now);
    var all := ps + rows;
    forall i | 0 <= i < |ps| ensures ps[i].conversationId != c {
      var j := ConversationRowOf(ps, cs, i);
    }
    forall i, j | 0 <= i < j < |all|
      ensures !(all[i].conversationId == all[j].conversationId && all[i].userId == all[j].userId)
    {
      if j >= |ps| && i >= |ps| && i > |ps| {
        assert all[i] == MemberRows(c, creator, ids, now)[i - |ps| - 1];
        assert all[j] == MemberRows(c, creator, ids, now)[j - |ps| - 1];
      }
    }
    forall i | 0 <= i < |all| ensures NamesConversation(cs + [g], all[i].conversationId) {
      var j := |cs|;
      if i < |ps| {
        assert all[i] == ps[i];
        j := ConversationRowOf(ps, cs, i);
      }
      assert (cs + [g])[j].conversationId == all[i].conversationId;
    }
  }

  lemma {:induction false} MemberRowsCount(c: int, creator: int, ids: seq<int>, now: int)
    ensures Count(MemberRows(c, creator, ids, now), ActiveIn(c)) == Count(ids, (m: int) => m != creator)
    decreases |ids|
  {
    if ids != [] {
      var init := ids[..|ids| - 1];
      var last := ids[|ids| - 1];
      MemberRowsCount(c, creator, init, now);
      assert ids == init + [last];
      CountAppend(init, [last], (m: int) => m != creator);
      var tail := if last != creator then [Participant(c, last, Member, true, now)] else [];
      CountAppend(MemberRows(c, creator, init, now), tail, ActiveIn(c));
    }
  }

  /** `member_count` of the new group: the creator plus one per listed id that is not the
      creator (on a database whose rows all belong to existing conversations). */
  lemma CreateGroupMemberCount(ps: seq<Participant>, cs: seq<Conversation>, creator: int, ids: seq<int>, now: int)
    requires InConversations(ps, cs)
    ensures var c := NextConversationId(cs);
      MemberCount(ps + CreateGroupRows(c, creator, ids, now), c) == 1 + Count(ids, (m: int) => m != creator)
  {
    var c := NextConversationId(cs);
    forall i | 0 <= i < |ps| ensures !ActiveIn(c)(ps[i]) {
      var j := ConversationRowOf(ps, cs, i);
    }
    var rows := CreateGroupRows(c, creator, ids, now);
    CountAppend(ps, rows, ActiveIn(c));
    CountAppend([rows[0]], MemberRows(c, creator, ids, now), ActiveIn(c));
    MemberRowsCount(c, creator, ids, now);
  }

  /** The create loop does not de-duplicate `memberIds`: a repeated id gets two rows. */
  lemma CreateGroupDuplicateIds(c: int, now: int)
    ensures !UniquePairs(CreateGroupRows(c, 1, [2, 2], now))
  {
    var r := CreateGroupRows(c, 1, [2, 2], now);
    assert [2, 2][..1] == [2];
    assert [2][..0] == [];
    assert r[1] == r[2];
  }

  /** The create loop: insert a `member` row for every listed id that is not the creator. */
  method InsertMembers(db: Db, c: int, creator: int, ids: seq<int>, now: int)
    modifies db`participants
    ensures db.participants == old(db.participants) + MemberRows(c, creator, ids, now)
  {
    for i := 0 to |ids|
      invariant db.participants == old(db.participants) + MemberRows(c, creator, ids[..i], now)
    {
      if ids[i] != creator {
        db.participants := db.participants + [Participant(c, ids[i], Member, true, now)];
      }
      assert ids[..i + 1][..i] == ids[..i];
    }
    assert ids[..|ids|] == ids;
  }

  /** POST /create. A blank name or a missing or empty member list is refused with nothing
      written; otherwise a group conversation is inserted with the trimmed name and
      `description || null`, followed by its participant rows. */
  method CreateGroup(db: Db, caller: int, groupName: Option<string>, memberIds: Option<seq<int>>,
                     description: Option<string>, now: int)
      returns (status: Status, conversationId: Option<int>, memberCount: nat)
    requires db.Valid()
    modifies db`conversations, db`participants
    ensures Blank(groupName) || memberIds.None? || memberIds.value == [] ==>
      status == BadRequest && conversationId == None && unchanged(db)
    ensures !(Blank(groupName) || memberIds.None? || memberIds.value == []) ==>
      var c := NextConversationId(old(db.conversations));
      status == Ok && conversationId == Some(c)
      && db.conversations == old(db.conversations) +
           [Conversation(c, Group, Some(Trim(groupName.value)), OrNull(description), None, Some(caller), now, now)]
      && db.participants == old(db.participants) + CreateGroupRows(c, caller, memberIds.value, now)
      && memberCount == 1 + Count(memberIds.value, (m: int) => m != caller)
    ensures (memberIds.Some? ==> NoDup(memberIds.value)) ==> db.Valid()
  {
    if Blank(groupName) || memberIds.None? || memberIds.value == [] {
      return BadRequest, None, 0;
    }
    var ids := memberIds.value;
    var c := InsertGroup(db, caller, Trim(groupName.value), OrNull(description), ids, now);
    CreateGroupMemberCount(old(db.participants), old(db.conversations), caller, ids, now);
    memberCount := MemberCount(db.participants, c);
    return Ok, Some(c), memberCount;
  }

  /** The writes of a group creation: the conversation row, the creator's `admin` row and the
      member rows. */
  method InsertGroup(db: Db, caller: int, name: string, description: Option<string>, ids: seq<int>, now: int)
      returns (c: int)
    requires db.Valid()
    modifies db`conversations, db`participants
    ensures c == NextConversationId(old(db.conversations))
    ensures db.conversations == old(db.conversations) + [Conversation(c, Group, Some(name), description, None, Some(caller), now, now)]
    ensures db.participants == old(db.participants) + CreateGroupRows(c, caller, ids, now)
    ensures NoDup(ids) ==> db.Valid()
  {
    c := NextConversationId(db.conversations);
    var g := Conversation(c, Group, Some(name), description, None, Some(caller), now, now);
    ghost var ps0 := db.participants;
    ghost var cs0 := db.conversations;
    db.conversations := db.conversations + [g];
    db.participants := db.participants + [Participant(c, caller, Admin, true, now)];
    InsertMembers(db, c, caller, ids, now);
    assert db.participants == ps0 + CreateGroupRows(c, caller, ids, now);
    if NoDup(ids) {
      CreateGroupKeepsValid(ps0, cs0, g, caller, ids, now);
    }
  }

  // ----- GET /:conversationId -----

  /** One row of the member list: the participant row joined with its user. */
  datatype MemberView = MemberView(
    userId: int, role: Role, joinedAt: int,
    username: string, displayName: string, fullName: Option<string>,
    avatarUrl: Option<string>, isOnline: bool)

  datatype GroupView = GroupView(group: Option<Conversation>, creator: Option<User>,
                                 members: seq<MemberView>, userRole: Role)

  function View(p: Participant, u: User): MemberView {
    MemberView(p.userId, p.role, p.joinedAt, u.username, u.displayName, u.fullName, u.avatarUrl, u.isOnline)
  }

  /** The active rows of `c` that join a user (`INNER JOIN Users`), in table order. */
  function ActiveMemberViews(ps: seq<Participant>, us: seq<User>, c: int): (r: seq<MemberView>)
    ensures forall j :: 0 <= j < |ps| && ActiveIn(c)(ps[j]) && FindUser(us, ps[j].userId).Some? ==>
      View(ps[j], FindUser(us, ps[j].userId).value) in r
  {
    if ps == [] then []
    else
      var rest := ActiveMemberViews(ps[1..], us, c);
      var u := FindUser(us, ps[0].userId);
      if ActiveIn(c)(ps[0]) && u.Some? then [View(ps[0], u.value)] + rest else rest
  }

  /** Every view comes from an active row of `c` joined with its user. */
  lemma {:induction false} ActiveMemberViewsSound(ps: seq<Participant>, us: seq<User>, c: int, m: MemberView)
    requires m in ActiveMemberViews(ps, us, c)
    ensures exists j :: (0 <= j < |ps| && ActiveIn(c)(ps[j]) && FindUser(us, ps[j].userId).Some?
                         && m == View(ps[j], FindUser(us, ps[j].userId).value))
  {
    var u := FindUser(us, ps[0].userId);
    if !(ActiveIn(c)(ps[0]) && u.Some? && m == View(ps[0], u.value)) {
      ActiveMemberViewsSound(ps[1..], us, c, m);
      var j :| 0 <= j < |ps[1..]| && ActiveIn(c)(ps[1..][j]) && FindUser(us, ps[1..][j].userId).Some?
               && m == View(ps[1..][j], FindUser(us, ps[1..][j].userId).value);
      assert ps[j + 1] == ps[1..][j];
    }
  }

  /** The rank `ORDER BY cp.role DESC` gives a role: the text 'member' sorts after 'admin',
      so descending order lists members first. */
  function RoleRank(r: Role): nat {
    match r
    case Member => 0
    case Admin => 1
  }

  lemma RoleRankIsTextDescending()
    ensures StrLe(RoleText(Admin), RoleText(Member)) && !StrLe(RoleText(Member), RoleText(Admin))
    ensures RoleRank(Member) < RoleRank(Admin)
  {
    assert RoleText(Admin)[0] == 'a' && RoleText(Member)[0] == 'm';
  }

  /** `ORDER BY cp.role DESC, cp.joined_at ASC`. */
  predicate MemberOrder(a: MemberView, b: MemberView) {
    RoleRank(a.role) < RoleRank(b.role) || (a.role == b.role && a.joinedAt <= b.joinedAt)
  }

  lemma MemberOrderIsTotalPreorder()
    ensures TotalPreorder(MemberOrder)
  {
  }

  /** GET /:conversationId: refused unless the caller has an active row; otherwise the
      conversation, its creator, the active members in list order and the caller's role. */
  function GetGroup(db: Db, caller: int, c: int): (r: Reply<GroupView>)
    reads db
    ensures r.Refused? <==> !IsActiveMember(db.participants, c, caller)
    ensures r.Refused? ==> r.status == Forbidden
    ensures r.Done? ==>
      Some(r.value.userRole) == ActiveRole(db.participants, c, caller)
      && r.value.group == FindConversation(db.conversations, c)
      && SortedBy(r.value.members, MemberOrder)
      && multiset(r.value.members) == multiset(ActiveMemberViews(db.participants, db.users, c))
  {
    match ActiveRole(db.participants, c, caller)
    case None => Refused(Forbidden)
    case Some(role) =>
      var group := FindConversation(db.conversations, c);
      var creator := if group.Some? && group.value.createdBy.Some? then FindUser(db.users, group.value.createdBy.value) else None;
      MemberOrderIsTotalPreorder();
      SortByIsSorted(ActiveMemberViews(db.participants, db.users, c), MemberOrder);
      Done(GroupView(group, creator, SortBy(ActiveMemberViews(db.participants, db.users, c), MemberOrder), role))
  }

  /** Every listed member has an active row in the group, under the role on that row. */
  lemma GetGroupListsActiveMembers(db: Db, caller: int, c: int, m: MemberView)
    requires GetGroup(db, caller, c).Done?
    requires m in GetGroup(db, caller, c).value.members
    ensures exists j :: (0 <= j < |db.participants| && IsPair(db.participants[j], c, m.userId)
                         && db.participants[j].isActive && db.participants[j].role == m.role)
  {
    var views := ActiveMemberViews(db.participants, db.users, c);
    assert m in multiset(GetGroup(db, caller, c).value.members);
    assert m in views;
    ActiveMemberViewsSound(db.participants, db.users, c, m);
  }

  // ----- add-members -----

  /** One iteration of the add-members loop: an existing row of the pair is reactivated with
      a new `joined_at`; otherwise an active `member` row is inserted. */
  function AddMember(ps: seq<Participant>, c: int, u: int, now: int): (r: seq<Participant>)
    ensures HasRow(r, c, u)
    ensures |ps| <= |r| <= |ps| + 1
  {
    if HasRow(ps, c, u) then
      var r := UpdateWhere(ps, (p: Participant) => IsPair(p, c, u), (p: Participant) => p.(isActive := true, joinedAt := now));
      var k :| 0 <= k < |ps| && IsPair(ps[k], c, u);
      assert IsPair(r[k], c, u);
      r
    else
      var r := ps + [Participant(c, u, Member, true, now)];
      assert IsPair(r[|ps|], c, u);
      r
  }

  /** The table after the add-members loop has run over `ids` in order. */
  function AddAll(ps: seq<Participant>, c: int, ids: seq<int>, now: int): (r: seq<Participant>)
    ensures |ps| <= |r| <= |ps| + |ids|
    ensures ids != [] ==> HasRow(r, c, ids[|ids| - 1])
    decreases |ids|
  {
    if ids == [] then ps else AddMember(AddAll(ps, c, ids[..|ids| - 1], now), c, ids[|ids| - 1], now)
  }

  lemma AddMemberKeepsUnique(ps: seq<Participant>, c: int, u: int, now: int)
    requires UniquePairs(ps)
    ensures UniquePairs(AddMember(ps, c, u, now))
  {
  }

  /** After one add the pair is active, under its old role, or as a new `member`. */
  lemma AddMemberOwnRow(ps: seq<Participant>, c: int, u: int, now: int)
    requires UniquePairs(ps)
    ensures var role := if HasRow(ps, c, u) then RowRole(ps, c, u).value else Member;
      ActiveRole(AddMember(ps, c, u, now), c, u) == Some(role)
      && RowRole(AddMember(ps, c, u, now), c, u) == Some(role)
    ensures forall i :: 0 <= i < |AddMember(ps, c, u, now)| && IsPair(AddMember(ps, c, u, now)[i], c, u) ==>
      AddMember(ps, c, u, now)[i].isActive && AddMember(ps, c, u, now)[i].joinedAt == now
  {
    var r := AddMember(ps, c, u, now);
    AddMemberKeepsUnique(ps, c, u, now);
    if HasRow(ps, c, u) {
      var k :| 0 <= k < |ps| && IsPair(ps[k], c, u);
      RowRoleUnique(ps, c, u, k);
      RowRoleUnique(r, c, u, k);
      ActiveRoleUnique(r, c, u, k);
    } else {
      RowRoleUnique(r, c, u, |ps|);
      ActiveRoleUnique(r, c, u, |ps|);
    }
  }

  /** One add does not touch any other pair. */
  lemma AddMemberOthers(ps: seq<Participant>, c: int, u: int, now: int, c2: int, u2: int)
    requires !(c2 == c && u2 == u)
    ensures var r := AddMember(ps, c, u, now);
      ActiveRole(r, c2, u2) == ActiveRole(ps, c2, u2)
      && RowRole(r, c2, u2) == RowRole(ps, c2, u2)
      && (HasRow(ps, c2, u2) ==> HasRow(r, c2, u2))
  {
    var r := AddMember(ps, c, u, now);
    var P := (p: Participant) => IsPair(p, c2, u2) && p.isActive;
    var Q := (p: Participant) => IsPair(p, c2, u2);
    if HasRow(ps, c, u) {
      FirstIndexAgree(ps, r, P);
      FirstIndexAgree(ps, r, Q);
    } else {
      FindFirstAppend(ps, [Participant(c, u, Member, true, now)], P);
      FindFirstAppend(ps, [Participant(c, u, Member, true, now)], Q);
    }
  }

  /** The add-members loop keeps one row per pair. */
  lemma {:induction false} AddAllKeepsUnique(ps: seq<Participant>, c: int, ids: seq<int>, now: int)
    requires UniquePairs(ps)
    ensures UniquePairs(AddAll(ps, c, ids, now))
    decreases |ids|
  {
    if ids != [] {
      AddAllKeepsUnique(ps, c, ids[..|ids| - 1], now);
      AddMemberKeepsUnique(AddAll(ps, c, ids[..|ids| - 1], now), c, ids[|ids| - 1], now);
    }
  }

  /** Pairs outside the request keep their membership and their role; rows are never lost. */
  lemma {:induction false} AddAllOthers(ps: seq<Participant>, c: int, ids: seq<int>, now: int, c2: int, u2: int)
    requires !(c2 == c && u2 in ids)
    ensures var r := AddAll(ps, c, ids, now);
      ActiveRole(r, c2, u2) == ActiveRole(ps, c2, u2)
      && RowRole(r, c2, u2) == RowRole(ps, c2, u2)
    decreases |ids|
  {
    if ids != [] {
      var init := ids[..|ids| - 1];
      assert u2 in init ==> u2 in ids;
      AddAllOthers(ps, c, init, now, c2, u2);
      AddMemberOthers(AddAll(ps, c, init, now), c, ids[|ids| - 1], now, c2, u2);
    }
  }

  lemma {:induction false} AddAllKeepsRows(ps: seq<Participant>, c: int, ids: seq<int>, now: int, c2: int, u2: int)
    requires HasRow(ps, c2, u2)
    ensures HasRow(AddAll(ps, c, ids, now), c2, u2)
    decreases |ids|
  {
    if ids != [] {
      var init := ids[..|ids| - 1];
      AddAllKeepsRows(ps, c, init, now, c2, u2);
      if !(c2 == c && u2 == ids[|ids| - 1]) {
        AddMemberOthers(AddAll(ps, c, init, now), c, ids[|ids| - 1], now, c2, u2);
      }
    }
  }

  /** Afterwards every requested id is an active participant; one that already had a row
      keeps its role, and a new one is a `member`. */
  lemma {:induction false} AddAllRequested(ps: seq<Participant>, c: int, ids: seq<int>, now: int, k: nat)
    requires UniquePairs(ps)
    requires k < |ids|
    ensures var r := AddAll(ps, c, ids, now);
      IsActiveMember(r, c, ids[k])
      && RowRole(r, c, ids[k]) == if HasRow(ps, c, ids[k]) then RowRole(ps, c, ids[k]) else Some(Member)
    decreases |ids|
  {
    var init := ids[..|ids| - 1];
    var last := ids[|ids| - 1];
    var mid := AddAll(ps, c, init, now);
    AddAllKeepsUnique(ps, c, init, now);
    AddMemberOwnRow(mid, c, last, now);
    if k < |ids| - 1 {
      assert init[k] == ids[k];
      AddAllRequested(ps, c, init, now, k);
      if ids[k] != last {
        AddMemberOthers(mid, c, last, now, c, ids[k]);
      }
    } else if last in init {
      var k2 :| 0 <= k2 < |init| && init[k2] == last;
      AddAllRequested(ps, c, init, now, k2);
    } else {
      AddAllOthers(ps, c, init, now, c, last);
      if HasRow(ps, c, last) {
        AddAllKeepsRows(ps, c, init, now, c, last);
      } else {
        assert !HasRow(mid, c, last);
      }
    }
  }

  /** An add keeps every row inside an existing conversation when `c` exists. */
  lemma {:induction false} AddAllInConversations(ps: seq<Participant>, cs: seq<Conversation>, c: int, ids: seq<int>, now: int)
    requires InConversations(ps, cs)
    requires NamesConversation(cs, c)
    ensures InConversations(AddAll(ps, c, ids, now), cs)
    decreases |ids|
  {
    if ids != [] {
      AddAllInConversations(ps, cs, c, ids[..|ids| - 1], now);
    }
  }

  /** POST /:conversationId/add-members. A missing or empty list is refused; a caller that
      is not an active admin of the group is refused; otherwise each id is added in turn and
      `added` lists every requested id. */
  method AddMembers(db: Db, caller: int, c: int, memberIds: Option<seq<int>>, now: int)
      returns (status: Status, added: seq<int>)
    requires db.Valid()
    modifies db`participants
    ensures db.Valid()
    ensures memberIds.None? || memberIds.value == [] ==> status == BadRequest && unchanged(db)
    ensures memberIds.Some? && memberIds.value != [] && !IsActiveAdmin(old(db.participants), c, caller) ==>
      status == Forbidden && unchanged(db)
    ensures memberIds.Some? && memberIds.value != [] && IsActiveAdmin(old(db.participants), c, caller) ==>
      status == Ok && added == memberIds.value
      && db.participants == AddAll(old(db.participants), c, memberIds.value, now)
  {
    added := [];
    if memberIds.None? || memberIds.value == [] {
      return BadRequest, added;
    }
    if !IsActiveAdmin(db.participants, c, caller) {
      return Forbidden, added;
    }
    ghost var ps0 := db.participants;
    var ids := memberIds.value;
    for i := 0 to |ids|
      invariant db.participants == AddAll(ps0, c, ids[..i], now)
      invariant added == ids[..i]
    {
      assert ids[..i + 1][..i] == ids[..i];
      db.participants := AddMember(db.participants, c, ids[i], now);
      added := added + [ids[i]];
    }
    assert ids[..|ids|] == ids;
    AddAllKeepsUnique(ps0, c, ids, now);
    ghost var k :| 0 <= k < |ps0| && IsPair(ps0[k], c, caller) && ps0[k].isActive;
    ghost var j := ConversationRowOf(ps0, db.conversations, k);
    AddAllInConversations(ps0, db.conversations, c, ids, now);
    return Ok, added;
  }

  // ----- remove-member, leave -----

  /** POST /:conversationId/remove-member. A missing id is refused, then a caller that is not
      an active admin, then removing oneself; otherwise the target's row is deactivated. */
  method RemoveMember(db: Db, caller: int, c: int, memberId: Option<int>)
      returns (status: Status)
    requires db.Valid()
    modifies db`participants
    ensures db.Valid()
    ensures !PresentId(memberId) ==> status == BadRequest && unchanged(db)
    ensures PresentId(memberId) && !IsActiveAdmin(old(db.participants), c, caller) ==>
      status == Forbidden && unchanged(db)
    ensures PresentId(memberId) && IsActiveAdmin(old(db.participants), c, caller) && memberId.value == caller ==>
      status == BadRequest && unchanged(db)
    ensures PresentId(memberId) && IsActiveAdmin(old(db.participants), c, caller) && memberId.value != caller ==>
      status == Ok && db.participants == SetActive(old(db.participants), c, memberId.value, false)
  {
    if !PresentId(memberId) {
      return BadRequest;
    }
    if !IsActiveAdmin(db.participants, c, caller) {
      return Forbidden;
    }
    if memberId.value == caller {
      return BadRequest;
    }
    SetActiveKeepsPairs(db.participants, c, memberId.value, false);
    SetActiveKeepsIn(db.participants, db.conversations, c, memberId.value, false);
    db.participants := SetActive(db.participants, c, memberId.value, false);
    return Ok;
  }

  /** True when the conversation row exists and its `created_by` is the user. */
  predicate IsCreator(cs: seq<Conversation>, c: int, u: int) {
    FindConversation(cs, c).Some? && FindConversation(cs, c).value.createdBy == Some(u)
  }

  /** POST /:conversationId/leave. The creator is refused; anyone else has their own row
      deactivated (no membership check is made). */
  method Leave(db: Db, caller: int, c: int) returns (status: Status)
    requires db.Valid()
    modifies db`participants
    ensures db.Valid()
    ensures IsCreator(db.conversations, c, caller) ==> status == BadRequest && unchanged(db)
    ensures !IsCreator(db.conversations, c, caller) ==>
      status == Ok && db.participants == SetActive(old(db.participants), c, caller, false)
  {
    if IsCreator(db.conversations, c, caller) {
      return BadRequest;
    }
    SetActiveKeepsPairs(db.participants, c, caller, false);
    SetActiveKeepsIn(db.participants, db.conversations, c, caller, false);
    db.participants := SetActive(db.participants, c, caller, false);
    return Ok;
  }

  // ----- name, upload-avatar -----

  /** PUT /:conversationId/name. A blank name is refused, then a caller that is not an active
      admin; otherwise the group's name becomes the trimmed input and `updated_at` is bumped. */
  method Rename(db: Db, caller: int, c: int, groupName: Option<string>, now: int) returns (status: Status)
    requires db.Valid()
    modifies db`conversations
    ensures db.Valid()
    ensures Blank(groupName) ==> status == BadRequest && unchanged(db)
    ensures !Blank(groupName) && !IsActiveAdmin(db.participants, c, caller) ==> status == Forbidden && unchanged(db)
    ensures !Blank(groupName) && IsActiveAdmin(db.participants, c, caller) ==>
      status == Ok && |db.conversations| == |old(db.conversations)|
      && (forall i :: 0 <= i < |old(db.conversations)| ==>
            db.conversations[i] == if old(db.conversations)[i].conversationId == c
                                   then old(db.conversations)[i].(groupName := Some(Trim(groupName.value)), updatedAt := now)
                                   else old(db.conversations)[i])
  {
    if Blank(groupName) {
      return BadRequest;
    }
    if !IsActiveAdmin(db.participants, c, caller) {
      return Forbidden;
    }
    var name := Trim(groupName.value);
    ghost var cs0 := db.conversations;
    db.conversations := UpdateConversation(db.conversations, c, (x: Conversation) => x.(groupName := Some(name), updatedAt := now));
    assert forall i :: 0 <= i < |cs0| ==> db.conversations[i].conversationId == cs0[i].conversationId;
    return Ok;
  }

  /** POST /:conversationId/upload-avatar. A missing URL is refused, then a caller that is not
      an active admin; otherwise the group's avatar is set and `updated_at` is bumped. */
  method UploadAvatar(db: Db, caller: int, c: int, avatarUrl: Option<string>, now: int) returns (status: Status)
    requires db.Valid()
    modifies db`conversations
    ensures db.Valid()
    ensures !Present(avatarUrl) ==> status == BadRequest && unchanged(db)
    ensures Present(avatarUrl) && !IsActiveAdmin(db.participants, c, caller) ==> status == Forbidden && unchanged(db)
    ensures Present(avatarUrl) && IsActiveAdmin(db.participants, c, caller) ==>
      status == Ok && |db.conversations| == |old(db.conversations)|
      && (forall i :: 0 <= i < |old(db.conversations)| ==>
            db.conversations[i] == if old(db.conversations)[i].conversationId == c
                                   then old(db.conversations)[i].(groupAvatarUrl := avatarUrl, updatedAt := now)
                                   else old(db.conversations)[i])
  {
    if !Present(avatarUrl) {
      return BadRequest;
    }
    if !IsActiveAdmin(db.participants, c, caller) {
      return Forbidden;
    }
    ghost var cs0 := db.conversations;
    db.conversations := UpdateConversation(db.conversations, c, (x: Conversation) => x.(groupAvatarUrl := avatarUrl, updatedAt := now));
    assert forall i :: 0 <= i < |cs0| ==> db.conversations[i].conversationId == cs0[i].conversationId;
    return Ok;
  }

  // ----- promote -----

  /** `UPDATE ConversationParticipants SET role = 'admin' WHERE conversation_id = c AND user_id = m`. */
  function PromoteRows(ps: seq<Participant>, c: int, m: int): (r: seq<Participant>)
    ensures |r| == |ps|
  {
    UpdateWhere(ps, (p: Participant) => IsPair(p, c, m), (p: Participant) => p.(role := Admin))
  }

  lemma PromoteKeepsUnique(ps: seq<Participant>, c: int, m: int)
    requires UniquePairs(ps)
    ensures UniquePairs(PromoteRows(ps, c, m))
  {
  }

  /** Promotion makes the target's row, active or not, an `admin` row. */
  lemma PromoteTarget(ps: seq<Participant>, c: int, m: int)
    requires UniquePairs(ps)
    ensures RowRole(PromoteRows(ps, c, m), c, m) == if HasRow(ps, c, m) then Some(Admin) else None
  {
    var r := PromoteRows(ps, c, m);
    if HasRow(ps, c, m) {
      var k :| 0 <= k < |ps| && IsPair(ps[k], c, m);
      PromoteKeepsUnique(ps, c, m);
      RowRoleUnique(r, c, m, k);
    } else {
      assert !HasRow(r, c, m);
    }
  }

  /** Promotion never changes who is active. */
  lemma PromoteKeepsMembership(ps: seq<Participant>, c: int, m: int, c2: int, u2: int)
    ensures IsActiveMember(PromoteRows(ps, c, m), c2, u2) <==> IsActiveMember(ps, c2, u2)
  {
    var r := PromoteRows(ps, c, m);
    if IsActiveMember(ps, c2, u2) {
      var j :| 0 <= j < |ps| && IsPair(ps[j], c2, u2) && ps[j].isActive;
      assert IsPair(r[j], c2, u2) && r[j].isActive;
    }
    if IsActiveMember(r, c2, u2) {
      var j :| 0 <= j < |r| && IsPair(r[j], c2, u2) && r[j].isActive;
      assert IsPair(ps[j], c2, u2) && ps[j].isActive;
    }
  }

  /** Promotion leaves every other pair's role alone. */
  lemma PromoteOthers(ps: seq<Participant>, c: int, m: int, c2: int, u2: int)
    requires !(c2 == c && u2 == m)
    ensures ActiveRole(PromoteRows(ps, c, m), c2, u2) == ActiveRole(ps, c2, u2)
  {
    FirstIndexAgree(ps, PromoteRows(ps, c, m), (p: Participant) => IsPair(p, c2, u2) && p.isActive);
  }

  /** POST /:conversationId/promote. A missing id is refused, then a caller that is not an
      active admin; otherwise the target's row gets role `admin`. */
  method Promote(db: Db, caller: int, c: int, memberId: Option<int>) returns (status: Status)
    requires db.Valid()
    modifies db`participants
    ensures db.Valid()
    ensures !PresentId(memberId) ==> status == BadRequest && unchanged(db)
    ensures PresentId(memberId) && !IsActiveAdmin(old(db.participants), c, caller) ==>
      status == Forbidden && unchanged(db)
    ensures PresentId(memberId) && IsActiveAdmin(old(db.participants), c, caller) ==>
      status == Ok && db.participants == PromoteRows(old(db.participants), c, memberId.value)
  {
    if !PresentId(memberId) {
      return BadRequest;
    }
    if !IsActiveAdmin(db.participants, c, caller) {
      return Forbidden;
    }
    PromoteKeepsUnique(db.participants, c, memberId.value);
    db.participants := PromoteRows(db.participants, c, memberId.value);
    return Ok;
  }
}
