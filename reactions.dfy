/** Message reactions (backend/routes/reactions.js): the `/react` toggle, `DELETE /react`,
    and the per-emoji aggregate `getMessageReactions`. A reaction row is the tuple
    (message, user, emoji); the table is a sequence of such rows. */
module Reactions {
  import opened Common
  import opened Query
  import opened Tables

  /** One entry of a reactions list: an emoji, how many rows carry it, and who reacted. */
  datatype EmojiSummary = EmojiSummary(emoji: string, count: nat, userIds: seq<int>)

  /** The `action` field of the /react answer. */
  datatype Action = Added | Removed

  // ----- GROUP BY emoji -----

  /** The distinct values of `s`, each at its first occurrence. */
  function Distinct(s: seq<string>): (r: seq<string>)
    ensures NoDup(r)
    ensures forall x :: x in r <==> x in s
    decreases |s|
  {
    if s == [] then []
    else
      var d := Distinct(s[..|s| - 1]);
      var last := s[|s| - 1];
      assert forall x :: x in s <==> x in s[..|s| - 1] || x == last by {
        assert s == s[..|s| - 1] + [last];
      }
      if last in d then d else d + [last]
  }

  function EmojiColumn(rs: seq<Reaction>): (r: seq<string>)
    ensures |r| == |rs|
    ensures forall i :: 0 <= i < |rs| ==> r[i] == rs[i].emoji
  {
    seq(|rs|, i requires 0 <= i < |rs| => rs[i].emoji)
  }

  /** The users of the rows carrying emoji `e`, in table order (`STRING_AGG(user_id)`). */
  function UsersWith(rs: seq<Reaction>, e: string): (r: seq<int>)
    ensures |r| == Count(rs, (x: Reaction) => x.emoji == e)
    ensures forall u :: u in r <==> exists i :: 0 <= i < |rs| && rs[i].emoji == e && rs[i].userId == u
  {
    if rs == [] then []
    else
      var rest := UsersWith(rs[1..], e);
      assert forall i :: 0 <= i < |rs[1..]| ==> rs[1..][i] == rs[i + 1];
      if rs[0].emoji == e then [rs[0].userId] + rest else rest
  }

  /** `SELECT emoji, COUNT(*), STRING_AGG(user_id) ... GROUP BY emoji`, one entry per
      distinct emoji in order of first appearance. */
  function Groups(rs: seq<Reaction>): (r: seq<EmojiSummary>)
    ensures |r| == |Distinct(EmojiColumn(rs))|
    ensures forall i :: 0 <= i < |r| ==> r[i].emoji == Distinct(EmojiColumn(rs))[i]
    ensures forall i, j :: 0 <= i < j < |r| ==> r[i].emoji != r[j].emoji
  {
    var es := Distinct(EmojiColumn(rs));
    seq(|es|, i requires 0 <= i < |es| =>
      EmojiSummary(es[i], |UsersWith(rs, es[i])|, UsersWith(rs, es[i])))
  }

  /** An emoji has a group entry exactly when some row carries it. */
  lemma GroupsCover(rs: seq<Reaction>, e: string)
    ensures (exists i :: 0 <= i < |Groups(rs)| && Groups(rs)[i].emoji == e)
        <==> (exists k :: 0 <= k < |rs| && rs[k].emoji == e)
  {
    var g := Groups(rs);
    var es := Distinct(EmojiColumn(rs));
    if exists k :: 0 <= k < |rs| && rs[k].emoji == e {
      var k :| 0 <= k < |rs| && rs[k].emoji == e;
      assert EmojiColumn(rs)[k] == e;
      assert e in es;
      var i :| 0 <= i < |es| && es[i] == e;
      assert g[i].emoji == e;
    }
    if exists i :: 0 <= i < |g| && g[i].emoji == e {
      var i :| 0 <= i < |g| && g[i].emoji == e;
      assert e in EmojiColumn(rs);
      var k :| 0 <= k < |rs| && EmojiColumn(rs)[k] == e;
    }
  }

  /** A group entry's count is the number of rows carrying its emoji, at least one, and its
      users are exactly those who reacted with it. */
  lemma GroupsEntry(rs: seq<Reaction>, i: nat, u: int)
    requires i < |Groups(rs)|
    ensures var s := Groups(rs)[i];
      s.count == |s.userIds| == Count(rs, (x: Reaction) => x.emoji == s.emoji) && s.count > 0
      && (u in s.userIds <==> exists k :: 0 <= k < |rs| && rs[k].emoji == s.emoji && rs[k].userId == u)
  {
    var s := Groups(rs)[i];
    var es := Distinct(EmojiColumn(rs));
    assert es[i] in EmojiColumn(rs);
    var k :| 0 <= k < |rs| && EmojiColumn(rs)[k] == es[i];
    assert rs[k].userId in s.userIds;
  }

  /** `ORDER BY COUNT(*) DESC`. */
  predicate CountDesc(a: EmojiSummary, b: EmojiSummary) {
    a.count >= b.count
  }

  predicate OnMessage(m: int, r: Reaction) {
    r.messageId == m
  }

  /** `getMessageReactions`: the groups of the message's rows, sorted by count, highest first. */
  function MessageReactions(rs: seq<Reaction>, m: int): (r: seq<EmojiSummary>)
    ensures SortedBy(r, CountDesc)
    ensures multiset(r) == multiset(Groups(Filter(rs, (x: Reaction) => OnMessage(m, x))))
  {
    assert TotalPreorder(CountDesc);
    SortByIsSorted(Groups(Filter(rs, (x: Reaction) => OnMessage(m, x))), CountDesc);
    SortBy(Groups(Filter(rs, (x: Reaction) => OnMessage(m, x))), CountDesc)
  }

  /** A reaction list entry names exactly the users that reacted to the message with that emoji. */
  lemma MessageReactionsUsers(rs: seq<Reaction>, m: int, s: EmojiSummary, u: int)
    requires s in MessageReactions(rs, m)
    ensures s.count == |s.userIds| && s.count > 0
    ensures u in s.userIds <==> Reaction(m, u, s.emoji) in rs
  {
    var f := Filter(rs, (x: Reaction) => OnMessage(m, x));
    var g := Groups(f);
    assert s in multiset(MessageReactions(rs, m));
    assert s in g;
    var i :| 0 <= i < |g| && g[i] == s;
    GroupsEntry(f, i, u);
    FilterTuple(rs, m, u, s.emoji);
  }

  lemma FilterTuple(rs: seq<Reaction>, m: int, u: int, e: string)
    ensures var f := Filter(rs, (x: Reaction) => OnMessage(m, x));
      (exists k :: 0 <= k < |f| && f[k].emoji == e && f[k].userId == u) <==> Reaction(m, u, e) in rs
  {
    var f := Filter(rs, (x: Reaction) => OnMessage(m, x));
    var t := Reaction(m, u, e);
    FilterMultiset(rs, (x: Reaction) => OnMessage(m, x), t);
    assert t in f <==> t in rs by {
      assert t in multiset(f) <==> t in multiset(rs);
    }
    if exists k :: 0 <= k < |f| && f[k].emoji == e && f[k].userId == u {
      var k :| 0 <= k < |f| && f[k].emoji == e && f[k].userId == u;
      assert f[k] == t;
    }
    if t in f {
      var k :| 0 <= k < |f| && f[k] == t;
      assert f[k].emoji == e && f[k].userId == u;
    }
  }

  // ----- POST /:messageId/react -----

  /** The toggle: delete the first row of the tuple when there is one, otherwise insert it. */
  function ToggleRows(rs: seq<Reaction>, m: int, u: int, e: string): (r: seq<Reaction>)
    ensures Reaction(m, u, e) in rs ==> |r| == |rs| - 1 && multiset(r) == multiset(rs) - multiset{Reaction(m, u, e)}
    ensures Reaction(m, u, e) !in rs ==> r == rs + [Reaction(m, u, e)]
  {
    var t := Reaction(m, u, e);
    if t in rs then RemoveAt(rs, FirstIndex(rs, (x: Reaction) => x == t)) else rs + [t]
  }

  lemma ToggleKeepsNoDup(rs: seq<Reaction>, m: int, u: int, e: string)
    requires NoDup(rs)
    ensures NoDup(ToggleRows(rs, m, u, e))
  {
    var t := Reaction(m, u, e);
    if t in rs {
      RemoveAtNoDup(rs, FirstIndex(rs, (x: Reaction) => x == t));
    }
  }

  /** On a table without repeated tuples, the toggle flips whether the tuple is present and
      leaves every other tuple as it was. */
  lemma ToggleFlips(rs: seq<Reaction>, m: int, u: int, e: string, x: Reaction)
    requires NoDup(rs)
    ensures var t := Reaction(m, u, e);
      (t in ToggleRows(rs, m, u, e) <==> t !in rs)
      && (x != t ==> multiset(ToggleRows(rs, m, u, e))[x] == multiset(rs)[x])
  {
    var t := Reaction(m, u, e);
    var r := ToggleRows(rs, m, u, e);
    if t in rs {
      NoDupMultiplicity(rs, t);
      assert t !in multiset(r);
    } else {
      assert r[|rs|] == t;
    }
  }

  /** Reacting twice with the same emoji restores the reaction rows: exactly when the
      tuple was absent, and up to order when it was present. */
  lemma ToggleTwice(rs: seq<Reaction>, m: int, u: int, e: string)
    requires NoDup(rs)
    ensures multiset(ToggleRows(ToggleRows(rs, m, u, e), m, u, e)) == multiset(rs)
    ensures Reaction(m, u, e) !in rs ==> ToggleRows(ToggleRows(rs, m, u, e), m, u, e) == rs
  {
    var t := Reaction(m, u, e);
    var once := ToggleRows(rs, m, u, e);
    ToggleFlips(rs, m, u, e, t);
    if t in rs {
      assert multiset(once) == multiset(rs) - multiset{t};
      assert multiset(ToggleRows(once, m, u, e)) == multiset(once) + multiset{t};
    } else {
      var k := FirstIndex(once, (x: Reaction) => x == t);
      assert once[|rs|] == t;
      assert forall j :: 0 <= j < |rs| ==> once[j] != t;
      assert k == |rs|;
      assert once[..k] == rs;
    }
  }

  /** POST /:messageId/react. A missing emoji is refused, then an unknown message; otherwise
      the tuple is toggled and the message's reactions after the change are returned. */
  method React(db: Db, caller: int, messageId: int, emoji: Option<string>)
      returns (status: Status, action: Option<Action>, reactions: seq<EmojiSummary>)
    modifies db`reactions
    ensures !Present(emoji) ==> status == BadRequest && action == None && unchanged(db)
    ensures Present(emoji) && FindMessage(db.messages, messageId).None? ==>
      status == NotFound && action == None && unchanged(db)
    ensures Present(emoji) && FindMessage(db.messages, messageId).Some? ==>
      status == Ok
      && action == Some(if Reaction(messageId, caller, emoji.value) in old(db.reactions) then Removed else Added)
      && db.reactions == ToggleRows(old(db.reactions), messageId, caller, emoji.value)
      && reactions == MessageReactions(db.reactions, messageId)
    ensures NoDup(old(db.reactions)) ==> NoDup(db.reactions)
  {
    if !Present(emoji) {
      return BadRequest, None, [];
    }
    if FindMessage(db.messages, messageId).None? {
      return NotFound, None, [];
    }
    if NoDup(db.reactions) {
      ToggleKeepsNoDup(db.reactions, messageId, caller, emoji.value);
    }
    var t := Reaction(messageId, caller, emoji.value);
    if t in db.reactions {
      db.reactions := RemoveAt(db.reactions, FirstIndex(db.reactions, (x: Reaction) => x == t));
      action := Some(Removed);
    } else {
      db.reactions := db.reactions + [t];
      action := Some(Added);
    }
    reactions := MessageReactions(db.reactions, messageId);
    status := Ok;
  }

  // ----- GET /:messageId/reactions, DELETE /:messageId/react -----

  /** GET /:messageId/reactions (no check that the message exists). */
  function GetReactions(db: Db, messageId: int): (r: seq<EmojiSummary>)
    reads db
    ensures r == MessageReactions(db.reactions, messageId)
    ensures SortedBy(r, CountDesc)
    ensures multiset(r) == multiset(Groups(Filter(db.reactions, (x: Reaction) => OnMessage(messageId, x))))
    ensures r == [] <==> forall i :: 0 <= i < |db.reactions| ==> db.reactions[i].messageId != messageId
  {
    var f := Filter(db.reactions, (x: Reaction) => OnMessage(messageId, x));
    assert Groups(f) == [] <==> f == [] by {
      if f != [] { GroupsCover(f, f[0].emoji); }
    }
    assert f == [] <==> forall i :: 0 <= i < |db.reactions| ==> db.reactions[i].messageId != messageId by {
      if f != [] { assert f[0] in db.reactions; }
    }
    assert |MessageReactions(db.reactions, messageId)| == |Groups(f)| by {
      assert |multiset(MessageReactions(db.reactions, messageId))| == |multiset(Groups(f))|;
    }
    MessageReactions(db.reactions, messageId)
  }

  /** The row filter of `DELETE FROM MessageReactions WHERE message_id = m AND user_id = u
      AND emoji = e`; a missing emoji is SQL NULL and matches no row. */
  function RemoveRows(rs: seq<Reaction>, m: int, u: int, emoji: Option<string>): (r: seq<Reaction>)
    ensures IsSubseq(r, rs)
    ensures emoji.Some? ==> Reaction(m, u, emoji.value) !in r
  {
    FilterSubseq(rs, (x: Reaction) => !(emoji.Some? && x == Reaction(m, u, emoji.value)));
    Filter(rs, (x: Reaction) => !(emoji.Some? && x == Reaction(m, u, emoji.value)))
  }

  /** The delete removes every copy of the tuple and nothing else, and is a no-op when the
      emoji is missing. */
  lemma RemoveRowsEffect(rs: seq<Reaction>, m: int, u: int, emoji: Option<string>, x: Reaction)
    ensures emoji.Some? && x == Reaction(m, u, emoji.value) ==> x !in RemoveRows(rs, m, u, emoji)
    ensures !(emoji.Some? && x == Reaction(m, u, emoji.value)) ==>
      multiset(RemoveRows(rs, m, u, emoji))[x] == multiset(rs)[x]
    ensures emoji.None? ==> RemoveRows(rs, m, u, emoji) == rs
  {
    var p := (y: Reaction) => !(emoji.Some? && y == Reaction(m, u, emoji.value));
    FilterMultiset(rs, p, x);
    if emoji.None? {
      FilterIdentity(rs, p);
    }
  }

  /** DELETE /:messageId/react: remove the caller's tuple when present and return what is left. */
  method RemoveReaction(db: Db, caller: int, messageId: int, emoji: Option<string>)
      returns (status: Status, reactions: seq<EmojiSummary>)
    modifies db`reactions
    ensures status == Ok
    ensures db.reactions == RemoveRows(old(db.reactions), messageId, caller, emoji)
    ensures reactions == MessageReactions(db.reactions, messageId)
  {
    db.reactions := RemoveRows(db.reactions, messageId, caller, emoji);
    reactions := MessageReactions(db.reactions, messageId);
    status := Ok;
  }
}
