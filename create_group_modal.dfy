/** The group creation dialog of frontend/src/components/CreateGroupModal.js: the member
    search over the user directory, the selection of members, and the checks before the
    group is submitted. The directory load, the alerts and the `group-created` event are not
    modelled. */
module CreateGroupModal {
  import opened Common
  import opened Query

  /** A directory row as the dialog reads it (`username` is never null). */
  datatype Candidate = Candidate(userId: int, username: string, displayName: Option<string>, fullName: Option<string>)

  /** The `filteredUsers` test: an empty search shows everyone, otherwise a case-insensitive
      substring of the username, the display name or the full name; a null name never
      matches. */
  predicate Shown(u: Candidate, search: string) {
    search == ""
    || Like(u.username, search)
    || (u.displayName.Some? && Like(u.displayName.value, search))
    || (u.fullName.Some? && Like(u.fullName.value, search))
  }

  function FilteredUsers(all: seq<Candidate>, search: string): (r: seq<Candidate>)
    ensures forall i :: 0 <= i < |r| ==> r[i] in all && Shown(r[i], search)
    ensures forall i :: 0 <= i < |all| && Shown(all[i], search) ==> all[i] in r
    ensures forall u :: multiset(r)[u] == if Shown(u, search) then multiset(all)[u] else 0
    ensures IsSubseq(r, all)
  {
    FilterMultisets(all, (u: Candidate) => Shown(u, search));
    FilterSubseq(all, (u: Candidate) => Shown(u, search));
    Filter(all, (u: Candidate) => Shown(u, search))
  }

  /** An empty search lists the whole directory, in its order. */
  lemma EmptySearchShowsAll(all: seq<Candidate>)
    ensures FilteredUsers(all, "") == all
  {
    FilterIdentity(all, (u: Candidate) => Shown(u, ""));
  }

  /** Upper and lower case in the search do not matter. */
  lemma SearchIgnoresCase(u: Candidate, search: string)
    ensures Shown(u, search) <==> Shown(u, ToLower(search))
  {
    ToLowerIdempotent(search);
    if search != "" {
      assert ToLower(search) != "";
    }
  }

  lemma ToLowerIdempotent(s: string)
    ensures ToLower(ToLower(s)) == ToLower(s)
  {
  }

  /** `toggleMember`: a selected id is removed, an unselected one appended. */
  function Toggled(selected: seq<int>, userId: int): (r: seq<int>)
    ensures userId in selected ==> userId !in r && forall x :: x in r <==> x in selected && x != userId
    ensures userId !in selected ==> r == selected + [userId]
  {
    if userId in selected then Filter(selected, (id: int) => id != userId) else selected + [userId]
  }

  /** A selection without duplicates stays without duplicates. */
  lemma ToggleKeepsNoDup(selected: seq<int>, userId: int)
    requires NoDup(selected)
    ensures NoDup(Toggled(selected, userId))
  {
    var r := Toggled(selected, userId);
    if userId in selected {
      var p := (id: int) => id != userId;
      forall x ensures multiset(r)[x] <= 1 {
        FilterMultiset(selected, p, x);
        NoDupMultiplicity(selected, x);
      }
      MultiplicityNoDup(r);
    } else {
      forall i, j | 0 <= i < j < |r| ensures r[i] != r[j] {
        if j == |selected| {
          assert r[i] == selected[i];
        }
      }
    }
  }

  /** Selecting an unselected user and unselecting them again restores the selection. */
  lemma ToggleTwice(selected: seq<int>, userId: int)
    requires userId !in selected
    ensures Toggled(Toggled(selected, userId), userId) == selected
  {
    var p := (id: int) => id != userId;
    FilterAppend(selected, [userId], p);
    FilterIdentity(selected, p);
    assert Filter([userId], p) == [];
  }

  lemma MultiplicityNoDup(s: seq<int>)
    requires forall x :: multiset(s)[x] <= 1
    ensures NoDup(s)
  {
    forall i, j | 0 <= i < j < |s| ensures s[i] != s[j] {
      if s[i] == s[j] {
        TwiceInMultiset(s, i, j);
        assert false;
      }
    }
  }

  /** The outcome of `handleCreate`: refused for a blank name, refused for an empty
      selection, or submitted with the trimmed name and description. */
  datatype CreateOutcome =
    | NeedName
    | NeedMembers
    | Submit(groupName: string, memberIds: seq<int>, description: string)

  function CheckCreate(groupName: string, description: string, selected: seq<int>): (r: CreateOutcome)
    ensures r == NeedName <==> Trim(groupName) == ""
    ensures r == NeedMembers <==> Trim(groupName) != "" && selected == []
    ensures r.Submit? ==>
      r.groupName == Trim(groupName) && r.groupName != "" && r.memberIds == selected && r.memberIds != []
      && r.description == Trim(description)
  {
    if Trim(groupName) == "" then NeedName
    else if |selected| == 0 then NeedMembers
    else Submit(Trim(groupName), selected, Trim(description))
  }

  /** The create button is disabled while creating and exactly when `handleCreate` would refuse. */
  function ButtonDisabled(creating: bool, groupName: string, selected: seq<int>): (r: bool)
    ensures r <==> creating || !CheckCreate(groupName, "", selected).Submit?
  {
    creating || Trim(groupName) == "" || |selected| == 0
  }

  /** The dialog's state. */
  class Modal {
    var selectedMembers: seq<int>

    constructor()
      ensures selectedMembers == []
    {
      selectedMembers := [];
    }

    method ToggleMember(userId: int)
      modifies this`selectedMembers
      ensures selectedMembers == Toggled(old(selectedMembers), userId)
      ensures NoDup(old(selectedMembers)) ==> NoDup(selectedMembers)
    {
      if NoDup(selectedMembers) {
        ToggleKeepsNoDup(selectedMembers, userId);
      }
      selectedMembers := Toggled(selectedMembers, userId);
    }
  }
}
