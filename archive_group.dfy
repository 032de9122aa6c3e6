/** The group archive of yakusoku/archive/group.py: one stored row per group
    id. The SQL session is a map from id to row; `get_group` on a missing id
    is the `NoResult` error (NoResultFound). */
module ArchiveGroup {

  import opened Wrappers
  import opened Seqs
  import opened ArchiveModels

  datatype GroupRow = GroupRow(id: int, name: string, username: Option<string>, members: seq<int>)

  /** The row a `GroupData` object is stored as. */
  function Row(g: GroupData): GroupRow
    reads g
  {
    GroupRow(g.id, g.name, g.username, g.members)
  }

  /** The member list after `add_member`: unchanged if present, else the
      member appended at the end. */
  function WithMember(members: seq<int>, member: int): (r: seq<int>)
    ensures member in r
    ensures member in members ==> r == members
    ensures member !in members ==> r == members + [member]
  {
    if member in members then members else members + [member]
  }

  /** The member list after `remove_member`: unchanged if absent, else one
      occurrence removed. */
  function WithoutMember(members: seq<int>, member: int): (r: seq<int>)
    ensures member !in members ==> r == members
    ensures member in members ==> multiset(r) == multiset(members) - multiset{member}
  {
    if member !in members then members
    else
      RemoveFirstCount(members, member);
      RemoveFirst(members, member)
  }

  /** Adding keeps a duplicate-free list duplicate-free. */
  lemma AddKeepsDistinct(members: seq<int>, member: int)
    requires Distinct(members)
    ensures Distinct(WithMember(members, member))
  {
  }

  /** Dropping one entry of a duplicate-free list leaves it duplicate-free
      and without that entry's value. */
  lemma DropKeepsDistinct(s: seq<int>, i: nat)
    requires Distinct(s) && i < |s|
    ensures s[i] !in s[..i] + s[i + 1..]
    ensures Distinct(s[..i] + s[i + 1..])
  {
    var r := s[..i] + s[i + 1..];
    assert forall j :: 0 <= j < |r| ==> r[j] == s[if j < i then j else j + 1];
  }

  /** Removing from a duplicate-free list removes the member entirely and
      keeps the others duplicate-free. */
  lemma RemoveKeepsDistinct(members: seq<int>, member: int)
    requires Distinct(members)
    ensures member !in WithoutMember(members, member)
    ensures Distinct(WithoutMember(members, member))
  {
    if member in members {
      var i :| 0 <= i < |members| && members[i] == member;
      RemoveFirstSplits(members, member, i);
      DropKeepsDistinct(members, i);
    }
  }

  /** Adding a new member and removing it again gives back the list. */
  lemma AddThenRemove(members: seq<int>, member: int)
    requires member !in members
    ensures WithoutMember(WithMember(members, member), member) == members
  {
    var s := members + [member];
    RemoveFirstSplits(s, member, |members|);
    assert s[..|members|] == members;
  }

  class GroupManager {
    var rows: map<int, GroupRow>

    constructor(rows: map<int, GroupRow>)
      ensures this.rows == rows
    {
      this.rows := rows;
    }

    /** `get_group`: NoResultFound for an unknown id. */
    function GetGroup(id: int): (r: Result<GroupRow, ArchiveError>)
      reads this
      ensures r.Ok? <==> id in rows
      ensures r.Ok? ==> r.value == rows[id]
      ensures r.Err? ==> r.error == NoResult
    {
      if id in rows then Ok(rows[id]) else Err(NoResult)
    }

    /** `update_group_from_chat`: refreshes the stored group, or builds a new
        one when there is none, and stores it; a chat that is not a group
        stores nothing. */
    method UpdateGroupFromChat(chat: TgChat) returns (r: Result<GroupRow, ArchiveError>)
      modifies this
      ensures r.Ok? <==> IsGroup(chat.chatType)
      ensures r.Err? ==> r.error == NotAGroup && rows == old(rows)
      ensures r.Ok? ==> r.value == GroupRow(chat.id, chat.fullName, chat.username,
                                            if chat.id in old(rows) then old(rows)[chat.id].members else [])
                        && rows == old(rows)[chat.id := r.value]
    {
      var g: GroupData;
      if chat.id in rows {
        var row := rows[chat.id];
        g := new GroupData(row.id, row.name, row.username, row.members);
        var u := g.UpdateFromChat(chat);
        if u.Err? {
          return Err(u.error);
        }
      } else {
        var made := GroupData.FromChat(chat);
        if made.Err? {
          return Err(made.error);
        }
        g := made.value;
      }
      rows := rows[g.id := Row(g)];
      r := Ok(Row(g));
    }

    /** `add_member`: NoResultFound for an unknown group. */
    method AddMember(group: int, member: int) returns (r: Result<(), ArchiveError>)
      modifies this
      ensures r.Ok? <==> group in old(rows)
      ensures r.Err? ==> r.error == NoResult && rows == old(rows)
      ensures r.Ok? ==> rows == old(rows)[group := old(rows)[group].(members := WithMember(old(rows)[group].members, member))]
    {
      if group !in rows {
        return Err(NoResult);
      }
      var data := rows[group];
      if member in data.members {
        return Ok(());
      }
      var members := data.members + [member];
      rows := rows[group := data.(members := members)];
      r := Ok(());
    }

    /** `remove_member`: NoResultFound for an unknown group. */
    method RemoveMember(group: int, member: int) returns (r: Result<(), ArchiveError>)
      modifies this
      ensures r.Ok? <==> group in old(rows)
      ensures r.Err? ==> r.error == NoResult && rows == old(rows)
      ensures r.Ok? ==> rows == old(rows)[group := old(rows)[group].(members := WithoutMember(old(rows)[group].members, member))]
    {
      if group !in rows {
        return Err(NoResult);
      }
      var data := rows[group];
      if member !in data.members {
        return Ok(());
      }
      var members := RemoveFirst(data.members, member);
      rows := rows[group := data.(members := members)];
      r := Ok(());
    }
  }
}
