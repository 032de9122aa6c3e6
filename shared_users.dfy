/** The persistent member and username tables of yakusoku/shared/users.py:
    for each chat the set of its members, and a map from username to user id.
    The two module-level dictionaries are the fields of one store object. */
module SharedUsers {

  import opened Wrappers

  class UserStore {
    var memberDb: map<int, set<int>>
    var userDb: map<string, int>

    constructor(memberDb: map<int, set<int>>, userDb: map<string, int>)
      ensures this.memberDb == memberDb && this.userDb == userDb
    {
      this.memberDb := memberDb;
      this.userDb := userDb;
    }

    /** `get_members`: an unknown chat (or an empty set) reads as no members. */
    function GetMembers(chat: int): (r: set<int>)
      reads this
      ensures chat !in memberDb ==> r == {}
      ensures chat in memberDb ==> r == memberDb[chat]
    {
      if chat in memberDb then memberDb[chat] else {}
    }

    /** `delete_members`: drops the chat's entry; no-op if absent. */
    method DeleteMembers(chat: int)
      modifies this
      ensures memberDb == old(memberDb) - {chat} && userDb == old(userDb)
    {
      memberDb := memberDb - {chat};
    }

    function GetUser(username: string): (r: Option<int>)
      reads this
      ensures r.Some? <==> username in userDb
      ensures r.Some? ==> r.value == userDb[username]
    {
      if username in userDb then Some(userDb[username]) else None
    }

    method UpdateUser(username: string, user: int)
      modifies this
      ensures userDb == old(userDb)[username := user] && memberDb == old(memberDb)
      ensures GetUser(username) == Some(user)
    {
      userDb := userDb[username := user];
    }

    /** `add_member`: the chat's set, created when missing, gains the member. */
    method AddMember(chat: int, member: int)
      modifies this
      ensures memberDb == old(memberDb)[chat := old(GetMembers(chat)) + {member}] && userDb == old(userDb)
      ensures GetMembers(chat) == old(GetMembers(chat)) + {member}
    {
      var members := GetMembers(chat);
      members := members + {member};
      memberDb := memberDb[chat := members];
    }

    /** `remove_member`: KeyError from a missing chat or member is swallowed,
        and then nothing changes. */
    method RemoveMember(chat: int, member: int)
      modifies this
      ensures chat in old(memberDb) && member in old(memberDb)[chat] ==>
                memberDb == old(memberDb)[chat := old(memberDb)[chat] - {member}]
      ensures !(chat in old(memberDb) && member in old(memberDb)[chat]) ==> memberDb == old(memberDb)
      ensures GetMembers(chat) == old(GetMembers(chat)) - {member}
      ensures userDb == old(userDb)
    {
      if chat in memberDb && member in memberDb[chat] {
        var members := memberDb[chat];
        members := members - {member};
        memberDb := memberDb[chat := members];
      }
    }
  }
}
