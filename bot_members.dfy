/** The chat-member table of yakusoku/bot/shared/members.py: for each chat
    the set of its members. The module-level dictionary is the field of a
    store object. */
module BotMembers {

  class MemberStore {
    var db: map<int, set<int>>

    constructor(db: map<int, set<int>>)
      ensures this.db == db
    {
      this.db := db;
    }

    /** `get_members`: an unknown chat reads as no members. */
    function GetMembers(chatId: int): (r: set<int>)
      reads this
      ensures chatId !in db ==> r == {}
      ensures chatId in db ==> r == db[chatId]
    {
      if chatId in db then db[chatId] else {}
    }

    /** `clear_members` keeps an empty entry for the chat instead of deleting it. */
    method ClearMembers(chatId: int)
      modifies this
      ensures db == old(db)[chatId := {}]
      ensures chatId in db && GetMembers(chatId) == {}
    {
      db := db[chatId := {}];
    }

    /** `add_member`: a missing or empty set is replaced by a new one first. */
    method AddMember(chatId: int, memberId: int)
      modifies this
      ensures db == old(db)[chatId := old(GetMembers(chatId)) + {memberId}]
      ensures memberId in GetMembers(chatId)
    {
      var members := if chatId in db && db[chatId] != {} then db[chatId] else {};
      members := members + {memberId};
      db := db[chatId := members];
    }

    /** `remove_member`: KeyError from a missing chat or member is swallowed. */
    method RemoveMember(chatId: int, memberId: int)
      modifies this
      ensures chatId in old(db) && memberId in old(db)[chatId] ==>
                db == old(db)[chatId := old(db)[chatId] - {memberId}]
      ensures !(chatId in old(db) && memberId in old(db)[chatId]) ==> db == old(db)
      ensures GetMembers(chatId) == old(GetMembers(chatId)) - {memberId}
    {
      if chatId in db && memberId in db[chatId] {
        var members := db[chatId];
        members := members - {memberId};
        db := db[chatId := members];
      }
    }
  }
}
