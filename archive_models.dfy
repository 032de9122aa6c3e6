/** The archived group and user records of yakusoku/archive/models.py and the
    rules that build or refresh them from Telegram chats and users. A failed
    `assert` on the chat type is the `NotAGroup` / `NotAUser` error. */
module ArchiveModels {

  import opened Wrappers
  import opened Seqs

  datatype ChatType = Private | Group | Supergroup | Channel

  /** A Telegram chat; `activeUsernames` is empty when Telegram sends none. */
  datatype TgChat = TgChat(id: int, chatType: ChatType, fullName: string, username: Option<string>, activeUsernames: seq<string>)

  datatype TgUser = TgUser(id: int, fullName: string, username: Option<string>, isBot: bool)

  datatype ArchiveError = NotAGroup | NotAUser | NoResult

  predicate IsGroup(t: ChatType)
  {
    t == Group || t == Supergroup
  }

  predicate HasUsername(u: Option<string>)
  {
    u.Some? && u.value != ""
  }

  /** The usernames `update_from_user` keeps: none when the user has no
      username, otherwise the old list with the username appended unless it
      is already there. */
  function MergeUsername(usernames: seq<string>, username: Option<string>): (r: seq<string>)
    ensures !HasUsername(username) ==> r == []
    ensures HasUsername(username) ==> username.value in r && Elems(usernames) <= Elems(r)
    ensures HasUsername(username) ==> |r| <= |usernames| + 1
    ensures Distinct(usernames) ==> Distinct(r)
  {
    if !HasUsername(username) then []
    else if username.value in usernames then usernames
    else usernames + [username.value]
  }

  /** The initial usernames of `from_user`: the username alone, or none. */
  function UsernamesOf(user: TgUser): (r: seq<string>)
    ensures HasUsername(user.username) ==> r == [user.username.value]
    ensures !HasUsername(user.username) ==> r == []
  {
    if HasUsername(user.username) then [user.username.value] else []
  }

  /** Refreshing a record built from a user with the same user changes
      nothing: the username is already there. */
  lemma FromUserThenUpdate(user: TgUser)
    ensures MergeUsername(UsernamesOf(user), user.username) == UsernamesOf(user)
  {
  }

  /** Refreshing twice with the same user is the same as once. */
  lemma MergeIdempotent(usernames: seq<string>, username: Option<string>)
    ensures MergeUsername(MergeUsername(usernames, username), username) == MergeUsername(usernames, username)
  {
  }

  class GroupData {
    var id: int
    var name: string
    var username: Option<string>
    var members: seq<int>

    constructor(id: int, name: string, username: Option<string>, members: seq<int>)
      ensures this.id == id && this.name == name && this.username == username && this.members == members
    {
      this.id := id;
      this.name := name;
      this.username := username;
      this.members := members;
    }

    /** `from_chat`: only groups and supergroups; the member list starts empty. */
    static method FromChat(chat: TgChat) returns (r: Result<GroupData, ArchiveError>)
      ensures r.Ok? <==> IsGroup(chat.chatType)
      ensures r.Err? ==> r.error == NotAGroup
      ensures r.Ok? ==> fresh(r.value) && r.value.id == chat.id && r.value.name == chat.fullName
                        && r.value.username == chat.username && r.value.members == []
    {
      if !IsGroup(chat.chatType) {
        return Err(NotAGroup);
      }
      var g := new GroupData(chat.id, chat.fullName, chat.username, []);
      r := Ok(g);
    }

    /** `update_from_chat`: takes the chat's id, name and username; the
        member list is left alone. */
    method UpdateFromChat(chat: TgChat) returns (r: Result<(), ArchiveError>)
      modifies this
      ensures r.Ok? <==> IsGroup(chat.chatType)
      ensures r.Err? ==> r.error == NotAGroup && unchanged(this)
      ensures r.Ok? ==> id == chat.id && name == chat.fullName && username == chat.username
      ensures members == old(members)
    {
      if !IsGroup(chat.chatType) {
        return Err(NotAGroup);
      }
      id := chat.id;
      name := chat.fullName;
      username := chat.username;
      r := Ok(());
    }
  }

  class UserData {
    var id: int
    var name: Option<string>
    var usernames: seq<string>
    var isBot: bool

    constructor(id: int, name: Option<string>, usernames: seq<string>, isBot: bool)
      ensures this.id == id && this.name == name && this.usernames == usernames && this.isBot == isBot
    {
      this.id := id;
      this.name := name;
      this.usernames := usernames;
      this.isBot := isBot;
    }

    /** `from_chat`: only private chats; no name is given. */
    static method FromChat(chat: TgChat) returns (r: Result<UserData, ArchiveError>)
      ensures r.Ok? <==> chat.chatType == Private
      ensures r.Err? ==> r.error == NotAUser
      ensures r.Ok? ==> fresh(r.value) && r.value.id == chat.id && r.value.name == None
                        && r.value.usernames == chat.activeUsernames && !r.value.isBot
    {
      if chat.chatType != Private {
        return Err(NotAUser);
      }
      var u := new UserData(chat.id, None, chat.activeUsernames, false);
      r := Ok(u);
    }

    /** `update_from_chat`: only private chats; the usernames become the
        chat's active ones. */
    method UpdateFromChat(chat: TgChat) returns (r: Result<(), ArchiveError>)
      modifies this
      ensures r.Ok? <==> chat.chatType == Private
      ensures r.Err? ==> r.error == NotAUser && unchanged(this)
      ensures r.Ok? ==> id == chat.id && usernames == chat.activeUsernames
      ensures name == old(name) && isBot == old(isBot)
    {
      if chat.chatType != Private {
        return Err(NotAUser);
      }
      id := chat.id;
      usernames := chat.activeUsernames;
      r := Ok(());
    }

    static method FromUser(user: TgUser) returns (u: UserData)
      ensures fresh(u) && u.id == user.id && u.name == Some(user.fullName)
      ensures u.usernames == UsernamesOf(user) && u.isBot == user.isBot
    {
      u := new UserData(user.id, Some(user.fullName), UsernamesOf(user), user.isBot);
    }

    /** `update_from_user`: the name is never touched. */
    method UpdateFromUser(user: TgUser)
      modifies this
      ensures id == user.id && isBot == user.isBot && name == old(name)
      ensures usernames == MergeUsername(old(usernames), user.username)
    {
      id := user.id;
      usernames := MergeUsername(usernames, user.username);
      isBot := user.isBot;
    }
  }
}
