/** The user tables of yakusoku/shared/user.py: the members of each chat, the
    user id behind each username, and a `UserInfo` record per user. Telegram
    users and chats come in as plain values; the avatar photo id is the one
    the configuration selects (big or small), or `None` for no photo. */
module SharedUser {

  import opened Wrappers
  import opened Seqs

  /** An avatar: the photo's unique id (or none) and when it was fetched,
      `-1` meaning "refresh on next use". */
  datatype Avatar = Avatar(photoId: Option<string>, time: int)

  datatype UserInfo = UserInfo(avatar: Option<Avatar>, name: Option<string>, usernames: set<string>)

  const EmptyInfo := UserInfo(None, None, {})

  /** The stored tuple `dataclasses.astuple` builds. */
  type InfoRow = (Option<(Option<string>, int)>, Option<string>, set<string>)

  function ToDatabase(info: UserInfo): InfoRow
  {
    (if info.avatar.Some? then Some((info.avatar.value.photoId, info.avatar.value.time)) else None,
     info.name, info.usernames)
  }

  function FromDatabase(row: InfoRow): UserInfo
  {
    UserInfo(if row.0.Some? then Some(Avatar(row.0.value.0, row.0.value.1)) else None, row.1, row.2)
  }

  /** Decoding a stored record gives back the record, and encoding a decoded
      row gives back the row. */
  lemma DatabaseRoundTrip(info: UserInfo, row: InfoRow)
    ensures FromDatabase(ToDatabase(info)) == info
    ensures ToDatabase(FromDatabase(row)) == row
  {
  }

  /** A Telegram user: id, full name and optional username. */
  datatype TgUser = TgUser(id: int, fullName: string, username: Option<string>)

  /** A Telegram chat as `update_chat` reads it. */
  datatype TgChat = TgChat(id: int, private: bool, fullName: string, photoId: Option<string>, activeUsernames: seq<string>)

  predicate HasUsername(u: Option<string>)
  {
    u.Some? && u.value != ""
  }

  /** `_update_info_from_user`: the name is replaced, and a username is added
      to the ones already known. */
  function InfoFromUser(info: UserInfo, user: TgUser): (r: UserInfo)
    ensures r.name == Some(user.fullName) && r.avatar == info.avatar
    ensures info.usernames <= r.usernames
    ensures HasUsername(user.username) ==> r.usernames == info.usernames + {user.username.value}
    ensures !HasUsername(user.username) ==> r.usernames == info.usernames
  {
    info.(name := Some(user.fullName),
          usernames := if HasUsername(user.username) then info.usernames + {user.username.value} else info.usernames)
  }

  /** `_update_info_from_chat` followed by the avatar check of `update_chat`:
      the usernames become exactly the chat's active ones, and the avatar is
      marked for refresh when none was stored or its photo changed. */
  function InfoFromChat(info: UserInfo, chat: TgChat): (r: UserInfo)
    ensures r.name == Some(chat.fullName)
    ensures forall u :: u in r.usernames <==> u in chat.activeUsernames
    ensures info.avatar.None? || info.avatar.value.photoId != chat.photoId ==> r.avatar == Some(Avatar(chat.photoId, -1))
    ensures info.avatar.Some? && info.avatar.value.photoId == chat.photoId ==> r.avatar == info.avatar
  {
    var replaced := info.(name := Some(chat.fullName), usernames := set u | u in chat.activeUsernames);
    if info.avatar.None? || chat.photoId != info.avatar.value.photoId then replaced.(avatar := Some(Avatar(chat.photoId, -1)))
    else replaced
  }

  /** The user map after each name in `names` is pointed at `id`. */
  function PointAll(db: map<string, int>, names: seq<string>, id: int): (r: map<string, int>)
    ensures forall u :: u in r <==> u in db || u in names
    ensures forall u :: u in r ==> r[u] == if u in names then id else db[u]
  {
    if names == [] then db else PointAll(db, names[..|names| - 1], id)[names[|names| - 1] := id]
  }

  datatype UserError = EmptyUsername

  class UserFactory {
    var memberDb: map<int, set<int>>
    var userDb: map<string, int>
    var userInfoDb: map<int, InfoRow>

    constructor(memberDb: map<int, set<int>>, userDb: map<string, int>, userInfoDb: map<int, InfoRow>)
      ensures this.memberDb == memberDb && this.userDb == userDb && this.userInfoDb == userInfoDb
    {
      this.memberDb := memberDb;
      this.userDb := userDb;
      this.userInfoDb := userInfoDb;
    }

    function GetMembers(chat: int): (r: set<int>)
      reads this
      ensures chat !in memberDb ==> r == {}
    {
      if chat in memberDb then memberDb[chat] else {}
    }

    /** `clear_members`: drops the chat's entry; no-op if absent. */
    method ClearMembers(chat: int)
      modifies this
      ensures memberDb == old(memberDb) - {chat}
      ensures userDb == old(userDb) && userInfoDb == old(userInfoDb)
    {
      memberDb := memberDb - {chat};
    }

    /** `get_user`: ValueError for an empty username, else the id if known. */
    function GetUser(username: string): (r: Result<Option<int>, UserError>)
      reads this
      ensures r.Err? <==> username == ""
      ensures r.Ok? ==> (r.value.Some? <==> username in userDb)
      ensures r.Ok? && r.value.Some? ==> r.value.value == userDb[username]
    {
      if username == "" then Err(EmptyUsername)
      else if username in userDb then Ok(Some(userDb[username]))
      else Ok(None)
    }

    /** `get_userinfo`: the stored record, or an empty one. */
    function GetUserInfo(id: int): (r: UserInfo)
      reads this
      ensures id !in userInfoDb ==> r == EmptyInfo
      ensures id in userInfoDb ==> ToDatabase(r) == userInfoDb[id]
    {
      if id in userInfoDb then FromDatabase(userInfoDb[id]) else EmptyInfo
    }

    /** `update_user`: the record takes the user's name and username, and the
        username points at the user. */
    method UpdateUser(user: TgUser)
      modifies this
      ensures userInfoDb == old(userInfoDb)[user.id := ToDatabase(InfoFromUser(old(GetUserInfo(user.id)), user))]
      ensures HasUsername(user.username) ==> userDb == old(userDb)[user.username.value := user.id]
      ensures !HasUsername(user.username) ==> userDb == old(userDb)
      ensures memberDb == old(memberDb)
      ensures HasUsername(user.username) ==> GetUser(user.username.value) == Ok(Some(user.id))
    {
      var info := GetUserInfo(user.id);
      info := InfoFromUser(info, user);
      userInfoDb := userInfoDb[user.id := ToDatabase(info)];
      if HasUsername(user.username) {
        userDb := userDb[user.username.value := user.id];
      }
    }

    /** `update_chat`: ignores non-private chats; otherwise rewrites the
        record and points each active username at the chat. */
    method UpdateChat(chat: TgChat)
      modifies this
      ensures !chat.private ==> userInfoDb == old(userInfoDb) && userDb == old(userDb)
      ensures chat.private ==> userInfoDb == old(userInfoDb)[chat.id := ToDatabase(InfoFromChat(old(GetUserInfo(chat.id)), chat))]
      ensures chat.private ==> userDb == PointAll(old(userDb), chat.activeUsernames, chat.id)
      ensures memberDb == old(memberDb)
    {
      if !chat.private {
        return;
      }
      var info := GetUserInfo(chat.id);
      info := InfoFromChat(info, chat);
      userInfoDb := userInfoDb[chat.id := ToDatabase(info)];
      var i := 0;
      while i < |chat.activeUsernames|
        invariant 0 <= i <= |chat.activeUsernames|
        invariant userDb == PointAll(old(userDb), chat.activeUsernames[..i], chat.id)
        invariant memberDb == old(memberDb) && userInfoDb == old(userInfoDb)[chat.id := ToDatabase(info)]
      {
        assert chat.activeUsernames[..i + 1][..i] == chat.activeUsernames[..i];
        userDb := userDb[chat.activeUsernames[i] := chat.id];
        i := i + 1;
      }
      assert chat.activeUsernames[..i] == chat.activeUsernames;
    }

    method AddMember(chat: int, member: int)
      modifies this
      ensures memberDb == old(memberDb)[chat := old(GetMembers(chat)) + {member}]
      ensures userDb == old(userDb) && userInfoDb == old(userInfoDb)
    {
      var members := GetMembers(chat);
      memberDb := memberDb[chat := members + {member}];
    }

    /** `remove_member`: a missing chat or member is ignored. */
    method RemoveMember(chat: int, member: int)
      modifies this
      ensures chat in old(memberDb) && member in old(memberDb)[chat] ==>
                memberDb == old(memberDb)[chat := old(memberDb)[chat] - {member}]
      ensures !(chat in old(memberDb) && member in old(memberDb)[chat]) ==> memberDb == old(memberDb)
      ensures userDb == old(userDb) && userInfoDb == old(userInfoDb)
    {
      if chat in memberDb && member in memberDb[chat] {
        memberDb := memberDb[chat := memberDb[chat] - {member}];
      }
    }

    /** `remove_user`: the user's record, every username pointing at the
        user, and the user's membership in every chat are removed. */
    method RemoveUser(user: int)
      modifies this
      ensures userInfoDb == old(userInfoDb) - {user}
      ensures forall u :: u in userDb <==> u in old(userDb) && old(userDb)[u] != user
      ensures forall u :: u in userDb ==> userDb[u] == old(userDb)[u]
      ensures forall c :: c in memberDb <==> c in old(memberDb)
      ensures forall c :: c in memberDb ==> memberDb[c] == old(memberDb)[c] - {user}
    {
      userInfoDb := userInfoDb - {user};
      var names := set u | u in userDb && userDb[u] == user;
      ghost var doomed := names;
      while names != {}
        invariant names <= doomed
        invariant userDb == old(userDb) - (doomed - names)
        invariant userInfoDb == old(userInfoDb) - {user} && memberDb == old(memberDb)
        decreases names
      {
        NonEmptyHasMemberOf(names);
        var u :| u in names;
        userDb := userDb - {u};
        names := names - {u};
      }
      assert userDb == old(userDb) - doomed;
      ghost var remaining := userDb;
      var groups := memberDb.Keys;
      while groups != {}
        invariant groups <= old(memberDb).Keys
        invariant userDb == remaining && userInfoDb == old(userInfoDb) - {user}
        invariant memberDb.Keys == old(memberDb).Keys
        invariant forall c :: c in memberDb ==> memberDb[c] == if c in groups then old(memberDb)[c] else old(memberDb)[c] - {user}
        decreases groups
      {
        NonEmptyHasMember(groups);
        var c :| c in groups;
        memberDb := memberDb[c := memberDb[c] - {user}];
        groups := groups - {c};
      }
    }
  }

  /** A set of usernames that is not empty has a member to choose. */
  lemma NonEmptyHasMemberOf(s: set<string>)
    requires s != {}
    ensures exists x :: x in s
  {
    if forall x :: x !in s {
      assert false;
    }
  }

  /** `update_user` only ever adds usernames: those known before stay known. */
  lemma UsernamesKept(info: UserInfo, user: TgUser)
    ensures info.usernames <= InfoFromUser(info, user).usernames
    ensures HasUsername(user.username) ==> user.username.value in InfoFromUser(info, user).usernames
  {
  }

  /** Pointing names at an id twice is the same as once. */
  lemma {:induction false} PointAllTwice(db: map<string, int>, names: seq<string>, id: int)
    ensures PointAll(PointAll(db, names, id), names, id) == PointAll(db, names, id)
  {
    var once := PointAll(db, names, id);
    var twice := PointAll(once, names, id);
    assert forall u :: u in twice <==> u in once;
    assert forall u :: u in twice ==> twice[u] == once[u];
  }
}
