/** The sleep log of yakusoku/bot/modules/workrest.py: for each user a record
    of whether they are awake and when they last said `/morning` or
    `/goodnight`. Each command is refused when the record already says the
    state it asks for; otherwise it stores the new state with the current
    time. Times are integer timestamps handed in by the caller. */
module Workrest {

  import opened Wrappers

  /** `UserInfo`: the awake flag and the timestamp of the last change. */
  datatype UserInfo = UserInfo(awake: bool, last: int)

  /** `to_database`: the dataclass as a tuple. */
  function ToDatabase(info: UserInfo): (r: (bool, int))
    ensures r.0 == info.awake && r.1 == info.last
  {
    (info.awake, info.last)
  }

  /** `from_database`: the tuple's fields in order. */
  function FromDatabase(data: (bool, int)): (r: UserInfo)
    ensures r.awake == data.0 && r.last == data.1
  {
    UserInfo(data.0, data.1)
  }

  lemma CodecRoundTrip(info: UserInfo, data: (bool, int))
    ensures FromDatabase(ToDatabase(info)) == info
    ensures ToDatabase(FromDatabase(data)) == data
  {
  }

  /** The reply to a command: a refusal, or a greeting that reports how long
      the previous state lasted when there was a record. */
  datatype Reply = Refused | Greeted(elapsed: Option<int>)

  /** The record after a command asking for `awake` at `now`: unchanged when
      the stored record already has that state, the new state otherwise. */
  function After(db: map<int, (bool, int)>, user: int, awake: bool, now: int): (r: map<int, (bool, int)>)
    ensures user in db && db[user].0 == awake ==> r == db
    ensures !(user in db && db[user].0 == awake) ==> r == db[user := ToDatabase(UserInfo(awake, now))]
  {
    if user in db && FromDatabase(db[user]).awake == awake then db
    else db[user := ToDatabase(UserInfo(awake, now))]
  }

  /** The reply to a command asking for `awake` at `now`. */
  function ReplyTo(db: map<int, (bool, int)>, user: int, awake: bool, now: int): (r: Reply)
    ensures r == Refused <==> user in db && db[user].0 == awake
    ensures r.Greeted? ==> (r.elapsed.Some? <==> user in db)
    ensures r.Greeted? && user in db ==> r.elapsed.value == now - db[user].1
  {
    if user !in db then Greeted(None)
    else
      var info := FromDatabase(db[user]);
      if info.awake == awake then Refused else Greeted(Some(now - info.last))
  }

  /** After any accepted command the user's state is the one asked for, and
      asking for it again is refused without a change. */
  lemma AcceptedThenRefused(db: map<int, (bool, int)>, user: int, awake: bool, now: int, later: int)
    requires ReplyTo(db, user, awake, now) != Refused
    ensures user in After(db, user, awake, now) && After(db, user, awake, now)[user] == (awake, now)
    ensures ReplyTo(After(db, user, awake, now), user, awake, later) == Refused
    ensures After(After(db, user, awake, now), user, awake, later) == After(db, user, awake, now)
  {
  }

  /** Morning and goodnight alternate: after an accepted command the other
      one is accepted, and it reports the time since the first. */
  lemma AcceptedThenOther(db: map<int, (bool, int)>, user: int, awake: bool, now: int, later: int)
    requires ReplyTo(db, user, awake, now) != Refused
    ensures ReplyTo(After(db, user, awake, now), user, !awake, later) == Greeted(Some(later - now))
    ensures After(After(db, user, awake, now), user, !awake, later) == db[user := (!awake, later)]
  {
  }

  /** A command only ever touches the sender's record. */
  lemma OthersUntouched(db: map<int, (bool, int)>, user: int, awake: bool, now: int, other: int)
    requires other != user
    ensures other in After(db, user, awake, now) <==> other in db
    ensures other in db ==> After(db, user, awake, now)[other] == db[other]
  {
  }

  class SleepLog {
    var db: map<int, (bool, int)>

    /** The log opens on the table saved in the database. */
    constructor(db: map<int, (bool, int)>)
      ensures this.db == db
    {
      this.db := db;
    }

    /** `morning`: refused when the record says awake; otherwise the user is
        stored as awake since `now`. */
    method Morning(user: int, now: int) returns (reply: Reply)
      modifies this
      ensures reply == ReplyTo(old(db), user, true, now)
      ensures db == After(old(db), user, true, now)
    {
      if user in db {
        var info := FromDatabase(db[user]);
        if info.awake {
          return Refused;
        }
        reply := Greeted(Some(now - info.last));
      } else {
        reply := Greeted(None);
      }
      var info := UserInfo(true, now);
      db := db[user := ToDatabase(info)];
    }

    /** `goodnight`: refused when the record says asleep; otherwise the user
        is stored as asleep since `now`. */
    method Goodnight(user: int, now: int) returns (reply: Reply)
      modifies this
      ensures reply == ReplyTo(old(db), user, false, now)
      ensures db == After(old(db), user, false, now)
    {
      if user in db {
        var info := FromDatabase(db[user]);
        if !info.awake {
          return Refused;
        }
        reply := Greeted(Some(now - info.last));
      } else {
        reply := Greeted(None);
      }
      var info := UserInfo(false, now);
      db := db[user := ToDatabase(info)];
    }
  }
}
