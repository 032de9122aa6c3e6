/** The join ban of yakusoku/modules/forbid.py. An administrator's `/forbid`
    command stores, per chat, either a ban length in minutes or `None` for a
    permanent ban; `/forbidu` removes the entry; a user who joins a chat with
    an entry is banned for the stored time. The module-level dictionary is
    the field of a store object; Telegram replies and kicks are results. */
module Forbid {

  import opened Wrappers
  import opened Text

  /** `MAX_BAN_MINUTES`: one leap year. */
  const MaxBanMinutes: int := 366 * 24 * 60

  /** `int(s)` on an optional sign followed by decimal digits. */
  function ParseInt(s: string): (r: Option<int>)
    ensures r.Some? && r.value < 0 ==> s != [] && s[0] == '-'
  {
    if s != [] && (s[0] == '-' || s[0] == '+') then
      var n := ParseNat(s[1..]);
      if n.None? then None else if s[0] == '-' then Some(-(n.value as int)) else Some(n.value as int)
    else
      var n := ParseNat(s);
      if n.None? then None else Some(n.value as int)
  }

  /** The decimal form of any integer parses back to it. */
  lemma ParseIntToString(n: int)
    ensures ParseInt(IntToString(n)) == Some(n)
  {
    if n < 0 {
      var s := IntToString(n);
      assert s[1..] == NatToString(-n);
      ParseNatToString(-n);
    } else {
      ParseNatToString(n);
    }
  }

  /** What `/forbid` answers. */
  datatype Decision =
    | Usage        // wrong argument count, or an argument that is not a non-zero integer
    | Permanent    // no argument: `None` is stored
    | Backwards    // a negative length
    | TooLong      // more than `MaxBanMinutes`
    | Timed(minutes: int)

  /** The checks of `forbid` on the whitespace-separated words of the
      command, the command itself first. The usage reply comes exactly for
      more than one argument or for an argument that is not a non-zero
      integer; no argument means a permanent ban; a length that is stored
      lies between one minute and `MaxBanMinutes`. */
  function Decide(words: seq<string>): (r: Decision)
    ensures r == Usage <==>
              |words| > 2 || (|words| == 2 && (ParseInt(words[1]).None? || ParseInt(words[1]) == Some(0)))
    ensures r == Permanent <==> |words| <= 1
    ensures r == Backwards <==>
              |words| == 2 && ParseInt(words[1]).Some? && ParseInt(words[1]).value < 0
    ensures r == TooLong <==>
              |words| == 2 && ParseInt(words[1]).Some? && ParseInt(words[1]).value > MaxBanMinutes
    ensures r.Timed? ==> 1 <= r.minutes <= MaxBanMinutes && ParseInt(words[1]) == Some(r.minutes)
  {
    if |words| > 2 then Usage
    else if |words| == 2 then
      var time := ParseInt(words[1]);
      if time.None? || time.value == 0 then Usage
      else if time.value < 0 then Backwards
      else if time.value > MaxBanMinutes then TooLong
      else Timed(time.value)
    else Permanent
  }

  /** Any length from one minute to `MaxBanMinutes`, written in decimal, is
      accepted as it is. */
  lemma DecideAcceptsInRange(command: string, minutes: int)
    requires 1 <= minutes <= MaxBanMinutes
    ensures Decide([command, IntToString(minutes)]) == Timed(minutes)
  {
    ParseIntToString(minutes);
  }

  /** What a stored entry does to a user who joins. */
  datatype Action = NoAction | BanFor(minutes: int) | BanForever

  /** A stored entry is `None` or a length the checks let through. */
  predicate ValidEntry(e: Option<int>)
  {
    e.None? || 1 <= e.value <= MaxBanMinutes
  }

  class ForbidStore {
    var db: map<int, Option<int>>

    /** Every stored entry came through the checks of `forbid`. */
    predicate Valid()
      reads this
    {
      forall chat :: chat in db ==> ValidEntry(db[chat])
    }

    constructor()
      ensures db == map[] && Valid()
    {
      db := map[];
    }

    /** `forbid`: stores `None` or the length when the checks pass, and
        nothing otherwise. */
    method SetForbid(chat: int, words: seq<string>) returns (d: Decision)
      requires Valid()
      modifies this
      ensures Valid()
      ensures d == Decide(words)
      ensures d == Permanent ==> db == old(db)[chat := None]
      ensures d.Timed? ==> db == old(db)[chat := Some(d.minutes)]
      ensures !(d == Permanent || d.Timed?) ==> db == old(db)
    {
      var time: Option<int> := None;
      var length := |words|;
      if length > 2 {
        return Usage;
      }
      if length == 2 {
        time := ParseInt(words[1]);
        if time.None? || time.value == 0 {
          return Usage;
        }
      }
      if time.None? {
        db := db[chat := None];
        return Permanent;
      }
      if time.value < 0 {
        return Backwards;
      }
      if time.value > MaxBanMinutes {
        return TooLong;
      }
      db := db[chat := Some(time.value)];
      return Timed(time.value);
    }

    /** `forbid_unset`: the `KeyError` of a missing entry is swallowed. */
    method Unset(chat: int)
      requires Valid()
      modifies this
      ensures Valid()
      ensures db == old(db) - {chat}
      ensures chat !in db
    {
      db := db - {chat};
    }

    /** `member_update`: nothing happens unless the update makes someone a
        plain member of a chat with an entry and the user behind the update
        is no administrator; then a stored length bans for that long and
        `None` bans for good. */
    function OnJoin(chat: int, becameMember: bool, byAdmin: bool): (r: Action)
      requires Valid()
      reads this
      ensures r.BanFor? ==> 1 <= r.minutes <= MaxBanMinutes
      ensures r != NoAction <==> becameMember && chat in db && !byAdmin
      ensures r.BanForever? <==> becameMember && chat in db && !byAdmin && db[chat].None?
      ensures r.BanFor? ==> db[chat] == Some(r.minutes)
    {
      if !becameMember || chat !in db || byAdmin then NoAction
      else if db[chat].Some? && db[chat].value != 0 then BanFor(db[chat].value)
      else BanForever
    }
  }
}
