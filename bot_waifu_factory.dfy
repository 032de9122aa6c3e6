/** The older waifu factory of yakusoku/bot/modules/waifu/factory.py: per
    chat, each member's last drawn waifu, and per chat a set of members that
    may not be drawn. Chat members come from the member table, passed in as a
    set; the random choice is a choice from the allowed set; times are
    integer timestamps and the draw's day is `DayOf`. */
module BotWaifuFactory {

  import opened Wrappers
  import opened Seqs

  datatype WaifuData = WaifuData(member: int, last: int)

  /** `to_database`. */
  function ToDatabase(d: WaifuData): (int, int)
  {
    (d.member, d.last)
  }

  /** `from_database`. */
  function FromDatabase(t: (int, int)): WaifuData
  {
    WaifuData(t.0, t.1)
  }

  lemma DatabaseRoundTrip(d: WaifuData, t: (int, int))
    ensures FromDatabase(ToDatabase(d)) == d
    ensures ToDatabase(FromDatabase(t)) == t
  {
  }

  /** IndexError from `random.choice` on an empty list. */
  datatype FactoryError = NoAllowedMember

  function DayOf(timestamp: int): int
  {
    timestamp / 86400
  }

  /** A draw at `last` is from an earlier day than `now`. */
  predicate IsStale(last: int, now: int)
  {
    DayOf(last) < DayOf(now)
  }

  /** `waifus` holds the stored `waifu_{chat}` tables. The source loads a
      chat's table on first use and keeps the stored table itself, so every
      write reaches the store: the cache is not observable, and the field is
      the store. A chat without a stored table has an empty one. */
  class WaifuFactory {
    var waifus: map<int, map<int, (int, int)>>
    var forbidden: map<int, set<int>>

    /** `__init__`, over the stored draw tables and the stored `forbidden` table. */
    constructor(stored: map<int, map<int, (int, int)>>, forbidden: map<int, set<int>>)
      ensures waifus == stored && this.forbidden == forbidden
    {
      waifus := stored;
      this.forbidden := forbidden;
    }

    function WaifuTable(chat: int): map<int, (int, int)>
      reads this
    {
      if chat in waifus then waifus[chat] else map[]
    }

    /** `get_forbidden_waifu`: a chat without an entry forbids nobody. */
    function GetForbidden(chat: int): (r: set<int>)
      reads this
      ensures chat !in forbidden ==> r == {}
    {
      if chat in forbidden then forbidden[chat] else {}
    }

    /** `_allowed_waifu`: the chat's members that are not forbidden; the
        requesting member is not excluded. */
    function Allowed(chat: int, members: set<int>): (r: set<int>)
      reads this
      ensures forall w :: w in r <==> w in members && w !in GetForbidden(chat)
    {
      set w | w in members && w !in GetForbidden(chat)
    }

    method ForbidWaifu(chat: int, member: int)
      modifies this
      ensures forbidden == old(forbidden)[chat := old(GetForbidden(chat)) + {member}]
      ensures waifus == old(waifus)
    {
      var s := GetForbidden(chat);
      forbidden := forbidden[chat := s + {member}];
    }

    /** `allow_waifu`: a missing chat or member is ignored. */
    method AllowWaifu(chat: int, member: int)
      modifies this
      ensures chat in old(forbidden) && member in old(forbidden)[chat] ==>
                forbidden == old(forbidden)[chat := old(forbidden)[chat] - {member}]
      ensures !(chat in old(forbidden) && member in old(forbidden)[chat]) ==> forbidden == old(forbidden)
      ensures GetForbidden(chat) == old(GetForbidden(chat)) - {member}
      ensures waifus == old(waifus)
    {
      if chat in forbidden && member in forbidden[chat] {
        forbidden := forbidden[chat := forbidden[chat] - {member}];
      }
    }

    /** `fetch_waifu`: redraws when the member has no record or the record is
        from an earlier day, answering True with the new waifu; otherwise
        answers False with the recorded one. */
    method FetchWaifu(chat: int, member: int, members: set<int>, now: int) returns (r: Result<(bool, int), FactoryError>)
      modifies this
      ensures forbidden == old(forbidden)
      ensures member in old(WaifuTable(chat)) && !IsStale(old(WaifuTable(chat))[member].1, now) ==>
                r == Ok((false, old(WaifuTable(chat))[member].0)) && waifus == old(waifus)
      ensures !(member in old(WaifuTable(chat)) && !IsStale(old(WaifuTable(chat))[member].1, now)) ==>
                if old(Allowed(chat, members)) == {} then r == Err(NoAllowedMember) && waifus == old(waifus)
                else && r.Ok? && r.value.0 && r.value.1 in old(Allowed(chat, members))
                     && waifus == old(waifus)[chat := old(WaifuTable(chat))[member := ToDatabase(WaifuData(r.value.1, now))]]
    {
      if member in WaifuTable(chat) && !IsStale(WaifuTable(chat)[member].1, now) {
        return Ok((false, WaifuTable(chat)[member].0));
      }
      var allowed := Allowed(chat, members);
      if allowed == {} {
        return Err(NoAllowedMember);
      }
      NonEmptyHasMember(allowed);
      var w :| w in allowed;
      waifus := waifus[chat := WaifuTable(chat)[member := ToDatabase(WaifuData(w, now))]];
      r := Ok((true, w));
    }

    /** `remove_chat`: the chat's draws are cleared and its forbidden set dropped. */
    method RemoveChat(chat: int)
      modifies this
      ensures waifus == old(waifus)[chat := map[]]
      ensures forbidden == old(forbidden) - {chat}
      ensures GetForbidden(chat) == {}
    {
      waifus := waifus[chat := map[]];
      forbidden := forbidden - {chat};
    }
  }
}
