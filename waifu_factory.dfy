/** The daily-waifu factory of yakusoku/modules/waifu/factory.py: per chat, the
    waifu each member drew last and each member's local properties (rarity,
    partner, mentionable), plus global properties per user. Members of a chat
    come from the member table, passed in as a set; the random draw is a
    choice from the candidate set; times are integer timestamps. */
module WaifuFactory {

  import opened Wrappers

  const MinRarity := 1
  const MaxRarity := 10

  /** A drawn waifu and when it was drawn. */
  datatype WaifuData = WaifuData(member: int, last: int)

  datatype GlobalProperty = GlobalProperty(mentionable: bool)

  const DefaultGlobal := GlobalProperty(false)

  datatype LocalProperty = LocalProperty(rarity: int, married: Option<int>, mentionable: Option<bool>)

  /** A missing record reads as rarity 1, unmarried, mentionable unset. */
  const DefaultLocal := LocalProperty(MinRarity, None, None)

  predicate IsValidRarity(value: int)
  {
    MinRarity <= value <= MaxRarity
  }

  datatype FactoryError = RarityOutOfRange | MemberNotEfficient | MissingRecord

  /** The constructor with its `__post_init__` check: ValueError on a bad rarity. */
  function NewLocalProperty(rarity: int, married: Option<int>, mentionable: Option<bool>)
    : (r: Result<LocalProperty, FactoryError>)
    ensures r.Ok? <==> IsValidRarity(rarity)
    ensures r.Ok? ==> r.value == LocalProperty(rarity, married, mentionable)
    ensures r.Err? ==> r.error == RarityOutOfRange
  {
    if IsValidRarity(rarity) then Ok(LocalProperty(rarity, married, mentionable)) else Err(RarityOutOfRange)
  }

  /** The keyword arguments of an update: `None` leaves a field as it was. */
  datatype LocalChanges = LocalChanges(rarity: Option<int>, married: Option<Option<int>>, mentionable: Option<Option<bool>>)

  /** `dataclasses.replace`, which builds the result through the constructor. */
  function Replace(p: LocalProperty, changes: LocalChanges): (r: Result<LocalProperty, FactoryError>)
    ensures r.Ok? ==> (changes.rarity.Some? ==> r.value.rarity == changes.rarity.value)
                      && (changes.rarity.None? ==> r.value.rarity == p.rarity)
                      && (changes.married.Some? ==> r.value.married == changes.married.value)
                      && (changes.married.None? ==> r.value.married == p.married)
                      && (changes.mentionable.Some? ==> r.value.mentionable == changes.mentionable.value)
                      && (changes.mentionable.None? ==> r.value.mentionable == p.mentionable)
  {
    NewLocalProperty(
      if changes.rarity.Some? then changes.rarity.value else p.rarity,
      if changes.married.Some? then changes.married.value else p.married,
      if changes.mentionable.Some? then changes.mentionable.value else p.mentionable)
  }

  /** The draw weight `(10 - rarity) / 10`, scaled by ten. */
  function WeightTenths(p: LocalProperty): int
  {
    10 - p.rarity
  }

  /** `WaifuState`. */
  datatype WaifuState = Unchanged | Updated | Married

  datatype WaifuInfo = WaifuInfo(member: int, state: WaifuState)

  /** The calendar day of a timestamp. */
  function DayOf(timestamp: int): int
  {
    timestamp / 86400
  }

  /** `waifus` and `localProperties` hold the stored `waifu_{chat}` and
      `property_{chat}` tables. The source loads a chat's table on first use
      and keeps the stored table itself, so every write reaches the store:
      the cache is not observable, and the fields are the store. A chat
      without a stored table has an empty one. */
  class WaifuFactory {
    var waifus: map<int, map<int, WaifuData>>
    var localProperties: map<int, map<int, LocalProperty>>
    var globalProperties: map<int, GlobalProperty>

    /** Every stored local property passed the rarity check. */
    predicate Valid()
      reads this
    {
      forall chat, member :: chat in localProperties && member in localProperties[chat] ==>
        IsValidRarity(localProperties[chat][member].rarity)
    }

    /** `__init__`, over the stored draw, local-property and global-property
        tables. The factory is valid when every stored local property is. */
    constructor(storedWaifus: map<int, map<int, WaifuData>>, storedLocal: map<int, map<int, LocalProperty>>,
                globalProperties: map<int, GlobalProperty>)
      ensures waifus == storedWaifus && localProperties == storedLocal && this.globalProperties == globalProperties
      ensures Valid() <==> forall chat, member :: chat in storedLocal && member in storedLocal[chat] ==>
                             IsValidRarity(storedLocal[chat][member].rarity)
    {
      waifus := storedWaifus;
      localProperties := storedLocal;
      this.globalProperties := globalProperties;
    }

    function LocalTable(chat: int): map<int, LocalProperty>
      reads this
    {
      if chat in localProperties then localProperties[chat] else map[]
    }

    function WaifuTable(chat: int): map<int, WaifuData>
      reads this
    {
      if chat in waifus then waifus[chat] else map[]
    }

    /** `get_waifu_local_property`: the stored record, or the defaults. */
    function GetLocalProperty(chat: int, member: int): (r: LocalProperty)
      reads this
      ensures member !in LocalTable(chat) ==> r == DefaultLocal
      ensures Valid() ==> IsValidRarity(r.rarity)
    {
      if member in LocalTable(chat) then LocalTable(chat)[member] else DefaultLocal
    }

    /** `update_waifu_local_property`: the named fields change, the others
        keep their value; an invalid rarity stores nothing. */
    method UpdateLocalProperty(chat: int, member: int, changes: LocalChanges) returns (r: Result<(), FactoryError>)
      requires Valid()
      modifies this
      ensures Valid()
      ensures var p := Replace(old(GetLocalProperty(chat, member)), changes);
              && (r.Ok? <==> p.Ok?)
              && (p.Ok? ==> localProperties == old(localProperties)[chat := old(LocalTable(chat))[member := p.value]])
              && (p.Err? ==> localProperties == old(localProperties))
      ensures r.Err? ==> r.error == RarityOutOfRange
      ensures waifus == old(waifus) && globalProperties == old(globalProperties)
    {
      var p := Replace(GetLocalProperty(chat, member), changes);
      if p.Err? {
        return Err(p.error);
      }
      localProperties := localProperties[chat := LocalTable(chat)[member := p.value]];
      r := Ok(());
    }

    /** `get_waifu_global_property`: a missing record is not mentionable. */
    function GetGlobalProperty(user: int): (r: GlobalProperty)
      reads this
      ensures user !in globalProperties ==> r == DefaultGlobal
    {
      if user in globalProperties then globalProperties[user] else DefaultGlobal
    }

    method UpdateGlobalProperty(user: int, mentionable: Option<bool>)
      modifies this
      ensures globalProperties == old(globalProperties)[user :=
                if mentionable.Some? then GlobalProperty(mentionable.value) else old(GetGlobalProperty(user))]
      ensures waifus == old(waifus) && localProperties == old(localProperties)
    {
      var p := GetGlobalProperty(user);
      if mentionable.Some? {
        p := GlobalProperty(mentionable.value);
      }
      globalProperties := globalProperties[user := p];
    }

    /** `_is_choosable`: below the top rarity and unmarried. */
    predicate IsChoosable(chat: int, member: int)
      reads this
    {
      GetLocalProperty(chat, member).rarity < MaxRarity && GetLocalProperty(chat, member).married.None?
    }

    /** The members `_random_waifu` may draw for `member`. */
    function Candidates(chat: int, member: int, members: set<int>): (r: set<int>)
      reads this
      ensures forall w :: w in r <==> w in members && w != member && IsChoosable(chat, w)
    {
      set w | w in members && w != member && IsChoosable(chat, w)
    }

    /** `_is_update_needed`: the draw is from an earlier day, or its waifu
        can no longer be chosen. */
    predicate IsUpdateNeeded(chat: int, data: WaifuData, now: int)
      reads this
    {
      DayOf(data.last) < DayOf(now) || !IsChoosable(chat, data.member)
    }

    /** `fetch_waifu`: a married member gets the partner; a fresh draw from
        today is kept; otherwise a new waifu is drawn from the candidates and
        stored, or MemberNotEfficientError is raised when there are none. */
    method FetchWaifu(chat: int, member: int, members: set<int>, now: int) returns (r: Result<WaifuInfo, FactoryError>)
      requires Valid()
      modifies this
      ensures Valid()
      ensures localProperties == old(localProperties) && globalProperties == old(globalProperties)
      ensures var married := old(GetLocalProperty(chat, member)).married;
              married.Some? && married.value != 0 ==> r == Ok(WaifuInfo(married.value, Married)) && waifus == old(waifus)
      ensures var married := old(GetLocalProperty(chat, member)).married;
              !(married.Some? && married.value != 0) && member in old(WaifuTable(chat))
              && !old(IsUpdateNeeded(chat, WaifuTable(chat)[member], now)) ==>
                r == Ok(WaifuInfo(old(WaifuTable(chat))[member].member, Unchanged)) && waifus == old(waifus)
      ensures var married := old(GetLocalProperty(chat, member)).married;
              !(married.Some? && married.value != 0)
              && !(member in old(WaifuTable(chat)) && !old(IsUpdateNeeded(chat, WaifuTable(chat)[member], now))) ==>
                if old(Candidates(chat, member, members)) == {} then r == Err(MemberNotEfficient) && waifus == old(waifus)
                else r.Ok? && r.value.state == Updated && r.value.member in old(Candidates(chat, member, members))
                     && waifus == old(waifus)[chat := old(WaifuTable(chat))[member := WaifuData(r.value.member, now)]]
    {
      var married := GetLocalProperty(chat, member).married;
      if married.Some? && married.value != 0 {
        return Ok(WaifuInfo(married.value, Married));
      }
      if member in WaifuTable(chat) && !IsUpdateNeeded(chat, WaifuTable(chat)[member], now) {
        return Ok(WaifuInfo(WaifuTable(chat)[member].member, Unchanged));
      }
      var candidates := Candidates(chat, member, members);
      if candidates == {} {
        return Err(MemberNotEfficient);
      }
      var w :| w in candidates;
      waifus := waifus[chat := WaifuTable(chat)[member := WaifuData(w, now)]];
      r := Ok(WaifuInfo(w, Updated));
    }

    /** `remove_waifu`: KeyError when the member has no draw in the chat. */
    method RemoveWaifu(chat: int, member: int) returns (r: Result<(), FactoryError>)
      modifies this
      ensures r.Ok? <==> member in old(WaifuTable(chat))
      ensures r.Ok? ==> waifus == old(waifus)[chat := old(WaifuTable(chat)) - {member}]
      ensures r.Err? ==> r.error == MissingRecord && waifus == old(waifus)
      ensures localProperties == old(localProperties) && globalProperties == old(globalProperties)
    {
      if member !in WaifuTable(chat) {
        return Err(MissingRecord);
      }
      waifus := waifus[chat := WaifuTable(chat) - {member}];
      r := Ok(());
    }

    /** `remove_chat`: both per-chat tables are emptied. */
    method RemoveChat(chat: int)
      modifies this
      ensures waifus == old(waifus)[chat := map[]] && localProperties == old(localProperties)[chat := map[]]
      ensures globalProperties == old(globalProperties)
      ensures old(Valid()) ==> Valid()
    {
      waifus := waifus[chat := map[]];
      localProperties := localProperties[chat := map[]];
    }
  }

  /** Every candidate has a positive draw weight, so the weighted draw never
      sees an all-zero weight list and NoChoosableWaifuError cannot arise. */
  lemma CandidateWeightPositive(f: WaifuFactory, chat: int, member: int, members: set<int>, w: int)
    requires f.Valid() && w in f.Candidates(chat, member, members)
    ensures 0 < WeightTenths(f.GetLocalProperty(chat, w)) <= 9
  {
  }

  /** A valid rarity gives a weight between 0 and 9 tenths; only the top rarity gives 0. */
  lemma WeightRange(p: LocalProperty)
    requires IsValidRarity(p.rarity)
    ensures 0 <= WeightTenths(p) <= 9
    ensures WeightTenths(p) == 0 <==> p.rarity == MaxRarity
  {
  }

  /** An update that names no field and keeps a valid rarity changes nothing. */
  lemma ReplaceNothing(p: LocalProperty)
    requires IsValidRarity(p.rarity)
    ensures Replace(p, LocalChanges(None, None, None)) == Ok(p)
  {
  }
}
