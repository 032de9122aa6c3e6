/** The waifu record of yakusoku/modules/waifu/models.py: per chat and member,
    the drawn or married partner, when it was drawn, whether the partner is
    fixed by marriage ("restricted"), and the member's rarity. */
module WaifuModels {

  import opened Wrappers

  const MinRarity := 1
  const MaxRarity := 10
  const DefaultRarity := 5

  /** A failed `assert` inside the record's methods or its validator. */
  datatype ModelError = NoWaifuWhenRestricted | InvalidRarity

  /** `get_partner` on the two fields it reads: a restricted record must hold
      a truthy partner id (not None, not 0), and only a restricted record
      answers with it. */
  function PartnerOf(waifu: Option<int>, restricted: bool): (r: Result<Option<int>, ModelError>)
    ensures r.Err? <==> restricted && !Truthy(waifu)
    ensures r.Ok? && restricted ==> r.value == waifu && r.value.Some? && r.value.value != 0
    ensures r.Ok? && !restricted ==> r.value == None
  {
    if restricted && !Truthy(waifu) then Err(NoWaifuWhenRestricted)
    else if restricted then Ok(waifu)
    else Ok(None)
  }

  /** The rarity validator: AssertionError outside 1..10. */
  function ValidateRarity(value: int): (r: Result<int, ModelError>)
    ensures r.Ok? <==> MinRarity <= value <= MaxRarity
    ensures r.Ok? ==> r.value == value
  {
    if MinRarity <= value <= MaxRarity then Ok(value) else Err(InvalidRarity)
  }

  class WaifuData {
    const group: int
    const member: int
    var waifu: Option<int>
    var modified: Option<int>
    var restricted: bool
    var rarity: int

    /** A fresh record: no partner, never drawn, unrestricted, rarity 5. */
    constructor(group: int, member: int)
      ensures this.group == group && this.member == member
      ensures waifu == None && modified == None && !restricted && rarity == DefaultRarity
    {
      this.group := group;
      this.member := member;
      waifu := None;
      modified := None;
      restricted := false;
      rarity := DefaultRarity;
    }

    function GetPartner(): Result<Option<int>, ModelError>
      reads this
    {
      PartnerOf(waifu, restricted)
    }

    /** `set_partner`: the record is restricted exactly when a partner is given. */
    method SetPartner(value: Option<int>)
      modifies this
      ensures waifu == value && restricted == value.Some?
      ensures modified == old(modified) && rarity == old(rarity)
      ensures GetPartner() == (if value == Some(0) then Err(NoWaifuWhenRestricted) else Ok(value))
    {
      waifu := value;
      restricted := value.Some?;
      SetThenGet(value);
    }

    /** `get_weight`: the higher the rarity, the lower the draw weight. */
    function GetWeight(): (r: int)
      reads this
      ensures MinRarity <= rarity <= MaxRarity ==> 0 <= r <= MaxRarity - MinRarity
      ensures r == 0 <==> rarity == MaxRarity
    {
      MaxRarity - rarity
    }
  }

  /** Setting a partner and reading it back gives the same partner, except
      that partner id 0 is falsy and trips the assertion. */
  lemma SetThenGet(value: Option<int>)
    ensures PartnerOf(value, value.Some?) == (if value == Some(0) then Err(NoWaifuWhenRestricted) else Ok(value))
  {
  }

  /** Rarities that pass the validator are exactly those whose weight lies in 0..9. */
  lemma ValidRarityWeight(value: int)
    ensures ValidateRarity(value).Ok? <==> 0 <= MaxRarity - value <= MaxRarity - MinRarity
  {
  }
}
