/** The marriage registry of yakusoku/modules/waifu/registry.py: pending
    proposals, pending divorce requests, and the married field of each
    member's per-chat property. The factory methods the registry calls for
    that field (`get_waifu_property`, `update_waifu_property`) are not defined
    by the factory, so the married field is kept here as a map keyed by
    (chat, member), absent meaning unmarried; `drawn` holds the (chat, member)
    pairs that have a daily-waifu record, which `remove_waifu` deletes. */
module WaifuRegistry {

  import opened Wrappers
  import opened Seqs

  /** The four exception classes, plus KeyError from `remove_waifu` and a
      dict lookup, and ValueError from `list.remove`. */
  datatype RegistryError = MarriageState | Queueing | TargetUnmatched | InvalidTarget | KeyError | ValueError

  type Key = (int, int)

  class Registry {
    var married: map<Key, int>
    var drawn: set<Key>
    var proposals: map<Key, int>
    var divorceRequests: seq<Key>

    /** Marriages are recorded on both sides with nonzero partner ids. */
    predicate Valid()
      reads this
    {
      Symmetric(married)
    }

    constructor(married: map<Key, int>, drawn: set<Key>)
      ensures this.married == married && this.drawn == drawn
      ensures proposals == map[] && divorceRequests == []
    {
      this.married := married;
      this.drawn := drawn;
      proposals := map[];
      divorceRequests := [];
    }

    /** The married field of a member's property in a chat. */
    function Partner(chat: int, member: int): (r: Option<int>)
      reads this
      ensures r.Some? <==> (chat, member) in married
      ensures Valid() && r.Some? ==> r.value != 0 && (chat, r.value) in married && married[(chat, r.value)] == member
    {
      if (chat, member) in married then Some(married[(chat, member)]) else None
    }

    /** `marry`: refused if either side is married; otherwise both married
        fields are written first, and only then are both daily records
        removed, so a missing record raises KeyError with the marriage kept;
        when the first record is missing, the second is not reached. */
    method Marry(chat: int, first: int, second: int) returns (r: Result<(), RegistryError>)
      modifies this
      ensures Truthy(old(Partner(chat, first))) || Truthy(old(Partner(chat, second))) ==>
                r == Err(MarriageState) && married == old(married) && drawn == old(drawn)
      ensures !(Truthy(old(Partner(chat, first))) || Truthy(old(Partner(chat, second)))) ==>
                && married == old(married)[(chat, first) := second][(chat, second) := first]
                && (r.Ok? <==> (chat, first) in old(drawn) && (chat, second) in old(drawn) && first != second)
                && (r.Err? ==> r.error == KeyError)
                && drawn == (if (chat, first) in old(drawn) then old(drawn) - {(chat, first), (chat, second)} else old(drawn))
      ensures proposals == old(proposals) && divorceRequests == old(divorceRequests)
      ensures old(Valid()) && first != 0 && second != 0 ==> Valid()
    {
      if Truthy(Partner(chat, first)) || Truthy(Partner(chat, second)) {
        return Err(MarriageState);
      }
      MarryKeepsValid(married, chat, first, second);
      married := married[(chat, first) := second][(chat, second) := first];
      if (chat, first) !in drawn {
        return Err(KeyError);
      }
      drawn := drawn - {(chat, first)};
      if (chat, second) !in drawn {
        return Err(KeyError);
      }
      drawn := drawn - {(chat, second)};
      r := Ok(());
    }

    /** `divorce`: refused unless married; clears both sides. */
    method Divorce(chat: int, originator: int) returns (r: Result<(), RegistryError>)
      modifies this
      ensures r.Ok? <==> Truthy(old(Partner(chat, originator)))
      ensures r.Err? ==> r.error == MarriageState && married == old(married)
      ensures r.Ok? ==> married == old(married) - {(chat, originator), (chat, old(married)[(chat, originator)])}
      ensures drawn == old(drawn) && proposals == old(proposals) && divorceRequests == old(divorceRequests)
      ensures old(Valid()) ==> Valid()
    {
      var p := Partner(chat, originator);
      if !Truthy(p) {
        return Err(MarriageState);
      }
      DivorceKeepsValid(married, chat, originator);
      married := married - {(chat, originator), (chat, p.value)};
      r := Ok(());
    }

    /** `propose`: checks in order self-proposal, marriage on either side,
        the originator's own truthy pending proposal, and a target's pending
        proposal to someone else; a matching proposal is consumed and the two
        marry (True); otherwise the proposal is recorded (False). */
    method Propose(chat: int, originator: int, target: int) returns (r: Result<bool, RegistryError>)
      modifies this
      ensures originator == target ==> r == Err(InvalidTarget) && unchanged(this)
      ensures originator != target && (Truthy(old(Partner(chat, originator))) || Truthy(old(Partner(chat, target)))) ==>
                r == Err(MarriageState) && unchanged(this)
      ensures originator != target && !Truthy(old(Partner(chat, originator))) && !Truthy(old(Partner(chat, target))) ==>
                if (chat, originator) in old(proposals) && old(proposals)[(chat, originator)] != 0 then r == Err(Queueing) && unchanged(this)
                else if (chat, target) !in old(proposals) then
                  r == Ok(false) && proposals == old(proposals)[(chat, originator) := target]
                  && married == old(married) && drawn == old(drawn) && divorceRequests == old(divorceRequests)
                else if old(proposals)[(chat, target)] != originator then r == Err(TargetUnmatched) && unchanged(this)
                else
                  && proposals == old(proposals) - {(chat, target)}
                  && married == old(married)[(chat, originator) := target][(chat, target) := originator]
                  && drawn == (if (chat, originator) in old(drawn) then old(drawn) - {(chat, originator), (chat, target)} else old(drawn))
                  && divorceRequests == old(divorceRequests)
                  && (r == Ok(true) <==> (chat, originator) in old(drawn) && (chat, target) in old(drawn))
                  && (r != Ok(true) ==> r == Err(KeyError))
      ensures old(Valid()) && originator != 0 && target != 0 ==> Valid()
    {
      if originator == target {
        return Err(InvalidTarget);
      }
      if Truthy(Partner(chat, originator)) || Truthy(Partner(chat, target)) {
        return Err(MarriageState);
      }
      if (chat, originator) in proposals && proposals[(chat, originator)] != 0 {
        return Err(Queueing);
      }
      if (chat, target) in proposals {
        if proposals[(chat, target)] != originator {
          return Err(TargetUnmatched);
        }
        proposals := proposals - {(chat, target)};
        var m := Marry(chat, originator, target);
        if m.Err? {
          return Err(m.error);
        }
        return Ok(true);
      }
      proposals := proposals[(chat, originator) := target];
      r := Ok(false);
    }

    /** `request_divorce`: refused unless married or if already requested; if
        the partner has requested, that request is consumed and the two
        divorce (True); otherwise the request is queued (False). */
    method RequestDivorce(chat: int, originator: int) returns (r: Result<bool, RegistryError>)
      modifies this
      ensures !Truthy(old(Partner(chat, originator))) ==> r == Err(MarriageState) && unchanged(this)
      ensures Truthy(old(Partner(chat, originator))) ==>
                var partner := old(married)[(chat, originator)];
                if (chat, originator) in old(divorceRequests) then r == Err(Queueing) && unchanged(this)
                else if (chat, partner) in old(divorceRequests) then
                  r == Ok(true) && divorceRequests == RemoveFirst(old(divorceRequests), (chat, partner))
                  && married == old(married) - {(chat, originator), (chat, partner)}
                  && drawn == old(drawn) && proposals == old(proposals)
                else
                  r == Ok(false) && divorceRequests == old(divorceRequests) + [(chat, originator)]
                  && married == old(married) && drawn == old(drawn) && proposals == old(proposals)
      ensures old(Valid()) ==> Valid()
    {
      var p := Partner(chat, originator);
      if !Truthy(p) {
        return Err(MarriageState);
      }
      if (chat, originator) in divorceRequests {
        return Err(Queueing);
      }
      if (chat, p.value) in divorceRequests {
        divorceRequests := RemoveFirst(divorceRequests, (chat, p.value));
        var d := Divorce(chat, originator);
        return Ok(true);
      }
      divorceRequests := divorceRequests + [(chat, originator)];
      r := Ok(false);
    }

    /** `get_proposal`: KeyError when the member has no pending proposal. */
    function GetProposal(chat: int, originator: int): (r: Result<int, RegistryError>)
      reads this
      ensures r.Ok? <==> (chat, originator) in proposals
      ensures r.Ok? ==> r.value == proposals[(chat, originator)]
      ensures r.Err? ==> r.error == KeyError
    {
      if (chat, originator) in proposals then Ok(proposals[(chat, originator)]) else Err(KeyError)
    }

    /** `revoke_proposal`: KeyError when there is nothing to revoke. */
    method RevokeProposal(chat: int, originator: int) returns (r: Result<(), RegistryError>)
      modifies this
      ensures r.Ok? <==> (chat, originator) in old(proposals)
      ensures r.Err? ==> r.error == KeyError
      ensures proposals == old(proposals) - {(chat, originator)}
      ensures married == old(married) && drawn == old(drawn) && divorceRequests == old(divorceRequests)
    {
      if (chat, originator) !in proposals {
        return Err(KeyError);
      }
      proposals := proposals - {(chat, originator)};
      r := Ok(());
    }

    /** `revoke_divorce_request`: refused unless married; removes the
        member's own request if queued, else the partner's, and raises
        ValueError when neither is queued. */
    method RevokeDivorceRequest(chat: int, originator: int) returns (r: Result<(), RegistryError>)
      modifies this
      ensures !Truthy(old(Partner(chat, originator))) ==> r == Err(MarriageState) && unchanged(this)
      ensures Truthy(old(Partner(chat, originator))) ==>
                var who := if (chat, originator) in old(divorceRequests) then originator else old(married)[(chat, originator)];
                && (r.Ok? <==> (chat, who) in old(divorceRequests))
                && (r.Err? ==> r.error == ValueError)
                && divorceRequests == RemoveFirst(old(divorceRequests), (chat, who))
      ensures married == old(married) && drawn == old(drawn) && proposals == old(proposals)
    {
      var p := Partner(chat, originator);
      if !Truthy(p) {
        return Err(MarriageState);
      }
      var who := originator;
      if (chat, originator) !in divorceRequests {
        who := p.value;
      }
      if (chat, who) !in divorceRequests {
        return Err(ValueError);
      }
      divorceRequests := RemoveFirst(divorceRequests, (chat, who));
      r := Ok(());
    }
  }

  /** The symmetry of marriages on a bare map. */
  predicate Symmetric(m: map<Key, int>)
  {
    forall k :: k in m ==> m[k] != 0 && (k.0, m[k]) in m && m[(k.0, m[k])] == k.1
  }

  /** Marrying two unmarried, nonzero members keeps marriages symmetric. */
  lemma MarryKeepsValid(m: map<Key, int>, chat: int, first: int, second: int)
    requires (chat, first) !in m || m[(chat, first)] == 0
    requires (chat, second) !in m || m[(chat, second)] == 0
    ensures Symmetric(m) && first != 0 && second != 0 ==> Symmetric(m[(chat, first) := second][(chat, second) := first])
  {
    if Symmetric(m) && first != 0 && second != 0 {
      var m' := m[(chat, first) := second][(chat, second) := first];
      forall k | k in m'
        ensures m'[k] != 0 && (k.0, m'[k]) in m' && m'[(k.0, m'[k])] == k.1
      {
        if k != (chat, first) && k != (chat, second) {
          assert k in m;
          assert (k.0, m[k]) != (chat, first) && (k.0, m[k]) != (chat, second);
        }
      }
    }
  }

  /** Removing a married pair keeps marriages symmetric. */
  lemma DivorceKeepsValid(m: map<Key, int>, chat: int, originator: int)
    requires (chat, originator) in m
    ensures Symmetric(m) ==> Symmetric(m - {(chat, originator), (chat, m[(chat, originator)])})
  {
    if Symmetric(m) {
      var p := m[(chat, originator)];
      var m' := m - {(chat, originator), (chat, p)};
      forall k | k in m'
        ensures m'[k] != 0 && (k.0, m'[k]) in m' && m'[(k.0, m'[k])] == k.1
      {
        assert k in m;
        assert (k.0, m[k]) != (chat, originator) && (k.0, m[k]) != (chat, p);
      }
    }
  }
}
