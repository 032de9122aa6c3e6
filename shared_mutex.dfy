/** The key-set lock manager of yakusoku/shared/mutex.py: a set of held keys,
    single-key lock and unlock, and all-or-nothing group operations written
    with set algebra. */
module SharedMutex {

  import opened Seqs

  /** A tuple of keys has as many distinct elements as entries iff no key repeats. */
  lemma {:induction false} DistinctCard<K>(s: seq<K>)
    ensures |Elems(s)| <= |s|
    ensures |Elems(s)| == |s| <==> Distinct(s)
  {
    if s != [] {
      var t := s[1..];
      DistinctCard(t);
      assert Elems(s) == {s[0]} + Elems(t);
      if s[0] in Elems(t) {
        var j :| 0 <= j < |t| && t[j] == s[0];
        assert s[0] == s[j + 1];
        assert !Distinct(s);
      } else {
        if Distinct(t) {
          forall i, j | 0 <= i < j < |s|
            ensures s[i] != s[j]
          {
            if i == 0 { assert s[j] == t[j - 1]; } else { assert s[i] == t[i - 1] && s[j] == t[j - 1]; }
          }
        } else {
          var i, j :| 0 <= i < j < |t| && t[i] == t[j];
          assert s[i + 1] == s[j + 1];
        }
      }
    }
  }

  /** `len(held & set(keys)) == len(keys)` holds exactly when every key is
      held and no key repeats. */
  lemma HeldCount<K>(held: set<K>, keys: seq<K>)
    ensures |held * Elems(keys)| <= |keys|
    ensures |held * Elems(keys)| == |keys| <==> Elems(keys) <= held && Distinct(keys)
  {
    DistinctCard(keys);
    var e := Elems(keys);
    assert held * e <= e;
    if !(e <= held) {
      var x :| x in e && x !in held;
      SubsetCard(held * e, e - {x});
    } else {
      assert held * e == e;
    }
  }

  lemma {:induction false} SubsetCard<K>(a: set<K>, b: set<K>)
    requires a <= b
    ensures |a| <= |b|
    decreases b
  {
    if a != {} {
      var x :| x in a;
      SubsetCard(a - {x}, b - {x});
    }
  }

  /** What `lock_all` answers and the keys held afterwards: it fails, and
      changes nothing, when any of the keys is already held. */
  function LockAllOutcome<K(==)>(held: set<K>, keys: seq<K>): (bool, set<K>)
  {
    if held * Elems(keys) != {} then (false, held) else (true, held + Elems(keys))
  }

  /** What `unlock_all` answers and the keys held afterwards: it fails, and
      changes nothing, unless every key is held and none repeats. */
  function UnlockAllOutcome<K(==)>(held: set<K>, keys: seq<K>): (bool, set<K>)
  {
    if Elems(keys) <= held && Distinct(keys) then (true, held - Elems(keys)) else (false, held)
  }

  /** Keys outside the argument tuple keep their state through both group operations. */
  lemma OthersUntouched<K>(held: set<K>, keys: seq<K>, k: K)
    requires k !in keys
    ensures k in LockAllOutcome(held, keys).1 <==> k in held
    ensures k in UnlockAllOutcome(held, keys).1 <==> k in held
  {
  }

  /** A successful `lock_all` of distinct keys followed by `unlock_all` of the
      same keys succeeds and gives back the original set. */
  lemma LockAllThenUnlockAll<K>(held: set<K>, keys: seq<K>)
    requires Distinct(keys) && LockAllOutcome(held, keys).0
    ensures UnlockAllOutcome(LockAllOutcome(held, keys).1, keys) == (true, held)
  {
    var e := Elems(keys);
    forall x
      ensures x in (held + e) - e <==> x in held
    {
      assert x !in held * e;
    }
    assert (held + e) - e == held;
  }

  /** A successful `lock_all` leaves every key held; `unlock_all` leaves none. */
  lemma GroupOutcomes<K>(held: set<K>, keys: seq<K>)
    ensures LockAllOutcome(held, keys).0 <==> forall i :: 0 <= i < |keys| ==> keys[i] !in held
    ensures LockAllOutcome(held, keys).0 ==> forall i :: 0 <= i < |keys| ==> keys[i] in LockAllOutcome(held, keys).1
    ensures UnlockAllOutcome(held, keys).0 ==> forall i :: 0 <= i < |keys| ==> keys[i] !in UnlockAllOutcome(held, keys).1
  {
    if held * Elems(keys) != {} {
      var x :| x in held * Elems(keys);
      var i :| 0 <= i < |keys| && keys[i] == x;
    } else {
      forall i | 0 <= i < |keys|
        ensures keys[i] !in held
      {
        assert keys[i] in Elems(keys);
        assert keys[i] !in held * Elems(keys);
      }
    }
  }

  class MutexManager<K(==)> {
    var keys: set<K>

    constructor()
      ensures keys == {}
    {
      keys := {};
    }

    /** Adds the key; true iff it was not held before. */
    method Lock(key: K) returns (r: bool)
      modifies this
      ensures r <==> key !in old(keys)
      ensures keys == old(keys) + {key}
    {
      var original := |keys|;
      keys := keys + {key};
      r := |keys| == original + 1;
    }

    /** Removes the key; true iff it was held (KeyError otherwise). */
    method Unlock(key: K) returns (r: bool)
      modifies this
      ensures r <==> key in old(keys)
      ensures keys == old(keys) - {key}
    {
      if key in keys {
        keys := keys - {key};
        r := true;
      } else {
        r := false;
      }
    }

    method LockAll(args: seq<K>) returns (r: bool)
      modifies this
      ensures (r, keys) == LockAllOutcome(old(keys), args)
    {
      if keys * Elems(args) != {} {
        return false;
      }
      keys := keys + Elems(args);
      r := true;
    }

    method LockAllUnchecked(args: seq<K>)
      modifies this
      ensures keys == old(keys) + Elems(args)
    {
      keys := keys + Elems(args);
    }

    /** Compares the size of the held part of the tuple with the tuple's length. */
    method UnlockAll(args: seq<K>) returns (r: bool)
      modifies this
      ensures (r, keys) == UnlockAllOutcome(old(keys), args)
    {
      HeldCount(keys, args);
      if |keys * Elems(args)| < |args| {
        return false;
      }
      keys := keys - Elems(args);
      r := true;
    }

    method UnlockAllUnchecked(args: seq<K>)
      modifies this
      ensures keys == old(keys) - Elems(args)
    {
      keys := keys - Elems(args);
    }
  }
}
