/** The key-set lock manager of yakusoku/shared/state.py: the same single-key
    lock and unlock as yakusoku/shared/mutex.py, but the group operations go
    key by key and roll back the keys already done when one fails. */
module SharedState {

  import opened Seqs
  import opened SharedMutex

  /** What the key-by-key `lock_all` answers and the keys held afterwards: a
      repeated key fails like a held one, since its second `lock` finds it held. */
  function StepwiseLockAllOutcome<K(==)>(held: set<K>, keys: seq<K>): (bool, set<K>)
  {
    if (forall i :: 0 <= i < |keys| ==> keys[i] !in held) && Distinct(keys) then (true, held + Elems(keys))
    else (false, held)
  }

  lemma ElemsSnoc<K>(s: seq<K>, i: nat)
    requires i < |s|
    ensures Elems(s[..i + 1]) == Elems(s[..i]) + {s[i]}
  {
    assert s[..i + 1] == s[..i] + [s[i]];
  }

  /** Adding back keys that were all just removed restores the set, and
      removing keys that were all just added does too. */
  lemma Restore<K>(held: set<K>, e: set<K>)
    ensures e <= held ==> (held - e) + e == held
    ensures held * e == {} ==> (held + e) - e == held
  {
    if held * e == {} {
      forall x
        ensures x in (held + e) - e <==> x in held
      {
        assert x !in held * e;
      }
    }
  }

  /** On distinct keys the key-by-key `lock_all` answers as the set-algebra one. */
  lemma LockAllAgreesWhenDistinct<K>(held: set<K>, keys: seq<K>)
    requires Distinct(keys)
    ensures StepwiseLockAllOutcome(held, keys) == SharedMutex.LockAllOutcome(held, keys)
  {
    GroupOutcomes(held, keys);
  }

  /** With a repeated key the two versions part: the set-algebra one locks, the
      key-by-key one refuses. */
  lemma RepeatedKeyRefused<K>(held: set<K>, k: K)
    requires k !in held
    ensures StepwiseLockAllOutcome(held, [k, k]) == (false, held)
    ensures SharedMutex.LockAllOutcome(held, [k, k]) == (true, held + {k})
  {
    assert Elems([k, k]) == {k};
    assert !Distinct([k, k]) by { assert [k, k][0] == [k, k][1]; }
  }

  class MutexManager<K(==)> {
    var keys: set<K>

    constructor()
      ensures keys == {}
    {
      keys := {};
    }

    method Lock(key: K) returns (r: bool)
      modifies this
      ensures r <==> key !in old(keys)
      ensures keys == old(keys) + {key}
    {
      var original := |keys|;
      keys := keys + {key};
      r := |keys| == original + 1;
    }

    method Unlock(key: K) returns (r: bool)
      modifies this
      ensures r <==> key in old(keys)
      ensures keys == old(keys) - {key}
    {
      if key in keys {
        keys := keys - {key};
        r := true;
      } else {
        r := false;
      }
    }

    /** The rollback loop of `lock_all`: unlock each key, ignoring the answer. */
    method UnlockEach(ks: seq<K>)
      modifies this
      ensures keys == old(keys) - Elems(ks)
    {
      var j := 0;
      while j < |ks|
        invariant 0 <= j <= |ks|
        invariant keys == old(keys) - Elems(ks[..j])
      {
        var _ := Unlock(ks[j]);
        ElemsSnoc(ks, j);
        j := j + 1;
      }
      assert ks[..|ks|] == ks;
    }

    /** The rollback loop of `unlock_all`: lock each key, ignoring the answer. */
    method LockEach(ks: seq<K>)
      modifies this
      ensures keys == old(keys) + Elems(ks)
    {
      var j := 0;
      while j < |ks|
        invariant 0 <= j <= |ks|
        invariant keys == old(keys) + Elems(ks[..j])
      {
        var _ := Lock(ks[j]);
        ElemsSnoc(ks, j);
        j := j + 1;
      }
      assert ks[..|ks|] == ks;
    }

    /** Locks key by key; at the first key already held, unlocks those locked so far. */
    method LockAll(args: seq<K>) returns (r: bool)
      modifies this
      ensures (r, keys) == StepwiseLockAllOutcome(old(keys), args)
    {
      var i := 0;
      while i < |args|
        invariant 0 <= i <= |args|
        invariant keys == old(keys) + Elems(args[..i])
        invariant forall j :: 0 <= j < i ==> args[j] !in old(keys)
        invariant Distinct(args[..i])
      {
        var ok := Lock(args[i]);
        if !ok {
          assert args[i] in old(keys) || args[i] in Elems(args[..i]);
          if args[i] !in old(keys) {
            var j :| 0 <= j < i && args[..i][j] == args[i];
            assert args[j] == args[i];
          }
          assert keys == old(keys) + Elems(args[..i]);
          ElemsDisjoint(old(keys), args[..i]);
          Restore(old(keys), Elems(args[..i]));
          UnlockEach(args[..i]);
          return false;
        }
        ElemsSnoc(args, i);
        assert args[..i + 1] == args[..i] + [args[i]];
        i := i + 1;
      }
      assert args[..|args|] == args;
      r := true;
    }

    /** Unlocks key by key; at the first key not held, locks again those unlocked so far. */
    method UnlockAll(args: seq<K>) returns (r: bool)
      modifies this
      ensures (r, keys) == UnlockAllOutcome(old(keys), args)
    {
      var i := 0;
      while i < |args|
        invariant 0 <= i <= |args|
        invariant keys == old(keys) - Elems(args[..i])
        invariant Elems(args[..i]) <= old(keys)
        invariant Distinct(args[..i])
      {
        var ok := Unlock(args[i]);
        if !ok {
          assert args[i] !in old(keys) || args[i] in Elems(args[..i]);
          if args[i] in old(keys) {
            var j :| 0 <= j < i && args[..i][j] == args[i];
            assert args[j] == args[i];
          } else {
            assert args[i] in Elems(args);
          }
          assert keys == old(keys) - Elems(args[..i]);
          Restore(old(keys), Elems(args[..i]));
          LockEach(args[..i]);
          return false;
        }
        ElemsSnoc(args, i);
        assert args[..i + 1] == args[..i] + [args[i]];
        i := i + 1;
      }
      assert args[..|args|] == args;
      r := true;
    }
  }

  lemma ElemsDisjoint<K>(held: set<K>, ks: seq<K>)
    requires forall j :: 0 <= j < |ks| ==> ks[j] !in held
    ensures held * Elems(ks) == {}
  {
    forall x | x in Elems(ks)
      ensures x !in held
    {
      var j :| 0 <= j < |ks| && ks[j] == x;
    }
  }
}
