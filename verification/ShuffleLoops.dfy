// getTotalShufflePairs, getMaxKey and shufflePhase as loops over the threads' vectors.
module ShuffleLoops {
  import opened Wrappers
  import opened JobWord
  import opened Shuffle

  class JobContext {
    const lt: Order
    var vecs: seq<Vec> // the intermediateVec of each thread
    var shuffleOut: seq<Vec>
    var atomicVar: nat
    var atomicShuffle: nat

    constructor (lt: Order, vecs: seq<Vec>)
      ensures this.lt == lt && this.vecs == vecs && shuffleOut == [] && atomicVar == 0 && atomicShuffle == 0
    {
      this.lt := lt;
      this.vecs := vecs;
      shuffleOut, atomicVar, atomicShuffle := [], 0, 0;
    }

    method GetTotalShufflePairs() returns (total: nat)
      ensures total == Size(vecs)
    {
      total := 0;
      var i := 0;
      while i < |vecs|
        invariant 0 <= i <= |vecs|
        invariant total == Size(vecs[..i])
      {
        assert vecs[..i + 1][..i] == vecs[..i];
        total := total + |vecs[i]|;
        i := i + 1;
      }
      assert vecs[..i] == vecs;
    }

    method GetMaxKey() returns (maxKey: Option<Key>)
      ensures maxKey == MaxKey(lt, vecs)
    {
      maxKey := None;
      var lastKey: Option<Key> := None;
      var i := 0;
      while i < |vecs|
        invariant 0 <= i <= |vecs|
        invariant maxKey == MaxKeyOf(lt, vecs, i)
      {
        if vecs[i] != [] {
          lastKey := Some(Last(vecs[i]).key);
        } else {
          lastKey := None;
        }
        if maxKey.None? || (lastKey.Some? && lt(maxKey.value, lastKey.value)) {
          maxKey := lastKey;
        }
        i := i + 1;
      }
    }

    // What thread 0 sees of the shuffle: its local newVec, the shared vectors and the groups.
    ghost function View(key: Option<Key>, newVec: Vec): Shuffling
      reads this
    {
      Shuffling(vecs, key, newVec, shuffleOut)
    }

    // The processed field counts the pairs moved so far.
    ghost predicate Counted(total: nat)
      reads this
    {
      Size(vecs) <= total < FIELD && atomicVar == Pack(SHUFFLE_STAGE, total, total - Size(vecs))
    }

    // The groups are those of ShuffleAll; the processed field has counted every pair and
    // atomicShuffle every group.
    method ShufflePhase()
      requires StrictWeakOrder(lt) && Counted(Size(vecs))
      requires shuffleOut == [] && atomicShuffle == 0
      modifies this
      ensures View(None, []) == ShuffleAll(lt, old(View(None, [])))
      ensures Counted(old(Size(vecs)))
      ensures atomicShuffle == |shuffleOut|
    {
      ghost var total := Size(vecs);
      var maxKey := GetMaxKey();
      while maxKey.Some?
        invariant ShuffleAll(lt, View(None, [])) == ShuffleAll(lt, old(View(None, [])))
        invariant maxKey == MaxKey(lt, vecs)
        invariant Counted(total) && |shuffleOut| + Size(vecs) <= total
        invariant atomicShuffle == |shuffleOut|
        decreases Size(vecs)
      {
        NextGroupShrinks(lt, View(None, []));
        PushNextGroup(maxKey.value, total);
        maxKey := GetMaxKey();
      }
    }

    // The body of that loop, up to the next maximum.
    method PushNextGroup(maxKey: Key, ghost total: nat)
      requires StrictWeakOrder(lt) && MaxKey(lt, vecs) == Some(maxKey)
      requires Counted(total) && |shuffleOut| + Size(vecs) <= total && atomicShuffle == |shuffleOut|
      modifies this
      ensures View(None, []) == NextGroup(lt, old(View(None, [])))
      ensures Counted(total) && |shuffleOut| + Size(vecs) <= total && atomicShuffle == |shuffleOut|
    {
      NextGroupShrinks(lt, View(None, []));
      var newVec := CollectGroup(maxKey, total);
      if newVec != [] {
        shuffleOut := shuffleOut + [newVec];
        atomicShuffle := FetchAdd32(atomicShuffle, 1);
      }
    }

    // The for loop of shufflePhase: pops every pair whose key is equivalent to the maximum.
    method CollectGroup(maxKey: Key, ghost total: nat) returns (newVec: Vec)
      requires Counted(total)
      modifies this`vecs, this`atomicVar
      ensures View(Some(maxKey), newVec) == Collect(lt, old(View(Some(maxKey), [])), 0)
      ensures Counted(total)
    {
      newVec := [];
      ghost var all := Collect(lt, View(Some(maxKey), newVec), 0);
      var i := 0;
      while i < |vecs|
        invariant 0 <= i <= |vecs|
        invariant Counted(total)
        invariant Collect(lt, View(Some(maxKey), newVec), i) == all
      {
        ghost var before := View(Some(maxKey), newVec);
        newVec := DrainVector(maxKey, i, newVec, total);
        assert Collect(lt, before, i) == Collect(lt, Drain(lt, before, i), i + 1);
        i := i + 1;
      }
    }

    // The inner while loop, on the vector of thread i.
    method DrainVector(maxKey: Key, i: nat, newVec0: Vec, ghost total: nat) returns (newVec: Vec)
      requires i < |vecs| && Counted(total)
      modifies this`vecs, this`atomicVar
      ensures View(Some(maxKey), newVec) == Drain(lt, old(View(Some(maxKey), newVec0)), i)
      ensures Counted(total)
    {
      newVec := newVec0;
      while vecs[i] != []
        invariant i < |vecs| && Counted(total)
        invariant Drain(lt, View(Some(maxKey), newVec), i) == Drain(lt, old(View(Some(maxKey), newVec0)), i)
        decreases |vecs[i]|
      {
        if lt(Last(vecs[i]).key, maxKey) || lt(maxKey, Last(vecs[i]).key) {
          break;
        }
        TakeSize(lt, View(Some(maxKey), newVec), i);
        AddProcessed(SHUFFLE_STAGE, total, total - Size(vecs), 1);
        newVec := newVec + [Last(vecs[i])];
        vecs := vecs[i := Init(vecs[i])];
        atomicVar := FetchAdd(atomicVar, 1);
      }
    }
  }
}
