// The order of the pairs within a group: thread after thread, each vector from its end.
module ShuffleOrder {
  import opened Wrappers
  import opened Shuffle

  // The pairs of v with a key equivalent to k, last first.
  function With(lt: Order, v: Vec, k: Key): Vec {
    if v == [] then []
    else (if Equivalent(lt, Last(v).key, k) then [Last(v)] else []) + With(lt, Init(v), k)
  }

  // Those of the vectors from i on, one vector after the other.
  function WithFrom(lt: Order, vecs: seq<Vec>, k: Key, i: nat): Vec
    requires i <= |vecs|
    decreases |vecs| - i
  {
    if i == |vecs| then [] else With(lt, vecs[i], k) + WithFrom(lt, vecs, k, i + 1)
  }

  // ---- one vector ----

  // v without the pairs at its end whose keys are equivalent to k.
  function Rest(lt: Order, v: Vec, k: Key): Vec {
    if v != [] && Equivalent(lt, Last(v).key, k) then Rest(lt, Init(v), k) else v
  }

  ghost predicate Below(lt: Order, v: Vec, k: Key) {
    forall p :: p in v ==> !lt(k, p.key)
  }

  lemma {:induction false} NoneWith(lt: Order, v: Vec, k: Key)
    requires forall p :: p in v ==> !Equivalent(lt, p.key, k)
    ensures With(lt, v, k) == []
  {
    if v != [] {
      NoneWith(lt, Init(v), k);
    }
  }

  lemma RestHasNone(lt: Order, v: Vec, k: Key)
    requires StrictWeakOrder(lt) && Sorted(lt, v) && Below(lt, v, k)
    requires v != [] && !Equivalent(lt, Last(v).key, k)
    ensures With(lt, v, k) == []
  {
    forall p | p in v
      ensures !Equivalent(lt, p.key, k)
    {
      LastIsLargest(lt, v, p);
      assert Last(v) in v;
      assert Transitive(lt, Last(v).key, p.key, k);
    }
    NoneWith(lt, v, k);
  }

  lemma {:induction false} DrainIs(lt: Order, s: Shuffling, i: nat, k: Key)
    requires StrictWeakOrder(lt) && i < |s.vecs| && s.key == Some(k)
    requires Sorted(lt, s.vecs[i]) && Below(lt, s.vecs[i], k)
    ensures Drain(lt, s, i).newVec == s.newVec + With(lt, s.vecs[i], k)
    ensures Drain(lt, s, i).vecs == s.vecs[i := Rest(lt, s.vecs[i], k)]
    decreases |s.vecs[i]|
  {
    var v := s.vecs[i];
    if CanTake(lt, s, i) {
      DrainIs(lt, Take(lt, s, i), i, k);
    } else if v != [] {
      RestHasNone(lt, v, k);
    }
  }

  // What is left of a vector has the pairs of every other key, and none of this one.
  lemma {:induction false} RestIs(lt: Order, v: Vec, k: Key, k': Key)
    requires StrictWeakOrder(lt) && Sorted(lt, v) && Below(lt, v, k)
    ensures Sorted(lt, Rest(lt, v, k)) && Rest(lt, v, k) <= v
    ensures With(lt, Rest(lt, v, k), k') == if Equivalent(lt, k', k) then [] else With(lt, v, k')
  {
    if v != [] && Equivalent(lt, Last(v).key, k) {
      RestIs(lt, Init(v), k, k');
      assert Transitive(lt, Last(v).key, k', k) && Transitive(lt, k, k', Last(v).key);
      assert Transitive(lt, k', Last(v).key, k) && Transitive(lt, k, Last(v).key, k');
    } else if Equivalent(lt, k', k) {
      SameWith(lt, v, k', k);
      if v != [] {
        RestHasNone(lt, v, k);
      }
    }
  }

  lemma {:induction false} SameWith(lt: Order, v: Vec, k: Key, k': Key)
    requires StrictWeakOrder(lt) && Equivalent(lt, k, k')
    ensures With(lt, v, k) == With(lt, v, k')
  {
    if v != [] {
      SameWith(lt, Init(v), k, k');
      var a := Last(v).key;
      assert Transitive(lt, a, k, k') && Transitive(lt, k', k, a);
      assert Transitive(lt, a, k', k) && Transitive(lt, k, k', a);
    }
  }

  // ---- all vectors ----

  ghost predicate AllBelow(lt: Order, vecs: seq<Vec>, k: Key) {
    forall i :: 0 <= i < |vecs| ==> Sorted(lt, vecs[i]) && Below(lt, vecs[i], k)
  }

  lemma {:induction false} FromParts(lt: Order, vecs: seq<Vec>, vecs': seq<Vec>, k: Key, k': Key, i: nat)
    requires i <= |vecs| == |vecs'| && forall j :: i <= j < |vecs| ==> With(lt, vecs[j], k) == With(lt, vecs'[j], k')
    ensures WithFrom(lt, vecs, k, i) == WithFrom(lt, vecs', k', i)
    decreases |vecs| - i
  {
    if i < |vecs| {
      FromParts(lt, vecs, vecs', k, k', i + 1);
    }
  }

  lemma {:induction false} CollectIs(lt: Order, s: Shuffling, i: nat, k: Key)
    requires StrictWeakOrder(lt) && i <= |s.vecs| && s.key == Some(k)
    requires forall j :: i <= j < |s.vecs| ==> Sorted(lt, s.vecs[j]) && Below(lt, s.vecs[j], k)
    ensures Collect(lt, s, i).newVec == s.newVec + WithFrom(lt, s.vecs, k, i)
    ensures forall j :: i <= j < |s.vecs| ==> Collect(lt, s, i).vecs[j] == Rest(lt, s.vecs[j], k)
    decreases |s.vecs| - i
  {
    if i < |s.vecs| {
      DrainIs(lt, s, i, k);
      var t := Drain(lt, s, i);
      CollectIs(lt, t, i + 1, k);
      FromParts(lt, s.vecs, t.vecs, k, k, i + 1);
      assert Collect(lt, s, i).vecs[i] == t.vecs[i];
    }
  }

  // One turn of the outer loop: the pairs of the largest key form the group, in this order.
  lemma NextGroupIs(lt: Order, s: Shuffling)
    requires StrictWeakOrder(lt) && AllSorted(lt, s.vecs) && MaxKey(lt, s.vecs).Some?
    ensures var k, r := MaxKey(lt, s.vecs).value, NextGroup(lt, s);
            && AllBelow(lt, s.vecs, k)
            && WithFrom(lt, s.vecs, k, 0) != [] && r.out == s.out + [WithFrom(lt, s.vecs, k, 0)]
            && |r.vecs| == |s.vecs| && forall j :: 0 <= j < |s.vecs| ==> r.vecs[j] == Rest(lt, s.vecs[j], k)
  {
    var k := MaxKey(lt, s.vecs).value;
    forall i, p | 0 <= i < |s.vecs| && p in s.vecs[i]
      ensures !lt(k, p.key)
    {
      TotalHas(s.vecs, p);
      MaxKeyIsMax(lt, s.vecs, p);
    }
    CollectIs(lt, Pick(lt, s), 0, k);
    assert [] + WithFrom(lt, s.vecs, k, 0) == WithFrom(lt, s.vecs, k, 0);
    NextGroupShrinks(lt, s);
  }

  lemma {:induction false} WithHasKey(lt: Order, v: Vec, k: Key)
    ensures forall p :: p in With(lt, v, k) ==> Equivalent(lt, p.key, k)
  {
    if v != [] {
      WithHasKey(lt, Init(v), k);
    }
  }

  lemma {:induction false} FromHasKey(lt: Order, vecs: seq<Vec>, k: Key, i: nat)
    requires i <= |vecs|
    ensures forall p :: p in WithFrom(lt, vecs, k, i) ==> Equivalent(lt, p.key, k)
    decreases |vecs| - i
  {
    if i < |vecs| {
      WithHasKey(lt, vecs[i], k);
      FromHasKey(lt, vecs, k, i + 1);
    }
  }

  lemma SameFrom(lt: Order, vecs: seq<Vec>, k: Key, k': Key)
    requires StrictWeakOrder(lt) && Equivalent(lt, k, k')
    ensures WithFrom(lt, vecs, k, 0) == WithFrom(lt, vecs, k', 0)
  {
    forall j | 0 <= j < |vecs| {
      SameWith(lt, vecs[j], k, k');
    }
    FromParts(lt, vecs, vecs, k, k', 0);
  }

  lemma {:induction false} NothingFrom(lt: Order, vecs: seq<Vec>, k: Key, i: nat)
    requires i <= |vecs| && forall j :: i <= j < |vecs| ==> With(lt, vecs[j], k) == []
    ensures WithFrom(lt, vecs, k, i) == []
    decreases |vecs| - i
  {
    if i < |vecs| {
      NothingFrom(lt, vecs, k, i + 1);
    }
  }

  // What a turn leaves has, for any other key, the pairs it had before, and for its own key none.
  lemma RestsAre(lt: Order, vecs: seq<Vec>, vecs': seq<Vec>, k: Key, k': Key)
    requires StrictWeakOrder(lt) && AllBelow(lt, vecs, k)
    requires |vecs'| == |vecs| && forall j :: 0 <= j < |vecs| ==> vecs'[j] == Rest(lt, vecs[j], k)
    ensures AllSorted(lt, vecs')
    ensures WithFrom(lt, vecs', k', 0) == if Equivalent(lt, k', k) then [] else WithFrom(lt, vecs, k', 0)
  {
    forall j | 0 <= j < |vecs|
      ensures Sorted(lt, vecs'[j])
      ensures With(lt, vecs'[j], k') == if Equivalent(lt, k', k) then [] else With(lt, vecs[j], k')
    {
      RestIs(lt, vecs[j], k, k');
    }
    if Equivalent(lt, k', k) {
      NothingFrom(lt, vecs', k', 0);
    } else {
      FromParts(lt, vecs, vecs', k', k', 0);
    }
  }

  // group holds the pairs of its key, in this order.
  ghost predicate IsGroupOf(lt: Order, vecs: seq<Vec>, group: Vec) {
    group != [] && group == WithFrom(lt, vecs, group[0].key, 0)
  }

  lemma FirstGroup(lt: Order, vecs: seq<Vec>, k: Key)
    requires StrictWeakOrder(lt) && WithFrom(lt, vecs, k, 0) != []
    ensures IsGroupOf(lt, vecs, WithFrom(lt, vecs, k, 0))
  {
    var group := WithFrom(lt, vecs, k, 0);
    FromHasKey(lt, vecs, k, 0);
    assert group[0] in group;
    SameFrom(lt, vecs, k, group[0].key);
  }

  lemma LaterGroup(lt: Order, vecs: seq<Vec>, vecs': seq<Vec>, k: Key, group: Vec)
    requires StrictWeakOrder(lt) && AllBelow(lt, vecs, k)
    requires |vecs'| == |vecs| && forall j :: 0 <= j < |vecs| ==> vecs'[j] == Rest(lt, vecs[j], k)
    requires IsGroupOf(lt, vecs', group)
    ensures IsGroupOf(lt, vecs, group)
  {
    RestsAre(lt, vecs, vecs', k, group[0].key);
  }

  // The groups of r from n on.
  ghost predicate GroupsFrom(lt: Order, vecs: seq<Vec>, r: seq<Vec>, n: nat) {
    forall g :: n <= g < |r| ==> IsGroupOf(lt, vecs, r[g])
  }

  lemma TurnInOrder(lt: Order, s: Shuffling, r: seq<Vec>)
    requires StrictWeakOrder(lt) && AllSorted(lt, s.vecs) && MaxKey(lt, s.vecs).Some?
    requires NextGroup(lt, s).out <= r && GroupsFrom(lt, NextGroup(lt, s).vecs, r, |s.out| + 1)
    ensures s.out <= r && GroupsFrom(lt, s.vecs, r, |s.out|)
  {
    var k := MaxKey(lt, s.vecs).value;
    NextGroupIs(lt, s);
    FirstGroup(lt, s.vecs, k);
    assert r[|s.out|] == NextGroup(lt, s).out[|s.out|];
    forall g | |s.out| < g < |r|
      ensures IsGroupOf(lt, s.vecs, r[g])
    {
      LaterGroup(lt, s.vecs, NextGroup(lt, s).vecs, k, r[g]);
    }
  }

  // Main result on order: every group is the sequence of all pairs with its key, thread after thread,
  // the pairs of a thread from the end of its sorted vector to the front.
  lemma {:induction false} GroupsAreInOrder(lt: Order, s: Shuffling)
    requires StrictWeakOrder(lt) && AllSorted(lt, s.vecs)
    ensures s.out <= ShuffleAll(lt, s).out
    ensures GroupsFrom(lt, s.vecs, ShuffleAll(lt, s).out, |s.out|)
    decreases Size(s.vecs)
  {
    if MaxKey(lt, s.vecs).Some? {
      NextGroupIs(lt, s);
      NextGroupShrinks(lt, s);
      RestsAre(lt, s.vecs, NextGroup(lt, s).vecs, MaxKey(lt, s.vecs).value, MaxKey(lt, s.vecs).value);
      GroupsAreInOrder(lt, NextGroup(lt, s));
      TurnInOrder(lt, s, ShuffleAll(lt, s).out);
    }
  }
}
