// Grouping the sorted intermediate vectors by key, largest key first.
module Shuffle {
  import opened Wrappers

  type Key(==, !new)
  type Value(==, !new)

  datatype Pair = Pair(key: Key, value: Value)
  type Vec = seq<Pair>

  type Order = (Key, Key) -> bool

  // What operator< of a client's keys has to be: both it and its negation are transitive.
  ghost predicate StrictWeakOrder(lt: Order) {
    && (forall a :: !lt(a, a))
    && (forall a, b, c :: Transitive(lt, a, b, c))
  }

  ghost predicate Transitive(lt: Order, a: Key, b: Key, c: Key) {
    && (lt(a, b) && lt(b, c) ==> lt(a, c))
    && (!lt(a, b) && !lt(b, c) ==> !lt(a, c))
  }

  predicate Equivalent(lt: Order, a: Key, b: Key) {
    !lt(a, b) && !lt(b, a)
  }

  ghost predicate Sorted(lt: Order, v: Vec) {
    forall i, j :: 0 <= i < j < |v| ==> !lt(v[j].key, v[i].key)
  }

  ghost predicate AllSorted(lt: Order, vecs: seq<Vec>) {
    forall i :: 0 <= i < |vecs| ==> Sorted(lt, vecs[i])
  }

  function Last(v: Vec): Pair
    requires v != []
  {
    v[|v| - 1]
  }

  function Init(v: Vec): Vec
    requires v != []
  {
    v[..|v| - 1]
  }

  // All pairs of a sequence of vectors.
  function Total(vecs: seq<Vec>): multiset<Pair> {
    if vecs == [] then multiset{} else Total(vecs[..|vecs| - 1]) + multiset(vecs[|vecs| - 1])
  }

  // How many there are.
  function Size(vecs: seq<Vec>): nat {
    if vecs == [] then 0 else Size(vecs[..|vecs| - 1]) + |vecs[|vecs| - 1]|
  }

  lemma {:induction false} SizeIsCardinality(vecs: seq<Vec>)
    ensures Size(vecs) == |Total(vecs)|
  {
    if vecs != [] {
      SizeIsCardinality(vecs[..|vecs| - 1]);
    }
  }

  lemma AddBoth(a: multiset<Pair>, b: multiset<Pair>, c: multiset<Pair>, d: multiset<Pair>, x: multiset<Pair>)
    requires a + b == c + d
    ensures a + x + b == c + x + d
  {
    assert a + x + b == a + b + x;
    assert c + x + d == c + d + x;
  }

  lemma {:induction false} TotalUpdate(vecs: seq<Vec>, i: nat, v: Vec)
    requires i < |vecs|
    ensures Total(vecs[i := v]) + multiset(vecs[i]) == Total(vecs) + multiset(v)
  {
    var n, w := |vecs| - 1, vecs[i := v];
    assert Total(w) == Total(w[..n]) + multiset(w[n]);
    assert Total(vecs) == Total(vecs[..n]) + multiset(vecs[n]);
    if i < n {
      assert w[..n] == vecs[..n][i := v] && vecs[..n][i] == vecs[i];
      TotalUpdate(vecs[..n], i, v);
      assert w[n] == vecs[n];
      AddBoth(Total(w[..n]), multiset(vecs[i]), Total(vecs[..n]), multiset(v), multiset(vecs[n]));
    } else {
      assert w[..n] == vecs[..n];
    }
  }

  lemma {:induction false} TotalHas(vecs: seq<Vec>, p: Pair)
    ensures p in Total(vecs) <==> exists i :: 0 <= i < |vecs| && p in vecs[i]
  {
    if vecs != [] {
      var n := |vecs| - 1;
      TotalHas(vecs[..n], p);
      if i :| 0 <= i < |vecs| && p in vecs[i] && i < n {
        assert p in vecs[..n][i];
      }
      if p in Total(vecs[..n]) {
        var i :| 0 <= i < n && p in vecs[..n][i];
        assert p in vecs[i];
      }
    }
  }

  lemma {:induction false} TotalOfEmpty(vecs: seq<Vec>)
    requires forall i :: 0 <= i < |vecs| ==> vecs[i] == []
    ensures Total(vecs) == multiset{}
  {
    if vecs != [] {
      TotalOfEmpty(vecs[..|vecs| - 1]);
    }
  }

  // ---- getMaxKey ----

  // The largest of the last keys of the first n vectors, as the loop of getMaxKey leaves it.
  function MaxKeyOf(lt: Order, vecs: seq<Vec>, n: nat): Option<Key>
    requires n <= |vecs|
  {
    if n == 0 then None
    else
      var maxKey := MaxKeyOf(lt, vecs, n - 1);
      var lastKey := if vecs[n - 1] != [] then Some(Last(vecs[n - 1]).key) else None;
      if maxKey.None? || (lastKey.Some? && lt(maxKey.value, lastKey.value)) then lastKey else maxKey
  }

  function MaxKey(lt: Order, vecs: seq<Vec>): Option<Key> {
    MaxKeyOf(lt, vecs, |vecs|)
  }

  lemma {:induction false} MaxKeyOfIsMax(lt: Order, vecs: seq<Vec>, n: nat)
    requires StrictWeakOrder(lt) && n <= |vecs|
    ensures MaxKeyOf(lt, vecs, n).None? <==> forall i :: 0 <= i < n ==> vecs[i] == []
    ensures MaxKeyOf(lt, vecs, n).Some? ==>
              var k := MaxKeyOf(lt, vecs, n).value;
              && (exists i :: 0 <= i < n && vecs[i] != [] && Last(vecs[i]).key == k)
              && (forall i :: 0 <= i < n && vecs[i] != [] ==> !lt(k, Last(vecs[i]).key))
  {
    if n > 0 {
      MaxKeyOfIsMax(lt, vecs, n - 1);
      var m := MaxKeyOf(lt, vecs, n - 1);
      if m.Some? && vecs[n - 1] != [] {
        var last := Last(vecs[n - 1]).key;
        assert Transitive(lt, m.value, last, m.value);
        forall i | 0 <= i < n - 1 && vecs[i] != []
          ensures lt(m.value, last) ==> !lt(last, Last(vecs[i]).key)
        {
          assert Transitive(lt, m.value, last, Last(vecs[i]).key);
        }
      }
    }
  }

  lemma MaxKeyRemains(lt: Order, vecs: seq<Vec>)
    requires StrictWeakOrder(lt) && MaxKey(lt, vecs).Some?
    ensures exists p :: p in Total(vecs) && p.key == MaxKey(lt, vecs).value
  {
    MaxKeyOfIsMax(lt, vecs, |vecs|);
    var i :| 0 <= i < |vecs| && vecs[i] != [] && Last(vecs[i]).key == MaxKey(lt, vecs).value;
    TotalHas(vecs, Last(vecs[i]));
  }

  lemma MaxKeyIsMax(lt: Order, vecs: seq<Vec>, p: Pair)
    requires StrictWeakOrder(lt) && AllSorted(lt, vecs) && MaxKey(lt, vecs).Some? && p in Total(vecs)
    ensures !lt(MaxKey(lt, vecs).value, p.key)
  {
    MaxKeyOfIsMax(lt, vecs, |vecs|);
    TotalHas(vecs, p);
    var j :| 0 <= j < |vecs| && p in vecs[j];
    LastIsLargest(lt, vecs[j], p);
    assert Transitive(lt, MaxKey(lt, vecs).value, Last(vecs[j]).key, p.key);
  }

  lemma LastIsLargest(lt: Order, v: Vec, p: Pair)
    requires StrictWeakOrder(lt) && Sorted(lt, v) && p in v
    ensures !lt(Last(v).key, p.key)
  {
    var i :| 0 <= i < |v| && v[i] == p;
    assert i < |v| - 1 || p == Last(v);
  }

  // No remaining key is larger than the one getMaxKey returns.
  lemma MaxKeyBounds(lt: Order, vecs: seq<Vec>)
    requires StrictWeakOrder(lt) && AllSorted(lt, vecs) && MaxKey(lt, vecs).Some?
    ensures var k := MaxKey(lt, vecs).value;
            && (exists p :: p in Total(vecs) && p.key == k)
            && (forall p :: p in Total(vecs) ==> !lt(k, p.key))
  {
    MaxKeyRemains(lt, vecs);
    forall p | p in Total(vecs)
      ensures !lt(MaxKey(lt, vecs).value, p.key)
    {
      MaxKeyIsMax(lt, vecs, p);
    }
  }

  // ---- the steps of shufflePhase ----

  // key is the local maxKey while a group is being collected.
  datatype Shuffling = Shuffling(vecs: seq<Vec>, key: Option<Key>, newVec: Vec, out: seq<Vec>)

  function Pick(lt: Order, s: Shuffling): Shuffling {
    s.(key := MaxKey(lt, s.vecs), newVec := [])
  }

  predicate CanTake(lt: Order, s: Shuffling, i: nat) {
    s.key.Some? && i < |s.vecs| && s.vecs[i] != [] && Equivalent(lt, Last(s.vecs[i]).key, s.key.value)
  }

  function Take(lt: Order, s: Shuffling, i: nat): Shuffling
    requires CanTake(lt, s, i)
  {
    s.(vecs := s.vecs[i := Init(s.vecs[i])], newVec := s.newVec + [Last(s.vecs[i])])
  }

  function Push(s: Shuffling): Shuffling {
    s.(key := None, newVec := [], out := if s.newVec == [] then s.out else s.out + [s.newVec])
  }

  // Each output group holds pairs of equivalent keys.
  ghost predicate Homogeneous(lt: Order, v: Vec) {
    forall p, q :: p in v && q in v ==> Equivalent(lt, p.key, q.key)
  }

  // Keys strictly decrease from one group to the next, so no key is split over two groups.
  ghost predicate Decreasing(lt: Order, out: seq<Vec>) {
    forall g, h :: 0 <= g < h < |out| ==> forall p, q :: p in out[g] && q in out[h] ==> lt(q.key, p.key)
  }

  ghost predicate Grouped(lt: Order, out: seq<Vec>) {
    && (forall g :: 0 <= g < |out| ==> out[g] != [] && Homogeneous(lt, out[g]))
    && Decreasing(lt, out)
  }

  // Every key of the output is larger than k.
  ghost predicate OutAbove(lt: Order, out: seq<Vec>, k: Key) {
    forall g, q :: 0 <= g < |out| && q in out[g] ==> lt(k, q.key)
  }

  // Every pair is in a vector, in the group being collected, or in a group of the output.
  ghost predicate Conserves(s: Shuffling, all: multiset<Pair>) {
    Total(s.vecs) + multiset(s.newVec) + Total(s.out) == all
  }

  // Every key left is smaller than every key of the output.
  ghost predicate OutAboveRest(lt: Order, s: Shuffling) {
    forall p :: p in Total(s.vecs) ==> OutAbove(lt, s.out, p.key)
  }

  // The key whose group is being collected: the group has only that key, and no key left is larger.
  ghost predicate KeyInv(lt: Order, s: Shuffling) {
    && (s.key.None? ==> s.newVec == [])
    && (s.key.Some? ==>
          && OutAbove(lt, s.out, s.key.value)
          && (forall p :: p in s.newVec ==> Equivalent(lt, p.key, s.key.value))
          && (forall p :: p in Total(s.vecs) ==> !lt(s.key.value, p.key)))
  }

  ghost predicate ShuffleInv(lt: Order, s: Shuffling, all: multiset<Pair>) {
    && StrictWeakOrder(lt)
    && AllSorted(lt, s.vecs) && Conserves(s, all) && Grouped(lt, s.out) && OutAboveRest(lt, s) && KeyInv(lt, s)
  }

  lemma PickKeeps(lt: Order, s: Shuffling, all: multiset<Pair>)
    requires ShuffleInv(lt, s, all) && s.key.None?
    ensures ShuffleInv(lt, Pick(lt, s), all)
  {
    if MaxKey(lt, s.vecs).Some? {
      MaxKeyBounds(lt, s.vecs);
    }
  }

  lemma Cancel(a: multiset<Pair>, b: multiset<Pair>, c: multiset<Pair>)
    requires a + c == b + c
    ensures a == b
  {
    assert forall p :: (a + c)[p] == a[p] + c[p] && (b + c)[p] == b[p] + c[p];
  }

  lemma InitLast(v: Vec)
    requires v != []
    ensures multiset(v) == multiset(Init(v)) + multiset{Last(v)}
  {
    assert v == Init(v) + [Last(v)];
  }

  // Taking moves one pair from the vectors to the group.
  lemma TakeMoves(lt: Order, s: Shuffling, i: nat)
    requires CanTake(lt, s, i)
    ensures Total(s.vecs) == Total(Take(lt, s, i).vecs) + multiset{Last(s.vecs[i])}
    ensures multiset(Take(lt, s, i).newVec) == multiset(s.newVec) + multiset{Last(s.vecs[i])}
  {
    var v := s.vecs[i];
    TotalUpdate(s.vecs, i, Init(v));
    InitLast(v);
    var before, after, last := Total(s.vecs), Total(s.vecs[i := Init(v)]), multiset{Last(v)};
    assert (after + last) + multiset(Init(v)) == after + multiset(v);
    Cancel(after + last, before, multiset(Init(v)));
  }

  lemma TakeSorted(lt: Order, s: Shuffling, i: nat)
    requires AllSorted(lt, s.vecs) && CanTake(lt, s, i)
    ensures AllSorted(lt, Take(lt, s, i).vecs)
  {
  }

  lemma TakeConserves(lt: Order, s: Shuffling, i: nat, all: multiset<Pair>)
    requires Conserves(s, all) && CanTake(lt, s, i)
    ensures Conserves(Take(lt, s, i), all)
  {
    TakeMoves(lt, s, i);
    var t := Take(lt, s, i);
    assert Total(t.vecs) + multiset(t.newVec) == Total(s.vecs) + multiset(s.newVec);
  }

  lemma TakeLeaves(lt: Order, s: Shuffling, i: nat)
    requires CanTake(lt, s, i)
    ensures forall p :: p in Total(Take(lt, s, i).vecs) ==> p in Total(s.vecs)
  {
    TakeMoves(lt, s, i);
  }

  lemma TakeKeepsKeys(lt: Order, s: Shuffling, i: nat)
    requires OutAboveRest(lt, s) && KeyInv(lt, s) && CanTake(lt, s, i)
    ensures OutAboveRest(lt, Take(lt, s, i)) && KeyInv(lt, Take(lt, s, i))
  {
    TakeLeaves(lt, s, i);
  }

  lemma TakeKeeps(lt: Order, s: Shuffling, i: nat, all: multiset<Pair>)
    requires ShuffleInv(lt, s, all) && CanTake(lt, s, i)
    ensures ShuffleInv(lt, Take(lt, s, i), all)
  {
    TakeSorted(lt, s, i);
    TakeConserves(lt, s, i, all);
    TakeKeepsKeys(lt, s, i);
  }

  // No vector ends with the key that is being collected.
  ghost predicate GroupIsWhole(lt: Order, s: Shuffling) {
    s.key.Some? && forall i :: 0 <= i < |s.vecs| ==> !CanTake(lt, s, i)
  }

  // Then every remaining key is smaller.
  lemma RestIsSmaller(lt: Order, s: Shuffling, p: Pair)
    requires StrictWeakOrder(lt) && AllSorted(lt, s.vecs) && KeyInv(lt, s) && GroupIsWhole(lt, s) && p in Total(s.vecs)
    ensures lt(p.key, s.key.value)
  {
    TotalHas(s.vecs, p);
    var i :| 0 <= i < |s.vecs| && p in s.vecs[i];
    TotalHas(s.vecs, Last(s.vecs[i]));
    LastIsLargest(lt, s.vecs[i], p);
    assert !CanTake(lt, s, i);
    assert Transitive(lt, Last(s.vecs[i]).key, p.key, s.key.value);
  }

  lemma RestBelowGroup(lt: Order, s: Shuffling, p: Pair, q: Pair)
    requires StrictWeakOrder(lt) && AllSorted(lt, s.vecs) && KeyInv(lt, s) && GroupIsWhole(lt, s)
    requires p in Total(s.vecs) && q in s.newVec
    ensures lt(p.key, q.key)
  {
    RestIsSmaller(lt, s, p);
    assert Equivalent(lt, q.key, s.key.value);
    assert Transitive(lt, p.key, q.key, s.key.value);
  }

  lemma PushConserves(s: Shuffling, all: multiset<Pair>)
    requires Conserves(s, all)
    ensures Conserves(Push(s), all)
  {
    var t := Push(s);
    assert multiset(t.newVec) == multiset{};
    if s.newVec != [] {
      assert t.out[..|s.out|] == s.out;
    }
  }

  lemma PushAboveRest(lt: Order, s: Shuffling)
    requires OutAboveRest(lt, s) && forall p, q :: p in Total(s.vecs) && q in s.newVec ==> lt(p.key, q.key)
    ensures OutAboveRest(lt, Push(s))
  {
  }

  lemma PushKeeps(lt: Order, s: Shuffling, all: multiset<Pair>)
    requires ShuffleInv(lt, s, all) && GroupIsWhole(lt, s)
    ensures ShuffleInv(lt, Push(s), all)
  {
    PushConserves(s, all);
    forall p, q | p in Total(s.vecs) && q in s.newVec
      ensures lt(p.key, q.key)
    {
      RestBelowGroup(lt, s, p, q);
    }
    PushAboveRest(lt, s);
    PushGrouped(lt, s);
  }

  lemma NewGroupIsHomogeneous(lt: Order, s: Shuffling)
    requires StrictWeakOrder(lt) && KeyInv(lt, s) && s.key.Some?
    ensures Homogeneous(lt, s.newVec)
  {
    var k := s.key.value;
    forall p, q | p in s.newVec && q in s.newVec
      ensures Equivalent(lt, p.key, q.key)
    {
      assert Equivalent(lt, p.key, k) && Equivalent(lt, q.key, k);
      assert Transitive(lt, p.key, k, q.key) && Transitive(lt, q.key, k, p.key);
    }
  }

  lemma NewGroupIsBelow(lt: Order, s: Shuffling, g: nat, p: Pair, q: Pair)
    requires StrictWeakOrder(lt) && KeyInv(lt, s) && s.key.Some?
    requires g < |s.out| && p in s.out[g] && q in s.newVec
    ensures lt(q.key, p.key)
  {
    var k := s.key.value;
    assert lt(k, p.key) && Equivalent(lt, q.key, k);
    assert Transitive(lt, k, q.key, p.key);
  }

  lemma PushGrouped(lt: Order, s: Shuffling)
    requires StrictWeakOrder(lt) && Grouped(lt, s.out) && KeyInv(lt, s) && s.key.Some?
    ensures Grouped(lt, Push(s).out)
  {
    NewGroupIsHomogeneous(lt, s);
    forall g: nat, p, q | g < |s.out| && p in s.out[g] && q in s.newVec
      ensures lt(q.key, p.key)
    {
      NewGroupIsBelow(lt, s, g, p, q);
    }
  }

  // When the vectors are used up, the groups hold every pair exactly once.
  lemma Finished(lt: Order, s: Shuffling, all: multiset<Pair>)
    requires ShuffleInv(lt, s, all) && s.key.None? && MaxKey(lt, s.vecs).None?
    ensures Total(s.out) == all && Grouped(lt, s.out)
  {
    MaxKeyOfIsMax(lt, s.vecs, |s.vecs|);
    TotalOfEmpty(s.vecs);
  }

  // Two pairs of the output have equivalent keys exactly when they are in the same group.
  lemma SameGroupIff(lt: Order, out: seq<Vec>, g: nat, h: nat, p: Pair, q: Pair)
    requires StrictWeakOrder(lt) && Grouped(lt, out)
    requires g < |out| && h < |out| && p in out[g] && q in out[h]
    ensures Equivalent(lt, p.key, q.key) <==> g == h
  {
  }

  // ---- the loops of shufflePhase, as functions ----

  // The inner while loop: pops from vector i as long as its last key is equivalent to the maximum.
  function Drain(lt: Order, s: Shuffling, i: nat): (r: Shuffling)
    requires i < |s.vecs|
    ensures |r.vecs| == |s.vecs| && r.key == s.key && r.out == s.out
    ensures forall j :: 0 <= j < |s.vecs| && j != i ==> r.vecs[j] == s.vecs[j]
    ensures !CanTake(lt, r, i)
    decreases |s.vecs[i]|
  {
    if CanTake(lt, s, i) then Drain(lt, Take(lt, s, i), i) else s
  }

  // The for loop, from vector i on.
  function Collect(lt: Order, s: Shuffling, i: nat): (r: Shuffling)
    requires i <= |s.vecs|
    ensures |r.vecs| == |s.vecs| && r.key == s.key && r.out == s.out
    ensures forall j :: 0 <= j < i ==> r.vecs[j] == s.vecs[j]
    ensures forall j :: i <= j < |s.vecs| ==> !CanTake(lt, r, j)
    decreases |s.vecs| - i
  {
    if i == |s.vecs| then s else Collect(lt, Drain(lt, s, i), i + 1)
  }

  // One turn of the outer loop.
  function NextGroup(lt: Order, s: Shuffling): Shuffling {
    Push(Collect(lt, Pick(lt, s), 0))
  }

  // The whole phase.
  ghost function ShuffleAll(lt: Order, s: Shuffling): Shuffling
    requires StrictWeakOrder(lt)
    decreases Size(s.vecs)
  {
    if MaxKey(lt, s.vecs).None? then s
    else
      NextGroupShrinks(lt, s);
      ShuffleAll(lt, NextGroup(lt, s))
  }

  lemma TakeSize(lt: Order, s: Shuffling, i: nat)
    requires CanTake(lt, s, i)
    ensures Size(Take(lt, s, i).vecs) == Size(s.vecs) - 1
  {
    TakeMoves(lt, s, i);
    SizeIsCardinality(s.vecs);
    SizeIsCardinality(Take(lt, s, i).vecs);
  }

  lemma {:induction false} DrainSize(lt: Order, s: Shuffling, i: nat)
    requires i < |s.vecs|
    ensures Size(Drain(lt, s, i).vecs) + |Drain(lt, s, i).newVec| == Size(s.vecs) + |s.newVec|
    ensures |Drain(lt, s, i).newVec| >= |s.newVec|
    ensures CanTake(lt, s, i) ==> Size(Drain(lt, s, i).vecs) < Size(s.vecs)
    decreases |s.vecs[i]|
  {
    if CanTake(lt, s, i) {
      TakeSize(lt, s, i);
      DrainSize(lt, Take(lt, s, i), i);
    }
  }

  lemma {:induction false} CollectSize(lt: Order, s: Shuffling, i: nat)
    requires i <= |s.vecs|
    ensures Size(Collect(lt, s, i).vecs) + |Collect(lt, s, i).newVec| == Size(s.vecs) + |s.newVec|
    ensures (exists j :: i <= j < |s.vecs| && CanTake(lt, s, j)) ==> Size(Collect(lt, s, i).vecs) < Size(s.vecs)
    ensures |Collect(lt, s, i).newVec| >= |s.newVec|
    decreases |s.vecs| - i
  {
    if i < |s.vecs| {
      DrainSize(lt, s, i);
      var t := Drain(lt, s, i);
      CollectSize(lt, t, i + 1);
      if j :| i <= j < |s.vecs| && CanTake(lt, s, j) && j != i {
        assert CanTake(lt, t, j);
      }
    }
  }

  // The maximum is the last key of some vector, so every turn of the outer loop takes a pair.
  lemma NextGroupShrinks(lt: Order, s: Shuffling)
    requires StrictWeakOrder(lt) && MaxKey(lt, s.vecs).Some?
    ensures Size(NextGroup(lt, s).vecs) < Size(s.vecs)
    ensures var c := Collect(lt, Pick(lt, s), 0); c.newVec != [] && Size(c.vecs) + |c.newVec| == Size(s.vecs)
  {
    MaxKeyOfIsMax(lt, s.vecs, |s.vecs|);
    var i :| 0 <= i < |s.vecs| && s.vecs[i] != [] && Last(s.vecs[i]).key == MaxKey(lt, s.vecs).value;
    assert CanTake(lt, Pick(lt, s), i);
    CollectSize(lt, Pick(lt, s), 0);
  }

  // Whatever taking a pair keeps, the inner loop and the for loop keep.
  ghost predicate KeptByTaking(lt: Order, inv: Shuffling -> bool) {
    forall t, j: nat :: inv(t) && CanTake(lt, t, j) ==> inv(Take(lt, t, j))
  }

  lemma {:induction false} DrainKeepsAny(lt: Order, s: Shuffling, i: nat, inv: Shuffling -> bool)
    requires i < |s.vecs| && inv(s) && KeptByTaking(lt, inv)
    ensures inv(Drain(lt, s, i))
    decreases |s.vecs[i]|
  {
    if CanTake(lt, s, i) {
      DrainKeepsAny(lt, Take(lt, s, i), i, inv);
    }
  }

  lemma {:induction false} CollectKeepsAny(lt: Order, s: Shuffling, i: nat, inv: Shuffling -> bool)
    requires i <= |s.vecs| && inv(s) && KeptByTaking(lt, inv)
    ensures inv(Collect(lt, s, i))
    decreases |s.vecs| - i
  {
    if i < |s.vecs| {
      DrainKeepsAny(lt, s, i, inv);
      CollectKeepsAny(lt, Drain(lt, s, i), i + 1, inv);
    }
  }

  lemma CollectKeeps(lt: Order, s: Shuffling, i: nat, all: multiset<Pair>)
    requires i <= |s.vecs| && ShuffleInv(lt, s, all)
    ensures ShuffleInv(lt, Collect(lt, s, i), all)
  {
    var inv := (t: Shuffling) => ShuffleInv(lt, t, all);
    forall t, j: nat | inv(t) && CanTake(lt, t, j)
      ensures inv(Take(lt, t, j))
    {
      TakeKeeps(lt, t, j, all);
    }
    CollectKeepsAny(lt, s, i, inv);
  }

  // Main result: from sorted vectors the phase makes a permutation of all pairs, split into
  // non-empty groups of equivalent keys that strictly decrease from group to group.
  lemma {:induction false} ShuffleGroupsByKey(lt: Order, s: Shuffling, all: multiset<Pair>)
    requires ShuffleInv(lt, s, all) && s.key.None?
    ensures var r := ShuffleAll(lt, s); Total(r.out) == all && Grouped(lt, r.out) && Size(r.vecs) == 0
    decreases Size(s.vecs)
  {
    if MaxKey(lt, s.vecs).None? {
      Finished(lt, s, all);
      MaxKeyOfIsMax(lt, s.vecs, |s.vecs|);
      TotalOfEmpty(s.vecs);
      SizeIsCardinality(s.vecs);
    } else {
      PickKeeps(lt, s, all);
      CollectKeeps(lt, Pick(lt, s), 0, all);
      PushKeeps(lt, Collect(lt, Pick(lt, s), 0), all);
      NextGroupShrinks(lt, s);
      ShuffleGroupsByKey(lt, NextGroup(lt, s), all);
    }
  }
}
