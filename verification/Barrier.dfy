// The reusable barrier: a counter, the threads blocked in the condition wait, and the threads
// that a broadcast has woken but that have not yet left.
module BarrierModel {
  datatype BarrierState = BarrierState(count: nat, waiting: set<nat>, released: set<nat>)

  const FRESH := BarrierState(0, {}, {})

  // The last thread of a round does not wait.
  predicate IsLast(b: BarrierState, numThreads: nat) {
    b.count + 1 >= numThreads
  }

  // The lock section of thread t up to its wait, or up to the end for the last thread.
  function Enter(b: BarrierState, numThreads: nat, t: nat): BarrierState {
    if IsLast(b, numThreads) then BarrierState(0, {}, b.released + b.waiting)
    else b.(count := b.count + 1, waiting := b.waiting + {t})
  }

  // A woken thread reacquires the lock and leaves.
  function Leave(b: BarrierState, t: nat): BarrierState {
    b.(released := b.released - {t})
  }

  class Barrier {
    const numThreads: nat
    var count: nat
    ghost var waiting: set<nat>
    ghost var released: set<nat>

    ghost function State(): BarrierState
      reads this
    {
      BarrierState(count, waiting, released)
    }

    constructor (numThreads: nat)
      ensures this.numThreads == numThreads && State() == FRESH
    {
      this.numThreads := numThreads;
      count, waiting, released := 0, {}, {};
    }

    // barrier() up to the point where thread t either waits or is through.
    method Arrive(ghost t: nat) returns (mustWait: bool)
      modifies this
      ensures State() == Enter(old(State()), numThreads, t)
      ensures mustWait <==> !IsLast(old(State()), numThreads)
    {
      count := count + 1;
      if count < numThreads {
        waiting := waiting + {t};
        mustWait := true;
      } else {
        count := 0;
        released, waiting := released + waiting, {};
        mustWait := false;
      }
    }

    // The rest of barrier() for a thread woken by the broadcast.
    ghost method Wake(t: nat)
      requires t in released
      modifies this
      ensures State() == Leave(old(State()), t)
    {
      released := released - {t};
    }
  }

  // If all others wait, they fill up every thread number but t.
  lemma {:induction false} WaitingFillUp(w: set<nat>, n: nat, t: nat)
    requires t < n && t !in w && (forall u :: u in w ==> u < n) && |w| >= n - 1
    ensures forall u: nat :: u < n && u != t ==> u in w
  {
    var all := Numbers(n);
    if u: nat :| u < n && u != t && u !in w {
      assert w <= all - {t} - {u};
      SubsetSize(w, all - {t} - {u});
    }
  }

  function Numbers(n: nat): (r: set<nat>)
    ensures |r| == n && forall u: nat :: u in r <==> u < n
  {
    if n == 0 then {} else Numbers(n - 1) + {n - 1}
  }

  lemma {:induction false} SubsetSize(a: set<nat>, b: set<nat>)
    requires a <= b
    ensures |a| <= |b|
  {
    if a != {} {
      var x :| x in a;
      SubsetSize(a - {x}, b - {x});
    }
  }
}
