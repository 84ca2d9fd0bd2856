// n threads using one barrier over and over.
module BarrierRounds {
  import opened BarrierModel

  // How often each thread has arrived at the barrier and has got past it.
  datatype Rounds = Rounds(b: BarrierState, arrived: seq<nat>, passed: seq<nat>)

  datatype Move = Arriving(t: nat) | Leaving(t: nat)

  ghost predicate Enabled(s: Rounds, m: Move) {
    && m.t < |s.arrived| == |s.passed|
    && match m
       case Arriving(t) => s.arrived[t] == s.passed[t]
       case Leaving(t) => t in s.b.released
  }

  ghost function Act(s: Rounds, m: Move): Rounds
    requires Enabled(s, m)
  {
    match m
    case Arriving(t) =>
      Rounds(Enter(s.b, |s.arrived|, t), s.arrived[t := s.arrived[t] + 1],
             if IsLast(s.b, |s.arrived|) then s.passed[t := s.passed[t] + 1] else s.passed)
    case Leaving(t) => Rounds(Leave(s.b, t), s.arrived, s.passed[t := s.passed[t] + 1])
  }

  ghost predicate Initial(s: Rounds, n: nat) {
    n >= 1 && s == Rounds(FRESH, seq(n, _ => 0), seq(n, _ => 0))
  }

  // Exactly `round` rounds have been completed.
  ghost predicate Inv(s: Rounds, round: nat) {
    && |s.arrived| == |s.passed|
    && s.b.count == |s.b.waiting| < |s.arrived|
    && s.b.waiting !! s.b.released
    && (forall t :: t in s.b.waiting ==> t < |s.arrived|)
    && (forall t :: t in s.b.released ==> t < |s.arrived|)
    && forall t {:trigger s.arrived[t]} {:trigger s.passed[t]} :: 0 <= t < |s.arrived| ==>
         && s.arrived[t] == (if t in s.b.waiting then round + 1 else round)
         && s.passed[t] + (if t in s.b.released then 1 else 0) == round
  }

  lemma InitialInv(s: Rounds, n: nat)
    requires Initial(s, n)
    ensures Inv(s, 0)
  {
  }

  lemma ActKeeps(s: Rounds, m: Move, round: nat) returns (round': nat)
    requires Inv(s, round) && Enabled(s, m)
    ensures Inv(Act(s, m), round')
    ensures round' == if m.Arriving? && IsLast(s.b, |s.arrived|) then round + 1 else round
  {
    round' := round;
    if m.Arriving? && IsLast(s.b, |s.arrived|) {
      round' := round + 1;
      WaitingFillUp(s.b.waiting, |s.arrived|, m.t);
      assert s.b.released == {};
    }
  }

  ghost predicate Next(s: Rounds, s': Rounds) {
    exists m: Move :: Enabled(s, m) && s' == Act(s, m)
  }

  // A run: every state follows from the one before by one thread's step.
  ghost predicate IsRun(run: seq<Rounds>, n: nat) {
    && run != [] && Initial(run[0], n)
    && forall i :: 0 <= i < |run| - 1 ==> Next(run[i], run[i + 1])
  }

  lemma {:induction false} RunInv(run: seq<Rounds>, n: nat, i: nat) returns (round: nat)
    requires IsRun(run, n) && i < |run|
    ensures Inv(run[i], round) && |run[i].arrived| == n
  {
    if i == 0 {
      InitialInv(run[0], n);
      round := 0;
    } else {
      var before := RunInv(run, n, i - 1);
      assert Next(run[i - 1], run[i - 1 + 1]);
      var m: Move :| Enabled(run[i - 1], m) && run[i] == Act(run[i - 1], m);
      round := ActKeeps(run[i - 1], m, before);
    }
  }

  // No thread has passed more rounds than any other has arrived at.
  lemma NobodyPassesEarly(run: seq<Rounds>, n: nat, i: nat, t: nat, u: nat)
    requires IsRun(run, n) && i < |run| && t < n && u < n
    ensures |run[i].passed| == |run[i].arrived| == n
    ensures run[i].passed[t] <= run[i].arrived[u]
  {
    var round := RunInv(run, n, i);
    assert run[i].arrived[u] >= round >= run[i].passed[t];
  }

  // A woken thread stays woken until it leaves, whatever faster threads do meanwhile, and a round
  // cannot be completed while someone has still to leave the round before.
  lemma ReleaseIsNotLost(run: seq<Rounds>, n: nat, i: nat, t: nat, m: Move)
    requires IsRun(run, n) && i < |run| && Enabled(run[i], m) && t in run[i].b.released
    ensures m != Leaving(t) ==> t in Act(run[i], m).b.released
    ensures m.Arriving? ==> !IsLast(run[i].b, n)
  {
    var round := RunInv(run, n, i);
    if m.Arriving? && IsLast(run[i].b, n) {
      WaitingFillUp(run[i].b.waiting, n, m.t);
    }
  }

  // The barrier never blocks everybody.
  lemma SomebodyCanMove(run: seq<Rounds>, n: nat, i: nat) returns (m: Move)
    requires IsRun(run, n) && i < |run|
    ensures Enabled(run[i], m)
  {
    var round := RunInv(run, n, i);
    var s := run[i];
    if t :| t in s.b.released {
      m := Leaving(t);
    } else {
      var t: nat :| t < n && t !in s.b.waiting by {
        if forall t: nat :: t < n ==> t in s.b.waiting {
          SubsetSize(Numbers(n), s.b.waiting);
        }
      }
      m := Arriving(t);
      assert s.arrived[t] == round;
    }
  }
}
