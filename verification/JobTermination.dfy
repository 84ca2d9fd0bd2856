// Every run of a job is finite: each step makes a pair of numbers smaller.
module JobTermination {
  import opened Shuffle
  import opened JobSteps
  import opened JobInvariant

  // How far a thread is from the end of the map phase.
  function MapRank(p: PC): nat {
    match p
    case Begin => 9
    case Locked => 8
    case Storing => 7
    case Unlocking => 6
    case Claiming => 5
    case Mapping(_) => 7
    case Undoing => 4
    case Sorting => 3
    case AtBarrier => 2
    case Waiting => 1
    case _ => 0
  }

  // And of the rest, in a job of n threads.
  function LateRank(n: nat, p: PC): nat {
    match p
    case Starting => n + 6
    case Picking => n + 5
    case Taking => n + 4
    case Posting(left) => left + 3
    case Awaiting => 4
    case Fetching => 3
    case Popping => 2
    case Reducing(_) => 5
    case Accounting(_) => 4
    case _ => 0
  }

  function MapRanks(pc: seq<PC>): nat {
    if pc == [] then 0 else MapRanks(pc[..|pc| - 1]) + MapRank(pc[|pc| - 1])
  }

  function LateRanks(n: nat, pc: seq<PC>): nat {
    if pc == [] then 0 else LateRanks(n, pc[..|pc| - 1]) + LateRank(n, pc[|pc| - 1])
  }

  lemma {:induction false} RanksUpdate(n: nat, pc: seq<PC>, t: nat, p: PC)
    requires t < |pc|
    ensures MapRanks(pc[t := p]) == MapRanks(pc) - MapRank(pc[t]) + MapRank(p)
    ensures LateRanks(n, pc[t := p]) == LateRanks(n, pc) - LateRank(n, pc[t]) + LateRank(n, p)
  {
    var m := |pc| - 1;
    if t < m {
      assert pc[t := p][..m] == pc[..m][t := p];
      RanksUpdate(n, pc[..m], t, p);
    } else {
      assert pc[t := p][..m] == pc[..m];
    }
  }

  // Claims left, and steps up to the barrier.
  ghost function MapMeasure(c: Config, s: Job): int {
    3 * (c.inputs - s.claims) + MapRanks(s.pc)
  }

  // Pairs to take, pairs to push, groups to pop, and steps after the barrier.
  ghost function LateMeasure(c: Config, s: Job): int {
    7 * Size(s.shuffle.vecs) + 6 * |s.shuffle.newVec| + 4 * |s.shuffle.out| + LateRanks(c.threads, s.pc)
  }

  ghost predicate Shrinks(c: Config, s: Job, s': Job) {
    || MapMeasure(c, s') < MapMeasure(c, s)
    || (MapMeasure(c, s') == MapMeasure(c, s) && LateMeasure(c, s') < LateMeasure(c, s))
  }

  // A step that only moves its thread towards the barrier.
  lemma LockStepShrinks(c: Config, s: Job, t: nat, a: Action)
    requires Enabled(c, s, t, a) && (a.LockMap? || a.CheckStage? || a.StoreStage? || a.UnlockMap?)
    ensures Shrinks(c, s, Act(c, s, t, a))
  {
    RanksUpdate(c.threads, s.pc, t, Act(c, s, t, a).pc[t]);
  }

  lemma MapMoveShrinks(c: Config, s: Job, t: nat, a: Action)
    requires Enabled(c, s, t, a) && (a.CallMap? || a.Undo? || a.Sort? || a.Arrive?)
    ensures Shrinks(c, s, Act(c, s, t, a))
  {
    RanksUpdate(c.threads, s.pc, t, Act(c, s, t, a).pc[t]);
  }

  lemma ClaimShrinks(c: Config, s: Job, t: nat)
    requires Shape(c, s) && MapWordInv(c, s) && Enabled(c, s, t, Claim)
    ensures Shrinks(c, s, Act(c, s, t, Claim))
  {
    ClaimWord(c, s, t);
    RanksUpdate(c.threads, s.pc, t, Act(c, s, t, Claim).pc[t]);
  }

  lemma LeaveShrinks(c: Config, s: Job, t: nat)
    requires Enabled(c, s, t, LeaveBarrier) && s.pc[t] == Waiting
    ensures Shrinks(c, s, Act(c, s, t, LeaveBarrier))
  {
    RanksUpdate(c.threads, s.pc, t, AfterBarrier(t));
  }

  lemma TakePairShrinks(c: Config, s: Job, t: nat, i: nat)
    requires Enabled(c, s, t, TakePair(i))
    ensures Shrinks(c, s, Act(c, s, t, TakePair(i)))
  {
    TakeSize(c.lt, s.shuffle, i);
  }

  lemma PushGroupShrinks(c: Config, s: Job, t: nat)
    requires Enabled(c, s, t, PushGroup) && s.shuffle.newVec != []
    ensures Shrinks(c, s, Act(c, s, t, PushGroup))
  {
    RanksUpdate(c.threads, s.pc, t, Picking);
  }

  lemma ShuffleMoveShrinks(c: Config, s: Job, t: nat, a: Action)
    requires Enabled(c, s, t, a) && (a.StartShuffle? || a.PickKey? || a.EndShuffle?)
    ensures Shrinks(c, s, Act(c, s, t, a))
  {
    RanksUpdate(c.threads, s.pc, t, Act(c, s, t, a).pc[t]);
  }

  lemma PostShrinks(c: Config, s: Job, t: nat)
    requires Enabled(c, s, t, Post)
    ensures Shrinks(c, s, Act(c, s, t, Post))
  {
    RanksUpdate(c.threads, s.pc, t, Act(c, s, t, Post).pc[t]);
  }

  lemma AwaitPostShrinks(c: Config, s: Job, t: nat)
    requires Enabled(c, s, t, AwaitPost)
    ensures Shrinks(c, s, Act(c, s, t, AwaitPost))
  {
    RanksUpdate(c.threads, s.pc, t, Act(c, s, t, AwaitPost).pc[t]);
  }

  lemma FetchTokenShrinks(c: Config, s: Job, t: nat)
    requires Enabled(c, s, t, FetchToken)
    ensures Shrinks(c, s, Act(c, s, t, FetchToken))
  {
    RanksUpdate(c.threads, s.pc, t, Act(c, s, t, FetchToken).pc[t]);
  }

  lemma PopGroupShrinks(c: Config, s: Job, t: nat)
    requires Enabled(c, s, t, PopGroup)
    ensures Shrinks(c, s, Act(c, s, t, PopGroup))
  {
    RanksUpdate(c.threads, s.pc, t, Act(c, s, t, PopGroup).pc[t]);
  }

  lemma CallReduceShrinks(c: Config, s: Job, t: nat)
    requires Enabled(c, s, t, CallReduce)
    ensures Shrinks(c, s, Act(c, s, t, CallReduce))
  {
    RanksUpdate(c.threads, s.pc, t, Act(c, s, t, CallReduce).pc[t]);
  }

  lemma AccountShrinks(c: Config, s: Job, t: nat)
    requires Enabled(c, s, t, Account)
    ensures Shrinks(c, s, Act(c, s, t, Account))
  {
    RanksUpdate(c.threads, s.pc, t, Act(c, s, t, Account).pc[t]);
  }

  lemma ReleasedIsWaiting(c: Config, s: Job, t: nat)
    requires JobInv(c, s) && Enabled(c, s, t, LeaveBarrier)
    ensures s.pc[t] == Waiting
  {
    if InMapPhase(c, s) {
      OnlyEarlySteps(c, s, t, LeaveBarrier);
      assert false;
    }
  }

  lemma OnlyMappersClaim(c: Config, s: Job, t: nat)
    requires JobInv(c, s) && Enabled(c, s, t, Claim)
    ensures InMapPhase(c, s)
  {
    if InShufflePhase(c, s) {
      OnlyShuffleSteps(c, s, t, Claim);
    } else if InReducePhase(c, s) {
      OnlyLateSteps(c, s, t, Claim);
    }
  }

  lemma PushedGroupIsNotEmpty(c: Config, s: Job, t: nat)
    requires JobInv(c, s) && Enabled(c, s, t, PushGroup)
    ensures s.shuffle.newVec != []
  {
    if InMapPhase(c, s) {
      OnlyEarlySteps(c, s, t, PushGroup);
      assert false;
    } else if InReducePhase(c, s) {
      OnlyLateSteps(c, s, t, PushGroup);
      assert false;
    } else {
      OnlyShuffleSteps(c, s, t, PushGroup);
      assert GroupComing(c, s);
    }
  }

  lemma EnabledStepShrinks(c: Config, s: Job, t: nat, a: Action)
    requires Enabled(c, s, t, a) && !a.Claim?
    requires a.LeaveBarrier? ==> s.pc[t] == Waiting
    requires a.PushGroup? ==> s.shuffle.newVec != []
    ensures Shrinks(c, s, Act(c, s, t, a))
  {
    match a
    case LeaveBarrier => LeaveShrinks(c, s, t);
    case TakePair(i) => TakePairShrinks(c, s, t, i);
    case PushGroup => PushGroupShrinks(c, s, t);
    case StartShuffle => ShuffleMoveShrinks(c, s, t, a);
    case PickKey => ShuffleMoveShrinks(c, s, t, a);
    case EndShuffle => ShuffleMoveShrinks(c, s, t, a);
    case Post => PostShrinks(c, s, t);
    case AwaitPost => AwaitPostShrinks(c, s, t);
    case FetchToken => FetchTokenShrinks(c, s, t);
    case PopGroup => PopGroupShrinks(c, s, t);
    case CallReduce => CallReduceShrinks(c, s, t);
    case Account => AccountShrinks(c, s, t);
    case _ =>
      if a.CallMap? || a.Undo? || a.Sort? || a.Arrive? {
        MapMoveShrinks(c, s, t, a);
      } else {
        LockStepShrinks(c, s, t, a);
      }
  }

  lemma StepShrinks(c: Config, s: Job, t: nat, a: Action)
    requires JobInv(c, s) && Enabled(c, s, t, a)
    ensures Shrinks(c, s, Act(c, s, t, a))
  {
    if a.Claim? {
      OnlyMappersClaim(c, s, t);
      ClaimShrinks(c, s, t);
    } else {
      if a.LeaveBarrier? {
        ReleasedIsWaiting(c, s, t);
      } else if a.PushGroup? {
        PushedGroupIsNotEmpty(c, s, t);
      }
      EnabledStepShrinks(c, s, t, a);
    }
  }

  lemma NextShrinks(c: Config, s: Job, s': Job)
    requires JobInv(c, s) && Next(c, s, s')
    ensures JobInv(c, s') && Shrinks(c, s, s')
  {
    var t: nat, a: Action :| Enabled(c, s, t, a) && s' == Act(c, s, t, a);
    StepShrinks(c, s, t, a);
    ActKeeps(c, s, t, a);
  }

  ghost predicate KeepsStepping(c: Config, run: nat -> Job) {
    forall k: nat :: Next(c, run(k), run(k + 1))
  }

  lemma MeasuresAreNatural(c: Config, s: Job)
    requires JobInv(c, s)
    ensures MapMeasure(c, s) >= 0 && LateMeasure(c, s) >= 0
  {
  }

  lemma {:induction false} Descend(c: Config, run: nat -> Job, i: nat, m: nat, l: nat)
    requires JobInv(c, run(i)) && KeepsStepping(c, run)
    requires m == MapMeasure(c, run(i)) && l == LateMeasure(c, run(i))
    ensures false
    decreases m, l
  {
    var s, s' := run(i), run(i + 1);
    NextShrinks(c, s, s');
    MeasuresAreNatural(c, s');
    Descend(c, run, i + 1, MapMeasure(c, s'), LateMeasure(c, s'));
  }

  // No job runs forever; with the absence of deadlock, every job that keeps stepping ends with all
  // threads done.
  lemma NoInfiniteRun(c: Config, run: nat -> Job)
    requires c.Valid() && Initial(c, run(0))
    ensures exists k: nat :: !Next(c, run(k), run(k + 1))
  {
    if KeepsStepping(c, run) {
      InitialInv(c, run(0));
      MeasuresAreNatural(c, run(0));
      Descend(c, run, 0, MapMeasure(c, run(0)), LateMeasure(c, run(0)));
    }
  }
}
