// The threads of one MapReduce job as a step machine: every step is one atomic operation, one lock
// section, or a stretch of code that touches only the thread's own data.
module JobSteps {
  import opened Wrappers
  import opened JobWord
  import opened Shuffle
  import opened BarrierModel

  // lt is operator< of the client's intermediate keys.
  datatype Config = Config(threads: nat, inputs: nat, lt: Order) {
    ghost predicate Valid() {
      threads >= 1 && threads + inputs < FIELD && StrictWeakOrder(lt)
    }
  }

  // Where a thread stands.
  datatype PC =
      // mapPhase, sortPhase
    | Begin | Locked | Storing | Unlocking | Claiming | Mapping(input: nat) | Undoing | Sorting
      // barrier
    | AtBarrier | Waiting
      // shuffle, thread 0 only
    | Starting | Picking | Taking | Posting(left: nat)
      // semaphore, the other threads
    | Awaiting
      // reducePhase
    | Fetching | Popping | Reducing(group: nat) | Accounting(group: nat) | Done

  // The shared data of the job (shuffle.vecs are the threads' own vectors, shuffle.key and
  // shuffle.newVec the shuffling thread's locals, shuffle.out is shuffleOut), then the history.
  datatype Job = Job(
    atomicVar: nat, atomicShuffle: nat, mapMutex: Option<nat>, b: BarrierState, semaphore: nat,
    shuffle: Shuffling, total: nat, pc: seq<PC>,
    claims: nat, mapCalls: seq<nat>, emitted: multiset<Pair>, tripped: bool,
    groups: seq<Vec>, reduceCalls: seq<nat>, accounts: seq<nat>, decrements: nat)

  ghost predicate Initial(c: Config, s: Job) {
    s == Job(0, 0, None, FRESH, 0,
             Shuffling(seq(c.threads, _ => []), None, [], []), 0, seq(c.threads, _ => Begin),
             0, seq(c.inputs, _ => 0), multiset{}, false, [], [], [], 0)
  }

  datatype Action =
    | LockMap | CheckStage | StoreStage | UnlockMap | Claim | CallMap(emits: Vec) | Undo | Sort(sorted: Vec)
    | Arrive | LeaveBarrier
    | StartShuffle | PickKey | TakePair(i: nat) | PushGroup | EndShuffle | Post | AwaitPost
    | FetchToken | PopGroup | CallReduce | Account

  ghost predicate Enabled(c: Config, s: Job, t: nat, a: Action) {
    && t < |s.pc| && t < |s.shuffle.vecs|
    && match a
       case LockMap => s.pc[t] == Begin && s.mapMutex == None
       case CheckStage => s.pc[t] == Locked
       case StoreStage => s.pc[t] == Storing
       case UnlockMap => s.pc[t] == Unlocking
       case Claim => s.pc[t] == Claiming && s.atomicVar < WORD
       // the client emits fewer than 2^31 pairs in all
       case CallMap(emits) =>
         s.pc[t].Mapping? && s.pc[t].input < |s.mapCalls| && |s.emitted| + |emits| < FIELD
       case Undo => s.pc[t] == Undoing && s.atomicVar < WORD
       case Sort(sorted) =>
         s.pc[t] == Sorting && Sorted(c.lt, sorted) && multiset(sorted) == multiset(s.shuffle.vecs[t])
       case Arrive => s.pc[t] == AtBarrier
       case LeaveBarrier => s.pc[t] == Waiting && t in s.b.released
       case StartShuffle => s.pc[t] == Starting
       case PickKey => s.pc[t] == Picking && MaxKey(c.lt, s.shuffle.vecs).Some?
       case TakePair(i) => s.pc[t] == Taking && CanTake(c.lt, s.shuffle, i) && s.atomicVar < WORD
       case PushGroup =>
         s.pc[t] == Taking && s.atomicShuffle < WORD32
         && forall i :: 0 <= i < |s.shuffle.vecs| ==> !CanTake(c.lt, s.shuffle, i)
       case EndShuffle => s.pc[t] == Picking && MaxKey(c.lt, s.shuffle.vecs).None?
       case Post => s.pc[t].Posting? && s.pc[t].left > 0
       case AwaitPost => s.pc[t] == Awaiting && s.semaphore > 0
       case FetchToken => s.pc[t] == Fetching && s.atomicShuffle < WORD32
       case PopGroup => s.pc[t] == Popping
       case CallReduce => s.pc[t].Reducing? && s.pc[t].group < |s.reduceCalls|
       case Account =>
         && s.pc[t].Accounting? && s.pc[t].group < |s.groups| == |s.accounts| && s.atomicVar < WORD
         && |s.groups[s.pc[t].group]| < FIELD
  }

  function AfterBarrier(t: nat): PC {
    if t == 0 then Starting else Awaiting
  }

  function PostsLeft(n: int): PC {
    if n <= 0 then Fetching else Posting(n)
  }

  ghost function Act(c: Config, s: Job, t: nat, a: Action): Job
    requires Enabled(c, s, t, a)
  {
    match a
    case LockMap => s.(mapMutex := Some(t), pc := s.pc[t := Locked])
    case CheckStage => s.(pc := s.pc[t := if GetStage(s.atomicVar) == UNDEFINED_STAGE then Storing else Unlocking])
    case StoreStage => s.(atomicVar := SetAtomicVar(MAP_STAGE, c.inputs), pc := s.pc[t := Unlocking])
    case UnlockMap => s.(mapMutex := None, pc := s.pc[t := Claiming])
    case Claim =>
      var oldValue := GetPairsProcessed(s.atomicVar);
      var s1 := s.(atomicVar := FetchAdd(s.atomicVar, 1));
      if oldValue >= c.inputs then s1.(pc := s.pc[t := Undoing])
      else s1.(pc := s.pc[t := Mapping(oldValue)], claims := s.claims + 1)
    case CallMap(emits) =>
      s.(shuffle := s.shuffle.(vecs := s.shuffle.vecs[t := s.shuffle.vecs[t] + emits]),
         pc := s.pc[t := Claiming],
         mapCalls := s.mapCalls[s.pc[t].input := s.mapCalls[s.pc[t].input] + 1],
         emitted := s.emitted + multiset(emits))
    case Undo => s.(atomicVar := FetchAdd(s.atomicVar, -1), pc := s.pc[t := Sorting])
    case Sort(sorted) =>
      s.(shuffle := s.shuffle.(vecs := s.shuffle.vecs[t := sorted]), pc := s.pc[t := AtBarrier])
    case Arrive =>
      s.(b := Enter(s.b, c.threads, t),
         pc := s.pc[t := if IsLast(s.b, c.threads) then AfterBarrier(t) else Waiting],
         tripped := s.tripped || IsLast(s.b, c.threads))
    case LeaveBarrier => s.(b := Leave(s.b, t), pc := s.pc[t := AfterBarrier(t)])
    case StartShuffle =>
      s.(total := Size(s.shuffle.vecs), atomicVar := SetAtomicVar(SHUFFLE_STAGE, Size(s.shuffle.vecs)),
        pc := s.pc[t := Picking])
    case PickKey => s.(shuffle := Pick(c.lt, s.shuffle), pc := s.pc[t := Taking])
    case TakePair(i) => s.(shuffle := Take(c.lt, s.shuffle, i), atomicVar := FetchAdd(s.atomicVar, 1))
    case PushGroup =>
      s.(shuffle := Push(s.shuffle), pc := s.pc[t := Picking],
         atomicShuffle := if s.shuffle.newVec == [] then s.atomicShuffle else FetchAdd32(s.atomicShuffle, 1))
    case EndShuffle =>
      s.(atomicVar := SetAtomicVar(REDUCE_STAGE, s.total), pc := s.pc[t := PostsLeft(c.threads - 1)],
         groups := s.shuffle.out, reduceCalls := seq(|s.shuffle.out|, _ => 0), accounts := seq(|s.shuffle.out|, _ => 0))
    case Post => s.(semaphore := s.semaphore + 1, pc := s.pc[t := PostsLeft(s.pc[t].left - 1)])
    case AwaitPost => s.(semaphore := s.semaphore - 1, pc := s.pc[t := Fetching])
    case FetchToken =>
      s.(atomicShuffle := FetchAdd32(s.atomicShuffle, -1), decrements := s.decrements + 1,
         pc := s.pc[t := if s.atomicShuffle > 0 then Popping else Done])
    case PopGroup =>
      var n := |s.shuffle.out|;
      if n == 0 then s.(pc := s.pc[t := Done])
      else s.(shuffle := s.shuffle.(out := s.shuffle.out[..n - 1]), pc := s.pc[t := Reducing(n - 1)])
    case CallReduce =>
      s.(pc := s.pc[t := Accounting(s.pc[t].group)],
         reduceCalls := s.reduceCalls[s.pc[t].group := s.reduceCalls[s.pc[t].group] + 1])
    case Account =>
      s.(atomicVar := FetchAdd(s.atomicVar, |s.groups[s.pc[t].group]|), pc := s.pc[t := Fetching],
         accounts := s.accounts[s.pc[t].group := s.accounts[s.pc[t].group] + 1])
  }

  ghost predicate Next(c: Config, s: Job, s': Job) {
    exists t: nat, a: Action :: Enabled(c, s, t, a) && s' == Act(c, s, t, a)
  }

  ghost predicate IsRun(c: Config, run: seq<Job>) {
    && c.Valid() && run != [] && Initial(c, run[0])
    && forall i :: 0 <= i < |run| - 1 ==> Next(c, run[i], run[i + 1])
  }

  ghost predicate AllDone(s: Job) {
    forall t :: 0 <= t < |s.pc| ==> s.pc[t] == Done
  }

  // ---- sums over threads ----

  datatype Tally =
    | Undoers | Mappers(input: nat) | Blocked | Holders | Returned | Reducers(group: nat) | Carriers(group: nat)
    | InFlight(groups: seq<Vec>)

  function Weight(w: Tally, pc: PC): nat {
    match w
    case Undoers => if pc == Undoing then 1 else 0
    case Mappers(i) => if pc == Mapping(i) then 1 else 0
    case Blocked => if pc == Waiting || pc == Awaiting then 1 else 0
    case Holders => if pc == Popping then 1 else 0
    case Returned => if pc == Done then 1 else 0
    case Reducers(g) => if pc == Reducing(g) then 1 else 0
    case Carriers(g) => if pc == Reducing(g) || pc == Accounting(g) then 1 else 0
    case InFlight(groups) =>
      match pc
      case Reducing(g) => if g < |groups| then |groups[g]| else 0
      case Accounting(g) => if g < |groups| then |groups[g]| else 0
      case _ => 0
  }

  function Sum(w: Tally, pc: seq<PC>): nat {
    if pc == [] then 0 else Sum(w, pc[..|pc| - 1]) + Weight(w, pc[|pc| - 1])
  }

  lemma {:induction false} SumUpdate(w: Tally, pc: seq<PC>, t: nat, p: PC)
    requires t < |pc|
    ensures Sum(w, pc[t := p]) == Sum(w, pc) - Weight(w, pc[t]) + Weight(w, p)
    ensures Weight(w, pc[t]) <= Sum(w, pc)
  {
    var n := |pc| - 1;
    if t < n {
      assert pc[t := p][..n] == pc[..n][t := p];
      SumUpdate(w, pc[..n], t, p);
    } else {
      assert pc[t := p][..n] == pc[..n];
    }
  }

  lemma {:induction false} SumIsZero(w: Tally, pc: seq<PC>)
    requires forall t :: 0 <= t < |pc| ==> Weight(w, pc[t]) == 0
    ensures Sum(w, pc) == 0
  {
    if pc != [] {
      SumIsZero(w, pc[..|pc| - 1]);
    }
  }

  lemma {:induction false} SumIsPositive(w: Tally, pc: seq<PC>) returns (t: nat)
    requires Sum(w, pc) > 0
    ensures t < |pc| && Weight(w, pc[t]) > 0
  {
    var n := |pc| - 1;
    if Weight(w, pc[n]) > 0 {
      t := n;
    } else {
      t := SumIsPositive(w, pc[..n]);
    }
  }

  lemma {:induction false} HoldersAndReturned(pc: seq<PC>)
    ensures Sum(Holders, pc) + Sum(Returned, pc) <= |pc|
  {
    if pc != [] {
      HoldersAndReturned(pc[..|pc| - 1]);
    }
  }

  lemma {:induction false} FewUndoers(pc: seq<PC>)
    ensures Sum(Undoers, pc) <= |pc|
  {
    if pc != [] {
      FewUndoers(pc[..|pc| - 1]);
    }
  }
}
