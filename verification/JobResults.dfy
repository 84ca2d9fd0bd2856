// What the invariant says about whole runs of a job.
module JobResults {
  import opened Wrappers
  import opened JobWord
  import opened Shuffle
  import opened BarrierModel
  import opened JobSteps
  import opened JobInvariant

  // ---- map and reduce calls ----

  lemma NobodyMaps(c: Config, s: Job, i: nat)
    requires (ShuffleControl(c, s) && ShuffleStage(c, s)) || ReduceControl(c, s)
    ensures Sum(Mappers(i), s.pc) == 0
  {
    forall t | 0 <= t < |s.pc|
      ensures Weight(Mappers(i), s.pc[t]) == 0
    {
      if !ReduceControl(c, s) {
        ShufflePlace(c, s, t);
      }
    }
    SumIsZero(Mappers(i), s.pc);
  }

  // At any time each input that is claimed has been mapped, or is being mapped, by exactly one thread,
  // and no other input by any.
  lemma MappedAtMostOnce(c: Config, run: seq<Job>, k: nat, i: nat)
    requires IsRun(c, run) && k < |run| && i < c.inputs
    ensures |run[k].mapCalls| == c.inputs && run[k].claims <= c.inputs
    ensures run[k].mapCalls[i] + Sum(Mappers(i), run[k].pc) == if i < run[k].claims then 1 else 0
  {
    RunInv(c, run, k);
    if !InMapPhase(c, run[k]) {
      NobodyMaps(c, run[k], i);
    }
  }

  // At any time each popped group has been reduced, or is being reduced, by exactly one thread, which
  // accounts for it afterwards, and no other group by any.
  lemma ReducedAtMostOnce(c: Config, run: seq<Job>, k: nat, g: nat)
    requires IsRun(c, run) && k < |run| && g < |run[k].groups|
    ensures |run[k].reduceCalls| == |run[k].groups| == |run[k].accounts|
    ensures var popped := if g >= |run[k].shuffle.out| then 1 else 0;
            && run[k].reduceCalls[g] + Sum(Reducers(g), run[k].pc) == popped
            && run[k].accounts[g] + Sum(Carriers(g), run[k].pc) == popped
            && run[k].accounts[g] <= run[k].reduceCalls[g]
  {
    RunInv(c, run, k);
    ReducersCarry(run[k].pc, g);
  }

  lemma {:induction false} ReducersCarry(pc: seq<PC>, g: nat)
    ensures Sum(Reducers(g), pc) <= Sum(Carriers(g), pc)
  {
    if pc != [] {
      ReducersCarry(pc[..|pc| - 1], g);
    }
  }

  // No group outlives the threads, wherever the token word has wrapped to.
  lemma NothingLeftOver(c: Config, s: Job)
    requires InReducePhase(c, s) && AllDone(s)
    ensures s.shuffle.out == [] && Sum(InFlight(s.groups), s.pc) == 0
    ensures forall g :: 0 <= g < |s.groups| ==> Sum(Reducers(g), s.pc) == 0 && Sum(Carriers(g), s.pc) == 0
  {
    EmptyHanded(s.pc, s.groups);
  }

  lemma EmptyHanded(pc: seq<PC>, groups: seq<Vec>)
    requires forall t :: 0 <= t < |pc| ==> pc[t] == Done
    ensures Sum(Holders, pc) == 0 && Sum(InFlight(groups), pc) == 0 && Sum(Returned, pc) == |pc|
    ensures forall g :: 0 <= g < |groups| ==> Sum(Reducers(g), pc) == 0 && Sum(Carriers(g), pc) == 0
  {
    AllReturned(pc);
    SumIsZero(Holders, pc);
    SumIsZero(InFlight(groups), pc);
    forall g | 0 <= g < |groups|
      ensures Sum(Reducers(g), pc) == 0 && Sum(Carriers(g), pc) == 0
    {
      SumIsZero(Reducers(g), pc);
      SumIsZero(Carriers(g), pc);
    }
  }

  lemma DoneIsReducePhase(c: Config, s: Job)
    requires JobInv(c, s) && AllDone(s)
    ensures InReducePhase(c, s)
  {
    assert s.pc[0] == Done;
  }

  // Every input has been mapped once, the groups hold every emitted pair once and split them by key,
  // every group has been reduced once and accounted for once, none is left over, and the progress word
  // reads REDUCE with all pairs processed.
  ghost predicate IsComplete(c: Config, s: Job) {
    && |s.mapCalls| == c.inputs && (forall i :: 0 <= i < c.inputs ==> s.mapCalls[i] == 1)
    && Total(s.groups) == s.emitted && Grouped(c.lt, s.groups)
    && |s.reduceCalls| == |s.groups| && (forall g :: 0 <= g < |s.groups| ==> s.reduceCalls[g] == 1)
    && |s.accounts| == |s.groups| && (forall g :: 0 <= g < |s.groups| ==> s.accounts[g] == 1)
    && s.shuffle.out == []
    && GetStage(s.atomicVar) == REDUCE_STAGE
    && GetTotalPairs(s.atomicVar) == GetPairsProcessed(s.atomicVar) == |s.emitted|
  }

  lemma DoneIsComplete(c: Config, s: Job)
    requires JobInv(c, s) && AllDone(s)
    ensures IsComplete(c, s)
  {
    DoneIsReducePhase(c, s);
    NothingLeftOver(c, s);
    FinalWord(s);
  }

  lemma FinalWord(s: Job)
    requires ReduceWordInv(s) && s.shuffle.out == [] && Sum(InFlight(s.groups), s.pc) == 0 && s.total < FIELD
    ensures GetStage(s.atomicVar) == REDUCE_STAGE
    ensures GetTotalPairs(s.atomicVar) == GetPairsProcessed(s.atomicVar) == s.total
  {
    PackUnpack(REDUCE_STAGE, s.total, s.total);
  }

  // So it is whenever all threads have returned.
  lemma JobIsComplete(c: Config, run: seq<Job>, k: nat)
    requires IsRun(c, run) && k < |run| && AllDone(run[k])
    ensures IsComplete(c, run[k])
  {
    RunInv(c, run, k);
    DoneIsComplete(c, run[k]);
  }

  lemma {:induction false} AllReturned(pc: seq<PC>)
    requires forall t :: 0 <= t < |pc| ==> pc[t] == Done
    ensures Sum(Tally.Returned, pc) == |pc|
  {
    if pc != [] {
      AllReturned(pc[..|pc| - 1]);
    }
  }

  // The token word always ends up below zero: in all there is one decrement for each group and one
  // with which each thread leaves its loop.
  lemma TokensEndWrapped(c: Config, run: seq<Job>, k: nat)
    requires IsRun(c, run) && k < |run| && AllDone(run[k])
    ensures run[k].decrements == |run[k].groups| + c.threads
    ensures run[k].atomicShuffle == WORD32 - c.threads
  {
    RunInv(c, run, k);
    DoneIsReducePhase(c, run[k]);
    NothingLeftOver(c, run[k]);
    EmptyHanded(run[k].pc, run[k].groups);
  }

  // ---- phase separation ----

  lemma ReducerInPhase(c: Config, s: Job, t: nat)
    requires JobInv(c, s) && t < |s.pc| && InReduce(s.pc[t])
    ensures InReducePhase(c, s)
  {
    if !InReducePhase(c, s) {
      HeldBack(c, s, t);
      assert false;
    }
  }

  lemma HeldBack(c: Config, s: Job, t: nat)
    requires t < |s.pc| && (Gathering(s) || (ShuffleControl(c, s) && ShuffleStage(c, s)))
    ensures !InReduce(s.pc[t])
  {
    if !Gathering(s) {
      ShufflePlace(c, s, t);
    }
  }

  // Nobody reduces before the shuffle is complete and the reduce stage is stored.
  lemma ReduceAfterShuffle(c: Config, run: seq<Job>, k: nat, t: nat)
    requires IsRun(c, run) && k < |run| && t < c.threads
    ensures |run[k].pc| == c.threads
    ensures InReduce(run[k].pc[t]) ==>
              && GetStage(run[k].atomicVar) == REDUCE_STAGE
              && Total(run[k].groups) == run[k].emitted && Grouped(c.lt, run[k].groups)
  {
    RunInv(c, run, k);
    var s := run[k];
    if InReduce(s.pc[t]) {
      ReducerInPhase(c, s, t);
      var pending := Size(s.shuffle.out) + Sum(InFlight(s.groups), s.pc);
      PackUnpack(REDUCE_STAGE, s.total, s.total - pending);
    }
  }

  predicate Shuffles(p: PC) {
    p == Starting || p == Picking || p == Taking
  }

  lemma ShufflerInPhase(c: Config, s: Job)
    requires JobInv(c, s)
    ensures s.pc != [] && (Shuffles(s.pc[0]) ==> InShufflePhase(c, s))
  {
  }

  // While thread 0 shuffles, all inputs are mapped, all vectors are sorted, the overshoot has been
  // undone, and every other thread is held at the barrier or at the semaphore.
  lemma ShuffleIsAlone(c: Config, run: seq<Job>, k: nat)
    requires IsRun(c, run) && k < |run|
    ensures run[k].pc != []
    ensures Shuffles(run[k].pc[0]) ==>
              && (forall i :: 0 <= i < |run[k].mapCalls| ==> run[k].mapCalls[i] == 1)
              && (forall i :: 0 <= i < |run[k].shuffle.vecs| ==> Sorted(c.lt, run[k].shuffle.vecs[i]))
              && (forall t :: 0 < t < |run[k].pc| ==> run[k].pc[t] == Waiting || run[k].pc[t] == Awaiting)
              && (run[k].pc[0] == Starting ==> run[k].atomicVar == Pack(MAP_STAGE, c.inputs, c.inputs))
  {
    RunInv(c, run, k);
    ShufflerInPhase(c, run[k]);
  }

  // ---- progress ----

  function Insert(lt: Order, v: Vec, p: Pair): Vec {
    if v == [] then [p]
    else if lt(p.key, Last(v).key) then Insert(lt, Init(v), p) + [Last(v)]
    else v + [p]
  }

  lemma {:induction false} InsertSorts(lt: Order, v: Vec, p: Pair)
    requires StrictWeakOrder(lt) && Sorted(lt, v)
    ensures Sorted(lt, Insert(lt, v, p)) && multiset(Insert(lt, v, p)) == multiset(v) + multiset{p}
  {
    if v != [] {
      InitLast(v);
      if lt(p.key, Last(v).key) {
        InsertSorts(lt, Init(v), p);
        InsertEarlier(lt, v, Insert(lt, Init(v), p), p);
      } else {
        BelowNone(lt, v, p);
        AppendSorts(lt, v, p);
      }
    }
  }

  lemma InsertEarlier(lt: Order, v: Vec, w: Vec, p: Pair)
    requires StrictWeakOrder(lt) && Sorted(lt, v) && v != [] && lt(p.key, Last(v).key)
    requires Sorted(lt, w) && multiset(w) == multiset(Init(v)) + multiset{p}
    ensures Sorted(lt, w + [Last(v)]) && multiset(w + [Last(v)]) == multiset(v) + multiset{p}
  {
    InitLast(v);
    assert Transitive(lt, p.key, Last(v).key, p.key);
    forall q | q in w
      ensures q == p || q in Init(v)
    {
      assert q in multiset(w);
    }
    AppendSorts(lt, w, Last(v));
  }

  lemma BelowNone(lt: Order, v: Vec, p: Pair)
    requires StrictWeakOrder(lt) && Sorted(lt, v) && v != [] && !lt(p.key, Last(v).key)
    ensures forall q :: q in v ==> !lt(p.key, q.key)
  {
    forall q | q in v
      ensures !lt(p.key, q.key)
    {
      assert Transitive(lt, p.key, Last(v).key, q.key);
    }
  }

  lemma AppendSorts(lt: Order, v: Vec, p: Pair)
    requires Sorted(lt, v) && forall q :: q in v ==> !lt(p.key, q.key)
    ensures Sorted(lt, v + [p]) && multiset(v + [p]) == multiset(v) + multiset{p}
  {
    forall i, j | 0 <= i < j < |v + [p]|
      ensures !lt((v + [p])[j].key, (v + [p])[i].key)
    {
      if j == |v| {
        assert (v + [p])[i] in v;
      }
    }
  }

  // Every vector can be sorted.
  lemma {:induction false} SomeSorted(lt: Order, v: Vec) returns (w: Vec)
    requires StrictWeakOrder(lt)
    ensures Sorted(lt, w) && multiset(w) == multiset(v)
  {
    if v == [] {
      w := [];
    } else {
      var u := SomeSorted(lt, Init(v));
      InsertSorts(lt, u, Last(v));
      InitLast(v);
      w := Insert(lt, u, Last(v));
    }
  }

  lemma MapThreadCanStep(c: Config, s: Job, t: nat) returns (a: Action)
    requires InMapPhase(c, s) && t < |s.pc| && BeforeBarrier(s.pc[t]) && (s.pc[t] == Begin ==> s.mapMutex == None)
    ensures Enabled(c, s, t, a)
  {
    MapWord(c, s);
    match s.pc[t]
    case Begin => a := LockMap;
    case Locked => a := CheckStage;
    case Storing => a := StoreStage;
    case Unlocking => a := UnlockMap;
    case Claiming => a := Claim;
    case Mapping(i) => a := CallMap([]);
    case Undoing => a := Action.Undo;
    case Sorting =>
      var w := SomeSorted(c.lt, s.shuffle.vecs[t]);
      a := Sort(w);
    case AtBarrier => a := Arrive;
  }

  lemma SomebodyOutside(s: Job) returns (t: nat)
    requires Gathering(s)
    ensures t < |s.pc| && s.pc[t] != Waiting
  {
    t :| t < |s.pc| && t !in s.b.waiting by {
      if forall u: nat :: u < |s.pc| ==> u in s.b.waiting {
        SubsetSize(Numbers(|s.pc|), s.b.waiting);
      }
    }
  }

  lemma MapCanStep(c: Config, s: Job) returns (t: nat, a: Action)
    requires InMapPhase(c, s)
    ensures Enabled(c, s, t, a)
  {
    if s.mapMutex.Some? {
      t := s.mapMutex.value;
    } else {
      t := SomebodyOutside(s);
    }
    a := MapThreadCanStep(c, s, t);
  }

  lemma ShuffleCanStep(c: Config, s: Job) returns (a: Action)
    requires InShufflePhase(c, s)
    ensures Enabled(c, s, 0, a)
  {
    match s.pc[0]
    case Waiting => a := LeaveBarrier;
    case Starting => a := StartShuffle;
    case Picking => a := if MaxKey(c.lt, s.shuffle.vecs).Some? then PickKey else EndShuffle;
    case Taking =>
      PackUnpack(SHUFFLE_STAGE, s.total, s.total - Size(s.shuffle.vecs));
      if i :| 0 <= i < |s.shuffle.vecs| && CanTake(c.lt, s.shuffle, i) {
        a := TakePair(i);
      } else {
        a := PushGroup;
      }
  }

  lemma {:induction false} GroupWithinTotal(groups: seq<Vec>, g: nat)
    requires g < |groups|
    ensures |groups[g]| <= Size(groups)
  {
    if g < |groups| - 1 {
      GroupWithinTotal(groups[..|groups| - 1], g);
    }
  }

  lemma ReduceThreadCanStep(c: Config, s: Job, t: nat) returns (a: Action)
    requires InReducePhase(c, s) && t < |s.pc| && s.pc[t] != Done && (s.pc[t] == Awaiting ==> s.semaphore > 0)
    ensures Enabled(c, s, t, a)
  {
    FewDecrements(c, s);
    assert s.pc[t] == Waiting || s.pc[t] == Awaiting || s.pc[t].Posting? || InReduce(s.pc[t]);
    match s.pc[t]
    case Waiting => a := LeaveBarrier;
    case Posting(_) => a := Post;
    case Awaiting => a := AwaitPost;
    case Fetching => a := FetchToken;
    case Popping => a := PopGroup;
    case Reducing(g) => a := CallReduce;
    case Accounting(g) =>
      CanAccount(c, s, t);
      a := Account;
  }

  lemma CanAccount(c: Config, s: Job, t: nat)
    requires Shape(c, s) && GroupsInv(c, s) && ReduceCallsInv(s) && ReduceWordInv(s)
    requires t < |s.pc| && s.pc[t].Accounting?
    ensures Enabled(c, s, t, Account)
  {
    GroupWithinTotal(s.groups, s.pc[t].group);
    SizeIsCardinality(s.groups);
    var pending := Size(s.shuffle.out) + Sum(InFlight(s.groups), s.pc);
    PackUnpack(REDUCE_STAGE, s.total, s.total - pending);
  }

  lemma ReduceCanStep(c: Config, s: Job) returns (t: nat, a: Action)
    requires InReducePhase(c, s) && !AllDone(s)
    ensures Enabled(c, s, t, a)
  {
    t :| t < |s.pc| && s.pc[t] != Done;
    if s.pc[t] == Awaiting && s.semaphore == 0 {
      SumUpdate(Blocked, s.pc, t, Awaiting);
      t := 0;
    }
    a := ReduceThreadCanStep(c, s, t);
  }

  lemma CanStepUnlessDone(c: Config, s: Job) returns (t: nat, a: Action)
    requires JobInv(c, s) && !AllDone(s)
    ensures Enabled(c, s, t, a)
  {
    if InMapPhase(c, s) {
      t, a := MapCanStep(c, s);
    } else if InShufflePhase(c, s) {
      t := 0;
      a := ShuffleCanStep(c, s);
    } else {
      t, a := ReduceCanStep(c, s);
    }
  }

  // No deadlock: until all threads have returned, some thread can step.
  lemma SomeThreadCanStep(c: Config, run: seq<Job>, k: nat) returns (t: nat, a: Action)
    requires IsRun(c, run) && k < |run| && !AllDone(run[k])
    ensures Enabled(c, run[k], t, a)
  {
    RunInv(c, run, k);
    t, a := CanStepUnlessDone(c, run[k]);
  }
}
