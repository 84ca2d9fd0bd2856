// What holds in every reachable state of a job, phase by phase.
module JobInvariant {
  import opened Wrappers
  import opened JobWord
  import opened Shuffle
  import opened BarrierModel
  import opened JobSteps

  predicate BeforeBarrier(p: PC) {
    p.Begin? || p.Locked? || p.Storing? || p.Unlocking? || p.Claiming? || p.Mapping? || p.Undoing?
      || p.Sorting? || p.AtBarrier?
  }

  predicate InLock(p: PC) {
    p.Locked? || p.Storing? || p.Unlocking?
  }

  // The thread has seen that every input is claimed.
  predicate MapOver(p: PC) {
    p.Undoing? || p.Sorting? || p.AtBarrier? || p.Waiting?
  }

  predicate InReduce(p: PC) {
    p.Fetching? || p.Popping? || p.Reducing? || p.Accounting? || p.Done?
  }

  ghost predicate Shape(c: Config, s: Job) {
    && c.Valid()
    && |s.pc| == c.threads && |s.shuffle.vecs| == c.threads && |s.mapCalls| == c.inputs
    && |s.reduceCalls| == |s.groups| == |s.accounts|
    && |s.emitted| < FIELD
    && s.claims <= c.inputs
  }

  // ---- until the barrier opens ----

  ghost predicate MutexInv(s: Job) {
    && (forall t :: 0 <= t < |s.pc| ==> (InLock(s.pc[t]) <==> s.mapMutex == Some(t)))
    && (s.mapMutex.Some? ==> s.mapMutex.value < |s.pc|)
  }

  // w holds exactly the threads inside the barrier.
  ghost predicate AreWaiting(pc: seq<PC>, w: set<nat>) {
    && (forall t :: t in w ==> t < |pc| && pc[t] == Waiting)
    && (forall t :: 0 <= t < |pc| && pc[t] == Waiting ==> t in w)
  }

  // The barrier is filling up.
  ghost predicate Gathering(s: Job) {
    && !s.tripped && s.b.released == {} && s.b.count == |s.b.waiting| < |s.pc|
    && (forall t :: 0 <= t < |s.pc| ==> BeforeBarrier(s.pc[t]) || s.pc[t] == Waiting)
    && AreWaiting(s.pc, s.b.waiting)
  }

  // No shuffling or reducing has begun.
  ghost predicate Untouched(s: Job) {
    && s.shuffle.key == None && s.shuffle.newVec == [] && s.shuffle.out == []
    && s.atomicShuffle == 0 && s.semaphore == 0 && s.groups == [] && s.decrements == 0
    && s.emitted == Total(s.shuffle.vecs)
  }

  // Exactly the inputs below `claims` have been claimed, each by one thread.
  ghost predicate MapCallsInv(s: Job) {
    forall i :: 0 <= i < |s.mapCalls| ==>
      s.mapCalls[i] + Sum(Mappers(i), s.pc) == if i < s.claims then 1 else 0
  }

  // Before the stage is stored nobody has claimed anything; afterwards the processed field is the
  // number of claims plus the overshoot that is still to be undone.
  ghost predicate MapWordInv(c: Config, s: Job) {
    if s.atomicVar == 0 then
      s.claims == 0 && forall t :: 0 <= t < |s.pc| ==> s.pc[t].Begin? || s.pc[t].Locked? || s.pc[t].Storing?
    else
      && s.atomicVar == Pack(MAP_STAGE, c.inputs, s.claims + Sum(Undoers, s.pc))
      && (Sum(Undoers, s.pc) > 0 ==> s.claims == c.inputs)
      && forall t :: 0 <= t < |s.pc| ==> !s.pc[t].Storing?
  }

  ghost predicate MapDoneInv(c: Config, s: Job) {
    && (forall t :: 0 <= t < |s.pc| && MapOver(s.pc[t]) ==> s.claims == c.inputs)
    && (forall t :: 0 <= t < |s.pc| && s.pc[t].Mapping? ==> s.pc[t].input < s.claims)
    && (forall t :: 0 <= t < |s.pc| <= |s.shuffle.vecs| && (s.pc[t].AtBarrier? || s.pc[t].Waiting?) ==>
          Sorted(c.lt, s.shuffle.vecs[t]))
  }

  ghost predicate InMapPhase(c: Config, s: Job) {
    Shape(c, s) && MutexInv(s) && Gathering(s) && Untouched(s) && MapCallsInv(s) && MapWordInv(c, s) && MapDoneInv(c, s)
  }

  // ---- once the barrier is open ----

  ghost predicate Opened(c: Config, s: Job) {
    && s.tripped && s.b.count == 0 && s.b.waiting == {}
    && AreWaiting(s.pc, s.b.released)
    && s.mapMutex == None && s.claims == c.inputs
    && (forall i :: 0 <= i < |s.mapCalls| ==> s.mapCalls[i] == 1)
  }

  // Thread 0 shuffles, or is about to; everybody else is held back.
  ghost predicate ShuffleControl(c: Config, s: Job) {
    && Shape(c, s) && Opened(c, s)
    && s.semaphore == 0 && s.groups == [] && s.decrements == 0
    && (forall t :: 0 < t < |s.pc| ==> s.pc[t] == Waiting || s.pc[t] == Awaiting)
  }

  // Where thread 0 is, and what it has done so far.
  ghost predicate ShuffleStage(c: Config, s: Job)
    requires s.pc != []
  {
    match s.pc[0]
    case Waiting => Untouched(s) && s.atomicVar == Pack(MAP_STAGE, c.inputs, c.inputs)
    case Starting => Untouched(s) && s.atomicVar == Pack(MAP_STAGE, c.inputs, c.inputs)
    case Picking => Counting(s) && s.shuffle.key == None
    case Taking => Counting(s) && s.shuffle.key.Some? && GroupComing(c, s)
    case _ => false
  }

  // The group will not be empty when it is pushed.
  ghost predicate GroupComing(c: Config, s: Job) {
    s.shuffle.newVec != [] || exists i :: 0 <= i < |s.shuffle.vecs| && CanTake(c.lt, s.shuffle, i)
  }

  ghost predicate InShufflePhase(c: Config, s: Job) {
    ShuffleControl(c, s) && ShuffleInv(c.lt, s.shuffle, s.emitted) && ShuffleStage(c, s)
  }

  ghost predicate Counting(s: Job) {
    && s.total == |s.emitted|
    && Size(s.shuffle.vecs) <= s.total
    && s.atomicVar == Pack(SHUFFLE_STAGE, s.total, s.total - Size(s.shuffle.vecs))
    && s.atomicShuffle == |s.shuffle.out|
    && |s.shuffle.out| + Size(s.shuffle.vecs) + |s.shuffle.newVec| <= s.total
  }

  // ---- once the shuffle is complete ----

  ghost predicate GroupsInv(c: Config, s: Job) {
    && Grouped(c.lt, s.groups) && Total(s.groups) == s.emitted && s.total == |s.emitted|
    && |s.groups| <= s.total
    && |s.shuffle.out| <= |s.groups| && s.shuffle.out == s.groups[..|s.shuffle.out|]
  }

  // A group is reduced, or being reduced, exactly if it has been popped.
  ghost predicate ReduceCallsInv(s: Job) {
    && (forall g :: 0 <= g < |s.reduceCalls| ==>
          s.reduceCalls[g] + Sum(Reducers(g), s.pc) == if g >= |s.shuffle.out| then 1 else 0)
    && (forall t :: 0 <= t < |s.pc| ==>
          && (s.pc[t].Reducing? ==> |s.shuffle.out| <= s.pc[t].group < |s.groups|)
          && (s.pc[t].Accounting? ==> |s.shuffle.out| <= s.pc[t].group < |s.groups|))
  }

  ghost predicate ReduceWordInv(s: Job) {
    var pending := Size(s.shuffle.out) + Sum(InFlight(s.groups), s.pc);
    pending <= s.total && s.atomicVar == Pack(REDUCE_STAGE, s.total, s.total - pending)
  }

  // The pairs of the groups that have been accounted for.
  function PairsAccounted(groups: seq<Vec>, accounts: seq<nat>): nat
    requires |groups| == |accounts|
  {
    if groups == [] then 0
    else
      var n := |groups| - 1;
      PairsAccounted(groups[..n], accounts[..n]) + if accounts[n] > 0 then |groups[n]| else 0
  }

  // A popped group is in one thread's hands until it is accounted for, once.
  ghost predicate HeldOnce(accounts: seq<nat>, pc: seq<PC>, left: nat) {
    forall g :: 0 <= g < |accounts| ==> accounts[g] + Sum(Carriers(g), pc) == if g >= left then 1 else 0
  }

  ghost predicate AccountsInv(s: Job) {
    && |s.accounts| == |s.groups| && HeldOnce(s.accounts, s.pc, |s.shuffle.out|)
    && PairsAccounted(s.groups, s.accounts) + Size(s.shuffle.out) + Sum(InFlight(s.groups), s.pc) == s.total
  }

  function LeftToPost(p: PC): nat {
    if p.Posting? then p.left else 0
  }

  ghost predicate SemaphoreInv(s: Job)
    requires s.pc != []
  {
    s.semaphore + LeftToPost(s.pc[0]) == Sum(Blocked, s.pc)
  }

  // atomicShuffle, wrap-around included.
  ghost predicate TokenWordInv(s: Job) {
    && s.atomicShuffle ==
       (if s.decrements <= |s.groups| then |s.groups| - s.decrements else |s.groups| - s.decrements + WORD32)
    && s.decrements == |s.groups| - |s.shuffle.out| + Sum(Returned, s.pc) + Sum(Holders, s.pc)
  }

  function TokensLeft(s: Job): nat {
    if s.decrements <= |s.groups| then |s.groups| - s.decrements else 0
  }

  // No group is left without a thread or a token that will fetch it.
  ghost predicate CoverInv(s: Job) {
    && |s.shuffle.out| <= Sum(Holders, s.pc) + TokensLeft(s)
    && (Sum(Returned, s.pc) > 0 ==> s.decrements > |s.groups| || s.shuffle.out == [])
  }

  ghost predicate TokensInv(s: Job) {
    TokenWordInv(s) && CoverInv(s)
  }

  ghost predicate ReduceControl(c: Config, s: Job) {
    && Shape(c, s) && Opened(c, s) && s.shuffle.key == None
    && (s.pc[0].Posting? || InReduce(s.pc[0])) && (s.pc[0].Posting? ==> s.pc[0].left > 0)
    && (forall t :: 0 < t < |s.pc| ==> s.pc[t] == Waiting || s.pc[t] == Awaiting || InReduce(s.pc[t]))
  }

  ghost predicate InReducePhase(c: Config, s: Job) {
    && ReduceControl(c, s) && GroupsInv(c, s) && ReduceCallsInv(s) && ReduceWordInv(s)
    && AccountsInv(s) && SemaphoreInv(s) && TokensInv(s)
  }

  ghost predicate JobInv(c: Config, s: Job) {
    InMapPhase(c, s) || InShufflePhase(c, s) || InReducePhase(c, s)
  }

  // ---- the map phase ----

  lemma {:induction false} NoTotalOfEmpty(n: nat)
    ensures Total(seq(n, _ => [])) == multiset{}
  {
    TotalOfEmpty(seq(n, _ => []));
  }

  lemma InitialInv(c: Config, s: Job)
    requires c.Valid() && Initial(c, s)
    ensures InMapPhase(c, s)
  {
    NoTotalOfEmpty(c.threads);
    forall i | 0 <= i < |s.mapCalls|
      ensures Sum(Mappers(i), s.pc) == 0
    {
      SumIsZero(Mappers(i), s.pc);
    }
  }

  // A step of thread t within the map phase, as far as the other threads and the barrier see it.
  ghost predicate MapMove(s: Job, s': Job, t: nat) {
    && t < |s.pc| && |s'.pc| == |s.pc| && s'.pc == s.pc[t := s'.pc[t]]
    && BeforeBarrier(s.pc[t]) && BeforeBarrier(s'.pc[t])
    && s'.b == s.b && s'.tripped == s.tripped
  }

  lemma GatheringKeeps(s: Job, s': Job, t: nat)
    requires MapMove(s, s', t) && Gathering(s)
    ensures Gathering(s')
  {
  }

  lemma MutexKeeps(s: Job, s': Job, t: nat)
    requires MapMove(s, s', t) && MutexInv(s)
    requires s'.mapMutex == if InLock(s'.pc[t]) then Some(t) else if s.mapMutex == Some(t) then None else s.mapMutex
    requires InLock(s'.pc[t]) ==> s.mapMutex == None || s.mapMutex == Some(t)
    ensures MutexInv(s')
  {
  }

  // A claim moves an input from nobody to its mapper, a map call from its mapper to the record.
  lemma MapCallsKeep(s: Job, s': Job, t: nat)
    requires MapMove(s, s', t) && MapCallsInv(s) && |s'.mapCalls| == |s.mapCalls|
    requires forall i :: 0 <= i < |s.mapCalls| ==>
               s'.mapCalls[i] + Weight(Mappers(i), s'.pc[t]) + (if i < s.claims then 1 else 0)
               == s.mapCalls[i] + Weight(Mappers(i), s.pc[t]) + (if i < s'.claims then 1 else 0)
    ensures MapCallsInv(s')
  {
    forall i | 0 <= i < |s.mapCalls|
      ensures s'.mapCalls[i] + Sum(Mappers(i), s'.pc) == if i < s'.claims then 1 else 0
    {
      SumUpdate(Mappers(i), s.pc, t, s'.pc[t]);
    }
  }

  // A step past the storing of the stage that neither claims nor undoes.
  lemma MapWordKeeps(c: Config, s: Job, s': Job, t: nat)
    requires MapWordInv(c, s) && t < |s.pc| == |s'.pc| && s'.pc == s.pc[t := s'.pc[t]]
    requires s'.atomicVar == s.atomicVar && s'.claims == s.claims
    requires s.pc[t].Mapping? || s.pc[t].Sorting? || s.pc[t].AtBarrier?
    requires s'.pc[t].Claiming? || s'.pc[t].AtBarrier? || s'.pc[t].Waiting?
    ensures MapWordInv(c, s')
  {
    SumUpdate(Undoers, s.pc, t, s'.pc[t]);
  }

  lemma MapDoneKeeps(c: Config, s: Job, s': Job, t: nat)
    requires MapDoneInv(c, s) && t < |s.pc| == |s'.pc| == |s.shuffle.vecs| && s'.pc == s.pc[t := s'.pc[t]]
             && s'.claims == s.claims
    requires t < |s'.shuffle.vecs| && s'.shuffle.vecs == s.shuffle.vecs[t := s'.shuffle.vecs[t]]
    requires MapOver(s'.pc[t]) ==> s.claims == c.inputs
    requires !s'.pc[t].Mapping?
    requires s'.pc[t].AtBarrier? || s'.pc[t].Waiting? ==> Sorted(c.lt, s'.shuffle.vecs[t])
    ensures MapDoneInv(c, s')
  {
  }

  // When neither claims, calls nor vectors change.
  lemma QuietMove(c: Config, s: Job, s': Job, t: nat)
    requires InMapPhase(c, s) && MapMove(s, s', t)
    requires s' == s.(pc := s'.pc, atomicVar := s'.atomicVar, mapMutex := s'.mapMutex)
    requires MutexInv(s') && MapWordInv(c, s')
    requires !s.pc[t].Mapping? && !s'.pc[t].Mapping? && !s'.pc[t].AtBarrier?
    requires MapOver(s'.pc[t]) ==> s.claims == c.inputs
    ensures InMapPhase(c, s')
  {
    GatheringKeeps(s, s', t);
    MapCallsKeep(s, s', t);
  }

  // The word before the stage is stored, and after.
  lemma MapWord(c: Config, s: Job)
    requires Shape(c, s) && MapWordInv(c, s)
    ensures s.atomicVar == 0 ==> Sum(Undoers, s.pc) == 0 && GetStage(s.atomicVar) == UNDEFINED_STAGE
    ensures s.atomicVar != 0 ==> Fits(MAP_STAGE, c.inputs, s.claims + Sum(Undoers, s.pc))
    ensures s.atomicVar != 0 ==> GetStage(s.atomicVar) == MAP_STAGE
    ensures s.atomicVar != 0 ==> GetPairsProcessed(s.atomicVar) == s.claims + Sum(Undoers, s.pc)
    ensures s.atomicVar < WORD
  {
    FewUndoers(s.pc);
    if s.atomicVar != 0 {
      PackUnpack(MAP_STAGE, c.inputs, s.claims + Sum(Undoers, s.pc));
    } else {
      SumIsZero(Undoers, s.pc);
    }
  }

  lemma LockWord(c: Config, s: Job, t: nat)
    requires MapWordInv(c, s) && Enabled(c, s, t, LockMap)
    ensures MapWordInv(c, Act(c, s, t, LockMap))
  {
    SumUpdate(Undoers, s.pc, t, Locked);
  }

  lemma LockMapKeeps(c: Config, s: Job, t: nat)
    requires InMapPhase(c, s) && Enabled(c, s, t, LockMap)
    ensures InMapPhase(c, Act(c, s, t, LockMap))
  {
    LockWord(c, s, t);
    MutexKeeps(s, Act(c, s, t, LockMap), t);
    QuietMove(c, s, Act(c, s, t, LockMap), t);
  }

  lemma CheckWord(c: Config, s: Job, t: nat)
    requires Shape(c, s) && MapWordInv(c, s) && Enabled(c, s, t, CheckStage)
    ensures MapWordInv(c, Act(c, s, t, CheckStage))
  {
    MapWord(c, s);
    SumUpdate(Undoers, s.pc, t, Act(c, s, t, CheckStage).pc[t]);
  }

  lemma CheckStageKeeps(c: Config, s: Job, t: nat)
    requires InMapPhase(c, s) && Enabled(c, s, t, CheckStage)
    ensures InMapPhase(c, Act(c, s, t, CheckStage))
  {
    CheckWord(c, s, t);
    MutexKeeps(s, Act(c, s, t, CheckStage), t);
    QuietMove(c, s, Act(c, s, t, CheckStage), t);
  }

  lemma StoreWord(c: Config, s: Job, t: nat)
    requires Shape(c, s) && MutexInv(s) && MapWordInv(c, s) && Enabled(c, s, t, StoreStage)
    ensures MapWordInv(c, Act(c, s, t, StoreStage)) && s.claims == 0
  {
    MapWord(c, s);
    PackIsNotZero(MAP_STAGE, c.inputs, 0);
    SumUpdate(Undoers, s.pc, t, Unlocking);
  }

  // Storing the stage erases no claim: the lock holder that stores is the first to get this far.
  lemma StoreStageKeeps(c: Config, s: Job, t: nat)
    requires InMapPhase(c, s) && Enabled(c, s, t, StoreStage)
    ensures InMapPhase(c, Act(c, s, t, StoreStage)) && s.claims == 0
  {
    StoreWord(c, s, t);
    MutexKeeps(s, Act(c, s, t, StoreStage), t);
    QuietMove(c, s, Act(c, s, t, StoreStage), t);
  }

  lemma UnlockWord(c: Config, s: Job, t: nat)
    requires MapWordInv(c, s) && Enabled(c, s, t, UnlockMap)
    ensures MapWordInv(c, Act(c, s, t, UnlockMap))
  {
    SumUpdate(Undoers, s.pc, t, Claiming);
  }

  lemma UnlockMapKeeps(c: Config, s: Job, t: nat)
    requires InMapPhase(c, s) && Enabled(c, s, t, UnlockMap)
    ensures InMapPhase(c, Act(c, s, t, UnlockMap))
  {
    UnlockWord(c, s, t);
    MutexKeeps(s, Act(c, s, t, UnlockMap), t);
    QuietMove(c, s, Act(c, s, t, UnlockMap), t);
  }

  lemma PackIsNotZero(stage: nat, total: nat, processed: nat)
    requires Fits(stage, total, processed) && stage > 0
    ensures Pack(stage, total, processed) != 0
  {
    PackUnpack(stage, total, processed);
    PackUnpack(0, 0, 0);
  }

  // fetch_add hands out the next input, or overshoots.
  lemma Claimed(c: Config, s: Job, t: nat)
    requires Shape(c, s) && MapWordInv(c, s) && Enabled(c, s, t, Claim)
    ensures var s', k := Act(c, s, t, Claim), s.claims + Sum(Undoers, s.pc);
            && s.atomicVar == Pack(MAP_STAGE, c.inputs, k) && s'.atomicVar == Pack(MAP_STAGE, c.inputs, k + 1) != 0
            && (if s.claims < c.inputs then s'.pc[t] == Mapping(s.claims) && s'.claims == s.claims + 1
                else s'.pc[t] == Undoing && s'.claims == s.claims)
  {
    var k := s.claims + Sum(Undoers, s.pc);
    MapWord(c, s);
    UndoersLeaveRoom(s, t);
    AddProcessed(MAP_STAGE, c.inputs, k, 1);
    PackIsNotZero(MAP_STAGE, c.inputs, k + 1);
  }

  lemma ClaimWord(c: Config, s: Job, t: nat)
    requires Shape(c, s) && MapWordInv(c, s) && Enabled(c, s, t, Claim)
    ensures var s' := Act(c, s, t, Claim);
            && MapWordInv(c, s')
            && (if s.claims < c.inputs then s'.pc[t] == Mapping(s.claims) && s'.claims == s.claims + 1
                else s'.pc[t] == Undoing && s'.claims == s.claims)
  {
    Claimed(c, s, t);
    SumUpdate(Undoers, s.pc, t, Act(c, s, t, Claim).pc[t]);
  }

  lemma ClaimKeepsCalls(c: Config, s: Job, t: nat)
    requires Shape(c, s) && MapWordInv(c, s) && MutexInv(s) && Gathering(s) && MapCallsInv(s) && Enabled(c, s, t, Claim)
    ensures var s' := Act(c, s, t, Claim); MutexInv(s') && Gathering(s') && MapCallsInv(s')
  {
    var s' := Act(c, s, t, Claim);
    Claimed(c, s, t);
    GatheringKeeps(s, s', t);
    MutexKeeps(s, s', t);
    MapCallsKeep(s, s', t);
  }

  lemma ClaimKeeps(c: Config, s: Job, t: nat)
    requires InMapPhase(c, s) && Enabled(c, s, t, Claim)
    ensures InMapPhase(c, Act(c, s, t, Claim))
  {
    ClaimWord(c, s, t);
    ClaimKeepsCalls(c, s, t);
    ClaimKeepsDone(c, s, t);
  }

  lemma ClaimKeepsDone(c: Config, s: Job, t: nat)
    requires Shape(c, s) && MapWordInv(c, s) && MapDoneInv(c, s) && Enabled(c, s, t, Claim)
    ensures MapDoneInv(c, Act(c, s, t, Claim))
  {
    Claimed(c, s, t);
    ClaimedDone(c, s, Act(c, s, t, Claim), t);
  }

  lemma ClaimedDone(c: Config, s: Job, s': Job, t: nat)
    requires MapDoneInv(c, s) && s.claims <= c.inputs && t < |s.pc| == |s'.pc| && s'.pc == s.pc[t := s'.pc[t]]
    requires s'.shuffle.vecs == s.shuffle.vecs
    requires if s.claims < c.inputs then s'.pc[t] == Mapping(s.claims) && s'.claims == s.claims + 1
             else s'.pc[t] == Undoing && s'.claims == s.claims
    ensures MapDoneInv(c, s')
  {
  }

  lemma UndoersLeaveRoom(s: Job, t: nat)
    requires t < |s.pc| && s.pc[t] != Undoing
    ensures Sum(Undoers, s.pc) < |s.pc|
  {
    SumUpdate(Undoers, s.pc, t, Undoing);
    FewUndoers(s.pc[t := Undoing]);
  }

  lemma EmitsAdd(vecs: seq<Vec>, t: nat, emits: Vec)
    requires t < |vecs|
    ensures Total(vecs[t := vecs[t] + emits]) == Total(vecs) + multiset(emits)
  {
    TotalUpdate(vecs, t, vecs[t] + emits);
    assert multiset(vecs[t] + emits) == multiset(vecs[t]) + multiset(emits);
    assert Total(vecs) + (multiset(vecs[t]) + multiset(emits)) == Total(vecs) + multiset(emits) + multiset(vecs[t]);
    Cancel(Total(vecs[t := vecs[t] + emits]), Total(vecs) + multiset(emits), multiset(vecs[t]));
  }

  lemma CallMapKeeps(c: Config, s: Job, t: nat, emits: Vec)
    requires InMapPhase(c, s) && Enabled(c, s, t, CallMap(emits))
    ensures InMapPhase(c, Act(c, s, t, CallMap(emits)))
  {
    var s' := Act(c, s, t, CallMap(emits));
    MapWordKeeps(c, s, s', t);
    MapDoneKeeps(c, s, s', t);
    EmitsAdd(s.shuffle.vecs, t, emits);
    GatheringKeeps(s, s', t);
    MutexKeeps(s, s', t);
    MapCallCounted(c, s, t, emits);
    assert |s'.emitted| == |s.emitted| + |emits|;
  }

  lemma MapCallCounted(c: Config, s: Job, t: nat, emits: Vec)
    requires InMapPhase(c, s) && Enabled(c, s, t, CallMap(emits))
    ensures MapCallsInv(Act(c, s, t, CallMap(emits)))
  {
    MapCallsKeep(s, Act(c, s, t, CallMap(emits)), t);
  }

  // The decrement takes back one overshoot.
  lemma Undone(c: Config, s: Job, t: nat)
    requires Shape(c, s) && MapWordInv(c, s) && Enabled(c, s, t, Action.Undo)
    ensures var s', k := Act(c, s, t, Action.Undo), s.claims + Sum(Undoers, s.pc);
            && k >= 1 && s.atomicVar == Pack(MAP_STAGE, c.inputs, k)
            && s'.atomicVar == Pack(MAP_STAGE, c.inputs, k - 1) != 0
  {
    var k := s.claims + Sum(Undoers, s.pc);
    MapWord(c, s);
    SumUpdate(Undoers, s.pc, t, Sorting);
    AddProcessed(MAP_STAGE, c.inputs, k, -1);
    PackIsNotZero(MAP_STAGE, c.inputs, k - 1);
  }

  lemma UndoWord(c: Config, s: Job, t: nat)
    requires Shape(c, s) && MapWordInv(c, s) && Enabled(c, s, t, Action.Undo)
    ensures MapWordInv(c, Act(c, s, t, Action.Undo))
  {
    Undone(c, s, t);
    SumUpdate(Undoers, s.pc, t, Sorting);
  }

  lemma UndoKeeps(c: Config, s: Job, t: nat)
    requires InMapPhase(c, s) && Enabled(c, s, t, Action.Undo)
    ensures InMapPhase(c, Act(c, s, t, Action.Undo))
  {
    UndoWord(c, s, t);
    MutexKeeps(s, Act(c, s, t, Action.Undo), t);
    QuietMove(c, s, Act(c, s, t, Action.Undo), t);
  }

  lemma SortedTotal(vecs: seq<Vec>, t: nat, sorted: Vec)
    requires t < |vecs| && multiset(sorted) == multiset(vecs[t])
    ensures Total(vecs[t := sorted]) == Total(vecs)
  {
    TotalUpdate(vecs, t, sorted);
    Cancel(Total(vecs[t := sorted]), Total(vecs), multiset(sorted));
  }

  lemma SortKeepsCalls(s: Job, s': Job, t: nat)
    requires MapMove(s, s', t) && MutexInv(s) && MapCallsInv(s) && s.pc[t] == Sorting && s'.pc[t] == AtBarrier
    requires s'.mapMutex == s.mapMutex && s'.mapCalls == s.mapCalls && s'.claims == s.claims
    ensures MutexInv(s') && MapCallsInv(s')
  {
    MutexKeeps(s, s', t);
    MapCallsKeep(s, s', t);
  }

  lemma SortKeeps(c: Config, s: Job, t: nat, sorted: Vec)
    requires InMapPhase(c, s) && Enabled(c, s, t, Sort(sorted))
    ensures InMapPhase(c, Act(c, s, t, Sort(sorted)))
  {
    var s' := Act(c, s, t, Sort(sorted));
    MapWordKeeps(c, s, s', t);
    MapDoneKeeps(c, s, s', t);
    SortedTotal(s.shuffle.vecs, t, sorted);
    GatheringKeeps(s, s', t);
    SortKeepsCalls(s, s', t);
  }

  // The last thread opens the barrier: all inputs are mapped, all vectors sorted, nothing overshot.
  lemma ArriveKeeps(c: Config, s: Job, t: nat)
    requires InMapPhase(c, s) && Enabled(c, s, t, Arrive)
    ensures var s' := Act(c, s, t, Arrive);
            if IsLast(s.b, c.threads) then InShufflePhase(c, s') else InMapPhase(c, s')
  {
    if IsLast(s.b, c.threads) {
      LastArrival(c, s, t);
    } else {
      EarlyArrival(c, s, t);
    }
  }

  lemma EarlyArrival(c: Config, s: Job, t: nat)
    requires InMapPhase(c, s) && Enabled(c, s, t, Arrive) && !IsLast(s.b, c.threads)
    ensures InMapPhase(c, Act(c, s, t, Arrive))
  {
    var s' := Act(c, s, t, Arrive);
    MapWordKeeps(c, s, s', t);
    MapDoneKeeps(c, s, s', t);
    ArrivalKeepsMutex(s, s', t);
    ArrivalGathers(c, s, t);
    ArrivalKeepsCalls(s, s', t);
  }

  lemma ArrivalGathers(c: Config, s: Job, t: nat)
    requires Gathering(s) && Enabled(c, s, t, Arrive) && !IsLast(s.b, c.threads) && |s.pc| == c.threads
    ensures Gathering(Act(c, s, t, Arrive))
  {
  }

  lemma ArrivalKeepsMutex(s: Job, s': Job, t: nat)
    requires MutexInv(s) && t < |s.pc| && s.pc[t] == AtBarrier && s'.pc == s.pc[t := Waiting]
             && s'.mapMutex == s.mapMutex
    ensures MutexInv(s')
  {
  }

  lemma ArrivalKeepsCalls(s: Job, s': Job, t: nat)
    requires MapCallsInv(s) && t < |s.pc| && s.pc[t] == AtBarrier && s'.pc == s.pc[t := Waiting]
    requires s'.mapCalls == s.mapCalls && s'.claims == s.claims
    ensures MapCallsInv(s')
  {
    forall i | 0 <= i < |s.mapCalls|
      ensures s'.mapCalls[i] + Sum(Mappers(i), s'.pc) == if i < s'.claims then 1 else 0
    {
      SumUpdate(Mappers(i), s.pc, t, Waiting);
    }
  }

  // Everybody else waits, so nobody maps or has still to undo an overshoot.
  lemma OthersWait(c: Config, s: Job, t: nat)
    requires InMapPhase(c, s) && Enabled(c, s, t, Arrive) && IsLast(s.b, c.threads)
    ensures forall u :: 0 <= u < |s.pc| && u != t ==> u in s.b.waiting && s.pc[u] == Waiting
    ensures Sum(Undoers, s.pc) == 0
    ensures forall i :: 0 <= i < |s.mapCalls| ==> s.mapCalls[i] == 1
  {
    WaitingFillUp(s.b.waiting, c.threads, t);
    SumIsZero(Undoers, s.pc);
    forall i | 0 <= i < |s.mapCalls|
      ensures s.mapCalls[i] == 1
    {
      SumIsZero(Mappers(i), s.pc);
    }
  }

  lemma LastArrival(c: Config, s: Job, t: nat)
    requires InMapPhase(c, s) && Enabled(c, s, t, Arrive) && IsLast(s.b, c.threads)
    ensures InShufflePhase(c, Act(c, s, t, Arrive))
  {
    OthersWait(c, s, t);
    NobodyInLock(s, t);
    AllArrived(c, s, t);
    ReadyToShuffle(c, s, t);
  }

  lemma NobodyInLock(s: Job, t: nat)
    requires MutexInv(s) && t < |s.pc| && s.pc[t] == AtBarrier
    requires forall u :: 0 <= u < |s.pc| && u != t ==> s.pc[u] == Waiting
    ensures s.mapMutex == None
  {
  }

  lemma ReadyToShuffle(c: Config, s: Job, t: nat)
    requires Shape(c, s) && Untouched(s) && MapDoneInv(c, s) && MapWordInv(c, s) && Enabled(c, s, t, Arrive)
    requires IsLast(s.b, c.threads) && forall u :: 0 <= u < |s.pc| && u != t ==> s.pc[u] == Waiting
    requires Sum(Undoers, s.pc) == 0
    ensures ShuffleInv(c.lt, s.shuffle, s.emitted) && ShuffleStage(c, Act(c, s, t, Arrive))
  {
    assert s.atomicVar != 0;
  }

  lemma AllArrived(c: Config, s: Job, t: nat)
    requires Shape(c, s) && Gathering(s) && Untouched(s) && MapDoneInv(c, s) && s.mapMutex == None
    requires Enabled(c, s, t, Arrive) && IsLast(s.b, c.threads)
    requires forall u :: 0 <= u < |s.pc| && u != t ==> u in s.b.waiting && s.pc[u] == Waiting
    requires forall i :: 0 <= i < |s.mapCalls| ==> s.mapCalls[i] == 1
    ensures ShuffleControl(c, Act(c, s, t, Arrive))
  {
  }

  // ---- the shuffle phase ----

  lemma LeaveInShuffle(c: Config, s: Job, t: nat)
    requires InShufflePhase(c, s) && Enabled(c, s, t, LeaveBarrier)
    ensures InShufflePhase(c, Act(c, s, t, LeaveBarrier))
  {
    LeaveKeepsControl(c, s, t);
  }

  lemma LeaveKeepsControl(c: Config, s: Job, t: nat)
    requires ShuffleControl(c, s) && Enabled(c, s, t, LeaveBarrier)
    ensures s.pc[t] == Waiting && ShuffleControl(c, Act(c, s, t, LeaveBarrier))
  {
  }

  // Thread 0 moves on within the shuffle.
  lemma StaysOpened(c: Config, s: Job, s': Job)
    requires Shape(c, s) && Opened(c, s) && s.pc[0] != Waiting
    requires |s'.pc| == |s.pc| && s'.pc == s.pc[0 := s'.pc[0]] && s'.pc[0] != Waiting
    requires s'.tripped == s.tripped && s'.b == s.b && s'.mapMutex == s.mapMutex && s'.claims == s.claims
             && s'.mapCalls == s.mapCalls
    ensures Opened(c, s')
  {
  }

  lemma MovesOn(c: Config, s: Job, s': Job)
    requires ShuffleControl(c, s) && s.pc[0] != Waiting
    requires |s'.pc| == |s.pc| && s'.pc == s.pc[0 := s'.pc[0]] && s'.pc[0] != Waiting
    requires s' == s.(pc := s'.pc, shuffle := s'.shuffle, atomicVar := s'.atomicVar, atomicShuffle := s'.atomicShuffle,
                      total := s'.total)
    requires |s'.shuffle.vecs| == |s.shuffle.vecs|
    ensures ShuffleControl(c, s')
  {
    StaysOpened(c, s, s');
  }

  // Only thread 0 makes a step of the shuffle.
  lemma OnlyShuffler(c: Config, s: Job, t: nat)
    requires ShuffleControl(c, s) && t < |s.pc| && (s.pc[t] == Starting || s.pc[t] == Picking || s.pc[t] == Taking)
    ensures t == 0
  {
  }

  lemma StartShuffleKeeps(c: Config, s: Job, t: nat)
    requires InShufflePhase(c, s) && Enabled(c, s, t, StartShuffle)
    ensures InShufflePhase(c, Act(c, s, t, StartShuffle))
  {
    OnlyShuffler(c, s, t);
    MovesOn(c, s, Act(c, s, t, StartShuffle));
    SizeIsCardinality(s.shuffle.vecs);
  }

  lemma PickedGroupComes(lt: Order, s: Shuffling)
    requires StrictWeakOrder(lt) && MaxKey(lt, s.vecs).Some?
    ensures exists i :: 0 <= i < |s.vecs| && CanTake(lt, Pick(lt, s), i)
  {
    MaxKeyOfIsMax(lt, s.vecs, |s.vecs|);
    var i :| 0 <= i < |s.vecs| && s.vecs[i] != [] && Last(s.vecs[i]).key == MaxKey(lt, s.vecs).value;
    assert CanTake(lt, Pick(lt, s), i);
  }

  lemma PickKeyKeeps(c: Config, s: Job, t: nat)
    requires InShufflePhase(c, s) && Enabled(c, s, t, PickKey)
    ensures InShufflePhase(c, Act(c, s, t, PickKey))
  {
    OnlyShuffler(c, s, t);
    MovesOn(c, s, Act(c, s, t, PickKey));
    PickKeeps(c.lt, s.shuffle, s.emitted);
    PickedGroupComes(c.lt, s.shuffle);
  }

  // A pair moves into the group and is counted.
  lemma PairTaken(c: Config, s: Job, t: nat, i: nat)
    requires Counting(s) && s.total < FIELD && Enabled(c, s, t, TakePair(i))
    ensures var s', done := Act(c, s, t, TakePair(i)), s.total - Size(s.shuffle.vecs);
            && Counting(s') && done + 1 <= s.total
            && s.atomicVar == Pack(SHUFFLE_STAGE, s.total, done)
            && s'.atomicVar == Pack(SHUFFLE_STAGE, s.total, done + 1)
  {
    TakeSize(c.lt, s.shuffle, i);
    AddProcessed(SHUFFLE_STAGE, s.total, s.total - Size(s.shuffle.vecs), 1);
  }

  lemma TakePairKeeps(c: Config, s: Job, t: nat, i: nat)
    requires InShufflePhase(c, s) && Enabled(c, s, t, TakePair(i))
    ensures InShufflePhase(c, Act(c, s, t, TakePair(i)))
  {
    OnlyShuffler(c, s, t);
    MovesOn(c, s, Act(c, s, t, TakePair(i)));
    TakeKeeps(c.lt, s.shuffle, i, s.emitted);
    PairTaken(c, s, t, i);
  }

  lemma PushKeepsCount(c: Config, s: Job, t: nat)
    requires Counting(s) && s.total < FIELD && Enabled(c, s, t, PushGroup) && GroupComing(c, s)
    ensures Counting(Act(c, s, t, PushGroup))
  {
  }

  lemma PushGroupKeeps(c: Config, s: Job, t: nat)
    requires InShufflePhase(c, s) && Enabled(c, s, t, PushGroup)
    ensures InShufflePhase(c, Act(c, s, t, PushGroup))
  {
    OnlyShuffler(c, s, t);
    MovesOn(c, s, Act(c, s, t, PushGroup));
    PushKeepsCount(c, s, t);
    PushKeeps(c.lt, s.shuffle, s.emitted);
  }

  lemma {:induction false} AllButFirst(w: Tally, pc: seq<PC>)
    requires pc != [] && Weight(w, pc[0]) == 0
    requires forall t :: 0 < t < |pc| ==> Weight(w, pc[t]) == 1
    ensures Sum(w, pc) == |pc| - 1
  {
    if |pc| > 1 {
      AllButFirst(w, pc[..|pc| - 1]);
    } else {
      SumIsZero(w, pc);
    }
  }

  lemma EndKeepsControl(c: Config, s: Job, t: nat)
    requires ShuffleControl(c, s) && s.shuffle.key == None && Enabled(c, s, t, EndShuffle)
    ensures t == 0 && ReduceControl(c, Act(c, s, t, EndShuffle))
  {
    OnlyShuffler(c, s, t);
    StaysOpened(c, s, Act(c, s, t, EndShuffle));
  }

  lemma EndHandsOver(c: Config, s: Job, t: nat)
    requires ShuffleInv(c.lt, s.shuffle, s.emitted) && Counting(s) && s.shuffle.key == None
    requires Enabled(c, s, t, EndShuffle)
    ensures var s' := Act(c, s, t, EndShuffle); GroupsInv(c, s') && Size(s'.groups) == s'.total
  {
    Shuffle.Finished(c.lt, s.shuffle, s.emitted);
    SizeIsCardinality(s.shuffle.out);
    assert s.shuffle.out[..|s.shuffle.out|] == s.shuffle.out;
  }

  // The shuffle hands over complete groups, as many tokens as groups, and one post for everybody else.
  lemma EndShuffleKeeps(c: Config, s: Job, t: nat)
    requires InShufflePhase(c, s) && Enabled(c, s, t, EndShuffle)
    ensures InReducePhase(c, Act(c, s, t, EndShuffle))
  {
    OnlyShuffler(c, s, t);
    EndKeepsControl(c, s, t);
    EndHandsOver(c, s, t);
    StartOfReduce(Act(c, s, t, EndShuffle));
    NothingReduced(Act(c, s, t, EndShuffle));
    NothingAccounted(Act(c, s, t, EndShuffle));
  }

  // Nobody has fetched a token yet.
  lemma StartOfReduce(s: Job)
    requires s.pc != [] && (s.pc[0] == PostsLeft(|s.pc| - 1)) && s.semaphore == 0
    requires forall t :: 0 < t < |s.pc| ==> s.pc[t] == Waiting || s.pc[t] == Awaiting
    requires s.shuffle.out == s.groups && s.atomicShuffle == |s.groups| && s.decrements == 0
    requires Size(s.groups) == s.total && s.atomicVar == SetAtomicVar(REDUCE_STAGE, s.total)
    ensures ReduceWordInv(s) && SemaphoreInv(s) && TokensInv(s)
  {
    AllButFirst(Blocked, s.pc);
    SumIsZero(Holders, s.pc);
    SumIsZero(Tally.Returned, s.pc);
    SumIsZero(InFlight(s.groups), s.pc);
  }

  lemma NothingReduced(s: Job)
    requires s.pc != [] && (s.pc[0] == PostsLeft(|s.pc| - 1))
    requires forall t :: 0 < t < |s.pc| ==> s.pc[t] == Waiting || s.pc[t] == Awaiting
    requires s.reduceCalls == seq(|s.groups|, _ => 0) && s.shuffle.out == s.groups
    ensures ReduceCallsInv(s)
  {
    forall g | 0 <= g < |s.reduceCalls|
      ensures Sum(Reducers(g), s.pc) == 0
    {
      SumIsZero(Reducers(g), s.pc);
    }
  }

  lemma {:induction false} NoPairsAccounted(groups: seq<Vec>, accounts: seq<nat>)
    requires |groups| == |accounts| && forall g :: 0 <= g < |accounts| ==> accounts[g] == 0
    ensures PairsAccounted(groups, accounts) == 0
  {
    if groups != [] {
      NoPairsAccounted(groups[..|groups| - 1], accounts[..|groups| - 1]);
    }
  }

  lemma NothingAccounted(s: Job)
    requires s.pc != [] && (s.pc[0] == PostsLeft(|s.pc| - 1))
    requires forall t :: 0 < t < |s.pc| ==> s.pc[t] == Waiting || s.pc[t] == Awaiting
    requires s.accounts == seq(|s.groups|, _ => 0) && s.shuffle.out == s.groups && Size(s.groups) == s.total
    ensures AccountsInv(s)
  {
    forall g | 0 <= g < |s.accounts|
      ensures Sum(Carriers(g), s.pc) == 0
    {
      SumIsZero(Carriers(g), s.pc);
    }
    SumIsZero(InFlight(s.groups), s.pc);
    NoPairsAccounted(s.groups, s.accounts);
  }

  // ---- the reduce phase ----

  // A step of thread t after the shuffle.
  ghost predicate ReduceMove(s: Job, s': Job, t: nat) {
    && t < |s.pc| && |s'.pc| == |s.pc| && s'.pc == s.pc[t := s'.pc[t]]
    && s'.groups == s.groups
  }

  lemma ControlKeeps(c: Config, s: Job, s': Job, t: nat)
    requires ReduceControl(c, s) && ReduceMove(s, s', t)
    requires s' == s.(pc := s'.pc, b := s'.b, shuffle := s'.shuffle, atomicVar := s'.atomicVar,
                      atomicShuffle := s'.atomicShuffle,
                      semaphore := s'.semaphore, reduceCalls := s'.reduceCalls, accounts := s'.accounts,
                      decrements := s'.decrements)
    requires s'.shuffle == s.shuffle.(out := s'.shuffle.out)
    requires |s'.reduceCalls| == |s.reduceCalls| && |s'.accounts| == |s.accounts|
    requires s'.b == (if s.pc[t] == Waiting then Leave(s.b, t) else s.b) && s'.pc[t] != Waiting
    requires InReduce(s'.pc[t]) || (t == 0 && s'.pc[t].Posting? && s'.pc[t].left > 0) || (t > 0 && s'.pc[t] == Awaiting)
    ensures ReduceControl(c, s')
  {
  }

  lemma GroupsKeep(c: Config, s: Job, s': Job)
    requires GroupsInv(c, s) && s'.groups == s.groups && s'.emitted == s.emitted && s'.total == s.total
    requires |s'.shuffle.out| <= |s.shuffle.out| && s'.shuffle.out == s.shuffle.out[..|s'.shuffle.out|]
    ensures GroupsInv(c, s')
  {
    assert s.groups[..|s.shuffle.out|][..|s'.shuffle.out|] == s.groups[..|s'.shuffle.out|];
  }

  lemma ReduceCallsKeep(s: Job, s': Job, t: nat)
    requires ReduceMove(s, s', t) && ReduceCallsInv(s) && |s'.reduceCalls| == |s.reduceCalls|
    requires |s'.shuffle.out| <= |s.shuffle.out|
    requires s'.pc[t].Reducing? ==> |s'.shuffle.out| <= s'.pc[t].group < |s.groups|
    requires s'.pc[t].Accounting? ==> |s'.shuffle.out| <= s'.pc[t].group < |s.groups|
    requires forall g :: 0 <= g < |s.reduceCalls| ==>
               s'.reduceCalls[g] + Weight(Reducers(g), s'.pc[t]) + (if g >= |s.shuffle.out| then 1 else 0)
               == s.reduceCalls[g] + Weight(Reducers(g), s.pc[t]) + (if g >= |s'.shuffle.out| then 1 else 0)
    ensures ReduceCallsInv(s')
  {
    forall g | 0 <= g < |s.reduceCalls|
      ensures s'.reduceCalls[g] + Sum(Reducers(g), s'.pc) == if g >= |s'.shuffle.out| then 1 else 0
    {
      SumUpdate(Reducers(g), s.pc, t, s'.pc[t]);
    }
  }

  // The pairs not yet accounted for are those in groups still to be popped or in threads' hands.
  lemma ReduceWordKeeps(s: Job, s': Job, t: nat)
    requires ReduceMove(s, s', t) && ReduceWordInv(s) && s'.total == s.total
    requires var w, w' := Weight(InFlight(s.groups), s.pc[t]), Weight(InFlight(s.groups), s'.pc[t]);
             || (s'.atomicVar == s.atomicVar && Size(s'.shuffle.out) + w' == Size(s.shuffle.out) + w)
             || (w' == 0 && s'.shuffle.out == s.shuffle.out && w < FIELD && s.total < FIELD
                 && s.atomicVar < WORD && s'.atomicVar == FetchAdd(s.atomicVar, w))
    ensures ReduceWordInv(s')
  {
    var pending := Size(s.shuffle.out) + Sum(InFlight(s.groups), s.pc);
    SumUpdate(InFlight(s.groups), s.pc, t, s'.pc[t]);
    var w := Weight(InFlight(s.groups), s.pc[t]);
    if s'.atomicVar != s.atomicVar {
      AddProcessed(REDUCE_STAGE, s.total, s.total - pending, w);
    }
  }

  // Whether the thread holds group g.
  predicate Carries(p: PC, g: nat) {
    p == Reducing(g) || p == Accounting(g)
  }

  lemma CarriedOn(s: Job, s': Job, t: nat, g: nat)
    requires ReduceMove(s, s', t) && g < |s.accounts| && |s'.shuffle.out| <= |s.shuffle.out|
    requires Carries(s'.pc[t], g) <==> Carries(s.pc[t], g) || |s'.shuffle.out| <= g < |s.shuffle.out|
    requires s.accounts[g] + Sum(Carriers(g), s.pc) == if g >= |s.shuffle.out| then 1 else 0
    ensures s.accounts[g] + Sum(Carriers(g), s'.pc) == if g >= |s'.shuffle.out| then 1 else 0
  {
    SumUpdate(Carriers(g), s.pc, t, s'.pc[t]);
  }

  // Steps that account for nothing.
  lemma AccountsKeep(s: Job, s': Job, t: nat)
    requires ReduceMove(s, s', t) && AccountsInv(s) && s'.accounts == s.accounts && s'.total == s.total
    requires |s'.shuffle.out| <= |s.shuffle.out|
    requires forall g: nat :: g < |s.groups| ==>
               (Carries(s'.pc[t], g) <==> Carries(s.pc[t], g) || |s'.shuffle.out| <= g < |s.shuffle.out|)
    requires Size(s'.shuffle.out) + Weight(InFlight(s.groups), s'.pc[t])
             == Size(s.shuffle.out) + Weight(InFlight(s.groups), s.pc[t])
    ensures AccountsInv(s')
  {
    forall g: nat | g < |s.accounts|
      ensures s'.accounts[g] + Sum(Carriers(g), s'.pc) == if g >= |s'.shuffle.out| then 1 else 0
    {
      CarriedOn(s, s', t, g);
    }
    SumUpdate(InFlight(s.groups), s.pc, t, s'.pc[t]);
  }

  lemma {:induction false} OneMoreAccounted(groups: seq<Vec>, accounts: seq<nat>, g: nat)
    requires g < |groups| == |accounts| && accounts[g] == 0
    ensures PairsAccounted(groups, accounts[g := 1]) == PairsAccounted(groups, accounts) + |groups[g]|
  {
    var n := |groups| - 1;
    if g < n {
      assert accounts[g := 1][..n] == accounts[..n][g := 1];
      OneMoreAccounted(groups[..n], accounts[..n], g);
    } else {
      assert accounts[g := 1][..n] == accounts[..n];
    }
  }

  lemma AccountsOnce(accounts: seq<nat>, pc: seq<PC>, left: nat, t: nat)
    requires t < |pc| && pc[t].Accounting? && pc[t].group < |accounts| && HeldOnce(accounts, pc, left)
    ensures accounts[pc[t].group] == 0 && HeldOnce(accounts[pc[t].group := 1], pc[t := Fetching], left)
  {
    forall g: nat | g < |accounts|
      ensures pc[t] == Accounting(g) ==> accounts[g] == 0
      ensures accounts[pc[t].group := 1][g] + Sum(Carriers(g), pc[t := Fetching]) == if g >= left then 1 else 0
    {
      SumUpdate(Carriers(g), pc, t, Fetching);
    }
  }

  lemma AccountCounted(s: Job, s': Job, t: nat)
    requires AccountsInv(s) && ReduceMove(s, s', t) && s.pc[t].Accounting? && s.pc[t].group < |s.groups|
    requires s'.pc[t] == Fetching && s'.shuffle.out == s.shuffle.out && s'.total == s.total
    requires s.accounts[s.pc[t].group] == 0 && s'.accounts == s.accounts[s.pc[t].group := 1]
    requires HeldOnce(s'.accounts, s'.pc, |s.shuffle.out|)
    ensures AccountsInv(s')
  {
    OneMoreAccounted(s.groups, s.accounts, s.pc[t].group);
    SumUpdate(InFlight(s.groups), s.pc, t, Fetching);
  }

  lemma AccountIsCounted(c: Config, s: Job, t: nat)
    requires AccountsInv(s) && Enabled(c, s, t, Account)
    ensures AccountsInv(Act(c, s, t, Account))
  {
    AccountsOnce(s.accounts, s.pc, |s.shuffle.out|, t);
    AccountCounted(s, Act(c, s, t, Account), t);
  }

  lemma SemaphoreKeeps(s: Job, s': Job, t: nat)
    requires ReduceMove(s, s', t) && SemaphoreInv(s)
    requires var d, d' := if t == 0 then LeftToPost(s.pc[0]) else 0, if t == 0 then LeftToPost(s'.pc[0]) else 0;
             s'.semaphore + d' + Weight(Blocked, s.pc[t]) == s.semaphore + d + Weight(Blocked, s'.pc[t])
    ensures SemaphoreInv(s')
  {
    SumUpdate(Blocked, s.pc, t, s'.pc[t]);
  }

  lemma TokensKeep(s: Job, s': Job, t: nat)
    requires ReduceMove(s, s', t) && TokensInv(s) && s'.shuffle.out == s.shuffle.out
    requires s'.atomicShuffle == s.atomicShuffle && s'.decrements == s.decrements
    requires !s.pc[t].Popping? && !s.pc[t].Done? && !s'.pc[t].Popping? && !s'.pc[t].Done?
    ensures TokensInv(s')
  {
    SumUpdate(Holders, s.pc, t, s'.pc[t]);
    SumUpdate(Tally.Returned, s.pc, t, s'.pc[t]);
  }

  predicate WithGroup(p: PC) {
    p.Reducing? || p.Accounting?
  }

  // Steps of threads that hold no group, on other data.
  lemma NoGroupMoves(c: Config, s: Job, s': Job, t: nat)
    requires ReduceMove(s, s', t) && GroupsInv(c, s) && ReduceCallsInv(s) && ReduceWordInv(s)
             && AccountsInv(s)
    requires s'.shuffle.out == s.shuffle.out && s'.reduceCalls == s.reduceCalls && s'.accounts == s.accounts
             && s'.atomicVar == s.atomicVar
    requires s'.emitted == s.emitted && s'.total == s.total
    requires !WithGroup(s.pc[t]) && !WithGroup(s'.pc[t])
    ensures GroupsInv(c, s') && ReduceCallsInv(s') && ReduceWordInv(s') && AccountsInv(s')
  {
    ReduceCallsKeep(s, s', t);
    ReduceWordKeeps(s, s', t);
    AccountsKeep(s, s', t);
  }

  lemma LateLeaveKeepsControl(c: Config, s: Job, t: nat)
    requires ReduceControl(c, s) && Enabled(c, s, t, LeaveBarrier)
    ensures t > 0 && s.pc[t] == Waiting && ReduceControl(c, Act(c, s, t, LeaveBarrier))
  {
    ControlKeeps(c, s, Act(c, s, t, LeaveBarrier), t);
  }

  lemma LateLeaveKeepsTokens(c: Config, s: Job, t: nat)
    requires s.pc != [] && t > 0 && SemaphoreInv(s) && TokensInv(s)
    requires Enabled(c, s, t, LeaveBarrier) && s.pc[t] == Waiting
    ensures SemaphoreInv(Act(c, s, t, LeaveBarrier)) && TokensInv(Act(c, s, t, LeaveBarrier))
  {
    SemaphoreKeeps(s, Act(c, s, t, LeaveBarrier), t);
    TokensKeep(s, Act(c, s, t, LeaveBarrier), t);
  }

  lemma LateLeaveKeepsGroups(c: Config, s: Job, t: nat)
    requires GroupsInv(c, s) && ReduceCallsInv(s) && ReduceWordInv(s) && AccountsInv(s)
    requires Enabled(c, s, t, LeaveBarrier) && s.pc[t] == Waiting
    ensures var s' := Act(c, s, t, LeaveBarrier);
            GroupsInv(c, s') && ReduceCallsInv(s') && ReduceWordInv(s') && AccountsInv(s')
  {
    NoGroupMoves(c, s, Act(c, s, t, LeaveBarrier), t);
  }

  lemma LeaveInReduce(c: Config, s: Job, t: nat)
    requires InReducePhase(c, s) && Enabled(c, s, t, LeaveBarrier)
    ensures InReducePhase(c, Act(c, s, t, LeaveBarrier))
  {
    LateLeaveKeepsControl(c, s, t);
    LateLeaveKeepsGroups(c, s, t);
    LateLeaveKeepsTokens(c, s, t);
  }

  lemma PostKeepsControl(c: Config, s: Job, t: nat)
    requires ReduceControl(c, s) && Enabled(c, s, t, Post)
    ensures t == 0 && ReduceControl(c, Act(c, s, t, Post))
  {
    ControlKeeps(c, s, Act(c, s, t, Post), t);
  }

  lemma PostKeepsTokens(c: Config, s: Job, t: nat)
    requires s.pc != [] && t == 0 && SemaphoreInv(s) && TokensInv(s) && Enabled(c, s, t, Post)
    ensures SemaphoreInv(Act(c, s, t, Post)) && TokensInv(Act(c, s, t, Post))
  {
    SemaphoreKeeps(s, Act(c, s, t, Post), t);
    TokensKeep(s, Act(c, s, t, Post), t);
  }

  lemma PostKeepsGroups(c: Config, s: Job, t: nat)
    requires GroupsInv(c, s) && ReduceCallsInv(s) && ReduceWordInv(s) && AccountsInv(s) && Enabled(c, s, t, Post)
    ensures var s' := Act(c, s, t, Post);
            GroupsInv(c, s') && ReduceCallsInv(s') && ReduceWordInv(s') && AccountsInv(s')
  {
    NoGroupMoves(c, s, Act(c, s, t, Post), t);
  }

  lemma PostKeeps(c: Config, s: Job, t: nat)
    requires InReducePhase(c, s) && Enabled(c, s, t, Post)
    ensures InReducePhase(c, Act(c, s, t, Post))
  {
    PostKeepsControl(c, s, t);
    PostKeepsGroups(c, s, t);
    PostKeepsTokens(c, s, t);
  }

  lemma AwaitKeepsControl(c: Config, s: Job, t: nat)
    requires ReduceControl(c, s) && Enabled(c, s, t, AwaitPost)
    ensures t > 0 && ReduceControl(c, Act(c, s, t, AwaitPost))
  {
    ControlKeeps(c, s, Act(c, s, t, AwaitPost), t);
  }

  lemma AwaitKeepsTokens(c: Config, s: Job, t: nat)
    requires s.pc != [] && t > 0 && SemaphoreInv(s) && TokensInv(s) && Enabled(c, s, t, AwaitPost)
    ensures SemaphoreInv(Act(c, s, t, AwaitPost)) && TokensInv(Act(c, s, t, AwaitPost))
  {
    SemaphoreKeeps(s, Act(c, s, t, AwaitPost), t);
    TokensKeep(s, Act(c, s, t, AwaitPost), t);
  }

  lemma AwaitKeepsGroups(c: Config, s: Job, t: nat)
    requires GroupsInv(c, s) && ReduceCallsInv(s) && ReduceWordInv(s) && AccountsInv(s) && Enabled(c, s, t, AwaitPost)
    ensures var s' := Act(c, s, t, AwaitPost);
            GroupsInv(c, s') && ReduceCallsInv(s') && ReduceWordInv(s') && AccountsInv(s')
  {
    NoGroupMoves(c, s, Act(c, s, t, AwaitPost), t);
  }

  lemma AwaitPostKeeps(c: Config, s: Job, t: nat)
    requires InReducePhase(c, s) && Enabled(c, s, t, AwaitPost)
    ensures InReducePhase(c, Act(c, s, t, AwaitPost))
  {
    AwaitKeepsControl(c, s, t);
    AwaitKeepsGroups(c, s, t);
    AwaitKeepsTokens(c, s, t);
  }

  // The token word wraps below zero at most once: there are fewer than 2^32 decrements in all.
  lemma FewDecrements(c: Config, s: Job)
    requires Shape(c, s) && GroupsInv(c, s) && TokensInv(s)
    ensures s.decrements <= |s.groups| + c.threads < WORD32 - 1
    ensures s.atomicShuffle < WORD32
    ensures s.atomicShuffle == 0 <==> s.decrements == |s.groups|
  {
    HoldersAndReturned(s.pc);
  }

  lemma TokenFetched(c: Config, s: Job, s': Job, t: nat)
    requires Shape(c, s) && GroupsInv(c, s) && TokensInv(s) && ReduceMove(s, s', t)
    requires s.pc[t] == Fetching && s.atomicShuffle < WORD32
    requires s'.shuffle.out == s.shuffle.out && s'.decrements == s.decrements + 1
    requires s'.atomicShuffle == FetchAdd32(s.atomicShuffle, -1)
    requires s'.pc[t] == if s.atomicShuffle > 0 then Popping else Done
    ensures TokensInv(s')
  {
    FewDecrements(c, s);
    SumUpdate(Holders, s.pc, t, s'.pc[t]);
    SumUpdate(Tally.Returned, s.pc, t, s'.pc[t]);
  }

  lemma FetchKeepsControl(c: Config, s: Job, t: nat)
    requires ReduceControl(c, s) && Enabled(c, s, t, FetchToken)
    ensures ReduceControl(c, Act(c, s, t, FetchToken))
  {
    ControlKeeps(c, s, Act(c, s, t, FetchToken), t);
  }

  lemma FetchKeepsTokens(c: Config, s: Job, t: nat)
    requires Shape(c, s) && GroupsInv(c, s) && SemaphoreInv(s) && TokensInv(s) && Enabled(c, s, t, FetchToken)
    ensures SemaphoreInv(Act(c, s, t, FetchToken)) && TokensInv(Act(c, s, t, FetchToken))
  {
    SemaphoreKeeps(s, Act(c, s, t, FetchToken), t);
    TokenFetched(c, s, Act(c, s, t, FetchToken), t);
  }

  lemma FetchKeepsGroups(c: Config, s: Job, t: nat)
    requires GroupsInv(c, s) && ReduceCallsInv(s) && ReduceWordInv(s) && AccountsInv(s) && Enabled(c, s, t, FetchToken)
    ensures var s' := Act(c, s, t, FetchToken);
            GroupsInv(c, s') && ReduceCallsInv(s') && ReduceWordInv(s') && AccountsInv(s')
  {
    NoGroupMoves(c, s, Act(c, s, t, FetchToken), t);
  }

  lemma FetchTokenKeeps(c: Config, s: Job, t: nat)
    requires InReducePhase(c, s) && Enabled(c, s, t, FetchToken)
    ensures InReducePhase(c, Act(c, s, t, FetchToken))
  {
    FetchKeepsControl(c, s, t);
    FetchKeepsGroups(c, s, t);
    FetchKeepsTokens(c, s, t);
  }

  lemma TokenUsed(s: Job, s': Job, t: nat)
    requires ReduceMove(s, s', t) && TokensInv(s) && s.pc[t] == Popping
    requires s'.atomicShuffle == s.atomicShuffle && s'.decrements == s.decrements
    requires if s.shuffle.out == [] then s'.shuffle.out == [] && s'.pc[t] == Done
             else s'.shuffle.out == s.shuffle.out[..|s.shuffle.out| - 1] && s'.pc[t].Reducing?
    ensures TokensInv(s')
  {
    SumUpdate(Holders, s.pc, t, s'.pc[t]);
    SumUpdate(Tally.Returned, s.pc, t, s'.pc[t]);
  }

  // s' is s after thread t has popped the last group.
  ghost predicate Popped(s: Job, s': Job, t: nat) {
    && ReduceMove(s, s', t) && s.pc[t] == Popping && s.shuffle.out != []
    && var n := |s.shuffle.out| - 1;
       s' == s.(pc := s'.pc, shuffle := s.shuffle.(out := s.shuffle.out[..n])) && s'.pc[t] == Reducing(n)
  }

  lemma PoppedGroup(c: Config, s: Job, s': Job, t: nat)
    requires Popped(s, s', t) && GroupsInv(c, s) && ReduceCallsInv(s) && ReduceWordInv(s)
    ensures GroupsInv(c, s') && ReduceCallsInv(s') && ReduceWordInv(s')
  {
    var n := |s.shuffle.out| - 1;
    assert s.shuffle.out[n] == s.groups[n];
    GroupsKeep(c, s, s');
    ReduceCallsKeep(s, s', t);
    ReduceWordKeeps(s, s', t);
  }

  lemma PoppedGroupHeld(c: Config, s: Job, s': Job, t: nat)
    requires Popped(s, s', t) && GroupsInv(c, s) && AccountsInv(s)
    ensures AccountsInv(s')
  {
    var n := |s.shuffle.out| - 1;
    assert s.shuffle.out[n] == s.groups[n];
    AccountsKeep(s, s', t);
  }

  lemma PopKeepsGroups(c: Config, s: Job, t: nat)
    requires GroupsInv(c, s) && ReduceCallsInv(s) && ReduceWordInv(s) && AccountsInv(s) && Enabled(c, s, t, PopGroup)
    ensures var s' := Act(c, s, t, PopGroup);
            GroupsInv(c, s') && ReduceCallsInv(s') && ReduceWordInv(s') && AccountsInv(s')
  {
    var s' := Act(c, s, t, PopGroup);
    if s.shuffle.out != [] {
      PoppedGroup(c, s, s', t);
      PoppedGroupHeld(c, s, s', t);
    } else {
      NoGroupMoves(c, s, s', t);
    }
  }

  lemma PopKeepsControl(c: Config, s: Job, t: nat)
    requires ReduceControl(c, s) && Enabled(c, s, t, PopGroup)
    ensures ReduceControl(c, Act(c, s, t, PopGroup))
  {
    ControlKeeps(c, s, Act(c, s, t, PopGroup), t);
  }

  lemma PopKeepsTokens(c: Config, s: Job, t: nat)
    requires s.pc != [] && SemaphoreInv(s) && TokensInv(s) && Enabled(c, s, t, PopGroup)
    ensures SemaphoreInv(Act(c, s, t, PopGroup)) && TokensInv(Act(c, s, t, PopGroup))
  {
    SemaphoreKeeps(s, Act(c, s, t, PopGroup), t);
    TokenUsed(s, Act(c, s, t, PopGroup), t);
  }

  lemma PopGroupKeeps(c: Config, s: Job, t: nat)
    requires InReducePhase(c, s) && Enabled(c, s, t, PopGroup)
    ensures InReducePhase(c, Act(c, s, t, PopGroup))
  {
    PopKeepsControl(c, s, t);
    PopKeepsGroups(c, s, t);
    PopKeepsTokens(c, s, t);
  }

  lemma CallReduceKeepsControl(c: Config, s: Job, t: nat)
    requires ReduceControl(c, s) && |s.reduceCalls| == |s.groups| && Enabled(c, s, t, CallReduce)
    ensures ReduceControl(c, Act(c, s, t, CallReduce))
  {
    ControlKeeps(c, s, Act(c, s, t, CallReduce), t);
  }

  lemma CallReduceKeepsTokens(c: Config, s: Job, t: nat)
    requires s.pc != [] && SemaphoreInv(s) && TokensInv(s) && Enabled(c, s, t, CallReduce)
    ensures SemaphoreInv(Act(c, s, t, CallReduce)) && TokensInv(Act(c, s, t, CallReduce))
  {
    SemaphoreKeeps(s, Act(c, s, t, CallReduce), t);
    TokensKeep(s, Act(c, s, t, CallReduce), t);
  }

  lemma CalledGroupCalls(c: Config, s: Job, t: nat)
    requires ReduceCallsInv(s) && |s.reduceCalls| == |s.groups| && Enabled(c, s, t, CallReduce)
    ensures ReduceCallsInv(Act(c, s, t, CallReduce))
  {
    ReduceCallsKeep(s, Act(c, s, t, CallReduce), t);
  }

  lemma CalledGroupWord(c: Config, s: Job, t: nat)
    requires ReduceCallsInv(s) && ReduceWordInv(s) && Enabled(c, s, t, CallReduce)
    ensures ReduceWordInv(Act(c, s, t, CallReduce))
  {
    ReduceWordKeeps(s, Act(c, s, t, CallReduce), t);
  }

  lemma CalledGroupHeld(c: Config, s: Job, t: nat)
    requires AccountsInv(s) && Enabled(c, s, t, CallReduce)
    ensures AccountsInv(Act(c, s, t, CallReduce))
  {
    AccountsKeep(s, Act(c, s, t, CallReduce), t);
  }

  lemma CallReduceKeeps(c: Config, s: Job, t: nat)
    requires InReducePhase(c, s) && Enabled(c, s, t, CallReduce)
    ensures InReducePhase(c, Act(c, s, t, CallReduce))
  {
    CallReduceKeepsControl(c, s, t);
    CalledGroupCalls(c, s, t);
    CalledGroupWord(c, s, t);
    CalledGroupHeld(c, s, t);
    CallReduceKeepsTokens(c, s, t);
  }

  lemma AccountKeepsControl(c: Config, s: Job, t: nat)
    requires ReduceControl(c, s) && |s.reduceCalls| == |s.groups| && Enabled(c, s, t, Account)
    ensures ReduceControl(c, Act(c, s, t, Account))
  {
    ControlKeeps(c, s, Act(c, s, t, Account), t);
  }

  lemma AccountKeepsTokens(c: Config, s: Job, t: nat)
    requires s.pc != [] && SemaphoreInv(s) && TokensInv(s) && Enabled(c, s, t, Account)
    ensures SemaphoreInv(Act(c, s, t, Account)) && TokensInv(Act(c, s, t, Account))
  {
    SemaphoreKeeps(s, Act(c, s, t, Account), t);
    TokensKeep(s, Act(c, s, t, Account), t);
  }

  lemma AccountedGroupCalls(c: Config, s: Job, t: nat)
    requires ReduceCallsInv(s) && |s.reduceCalls| == |s.groups| && Enabled(c, s, t, Account)
    ensures ReduceCallsInv(Act(c, s, t, Account))
  {
    ReduceCallsKeep(s, Act(c, s, t, Account), t);
  }

  // The group's pairs are added to those done, which leaves the total unexceeded.
  lemma GroupAccounted(c: Config, s: Job, t: nat) returns (done: nat, w: nat)
    requires ReduceWordInv(s) && Enabled(c, s, t, Account) && s.total < FIELD
    ensures done + w <= s.total
    ensures s.atomicVar == Pack(REDUCE_STAGE, s.total, done)
    ensures Act(c, s, t, Account).atomicVar == Pack(REDUCE_STAGE, s.total, done + w)
  {
    done := s.total - (Size(s.shuffle.out) + Sum(InFlight(s.groups), s.pc));
    w := |s.groups[s.pc[t].group]|;
    SumUpdate(InFlight(s.groups), s.pc, t, Fetching);
    AddProcessed(REDUCE_STAGE, s.total, done, w);
  }

  lemma AccountedGroupWord(c: Config, s: Job, t: nat)
    requires ReduceCallsInv(s) && ReduceWordInv(s) && Enabled(c, s, t, Account) && s.total < FIELD
    ensures ReduceWordInv(Act(c, s, t, Account))
  {
    ReduceWordKeeps(s, Act(c, s, t, Account), t);
  }

  lemma AccountKeeps(c: Config, s: Job, t: nat)
    requires InReducePhase(c, s) && Enabled(c, s, t, Account)
    ensures InReducePhase(c, Act(c, s, t, Account))
  {
    AccountKeepsControl(c, s, t);
    AccountedGroupCalls(c, s, t);
    AccountedGroupWord(c, s, t);
    AccountIsCounted(c, s, t);
    AccountKeepsTokens(c, s, t);
  }

  // ---- all steps ----

  predicate IsEarly(a: Action) {
    || a.LockMap? || a.CheckStage? || a.StoreStage? || a.UnlockMap? || a.Claim? || a.CallMap? || a.Undo? || a.Sort?
    || a.Arrive?
  }

  lemma OnlyEarlySteps(c: Config, s: Job, t: nat, a: Action)
    requires Gathering(s) && Enabled(c, s, t, a)
    ensures IsEarly(a)
  {
    assert s.b.released == {};
  }

  lemma MapPhaseKeeps(c: Config, s: Job, t: nat, a: Action)
    requires InMapPhase(c, s) && Enabled(c, s, t, a)
    ensures InMapPhase(c, Act(c, s, t, a)) || InShufflePhase(c, Act(c, s, t, a))
  {
    OnlyEarlySteps(c, s, t, a);
    match a
    case LockMap => LockMapKeeps(c, s, t);
    case CheckStage => CheckStageKeeps(c, s, t);
    case StoreStage => StoreStageKeeps(c, s, t);
    case UnlockMap => UnlockMapKeeps(c, s, t);
    case Claim => ClaimKeeps(c, s, t);
    case CallMap(emits) => CallMapKeeps(c, s, t, emits);
    case Undo => UndoKeeps(c, s, t);
    case Sort(sorted) => SortKeeps(c, s, t, sorted);
    case Arrive => ArriveKeeps(c, s, t);
  }

  predicate IsMiddle(a: Action) {
    a.LeaveBarrier? || a.StartShuffle? || a.PickKey? || a.TakePair? || a.PushGroup? || a.EndShuffle?
  }

  lemma OnlyShuffleSteps(c: Config, s: Job, t: nat, a: Action)
    requires ShuffleControl(c, s) && ShuffleStage(c, s) && Enabled(c, s, t, a)
    ensures IsMiddle(a)
    ensures a.StartShuffle? ==> s.pc[0] == Starting
    ensures a.PickKey? || a.EndShuffle? ==> s.pc[0] == Picking
    ensures a.TakePair? || a.PushGroup? ==> s.pc[0] == Taking
  {
    ShufflePlace(c, s, t);
  }

  lemma ShufflePlace(c: Config, s: Job, t: nat)
    requires ShuffleControl(c, s) && ShuffleStage(c, s) && t < |s.pc|
    ensures || s.pc[t] == Waiting || s.pc[t] == Awaiting
            || (t == 0 && (s.pc[t] == Starting || s.pc[t] == Picking || s.pc[t] == Taking))
  {
  }

  lemma ShufflePhaseKeeps(c: Config, s: Job, t: nat, a: Action)
    requires InShufflePhase(c, s) && Enabled(c, s, t, a)
    ensures InShufflePhase(c, Act(c, s, t, a)) || InReducePhase(c, Act(c, s, t, a))
  {
    OnlyShuffleSteps(c, s, t, a);
    match a
    case LeaveBarrier => LeaveInShuffle(c, s, t);
    case StartShuffle => StartShuffleKeeps(c, s, t);
    case PickKey => PickKeyKeeps(c, s, t);
    case TakePair(i) => TakePairKeeps(c, s, t, i);
    case PushGroup => PushGroupKeeps(c, s, t);
    case EndShuffle => EndShuffleKeeps(c, s, t);
  }

  // The steps of the reduce phase.
  predicate IsLate(a: Action) {
    a.LeaveBarrier? || a.Post? || a.AwaitPost? || a.FetchToken? || a.PopGroup? || a.CallReduce? || a.Account?
  }

  lemma OnlyLateSteps(c: Config, s: Job, t: nat, a: Action)
    requires ReduceControl(c, s) && Enabled(c, s, t, a)
    ensures IsLate(a)
  {
    assert t > 0 ==> s.pc[t] == Waiting || s.pc[t] == Awaiting || InReduce(s.pc[t]);
  }

  lemma ReducePhaseKeeps(c: Config, s: Job, t: nat, a: Action)
    requires InReducePhase(c, s) && Enabled(c, s, t, a)
    ensures InReducePhase(c, Act(c, s, t, a))
  {
    OnlyLateSteps(c, s, t, a);
    match a
    case LeaveBarrier => LeaveInReduce(c, s, t);
    case Post => PostKeeps(c, s, t);
    case AwaitPost => AwaitPostKeeps(c, s, t);
    case FetchToken => FetchTokenKeeps(c, s, t);
    case PopGroup => PopGroupKeeps(c, s, t);
    case CallReduce => CallReduceKeeps(c, s, t);
    case Account => AccountKeeps(c, s, t);
  }

  lemma ActKeeps(c: Config, s: Job, t: nat, a: Action)
    requires JobInv(c, s) && Enabled(c, s, t, a)
    ensures JobInv(c, Act(c, s, t, a))
  {
    if InMapPhase(c, s) {
      MapPhaseKeeps(c, s, t, a);
    } else if InShufflePhase(c, s) {
      ShufflePhaseKeeps(c, s, t, a);
    } else {
      ReducePhaseKeeps(c, s, t, a);
    }
  }

  lemma NextKeeps(c: Config, s: Job, s': Job)
    requires JobInv(c, s) && Next(c, s, s')
    ensures JobInv(c, s')
  {
    var t: nat, a: Action :| Enabled(c, s, t, a) && s' == Act(c, s, t, a);
    ActKeeps(c, s, t, a);
  }

  // Every reachable state satisfies the invariant.
  lemma {:induction false} RunInv(c: Config, run: seq<Job>, i: nat)
    requires IsRun(c, run) && i < |run|
    ensures JobInv(c, run[i])
  {
    if i == 0 {
      InitialInv(c, run[0]);
    } else {
      RunInv(c, run, i - 1);
      assert Next(c, run[i - 1], run[i - 1 + 1]);
      NextKeeps(c, run[i - 1], run[i]);
    }
  }
}
