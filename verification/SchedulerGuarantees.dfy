// What threads can rely on, over every run.
module SchedulerGuarantees {
  import opened Wrappers
  import opened Scheduler
  import opened SchedulerInvariant
  import opened SchedulerRuns

  // ---- one place for every thread ----

  datatype Place = OnProcessor | InQueue | AsleepOnly | BlockedOnly | BlockedAsleep

  ghost predicate IsAt(s: Sched, id: nat, p: Place)
    requires Live(s.threads, id)
  {
    var t := s.threads[id].value;
    match p
    case OnProcessor => id == s.running && t.state == Running
    case InQueue => id in s.ready && t.state == Ready
    case AsleepOnly => t.state == Asleep && t.sleeping && t.sleepDuration >= 1
    case BlockedOnly => t.state == Blocked && !t.sleeping
    case BlockedAsleep => t.state == Blocked && t.sleeping && t.sleepDuration >= 1
  }

  function PlaceOf(t: Tcb): Place {
    match t.state
    case Running => OnProcessor
    case Ready => InQueue
    case Asleep => AsleepOnly
    case Blocked => if t.sleeping then BlockedAsleep else BlockedOnly
  }

  ghost predicate IsOnlyAt(s: Sched, id: nat, p: Place)
    requires Live(s.threads, id)
  {
    IsAt(s, id, p) && forall q :: IsAt(s, id, q) ==> q == p
  }

  lemma PlacedOnce(s: Sched, id: nat)
    requires Live(s.threads, id) && Placed(s, id)
    ensures IsOnlyAt(s, id, PlaceOf(s.threads[id].value))
    ensures id == s.running <==> IsAt(s, id, OnProcessor)
    ensures id in s.ready <==> IsAt(s, id, InQueue)
  {
  }

  // After every run each live thread is in exactly one place, and queued at most once; main is
  // running or queued.
  lemma EverybodyIsSomewhere(max: nat, cs: seq<Call>, id: nat)
    requires max >= 1 && Goes(cs)
    ensures Inv(Initial(max))
    ensures var s := Exec(Initial(max), cs);
            && Distinct(s.ready) && Live(s.threads, s.running) && Live(s.threads, MAIN_ID)
            && (Live(s.threads, id) ==>
                  && (exists p :: IsOnlyAt(s, id, p))
                  && (id == s.running <==> IsAt(s, id, OnProcessor))
                  && (id in s.ready <==> IsAt(s, id, InQueue))
                  && (id == MAIN_ID ==> IsAt(s, id, OnProcessor) || IsAt(s, id, InQueue)))
  {
    InitialInv(max);
    var s := Exec(Initial(max), cs);
    if Live(s.threads, id) {
      assert Placed(s, id);
      PlacedOnce(s, id);
    }
  }

  // ---- ids ----

  // spawn fails exactly for a null entry point or when all ids are live; otherwise it returns the
  // least id that is not in use, now in use, queued last and with no quantum yet.
  lemma SpawnGivesLeastId(max: nat, cs: seq<Call>, nullEntry: bool)
    requires max >= 1 && Goes(cs)
    ensures Inv(Initial(max))
    ensures var s := Exec(Initial(max), cs);
            var r := Do(s, SpawnThread(nullEntry));
            && s.count == LiveCount(s.threads)
            && (r.code == -1 <==> nullEntry || forall id :: 0 <= id < |s.threads| ==> Live(s.threads, id))
            && (r.code == -1 ==> r.s == s)
            && (r.code != -1 ==>
                  && 0 <= r.code < |s.threads| && !Live(s.threads, r.code)
                  && Live(r.s.threads, r.code) && GetQuantums(r.s, r.code) == 0
                  && (forall id :: 0 <= id < r.code ==> Live(s.threads, id))
                  && (forall id :: 0 <= id < |s.threads| && id != r.code ==> r.s.threads[id] == s.threads[id])
                  && r.s.ready == s.ready + [r.code])
  {
    InitialInv(max);
    var s := Exec(Initial(max), cs);
    SpawnIsSafe(s, nullEntry);
    if s.count != |s.threads| {
      ProducedId(s);
    } else {
      forall id: nat | id < |s.threads|
        ensures Live(s.threads, id)
      {
        assert s.unused == [];
      }
    }
  }

  // ---- block, resume, terminate ----

  // r differs from s in the entry of thread tid at most, and perhaps in the queue.
  ghost predicate OnlyTouches(s: Sched, r: Sched, tid: int) {
    && r == s.(threads := r.threads, ready := r.ready) && |r.threads| == |s.threads|
    && forall p :: 0 <= p < |s.threads| && p != tid ==> r.threads[p] == s.threads[p]
  }

  // q without its entries x, the others as they were.
  function Without(q: seq<nat>, x: nat): seq<nat> {
    if q == [] then []
    else Without(q[..|q| - 1], x) + if q[|q| - 1] == x then [] else [q[|q| - 1]]
  }

  lemma {:induction false} WithoutAbsent(q: seq<nat>, x: nat)
    requires x !in q
    ensures Without(q, x) == q
  {
    if q != [] {
      WithoutAbsent(q[..|q| - 1], x);
    }
  }

  lemma {:induction false} WithoutAt(q: seq<nat>, i: nat)
    requires i < |q| && Distinct(q)
    ensures Without(q, q[i]) == q[..i] + q[i + 1..]
  {
    var n := |q| - 1;
    if i < n {
      WithoutAt(q[..n], i);
      assert q[..n][..i] + q[..n][i + 1..] + [q[n]] == q[..i] + q[i + 1..];
    } else {
      WithoutAbsent(q[..n], q[n]);
      assert q[..n] + [] == q[..i] + q[i + 1..];
    }
  }

  lemma {:induction false} IsGone(q: seq<nat>, x: nat)
    ensures x !in Without(q, x)
  {
    if q != [] {
      IsGone(q[..|q| - 1], x);
    }
  }

  lemma ErasedIs(q: seq<nat>, x: nat)
    requires Distinct(q)
    ensures Erase(q, x) == Without(q, x)
  {
    if x in q {
      WithoutAt(q, Index(q, x));
    } else {
      WithoutAbsent(q, x);
    }
  }

  // What blocking leaves of thread tid.
  ghost predicate IsOut(s: Sched, r: Sched, tid: nat)
    requires Live(s.threads, tid)
  {
    && Live(r.threads, tid) && r.threads[tid].value.state == Blocked && tid != r.running && tid !in r.ready
    && r.threads[tid].value.sleepDuration == s.threads[tid].value.sleepDuration
  }

  lemma BlockRunning(s: Sched, tid: nat)
    requires Inv(s) && tid != MAIN_ID && tid == s.running
    ensures IsOut(s, Do(s, BlockThread(tid)).s, tid) && Do(s, BlockThread(tid)).code == 0
    ensures s.threads[tid].value.state != Blocked
  {
    var c := BlockThread(tid);
    assert Placed(s, tid);
    LeftIsLeaving(s, c);
    StartedByCall(s, c, tid);
    StartedThread(Left(s, c), tid);
    assert Placed(Do(s, c).s, tid);
  }

  lemma BlockOther(s: Sched, tid: nat)
    requires Sound(s) && Live(s.threads, tid) && Placed(s, tid) && Distinct(s.ready)
    requires tid != MAIN_ID && tid != s.running
    ensures var r := Block(s, tid);
            && r.code == 0 && IsOut(s, r.s, tid) && OnlyTouches(s, r.s, tid) && r.s.ready == Without(s.ready, tid)
            && (s.threads[tid].value.state == Blocked ==> r.s == s)
  {
    if tid in s.ready {
      ErasedIs(s.ready, tid);
    } else {
      WithoutAbsent(s.ready, tid);
      assert s.threads[tid].value.state == Blocked ==> SetState(s.threads, tid, Blocked) == s.threads;
    }
    IsGone(s.ready, tid);
  }

  // Blocking takes a live thread other than main off the processor, or out of the queue, which closes
  // up behind it; a sleeper sleeps on, and a thread that is blocked already stays as it is.
  lemma BlockTakesOut(s: Sched, tid: int)
    requires Inv(s)
    ensures var r := Do(s, BlockThread(tid));
            && (r.code == 0 <==> Live(s.threads, tid) && tid != MAIN_ID)
            && (r.code != 0 ==> r.code == -1 && r.s == s)
            && (r.code == 0 ==>
                  && IsOut(s, r.s, tid)
                  && (tid != s.running ==> OnlyTouches(s, r.s, tid) && r.s.ready == Without(s.ready, tid))
                  && (s.threads[tid].value.state == Blocked ==> r.s == s))
  {
    if Live(s.threads, tid) && tid != MAIN_ID {
      if tid == s.running {
        BlockRunning(s, tid);
      } else {
        assert Placed(s, tid);
        BlockOther(s, tid);
      }
    }
  }

  // Resuming undoes a block: an awake thread queues last, a sleeper is left to its sleep. It has no
  // effect on any other thread, nor on one that is not blocked.
  lemma ResumeUnblocks(s: Sched, tid: int)
    requires Inv(s)
    ensures var r := Do(s, ResumeThread(tid));
            && r.code == (if Live(s.threads, tid) then 0 else -1)
            && if Live(s.threads, tid) && s.threads[tid].value.state == Blocked then
                 && Live(r.s.threads, tid) && r.s.threads[tid].value.state != Blocked
                 && r.s.ready == s.ready + (if s.threads[tid].value.sleeping then [] else [tid])
                 && r.s.threads[tid].value == s.threads[tid].value.(state := r.s.threads[tid].value.state)
                 && OnlyTouches(s, r.s, tid)
               else r.s == s
  {
    if Live(s.threads, tid) {
      assert Placed(s, tid);
      if s.threads[tid].value.sleeping {
        assert s.ready + [] == s.ready;
        if s.threads[tid].value.state != Blocked {
          assert SetState(s.threads, tid, Asleep) == s.threads;
        }
      }
    }
  }

  // Terminating a live thread always removes it, wherever it is, and frees its id; terminating main
  // deletes all threads and ends the process.
  lemma TerminateRemoves(s: Sched, tid: int)
    requires Inv(s)
    ensures var r := Do(s, TerminateThread(tid));
            if tid == MAIN_ID then
              && r.Exited? && |r.s.threads| == |s.threads| && r.s.count == 0
              && forall id :: 0 <= id < |s.threads| ==> r.s.threads[id] == None
            else if Live(s.threads, tid) then
              && r.code == 0 && IsRemoved(s, r.s, tid)
              && (tid != s.running ==>
                    && r.s.threads == s.threads[tid := None] && r.s.running == s.running && r.s.total == s.total
                    && r.s.ready == Without(s.ready, tid))
            else r == Outcome(s, -1)
  {
    TerminateIsSafe(s, tid);
    if tid == MAIN_ID {
      Released(s, |s.threads|);
      NobodyLive(Release(s, |s.threads|).threads);
    } else if Live(s.threads, tid) {
      if tid == s.running {
        RunningIsRemoved(s, tid);
      } else {
        IsPushed(s, tid);
        assert Placed(s, tid);
        OtherIsRemoved(s, tid);
      }
    }
  }

  // What terminating leaves of thread tid.
  ghost predicate IsRemoved(s: Sched, r: Sched, tid: nat) {
    && !Live(r.threads, tid) && tid != r.running && tid !in r.ready && tid in r.unused && r.count == s.count - 1
  }

  lemma RunningIsRemoved(s: Sched, tid: nat)
    requires Inv(s) && tid != MAIN_ID && tid == s.running
    ensures Do(s, TerminateThread(tid)).code == 0 && IsRemoved(s, Do(s, TerminateThread(tid)).s, tid)
  {
    TerminateIsSafe(s, tid);
    SelfTerminateKeeps(s);
    Updated(s);
    IsPushed(s, tid);
    RemovedFromQueue(Do(s, TerminateThread(tid)).s, tid);
  }

  lemma IsPushed(s: Sched, tid: nat)
    requires IdsInv(s) && Live(s.threads, tid)
    ensures tid in Push(s.unused, tid)
  {
    PushKeeps(s.unused, tid);
  }

  lemma RemovedFromQueue(s: Sched, tid: nat)
    requires Sound(s) && !Live(s.threads, tid)
    ensures tid !in s.ready && tid != s.running
  {
    assert forall i :: 0 <= i < |s.ready| ==> Live(s.threads, s.ready[i]);
  }

  lemma OtherIsRemoved(s: Sched, tid: nat)
    requires Sound(s) && Distinct(s.ready) && Live(s.threads, tid) && Placed(s, tid)
    requires tid in Push(s.unused, tid) && tid != MAIN_ID && tid != s.running
    ensures var r := Terminate(s, tid);
            && r.Outcome? && r.code == 0 && IsRemoved(s, r.s, tid)
            && r.s.threads == s.threads[tid := None] && r.s.running == s.running && r.s.total == s.total
            && r.s.ready == Without(s.ready, tid)
  {
    if tid in s.ready {
      ErasedIs(s.ready, tid);
    } else {
      WithoutAbsent(s.ready, tid);
    }
    IsGone(s.ready, tid);
  }

  // Sleeping fails exactly for main and for a duration that is not positive, and then has no effect.
  lemma SleepReturns(s: Sched, n: int)
    requires Inv(s)
    ensures if n > 0 && s.running != MAIN_ID then Do(s, SleepFor(n)).code == 0
            else Do(s, SleepFor(n)) == Outcome(s, -1)
  {
  }

  // ---- quantums ----

  function Quantums(ts: Table): int {
    if ts == [] then 0
    else Quantums(ts[..|ts| - 1]) + if ts[|ts| - 1].Some? then ts[|ts| - 1].value.quantums else 0
  }

  // Of the thread that the call terminates.
  function Retired(s: Sched, c: Call): int {
    if c.TerminateThread? && Live(s.threads, c.tid) then s.threads[c.tid].value.quantums else 0
  }

  ghost function RetiredIn(s: Sched, cs: seq<Call>): int
    requires Inv(s) && Goes(cs)
  {
    if cs == [] then 0
    else RetiredIn(s, cs[..|cs| - 1]) + Retired(Exec(s, cs[..|cs| - 1]), cs[|cs| - 1])
  }

  function QuantumsOf(t: Option<Tcb>): int {
    if t.Some? then t.value.quantums else 0
  }

  lemma {:induction false} QuantumsUpdate(ts: Table, id: nat, t: Option<Tcb>)
    requires id < |ts|
    ensures Quantums(ts[id := t]) == Quantums(ts) - QuantumsOf(ts[id]) + QuantumsOf(t)
  {
    var n := |ts| - 1;
    if id < n {
      assert ts[id := t][..n] == ts[..n][id := t];
      QuantumsUpdate(ts[..n], id, t);
    } else {
      assert ts[id := t][..n] == ts[..n];
    }
  }

  lemma {:induction false} SameQuantums(ts: Table, ts': Table)
    requires |ts| == |ts'| && forall i :: 0 <= i < |ts| ==> QuantumsOf(ts[i]) == QuantumsOf(ts'[i])
    ensures Quantums(ts) == Quantums(ts')
  {
    if ts != [] {
      SameQuantums(ts[..|ts| - 1], ts'[..|ts| - 1]);
    }
  }

  // If exactly the thread k has one more.
  lemma OneMore(ts: Table, ts': Table, k: nat)
    requires |ts| == |ts'| && Live(ts, k)
    requires forall i :: 0 <= i < |ts| ==> QuantumsOf(ts'[i]) == QuantumsOf(ts[i]) + if i == k then 1 else 0
    ensures Quantums(ts') == Quantums(ts) + 1
  {
    var t := ts[k].value.(quantums := ts[k].value.quantums + 1);
    QuantumsUpdate(ts, k, Some(t));
    SameQuantums(ts[k := Some(t)], ts');
  }

  lemma StartAddsOne(b: Sched)
    requires Leaving(b) && b.threads[b.running].value.sleepDuration != 1
    ensures |StartQuantum(b).threads| == |b.threads| && Quantums(StartQuantum(b).threads) == Quantums(b.threads) + 1
  {
    Updated(b);
    StartKeeps(b);
    var r := StartQuantum(b);
    forall i | 0 <= i < |b.threads|
      ensures QuantumsOf(r.threads[i]) == QuantumsOf(b.threads[i]) + if i == r.running then 1 else 0
    {
      if Live(b.threads, i) {
        StartedThread(b, i);
      }
    }
    assert Live(b.threads, r.running);
    OneMore(b.threads, r.threads, r.running);
  }

  ghost predicate Conserves(s: Sched, r: Sched, retired: int) {
    r.total - (Quantums(r.threads) + retired) == s.total - Quantums(s.threads)
  }

  lemma StartConserves(s: Sched, c: Call)
    requires Inv(s) && Starts(s, c) && !c.TerminateThread?
    ensures Conserves(s, Do(s, c).s, 0)
  {
    LeftIsLeaving(s, c);
    StartAddsOne(Left(s, c));
    SameQuantums(s.threads, Left(s, c).threads);
    RoundRobin(s, c);
  }

  lemma SelfTerminateConserves(s: Sched)
    requires Inv(s) && s.running != MAIN_ID
    ensures Conserves(s, Do(s, TerminateThread(s.running)).s, s.threads[s.running].value.quantums)
  {
    TerminateIsSafe(s, s.running);
    SelfTerminateKeeps(s);
    InvLeaving(s);
    StartAddsOne(s);
    StartedThread(s, s.running);
    SelfSwitch(s);
    QuantumsUpdate(StartQuantum(s).threads, s.running, None);
    RoundRobin(s, TerminateThread(s.running));
  }

  lemma SpawnConserves(s: Sched, nullEntry: bool)
    requires Inv(s)
    ensures Conserves(s, Do(s, SpawnThread(nullEntry)).s, 0)
  {
    SpawnIsSafe(s, nullEntry);
    if s.count != |s.threads| {
      ProducedId(s);
      var id := ProduceId(s.unused, s.count).0;
      QuantumsUpdate(s.threads, id, Some(Tcb(Ready, 0, 0, false)));
    }
  }

  lemma TerminateConserves(s: Sched, tid: int)
    requires Inv(s) && tid != MAIN_ID && tid != s.running
    ensures Conserves(s, Do(s, TerminateThread(tid)).s, Retired(s, TerminateThread(tid)))
  {
    TerminateIsSafe(s, tid);
    if Live(s.threads, tid) {
      assert Placed(s, tid);
      QuantumsUpdate(s.threads, tid, None);
    }
  }

  lemma BlockConserves(s: Sched, tid: int)
    requires Inv(s) && !Starts(s, BlockThread(tid))
    ensures Conserves(s, Block(s, tid).s, 0)
  {
    SameQuantums(s.threads, Block(s, tid).s.threads);
  }

  lemma ResumeConserves(s: Sched, tid: int)
    requires Inv(s)
    ensures Conserves(s, Resume(s, tid).s, 0)
  {
    SameQuantums(s.threads, Resume(s, tid).s.threads);
  }

  lemma CallConserves(s: Sched, c: Call)
    requires Inv(s) && c != TerminateThread(MAIN_ID)
    ensures Conserves(s, Do(s, c).s, Retired(s, c))
  {
    match c
    case TerminateThread(tid) =>
      if tid == s.running {
        SelfTerminateConserves(s);
      } else {
        TerminateConserves(s, tid);
      }
    case SpawnThread(nullEntry) => SpawnConserves(s, nullEntry);
    case Tick => StartConserves(s, c);
    case BlockThread(tid) =>
      if Starts(s, c) {
        StartConserves(s, c);
      } else {
        BlockConserves(s, tid);
      }
    case ResumeThread(tid) => ResumeConserves(s, tid);
    case SleepFor(quantums) =>
      if Starts(s, c) {
        StartConserves(s, c);
      }
  }

  lemma {:induction false} RunConserves(s: Sched, cs: seq<Call>)
    requires Inv(s) && Goes(cs)
    ensures var r := Exec(s, cs); r.total - (Quantums(r.threads) + RetiredIn(s, cs)) == s.total - Quantums(s.threads)
  {
    if cs != [] {
      RunConserves(s, cs[..|cs| - 1]);
      CallConserves(Exec(s, cs[..|cs| - 1]), cs[|cs| - 1]);
    }
  }

  // The total is the quantums of the live threads plus those of the terminated ones.
  lemma QuantumsAreConserved(max: nat, cs: seq<Call>)
    requires max >= 1 && Goes(cs)
    ensures Inv(Initial(max))
    ensures Exec(Initial(max), cs).total == Quantums(Exec(Initial(max), cs).threads) + RetiredIn(Initial(max), cs)
  {
    InitialInv(max);
    RunConserves(Initial(max), cs);
    var ts := Initial(max).threads;
    QuantumsUpdate(ts, MAIN_ID, None);
    var none: Table := seq(max, _ => None);
    SameQuantums(ts[MAIN_ID := None], none);
    NoQuantums(max);
  }

  lemma {:induction false} NoQuantums(n: nat)
    ensures Quantums(seq(n, _ => None)) == 0
  {
    var ts: Table := seq(n, _ => None);
    if n > 0 {
      NoQuantums(n - 1);
      assert ts[..n - 1] == seq(n - 1, _ => None);
    }
  }

  ghost predicate Survives(cs: seq<Call>, p: nat) {
    forall i :: 0 <= i < |cs| ==> !Kills(cs[i], p)
  }

  // How many quantums the run gives to thread p.
  ghost function RunsOf(s: Sched, cs: seq<Call>, p: nat): nat
    requires Inv(s) && Goes(cs)
  {
    if cs == [] then 0
    else
      var before := Exec(s, cs[..|cs| - 1]);
      RunsOf(s, cs[..|cs| - 1], p)
      + if Starts(before, cs[|cs| - 1]) && Exec(s, cs).running == p then 1 else 0
  }

  // get_quantums counts exactly the quantums that the thread was given.
  lemma {:induction false} QuantumsAreRuns(s: Sched, cs: seq<Call>, p: nat)
    requires Inv(s) && Goes(cs) && Live(s.threads, p) && Survives(cs, p)
    ensures Live(Exec(s, cs).threads, p)
    ensures GetQuantums(Exec(s, cs), p) == GetQuantums(s, p) + RunsOf(s, cs, p)
  {
    if cs != [] {
      var before, c := cs[..|cs| - 1], cs[|cs| - 1];
      QuantumsAreRuns(s, before, p);
      var m := Exec(s, before);
      if Starts(m, c) {
        LeftIsLeaving(m, c);
        StartedByCall(m, c, p);
        StartedThread(Left(m, c), p);
      } else {
        QuietThread(m, c, p);
      }
    }
  }

  lemma {:induction false} TotalCountsStarts(s: Sched, cs: seq<Call>)
    requires Inv(s) && Goes(cs)
    ensures Exec(s, cs).total == s.total + StartsIn(s, cs)
  {
    if cs != [] {
      var m, c := Exec(s, cs[..|cs| - 1]), cs[|cs| - 1];
      TotalCountsStarts(s, cs[..|cs| - 1]);
      if Starts(m, c) {
        RoundRobin(m, c);
      } else {
        QuietThread(m, c, MAIN_ID);
      }
    }
  }

  // Main starts in its first quantum, which both counters include.
  lemma CountersSinceInit(max: nat, cs: seq<Call>)
    requires max >= 1 && Goes(cs)
    ensures Inv(Initial(max))
    ensures Exec(Initial(max), cs).total == 1 + StartsIn(Initial(max), cs)
    ensures GetQuantums(Exec(Initial(max), cs), 0) == 1 + RunsOf(Initial(max), cs, 0)
  {
    InitialInv(max);
    TotalCountsStarts(Initial(max), cs);
    QuantumsAreRuns(Initial(max), cs, MAIN_ID);
  }

  // Every other thread starts with none: its counter is the quantums given to it since it was spawned.
  lemma QuantumsSinceSpawn(max: nat, before: seq<Call>, cs: seq<Call>)
    requires max >= 1 && Goes(before) && Goes(cs)
    ensures Inv(Initial(max))
    ensures var r := Do(Exec(Initial(max), before), SpawnThread(false));
            r.code >= 0 && Survives(cs, r.code) ==>
              Live(Exec(r.s, cs).threads, r.code) && GetQuantums(Exec(r.s, cs), r.code) == RunsOf(r.s, cs, r.code)
  {
    SpawnGivesLeastId(max, before, false);
    var r := Do(Exec(Initial(max), before), SpawnThread(false));
    if r.code >= 0 && Survives(cs, r.code) {
      QuantumsAreRuns(r.s, cs, r.code);
    }
  }

  ghost predicate Counted(s: Sched, p: nat) {
    Live(s.threads, p) ==> s.threads[p].value.quantums >= 0
  }

  lemma StartSparesNobody(b: Sched, p: nat)
    requires Sound(b) && !Live(b.threads, p)
    ensures !Live(StartQuantum(b).threads, p)
  {
    UpdatedIsSound(b);
    Updated(b);
  }

  // Only a spawn brings a thread to life.
  lemma StaysGone(s: Sched, c: Call, p: nat)
    requires Inv(s) && !Live(s.threads, p) && c != TerminateThread(MAIN_ID) && !c.SpawnThread?
    ensures !Live(Do(s, c).s.threads, p)
  {
    if Starts(s, c) {
      LeftIsLeaving(s, c);
      StartSparesNobody(Left(s, c), p);
      if c.TerminateThread? {
        TerminateIsSafe(s, c.tid);
        SelfTerminateKeeps(s);
      }
    } else if c.TerminateThread? {
      TerminateIsSafe(s, c.tid);
    }
  }

  lemma CountedStep(s: Sched, c: Call, p: nat)
    requires Inv(s) && c != TerminateThread(MAIN_ID) && Counted(s, p)
    ensures Counted(Do(s, c).s, p)
  {
    if Live(s.threads, p) && Kills(c, p) {
      TerminateRemoves(s, p);
    } else if Live(s.threads, p) {
      if Starts(s, c) {
        LeftIsLeaving(s, c);
        StartedByCall(s, c, p);
        StartedThread(Left(s, c), p);
      } else {
        QuietThread(s, c, p);
      }
    } else if c.SpawnThread? {
      SpawnIsSafe(s, c.nullEntry);
    } else {
      StaysGone(s, c, p);
    }
  }

  // get_quantums fails exactly for an id that is not in use.
  lemma {:induction false} QuantumsOrError(max: nat, cs: seq<Call>, id: int)
    requires max >= 1 && Goes(cs)
    ensures Inv(Initial(max))
    ensures var s := Exec(Initial(max), cs);
            if Live(s.threads, id) then GetQuantums(s, id) >= 0 else GetQuantums(s, id) == -1
  {
    InitialInv(max);
    if id >= 0 && cs != [] {
      var s := Exec(Initial(max), cs[..|cs| - 1]);
      QuantumsOrError(max, cs[..|cs| - 1], id);
      assert Counted(s, id);
      CountedStep(s, cs[|cs| - 1], id);
    }
  }

  // ---- sleep ----

  // What a call makes of the state of a thread p that goes on sleeping.
  function StateAfter(st: State, c: Call, p: nat): State {
    if c == BlockThread(p) then Blocked else if c == ResumeThread(p) then Asleep else st
  }

  // One call seen by a sleeping thread.
  lemma SleepStep(s: Sched, c: Call, p: nat)
    requires Inv(s) && c != TerminateThread(MAIN_ID) && !Kills(c, p)
    requires Live(s.threads, p) && s.threads[p].value.sleeping
    ensures var r, t := Do(s, c).s, s.threads[p].value;
            && Live(r.threads, p)
            && var t' := r.threads[p].value;
               && t'.sleepDuration == t.sleepDuration - (if Starts(s, c) then 1 else 0)
               && (t'.sleeping ==> t'.state == StateAfter(t.state, c, p))
               && (!t'.sleeping ==> (t'.state == Blocked <==> t.state == Blocked))
  {
    assert Placed(s, p);
    if Starts(s, c) {
      LeftIsLeaving(s, c);
      StartedByCall(s, c, p);
      StartedThread(Left(s, c), p);
      assert Placed(Do(s, c).s, p);
    } else {
      QuietThread(s, c, p);
    }
  }

  // The last block or resume of p decides.
  ghost predicate BlockedBy(cs: seq<Call>, p: nat) {
    cs != [] && (cs[|cs| - 1] == BlockThread(p) || (cs[|cs| - 1] != ResumeThread(p) && BlockedBy(cs[..|cs| - 1], p)))
  }

  lemma {:induction false} StillAsleep(s: Sched, cs: seq<Call>, p: nat)
    requires Inv(s) && Goes(cs) && Survives(cs, p)
    requires Live(s.threads, p) && s.threads[p].value.state == Asleep
    requires StartsIn(s, cs) < s.threads[p].value.sleepDuration
    ensures Live(Exec(s, cs).threads, p)
    ensures var t := Exec(s, cs).threads[p].value;
            && t.sleeping && t.sleepDuration == s.threads[p].value.sleepDuration - StartsIn(s, cs)
            && t.state == if BlockedBy(cs, p) then Blocked else Asleep
  {
    assert Placed(s, p);
    if cs != [] {
      StillAsleep(s, cs[..|cs| - 1], p);
      SleepStep(Exec(s, cs[..|cs| - 1]), cs[|cs| - 1], p);
      assert Placed(Exec(s, cs), p);
    }
  }

  // The running thread has just called sleep.
  ghost function Slept(s: Sched, n: int): Sched
    requires Inv(s)
  {
    Do(s, SleepFor(n)).s
  }

  lemma JustAsleep(s: Sched, n: int)
    requires Inv(s) && n > 0 && s.running != MAIN_ID
    ensures Inv(Slept(s, n)) && Live(Slept(s, n).threads, s.running) && Slept(s, n).running != s.running
    ensures var t := Slept(s, n).threads[s.running].value; t.state == Asleep && t.sleepDuration == n
  {
    var c := SleepFor(n);
    LeftIsLeaving(s, c);
    StartedThread(Left(s, c), s.running);
    assert Placed(Slept(s, n), s.running);
  }

  // Until the n-th quantum start after the one that switched it out, a thread that called sleep(n)
  // neither runs nor is queued, whatever resumes it meanwhile.
  lemma SleepsLongEnough(s: Sched, n: int, cs: seq<Call>)
    requires Inv(s) && n > 0 && s.running != MAIN_ID && Goes(cs) && Survives(cs, s.running)
    requires Inv(Slept(s, n)) && StartsIn(Slept(s, n), cs) < n
    ensures var r := Exec(Slept(s, n), cs);
            && Live(r.threads, s.running) && r.running != s.running && s.running !in r.ready
            && r.threads[s.running].value.state == if BlockedBy(cs, s.running) then Blocked else Asleep
  {
    JustAsleep(s, n);
    StillAsleep(Slept(s, n), cs, s.running);
    assert Placed(Exec(Slept(s, n), cs), s.running);
  }

  // During the n-th start it joins the queue (and may be the one to run), unless it has been blocked
  // meanwhile; then it stays out, no longer asleep.
  lemma WakesOnTime(s: Sched, n: int, cs: seq<Call>, last: Call)
    requires Inv(s) && n > 0 && s.running != MAIN_ID && Goes(cs + [last]) && Survives(cs + [last], s.running)
    requires Inv(Slept(s, n)) && Goes(cs)
    requires StartsIn(Slept(s, n), cs) == n - 1 && Starts(Exec(Slept(s, n), cs), last)
    ensures var r := Exec(Slept(s, n), cs + [last]);
            && Live(r.threads, s.running) && !r.threads[s.running].value.sleeping
            && if BlockedBy(cs, s.running) then
                 r.threads[s.running].value.state == Blocked && s.running !in r.ready && s.running != r.running
               else s.running in r.ready || s.running == r.running
  {
    var p := s.running;
    JustAsleep(s, n);
    OneMoreCall(Slept(s, n), cs, last, p);
    StillAsleep(Slept(s, n), cs, p);
    LastStep(Exec(Slept(s, n), cs), last, p);
  }

  lemma OneMoreCall(s: Sched, cs: seq<Call>, last: Call, p: nat)
    requires Inv(s) && Goes(cs + [last]) && Survives(cs + [last], p)
    ensures Goes(cs) && last != TerminateThread(MAIN_ID) && Survives(cs, p) && !Kills(last, p)
    ensures Exec(s, cs + [last]) == Do(Exec(s, cs), last).s
  {
    var all := cs + [last];
    assert all[..|cs|] == cs && all[|cs|] == last;
    assert forall i :: 0 <= i < |cs| ==> all[i] == cs[i];
  }

  // The quantum start at which a sleep ends.
  lemma LastStep(m: Sched, c: Call, p: nat)
    requires Inv(m) && Starts(m, c) && c != TerminateThread(MAIN_ID) && !Kills(c, p)
    requires Live(m.threads, p) && m.threads[p].value.sleeping && m.threads[p].value.sleepDuration == 1
    ensures var r := Do(m, c).s;
            && Live(r.threads, p) && !r.threads[p].value.sleeping
            && if m.threads[p].value.state == Blocked then
                 r.threads[p].value.state == Blocked && p !in r.ready && p != r.running
               else p in r.ready || p == r.running
  {
    SleepStep(m, c, p);
    assert Placed(Do(m, c).s, p);
  }

  // A blocked thread stays out until it is resumed.
  lemma {:induction false} BlockedStaysOut(s: Sched, cs: seq<Call>, p: nat)
    requires Inv(s) && Goes(cs) && Survives(cs, p) && Live(s.threads, p) && s.threads[p].value.state == Blocked
    requires forall i :: 0 <= i < |cs| ==> cs[i] != ResumeThread(p)
    ensures var r := Exec(s, cs);
            Live(r.threads, p) && r.threads[p].value.state == Blocked && p !in r.ready && p != r.running
  {
    if cs != [] {
      var m, c := Exec(s, cs[..|cs| - 1]), cs[|cs| - 1];
      BlockedStaysOut(s, cs[..|cs| - 1], p);
      if Starts(m, c) {
        LeftIsLeaving(m, c);
        StartedByCall(m, c, p);
        StartedThread(Left(m, c), p);
      } else {
        QuietThread(m, c, p);
      }
    }
    assert Placed(Exec(s, cs), p);
  }

  // ---- waiting ----

  lemma IndexOf(q: seq<nat>, i: nat, p: nat)
    requires i < |q| && q[i] == p
    ensures Index(q, p) <= i && (Distinct(q) ==> Index(q, p) == i)
  {
  }

  // Thread p has kept its position in the queue, or moved up.
  ghost predicate NotBack(s: Sched, r: Sched, p: nat) {
    p in r.ready && Index(r.ready, p) <= Index(s.ready, p)
  }

  lemma AppendStep(s: Sched, r: Sched, p: nat)
    requires p in s.ready && s.ready <= r.ready
    ensures NotBack(s, r, p)
  {
    IndexOf(r.ready, Index(s.ready, p), p);
  }

  lemma QuietQueue(s: Sched, c: Call, p: nat)
    requires Inv(s) && !Starts(s, c) && c != TerminateThread(MAIN_ID) && !Kills(c, p) && c != BlockThread(p)
             && p in s.ready
    ensures NotBack(s, Do(s, c).s, p)
  {
    match c
    case SpawnThread(nullEntry) => SpawnIsSafe(s, nullEntry); AppendStep(s, Do(s, c).s, p);
    case TerminateThread(tid) => TerminateIsSafe(s, tid); EraseStep(s, tid, p);
    case BlockThread(tid) => BlockStep(s, tid, p);
    case ResumeThread(tid) => AppendStep(s, Resume(s, tid).s, p);
    case SleepFor(quantums) =>
  }

  lemma BlockStep(s: Sched, tid: int, p: nat)
    requires Inv(s) && p in s.ready && tid != p && !Starts(s, BlockThread(tid))
    ensures NotBack(s, Block(s, tid).s, p)
  {
    EraseStep(s, tid, p);
    if Live(s.threads, tid) {
      assert Placed(s, tid);
    }
  }

  lemma StartStep(s: Sched, c: Call, p: nat)
    requires Inv(s) && Starts(s, c) && c != TerminateThread(MAIN_ID) && p in s.ready
    ensures var r, k := Do(s, c).s, Index(s.ready, p);
            if k == 0 then r.running == p else p in r.ready && Index(r.ready, p) == k - 1
  {
    var r, k := Do(s, c).s, Index(s.ready, p);
    RoundRobin(s, c);
    var q := s.ready + Wakers(s.threads);
    assert q != [] && q[k] == p;
    if k > 0 {
      assert r.ready[k - 1] == q[1..][k - 1] == q[k];
      IndexOf(r.ready, k - 1, p);
    }
  }

  // One call seen by a queued thread.
  lemma QueueStep(s: Sched, c: Call, p: nat)
    requires Inv(s) && c != TerminateThread(MAIN_ID) && !Kills(c, p) && c != BlockThread(p)
    requires p in s.ready
    ensures var r, k := Do(s, c).s, Index(s.ready, p);
            if Starts(s, c) then if k == 0 then r.running == p else p in r.ready && Index(r.ready, p) == k - 1
            else NotBack(s, r, p)
  {
    if Starts(s, c) {
      StartStep(s, c, p);
    } else {
      QuietQueue(s, c, p);
    }
  }

  lemma ErasedIndex(q: seq<nat>, x: nat, p: nat)
    requires p in q && x in q && x != p
    ensures p in Erase(q, x) && Index(Erase(q, x), p) <= Index(q, p)
  {
    var i, k := Index(q, x), Index(q, p);
    var j := if k < i then k else k - 1;
    assert (q[..i] + q[i + 1..])[j] == q[k];
    IndexOf(Erase(q, x), j, p);
  }

  lemma EraseStep(s: Sched, tid: int, p: nat)
    requires p in s.ready && tid != p
    ensures tid >= 0 && tid in s.ready ==>
            p in Erase(s.ready, tid) && Index(Erase(s.ready, tid), p) <= Index(s.ready, p)
  {
    if tid >= 0 && tid in s.ready {
      ErasedIndex(s.ready, tid, p);
    }
  }

  ghost predicate Undisturbed(cs: seq<Call>, p: nat) {
    Survives(cs, p) && forall i :: 0 <= i < |cs| ==> cs[i] != BlockThread(p)
  }

  // A queued thread never moves back, and moves up at every quantum start, until it runs.
  lemma {:induction false} MovesUp(s: Sched, cs: seq<Call>, p: nat)
    requires Inv(s) && Goes(cs) && Undisturbed(cs, p) && p in s.ready && Live(s.threads, p) && RunsOf(s, cs, p) == 0
    ensures p in Exec(s, cs).ready
    ensures Index(Exec(s, cs).ready, p) + StartsIn(s, cs) <= Index(s.ready, p)
  {
    if cs != [] {
      MovesUp(s, cs[..|cs| - 1], p);
      QueueStep(Exec(s, cs[..|cs| - 1]), cs[|cs| - 1], p);
    }
  }

  // Bounded waiting: the thread at position k has run by the (k + 1)-th quantum start.
  lemma WaitsAtMost(s: Sched, cs: seq<Call>, p: nat)
    requires Inv(s) && Goes(cs) && Undisturbed(cs, p) && p in s.ready
    requires StartsIn(s, cs) > Index(s.ready, p)
    ensures RunsOf(s, cs, p) > 0
  {
    if RunsOf(s, cs, p) == 0 {
      MovesUp(s, cs, p);
    }
  }
}
