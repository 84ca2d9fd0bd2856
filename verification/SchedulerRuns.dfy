// Any sequence of library calls and timer ticks.
module SchedulerRuns {
  import opened Wrappers
  import opened Scheduler
  import opened SchedulerInvariant

  datatype Call =
    | Tick
    | SpawnThread(nullEntry: bool) | TerminateThread(tid: int) | BlockThread(tid: int) | ResumeThread(tid: int)
    | SleepFor(quantums: int)

  // Terminating main ends the process, so no call follows it.
  predicate Goes(cs: seq<Call>) {
    forall i :: 0 <= i < |cs| ==> cs[i] != TerminateThread(MAIN_ID)
  }

  ghost function Do(s: Sched, c: Call): (r: Outcome)
    requires Inv(s)
    ensures r.Exited? <==> c == TerminateThread(MAIN_ID)
    ensures r.Outcome? ==> Inv(r.s)
  {
    match c
    case Tick => TickKeeps(s); Outcome(StartQuantum(s), SUCCESS)
    case SpawnThread(nullEntry) => SpawnIsSafe(s, nullEntry); Spawn(s, nullEntry)
    case TerminateThread(tid) => TerminateIsSafe(s, tid); Terminate(s, tid)
    case BlockThread(tid) => BlockKeeps(s, tid); Block(s, tid)
    case ResumeThread(tid) => ResumeKeeps(s, tid); Resume(s, tid)
    case SleepFor(quantums) => SleepKeeps(s, quantums); Sleep(s, quantums)
  }

  lemma TickKeeps(s: Sched)
    requires Inv(s)
    ensures Inv(StartQuantum(s))
  {
    InvLeaving(s);
    StartKeeps(s);
  }

  lemma SpawnIsSafe(s: Sched, nullEntry: bool)
    requires Inv(s)
    ensures (s.count != |s.threads| ==> 0 <= ProduceId(s.unused, s.count).0 < |s.threads|) && Inv(Spawn(s, nullEntry).s)
  {
    if s.count != |s.threads| {
      ProducedId(s);
    }
    SpawnKeeps(s, nullEntry);
  }

  lemma TerminateIsSafe(s: Sched, tid: int)
    requires Inv(s)
    ensures tid == s.running && tid != MAIN_ID ==> StartQuantum(s).ready != []
    ensures Terminate(s, tid).Outcome? ==> Inv(Terminate(s, tid).s)
  {
    if tid == s.running && tid != MAIN_ID {
      SelfTerminateKeeps(s);
    }
    TerminateKeeps(s, tid);
  }

  ghost function Exec(s: Sched, cs: seq<Call>): (r: Sched)
    requires Inv(s) && Goes(cs)
    ensures Inv(r)
  {
    if cs == [] then s else Do(Exec(s, cs[..|cs| - 1]), cs[|cs| - 1]).s
  }

  // Whether the call ends the running thread's quantum.
  predicate Starts(s: Sched, c: Call) {
    match c
    case Tick => true
    case TerminateThread(tid) => tid == s.running
    case BlockThread(tid) => tid == s.running && tid != MAIN_ID
    case SleepFor(quantums) => quantums > 0 && s.running != MAIN_ID
    case _ => false
  }

  ghost function StartsIn(s: Sched, cs: seq<Call>): nat
    requires Inv(s) && Goes(cs)
  {
    if cs == [] then 0
    else StartsIn(s, cs[..|cs| - 1]) + if Starts(Exec(s, cs[..|cs| - 1]), cs[|cs| - 1]) then 1 else 0
  }

  // ---- quantum starts ----

  lemma {:induction false} SameWakers(ts: Table, ts': Table, n: nat)
    requires n <= |ts| == |ts'| && forall i :: 0 <= i < n ==> Wakes(ts, i) == Wakes(ts', i)
    ensures WakersTo(ts, n) == WakersTo(ts', n)
  {
    if n > 0 {
      SameWakers(ts, ts', n - 1);
    }
  }

  // The state in which the switch happens: the running thread has noted why it leaves.
  ghost function Left(s: Sched, c: Call): (b: Sched)
    requires Inv(s) && Starts(s, c)
  {
    match c
    case BlockThread(tid) => s.(threads := SetState(s.threads, s.running, Blocked))
    case SleepFor(quantums) =>
      var t := s.threads[s.running].value.(sleepDuration := quantums + 1, sleeping := true, state := Asleep);
      s.(threads := s.threads[s.running := Some(t)])
    case _ => s
  }

  lemma LeftIsLeaving(s: Sched, c: Call)
    requires Inv(s) && Starts(s, c) && c != TerminateThread(MAIN_ID)
    ensures var b := Left(s, c);
            Leaving(b) && b.threads[b.running].value.sleepDuration != 1 && Wakers(b.threads) == Wakers(s.threads)
  {
    InvLeaving(s);
    match c {
      case BlockThread(tid) => SetStateLeaves(s, Blocked, 0, false);
      case SleepFor(quantums) => SetStateLeaves(s, Asleep, quantums + 1, true);
      case _ =>
    }
    SameWakers(s.threads, Left(s, c).threads, |s.threads|);
  }

  // r is what a switch away from s leaves: the front of queue-plus-wakers runs, and the thread that ran
  // goes to the end if it stays.
  ghost predicate Rotated(s: Sched, r: Sched, stays: bool) {
    var q := s.ready + Wakers(s.threads);
    if q == [] then stays && s.running == MAIN_ID && r.running == MAIN_ID && r.ready == []
    else r.running == q[0] && r.ready == q[1..] + (if stays then [s.running] else [])
  }

  lemma LeftRotates(s: Sched, c: Call)
    requires Inv(s) && Starts(s, c) && c != TerminateThread(MAIN_ID)
    ensures Sound(Left(s, c))
    ensures Rotated(s, StartQuantum(Left(s, c)), c == Tick || c.TerminateThread?)
    ensures StartQuantum(Left(s, c)).total == s.total + 1
  {
    LeftIsLeaving(s, c);
    StartKeeps(Left(s, c));
    InvLeaving(s);
    Updated(Left(s, c));
  }

  lemma SelfTerminateRotates(s: Sched)
    requires Inv(s) && s.running != MAIN_ID
    ensures var r := Do(s, TerminateThread(s.running)).s; Rotated(s, r, false) && r.total == s.total + 1
  {
    TerminateIsSafe(s, s.running);
    SelfTerminateKeeps(s);
    LeftRotates(s, TerminateThread(s.running));
    SelfSwitch(s);
    var q := s.ready + Wakers(s.threads);
    assert q[1..] + [] == q[1..];
  }

  // Main result on switching: the queue is first-in first-out. The front of the queue runs, those
  // who wake up join first, and only a thread that is preempted by the timer goes to the end; a
  // thread that leaves for another reason always finds a successor.
  lemma RoundRobin(s: Sched, c: Call)
    requires Inv(s) && Starts(s, c) && c != TerminateThread(MAIN_ID)
    ensures Rotated(s, Do(s, c).s, c == Tick)
    ensures Do(s, c).s.total == s.total + 1
  {
    if c.TerminateThread? {
      SelfTerminateRotates(s);
    } else {
      LeftRotates(s, c);
    }
  }

  // What a quantum start does to one thread.
  lemma StartedThread(b: Sched, id: nat)
    requires Leaving(b) && b.threads[b.running].value.sleepDuration != 1 && Live(b.threads, id)
    ensures Live(StartQuantum(b).threads, id)
    ensures var t, r, t' := b.threads[id].value, StartQuantum(b), StartQuantum(b).threads[id].value;
            && t'.sleeping == Rested(t).sleeping && t'.sleepDuration == Rested(t).sleepDuration
            && t'.quantums == t.quantums + (if id == r.running then 1 else 0)
            && (t.state == Blocked <==> t'.state == Blocked)
            && (Rested(t).state == Asleep ==> t'.state == Asleep)
  {
    Updated(b);
    UpdateKeeps(b);
    SwitchedThread(UpdateSleeping(b), id);
  }

  lemma SwitchedThread(u: Sched, id: nat)
    requires Leaving(u) && Live(u.threads, id)
    ensures Live(Preempt(u).threads, id)
    ensures var t, r, t' := u.threads[id].value, Preempt(u), Preempt(u).threads[id].value;
            && t' == t.(state := t'.state, quantums := t'.quantums)
            && t'.quantums == t.quantums + (if id == r.running then 1 else 0)
            && (t.state == Blocked <==> t'.state == Blocked)
            && (t.state == Asleep ==> t'.state == Asleep)
  {
    if u.ready != [] {
      assert u.ready[0] in u.ready;
      assert Placed(u, u.ready[0]);
    } else if u.running != MAIN_ID {
      MainIsQueued(u);
    }
  }

  // Whether the call takes thread p away.
  predicate Kills(c: Call, p: nat) {
    c == TerminateThread(p)
  }

  lemma StartedByCall(s: Sched, c: Call, p: nat)
    requires Inv(s) && Starts(s, c) && c != TerminateThread(MAIN_ID) && !Kills(c, p) && Live(s.threads, p)
    ensures var r := Do(s, c).s;
            && Live(r.threads, p) && Live(StartQuantum(Left(s, c)).threads, p)
            && r.threads[p] == StartQuantum(Left(s, c)).threads[p] && r.running == StartQuantum(Left(s, c)).running
  {
    LeftIsLeaving(s, c);
    StartedThread(Left(s, c), p);
    if c.TerminateThread? {
      TerminateIsSafe(s, c.tid);
      SelfTerminateKeeps(s);
    }
  }

  // As far as thread p is concerned the call c has at most blocked or resumed it.
  ghost predicate LeftAlone(s: Sched, r: Sched, c: Call, p: nat)
    requires Live(s.threads, p)
  {
    && r.running == s.running && r.total == s.total && Live(r.threads, p)
    && var t, t' := s.threads[p].value, r.threads[p].value;
       && t' == t.(state := t'.state)
       && (t' == t || (c == BlockThread(p) && t'.state == Blocked && t.state != Running)
           || (c == ResumeThread(p) && t.state == Blocked && t'.state == if t.sleeping then Asleep else Ready))
  }

  lemma QuietSpawn(s: Sched, nullEntry: bool, p: nat)
    requires Inv(s) && Live(s.threads, p)
    ensures LeftAlone(s, Do(s, SpawnThread(nullEntry)).s, SpawnThread(nullEntry), p)
  {
    SpawnIsSafe(s, nullEntry);
    if s.count != |s.threads| {
      ProducedId(s);
    }
  }

  lemma QuietTerminate(s: Sched, tid: int, p: nat)
    requires Inv(s) && Live(s.threads, p) && tid != p && tid != MAIN_ID && tid != s.running
    ensures LeftAlone(s, Do(s, TerminateThread(tid)).s, TerminateThread(tid), p)
  {
    TerminateIsSafe(s, tid);
  }

  lemma QuietBlock(s: Sched, tid: int, p: nat)
    requires Inv(s) && Live(s.threads, p) && !Starts(s, BlockThread(tid))
    ensures LeftAlone(s, Block(s, tid).s, BlockThread(tid), p)
  {
    assert Placed(s, p);
  }

  lemma QuietResume(s: Sched, tid: int, p: nat)
    requires Inv(s) && Live(s.threads, p)
    ensures LeftAlone(s, Resume(s, tid).s, ResumeThread(tid), p)
  {
    assert Placed(s, p);
  }

  // Calls that start no quantum leave other threads alone.
  lemma QuietThread(s: Sched, c: Call, p: nat)
    requires Inv(s) && !Starts(s, c) && c != TerminateThread(MAIN_ID) && !Kills(c, p) && Live(s.threads, p)
    ensures LeftAlone(s, Do(s, c).s, c, p)
  {
    match c
    case SpawnThread(nullEntry) => QuietSpawn(s, nullEntry, p);
    case TerminateThread(tid) => QuietTerminate(s, tid, p);
    case BlockThread(tid) => QuietBlock(s, tid, p);
    case ResumeThread(tid) => QuietResume(s, tid, p);
    case SleepFor(quantums) =>
  }
}
