// The queue is fair: nobody is overtaken in it, whatever the calls.
module SchedulerOrder {
  import opened Scheduler
  import opened SchedulerInvariant
  import opened SchedulerRuns
  import opened SchedulerGuarantees

  // p is queued, and q behind it or not at all.
  predicate Ahead(queue: seq<nat>, p: nat, q: nat) {
    p in queue && Index(queue, p) < Index(queue, q)
  }

  lemma AheadAt(queue: seq<nat>, i: nat, p: nat, q: nat)
    requires i < |queue| && queue[i] == p && forall j :: 0 <= j <= i ==> queue[j] != q
    ensures Ahead(queue, p, q)
  {
  }

  lemma AppendKeepsOrder(queue: seq<nat>, more: seq<nat>, p: nat, q: nat)
    requires Ahead(queue, p, q)
    ensures Ahead(queue + more, p, q)
  {
    AheadAt(queue + more, Index(queue, p), p, q);
  }

  lemma {:induction false} WithoutKeepsOrder(queue: seq<nat>, x: nat, p: nat, q: nat)
    requires Ahead(queue, p, q) && x != p
    ensures Ahead(Without(queue, x), p, q)
  {
    var front, last := queue[..|queue| - 1], queue[|queue| - 1];
    var w := Without(front, x);
    if p in front {
      AheadAt(front, Index(queue, p), p, q);
      WithoutKeepsOrder(front, x, p, q);
      AppendKeepsOrder(w, if last == x then [] else [last], p, q);
    } else {
      assert queue == front + [last];
      NoNewcomer(front, x, q);
      AheadAt(w + [p], |w|, p, q);
    }
  }

  lemma {:induction false} NoNewcomer(queue: seq<nat>, x: nat, q: nat)
    requires q !in queue
    ensures q !in Without(queue, x)
  {
    if queue != [] {
      NoNewcomer(queue[..|queue| - 1], x, q);
    }
  }

  // ---- one call ----

  lemma QuietOrder(s: Sched, c: Call, p: nat, q: nat)
    requires Inv(s) && !Starts(s, c) && c != TerminateThread(MAIN_ID) && !Kills(c, p)
    requires Ahead(s.ready, p, q) && (c == BlockThread(p) ==> p == MAIN_ID)
    ensures Ahead(Do(s, c).s.ready, p, q)
  {
    match c
    case SpawnThread(nullEntry) =>
      SpawnIsSafe(s, nullEntry);
      if Do(s, c).code != ERROR {
        AppendKeepsOrder(s.ready, [Do(s, c).code], p, q);
      }
    case TerminateThread(tid) =>
      TerminateRemoves(s, tid);
      if Live(s.threads, tid) {
        WithoutKeepsOrder(s.ready, tid, p, q);
      }
    case BlockThread(tid) =>
      BlockTakesOut(s, tid);
      if Live(s.threads, tid) && tid != MAIN_ID {
        WithoutKeepsOrder(s.ready, tid, p, q);
      }
    case ResumeThread(tid) =>
      ResumeUnblocks(s, tid);
      if Live(s.threads, tid) {
        AppendKeepsOrder(s.ready, [tid], p, q);
      }
    case SleepFor(quantums) =>
  }

  // The front leaves and others join at the end.
  lemma PopKeepsOrder(queue: seq<nat>, more: seq<nat>, last: seq<nat>, p: nat, q: nat)
    requires Ahead(queue, p, q)
    ensures var all := queue + more; all[0] != q && (all[0] == p || Ahead(all[1..] + last, p, q))
  {
    AppendKeepsOrder(queue, more, p, q);
    var all := queue + more;
    var k := Index(all, p);
    if k > 0 {
      assert forall j :: 0 <= j < k ==> all[1..][j] == all[j + 1];
      AheadAt(all[1..], k - 1, p, q);
      AppendKeepsOrder(all[1..], last, p, q);
    }
  }

  lemma StartOrder(s: Sched, c: Call, p: nat, q: nat)
    requires Inv(s) && Starts(s, c) && c != TerminateThread(MAIN_ID) && Ahead(s.ready, p, q)
    ensures var r := Do(s, c).s; r.running != q && (r.running == p || Ahead(r.ready, p, q))
  {
    RoundRobin(s, c);
    PopKeepsOrder(s.ready, Wakers(s.threads), if c == Tick then [s.running] else [], p, q);
  }

  // Calls that start no quantum never change the order of two threads in the queue; in particular a
  // block or a termination closes the gap it leaves.
  lemma OrderIsKept(s: Sched, c: Call, p: nat, q: nat)
    requires Inv(s) && !Starts(s, c) && c != TerminateThread(MAIN_ID)
    requires p in s.ready && q in s.ready && p in Do(s, c).s.ready && q in Do(s, c).s.ready
    ensures Ahead(Do(s, c).s.ready, p, q) <==> Ahead(s.ready, p, q)
  {
    StillQueued(s, c, p);
    StillQueued(s, c, q);
    if Ahead(s.ready, p, q) {
      QuietOrder(s, c, p, q);
    } else if p != q {
      QuietOrder(s, c, q, p);
    }
  }

  lemma StillQueued(s: Sched, c: Call, p: nat)
    requires Inv(s) && c != TerminateThread(MAIN_ID) && p in s.ready && p in Do(s, c).s.ready
    ensures !Kills(c, p) && (c == BlockThread(p) ==> p == MAIN_ID)
  {
    if c == TerminateThread(p) {
      TerminateRemoves(s, p);
    } else if c == BlockThread(p) {
      BlockTakesOut(s, p);
    }
  }

  // ---- every run ----

  // Main result on fairness: while a queued thread waits, no thread behind it and no thread that
  // queues later is given a quantum or gets in front of it.
  lemma {:induction false} NobodyOvertakes(s: Sched, cs: seq<Call>, p: nat, q: nat)
    requires Inv(s) && Goes(cs) && Undisturbed(cs, p) && RunsOf(s, cs, p) == 0
    requires Ahead(s.ready, p, q)
    ensures RunsOf(s, cs, q) == 0 && Ahead(Exec(s, cs).ready, p, q)
    ensures Exec(s, cs).running == q ==> StartsIn(s, cs) == 0 && s.running == q
  {
    if cs != [] {
      var m, c := Exec(s, cs[..|cs| - 1]), cs[|cs| - 1];
      NobodyOvertakes(s, cs[..|cs| - 1], p, q);
      if Starts(m, c) {
        StartOrder(m, c, p, q);
      } else {
        QuietOrder(m, c, p, q);
        QuietThread(m, c, MAIN_ID);
      }
    }
  }
}
