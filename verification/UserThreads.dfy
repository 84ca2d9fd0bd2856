// The thread library as it is: a table of thread objects, a deque of the ready ones and a pointer to
// the running one, changed in place by every call.
module UserThreads {
  import opened Wrappers
  import opened Scheduler
  import opened SchedulerInvariant
  import SchedulerRuns
  import opened SchedulerGuarantees

  class Thread {
    const id: nat
    var state: State
    var quantums: int
    var sleepDuration: int
    var isSleeping: bool

    constructor (id: nat, state: State)
      ensures this.id == id && View() == Tcb(state, 0, 0, false)
    {
      this.id := id;
      this.state, quantums, sleepDuration, isSleeping := state, 0, 0, false;
    }

    ghost function View(): Tcb
      reads this
    {
      Tcb(state, quantums, sleepDuration, isSleeping)
    }

    method SetState(newState: State)
      modifies this
      ensures View() == old(View()).(state := newState)
    {
      state := newState;
    }

    method IncreaseQuantums()
      modifies this
      ensures View() == old(View()).(quantums := old(quantums) + 1)
    {
      quantums := quantums + 1;
    }

    method SetIsSleeping(sleeping: bool)
      modifies this
      ensures View() == old(View()).(sleeping := sleeping)
    {
      isSleeping := sleeping;
    }

    method SetSleepDuration(duration: int)
      modifies this
      ensures View() == old(View()).(sleepDuration := duration)
    {
      sleepDuration := duration;
    }

    method DecreaseSleepDuration()
      modifies this
      ensures View() == old(View()).(sleepDuration := old(sleepDuration) - 1)
    {
      sleepDuration := sleepDuration - 1;
    }
  }

  class ThreadsData {
    const threads: array<Thread?>
    var unusedIds: seq<nat> // a min-heap; top is the first
    var readyThreads: seq<Thread>
    var runningThread: Thread
    var count: int // Thread::count
    var totalQuantums: int

    ghost function Objects(): set<Thread?>
      reads this, threads
    {
      set t | t in threads[..]
    }

    // Every pointer leads to the live thread of its id.
    ghost predicate InTable(t: Thread)
      reads this, threads
    {
      t.id < threads.Length && threads[t.id] == t
    }

    ghost predicate Valid()
      reads this, threads
    {
      && (forall i :: 0 <= i < threads.Length && threads[i] != null ==> threads[i].id == i)
      && InTable(runningThread)
      && forall i :: 0 <= i < |readyThreads| ==> InTable(readyThreads[i])
    }

    ghost function Table(): (r: Scheduler.Table)
      reads this, threads, Objects()
      ensures |r| == threads.Length
      ensures forall i :: 0 <= i < |r| ==> r[i] == if threads[i] == null then None else Some(threads[i].View())
    {
      seq(threads.Length, i requires 0 <= i < threads.Length reads this, threads, Objects() =>
        if threads[i] == null then None else Some(threads[i].View()))
    }

    ghost function Ids(q: seq<Thread>): (r: seq<nat>)
      ensures |r| == |q| && forall i :: 0 <= i < |q| ==> r[i] == q[i].id
    {
      seq(|q|, i requires 0 <= i < |q| => q[i].id)
    }

    ghost function View(): Sched
      reads this, threads, Objects()
    {
      Sched(Table(), Ids(readyThreads), runningThread.id, unusedIds, count, totalQuantums)
    }

    // uthread_init for a table of max entries: main, the only thread, is in its first quantum.
    constructor (max: nat)
      requires max >= 1
      ensures Valid() && View() == Initial(max)
      ensures threads.Length == max && threads[0] == runningThread && runningThread.View() == Tcb(Running, 1, 0, false)
      ensures forall i :: 1 <= i < max ==> threads[i] == null
      ensures readyThreads == [] && unusedIds == [] && count == 1 && totalQuantums == 1
      ensures fresh(threads) && fresh(Objects() - {null})
    {
      threads := new Thread?[max](_ => null);
      unusedIds, readyThreads, count, totalQuantums := [], [], 1, 1;
      var main := new Thread(MAIN_ID, Running);
      runningThread := main;
      new;
      threads[MAIN_ID] := main;
      main.IncreaseQuantums();
      assert Table() == Initial(max).threads;
      assert Ids([]) == [];
    }

    // produce_id
    method ProduceId() returns (id: int)
      modifies this`unusedIds
      ensures (id, unusedIds) == Scheduler.ProduceId(old(unusedIds), count)
    {
      if unusedIds == [] {
        id := count;
      } else {
        id := unusedIds[0];
        unusedIds := unusedIds[1..];
      }
    }

    method SetStateOf(t: Thread, state: State)
      requires Valid() && InTable(t)
      modifies t
      ensures Valid() && View() == old(View()).(threads := Scheduler.SetState(old(View()).threads, t.id, state))
      ensures t.View() == old(t.View()).(state := state)
    {
      t.SetState(state);
      assert Table() == Scheduler.SetState(old(View()).threads, t.id, state);
    }

    // preempt
    method Preempt()
      requires Valid() && Sound(View())
      modifies this`runningThread, this`readyThreads, Objects()
      ensures Valid() && View() == Scheduler.Preempt(old(View()))
    {
      if readyThreads != [] {
        var thread := runningThread;
        PopFront();
        if !thread.isSleeping && thread.state != Blocked {
          SetStateOf(thread, Ready);
          PushBack(thread);
        }
      }
      runningThread.IncreaseQuantums();
      assert Table() == Scheduler.Preempt(old(View())).threads;
    }

    // The front of the deque becomes the running thread.
    method PopFront()
      requires Valid() && readyThreads != []
      modifies this`runningThread, this`readyThreads, readyThreads[0]
      ensures Valid() && runningThread == old(readyThreads[0])
      ensures var s, next := old(View()), old(readyThreads[0].id);
              View() == s.(threads := Scheduler.SetState(s.threads, next, Running), ready := s.ready[1..],
                running := next)
    {
      ghost var q := Ids(readyThreads);
      runningThread := readyThreads[0];
      SetStateOf(runningThread, Running);
      readyThreads := readyThreads[1..];
      assert Ids(readyThreads) == q[1..];
    }

    method PushBack(t: Thread)
      requires Valid() && InTable(t)
      modifies this`readyThreads
      ensures Valid() && View() == old(View()).(ready := old(View()).ready + [t.id])
    {
      ghost var q := Ids(readyThreads);
      readyThreads := readyThreads + [t];
      assert Ids(readyThreads) == q + [t.id];
    }

    // update_sleeping_threads
    method UpdateSleepingThreads()
      requires Valid()
      modifies this`readyThreads, Objects()
      ensures Valid() && View() == UpdateSleeping(old(View()))
    {
      ghost var s := View();
      for i := 0 to threads.Length
        invariant Valid() && Objects() == old(Objects())
        invariant View() == UpdateSleepingTo(s, i)
      {
        UpdateSleepingThread(i);
      }
    }

    // The body of that loop.
    method UpdateSleepingThread(i: nat)
      requires Valid() && i < threads.Length
      modifies this`readyThreads, threads[i]
      ensures Valid() && View() == UpdateOne(old(View()), i)
    {
      if threads[i] != null && threads[i].isSleeping {
        threads[i].DecreaseSleepDuration();
        if threads[i].sleepDuration == 0 {
          threads[i].SetIsSleeping(false);
          if threads[i].state != Blocked {
            threads[i].SetState(Ready);
            PushBack(threads[i]);
          }
        }
      }
      assert Table() == UpdateOne(old(View()), i).threads;
    }

    method SwitchOut()
      requires Valid() && Sound(View())
      modifies this`runningThread, this`readyThreads, Objects()
      ensures Sound(UpdateSleeping(old(View())))
      ensures Valid() && View() == Scheduler.Preempt(UpdateSleeping(old(View())))
    {
      UpdatedIsSound(View());
      UpdateSleepingThreads();
      Preempt();
    }

    // signal_handler
    method SignalHandler()
      requires Valid() && Sound(View())
      modifies this`runningThread, this`readyThreads, this`totalQuantums, Objects()
      ensures Valid() && View() == StartQuantum(old(View()))
    {
      SwitchOut();
      totalQuantums := totalQuantums + 1;
    }

    // uthread_spawn
    method Spawn(nullEntry: bool) returns (code: int)
      requires Valid() && Inv(View())
      modifies this`unusedIds, this`readyThreads, this`count, threads
      ensures Valid() && Inv(View()) && Outcome(View(), code) == Scheduler.Spawn(old(View()), nullEntry)
      ensures fresh(Objects() - old(Objects()))
    {
      SchedulerRuns.SpawnIsSafe(View(), nullEntry);
      if count == threads.Length || nullEntry {
        return ERROR;
      }
      ProducedId(View());
      code := SpawnThread();
    }

    method SpawnThread() returns (id: int)
      requires Valid() && count != threads.Length
      requires var id := Scheduler.ProduceId(unusedIds, count).0; 0 <= id < threads.Length && !Live(Table(), id)
      modifies this`unusedIds, this`readyThreads, this`count, threads
      ensures Valid() && Outcome(View(), id) == Scheduler.Spawn(old(View()), false)
      ensures fresh(Objects() - old(Objects()))
    {
      id := ProduceId();
      AddThread(id);
    }

    // The new thread object goes into the table and to the end of the deque.
    method AddThread(id: nat)
      requires Valid() && id < threads.Length && threads[id] == null
      modifies this`readyThreads, this`count, threads
      ensures Valid() && fresh(Objects() - old(Objects()))
      ensures View() == old(View()).(threads := old(Table())[id := Some(Tcb(Ready, 0, 0, false))],
                                     ready := old(View()).ready + [id], count := old(count) + 1)
    {
      var thread := new Thread(id, Ready);
      count := count + 1;
      threads[id] := thread;
      readyThreads := readyThreads + [thread];
      assert Table() == old(Table())[id := Some(Tcb(Ready, 0, 0, false))];
      assert Ids(readyThreads) == old(View()).ready + [id];
    }

    // terminate_thread
    method TerminateThread(tid: nat)
      requires tid < threads.Length
      modifies this`unusedIds, this`count, threads
      ensures View() == Remove(old(View()), tid)
      ensures threads[tid] == null && forall i :: 0 <= i < threads.Length && i != tid ==> threads[i] == old(threads[i])
      ensures old(Valid()) && tid != View().running && tid !in View().ready ==> Valid()
      ensures Objects() <= old(Objects()) + {null}
    {
      assert forall i :: 0 <= i < |readyThreads| ==> readyThreads[i].id == View().ready[i];
      if threads[tid] != null { // the destructor
        count := count - 1;
      }
      threads[tid] := null;
      unusedIds := Push(unusedIds, tid);
      assert Table() == Remove(old(View()), tid).threads;
    }

    // The loop over all threads before the process exits.
    method TerminateAll()
      modifies this`unusedIds, this`count, threads
      ensures View() == Release(old(View()), threads.Length)
      ensures forall i :: 0 <= i < threads.Length ==> threads[i] == null
      ensures Objects() <= old(Objects()) + {null}
    {
      for i := 0 to threads.Length
        invariant View() == Release(old(View()), i)
        invariant forall j :: 0 <= j < i ==> threads[j] == null
        invariant Objects() <= old(Objects()) + {null}
      {
        TerminateThread(i);
      }
    }

    // std::find on the deque.
    method Find(t: Thread) returns (i: nat)
      requires Valid() && InTable(t)
      ensures i == Index(Ids(readyThreads), t.id)
      ensures i < |readyThreads| ==> readyThreads[i] == t
      ensures i <= |readyThreads| && (i == |readyThreads| ==> t !in readyThreads)
    {
      i := 0;
      while i < |readyThreads| && readyThreads[i] != t
        invariant i <= |readyThreads|
        invariant forall j :: 0 <= j < i ==> readyThreads[j] != t
      {
        i := i + 1;
      }
      assert forall j :: 0 <= j < i ==> Ids(readyThreads)[j] != t.id;
    }

    method EraseAt(i: nat)
      requires Valid() && i < |readyThreads|
      modifies this`readyThreads
      ensures Valid() && View() == old(View()).(ready := old(View()).ready[..i] + old(View()).ready[i + 1..])
    {
      ghost var q := Ids(readyThreads);
      readyThreads := readyThreads[..i] + readyThreads[i + 1..];
      assert Ids(readyThreads) == q[..i] + q[i + 1..];
    }

    // std::find and erase.
    method EraseReady(t: Thread) returns (found: bool)
      requires Valid() && InTable(t)
      modifies this`readyThreads
      ensures Valid() && View() == old(View()).(ready := Erase(old(View()).ready, t.id))
      ensures found <==> t.id in old(View()).ready
    {
      var i := Find(t);
      found := i < |readyThreads|;
      if found {
        EraseAt(i);
      }
    }

    // uthread_terminate; exited means that the process ends instead of returning.
    method Terminate(tid: int) returns (exited: bool, code: int)
      requires Valid() && Inv(View())
      modifies this, threads, Objects()
      ensures SchedulerRuns.Do(old(View()), SchedulerRuns.TerminateThread(tid)) ==
              if exited then Exited(View()) else Outcome(View(), code)
      ensures !exited ==> Valid() && Inv(View())
      ensures Objects() <= old(Objects()) + {null}
    {
      ghost var s := View();
      SchedulerRuns.TerminateIsSafe(s, tid);
      exited, code := false, SUCCESS;
      if tid < 0 || tid >= threads.Length || threads[tid] == null {
        return false, ERROR;
      }
      if tid == MAIN_ID {
        TerminateAll();
        return true, SUCCESS;
      }
      if tid == runningThread.id {
        RunningLeavesLast(s);
        TerminateSelf();
        return;
      }
      TerminateOther(tid);
    }

    method TerminateOther(tid: nat)
      requires Valid() && Inv(View()) && Live(View().threads, tid) && tid != View().running
               && tid != MAIN_ID
      modifies this`readyThreads, this`unusedIds, this`count, threads
      ensures Valid() && Objects() <= old(Objects()) + {null}
      ensures View() == Scheduler.Terminate(old(View()), tid).s
    {
      ghost var s := View();
      if tid in s.ready {
        ErasedQueue(s.ready, tid);
      }
      var found := EraseReady(threads[tid]);
      if found {
        TerminateThread(tid);
      } else if threads[tid].state == Blocked || threads[tid].isSleeping {
        TerminateThread(tid);
      }
    }

    // The switched-out thread is the last in the queue, and only there.
    ghost predicate LeavesLast(s: Sched)
      requires Sound(s)
    {
      var p := StartQuantum(s);
      p.ready != [] && s.running !in p.ready[..|p.ready| - 1] && p.running != s.running && Live(p.threads, s.running)
    }

    lemma RunningLeavesLast(s: Sched)
      requires Inv(s) && s.running != MAIN_ID
      ensures LeavesLast(s)
    {
      SelfTerminateKeeps(s);
      SelfSwitch(s);
      var p := StartQuantum(s);
      assert p.ready[|p.ready| - 1] == s.running;
      assert Placed(p, s.running);
    }

    lemma SelfTerminated(s: Sched)
      requires Sound(s) && Sound(UpdateSleeping(s)) && LeavesLast(s) && s.running != MAIN_ID
      ensures var p := Scheduler.Preempt(UpdateSleeping(s));
              var q := p.(ready := p.ready[..|p.ready| - 1]);
              && p.ready != [] && s.running !in q.ready && q.running != s.running
                 && Live(q.threads, s.running)
              && var r := Remove(q, s.running);
                 Scheduler.Terminate(s, s.running).s == r.(total := r.total + 1)
    {
      Updated(s);
    }

    method TerminateSelf()
      requires Valid() && Sound(View()) && LeavesLast(View()) && runningThread.id != MAIN_ID
      modifies this, threads, Objects()
      ensures Valid() && Objects() <= old(Objects()) + {null}
      ensures View() == Scheduler.Terminate(old(View()), old(runningThread.id)).s
    {
      ghost var s := View();
      var tid := runningThread.id;
      UpdatedIsSound(s);
      SelfTerminated(s);
      SwitchOut();
      TerminateLast(tid);
    }

    // The last thread of the deque, tid, is deleted and the quantum counted.
    method TerminateLast(tid: nat)
      requires Valid() && readyThreads != [] && tid != runningThread.id && Live(View().threads, tid)
      requires tid !in View().ready[..|readyThreads| - 1]
      modifies this`readyThreads, this`unusedIds, this`count, this`totalQuantums, threads
      ensures Valid() && Objects() <= old(Objects()) + {null}
      ensures var p := old(View());
              var r := Remove(p.(ready := p.ready[..|p.ready| - 1]), tid);
              View() == r.(total := r.total + 1)
    {
      PopBack();
      TerminateThread(tid);
      totalQuantums := totalQuantums + 1;
    }

    method PopBack()
      requires Valid() && readyThreads != []
      modifies this`readyThreads
      ensures Valid() && View() == old(View()).(ready := old(View()).ready[..old(|readyThreads|) - 1])
    {
      ghost var q := Ids(readyThreads);
      readyThreads := readyThreads[..|readyThreads| - 1];
      assert Ids(readyThreads) == q[..|q| - 1];
    }

    // uthread_block
    method Block(tid: int) returns (code: int)
      requires Valid() && Inv(View())
      modifies this, Objects()
      ensures Valid() && Inv(View()) && Outcome(View(), code) == Scheduler.Block(old(View()), tid)
      ensures code == if Live(old(View()).threads, tid) && tid != 0 then 0 else -1
      ensures code == 0 && tid != old(View()).running ==> View().ready == Without(old(View()).ready, tid)
    {
      ghost var s := View();
      BlockTakesOut(s, tid);
      BlockKeeps(s, tid);
      if tid < 0 || tid >= threads.Length {
        return ERROR;
      }
      if tid == 0 {
        return ERROR;
      }
      if threads[tid] == null {
        return ERROR;
      }
      if runningThread.id == tid {
        SetStateOf(runningThread, Blocked);
        SignalHandler();
        return SUCCESS;
      }
      if threads[tid].state == Ready {
        SetStateOf(threads[tid], Blocked);
        var found := EraseReady(threads[tid]);
      }
      if threads[tid].isSleeping {
        SetStateOf(threads[tid], Blocked);
      }
      code := SUCCESS;
    }

    // uthread_resume
    method Resume(tid: int) returns (code: int)
      requires Valid() && Inv(View())
      modifies this`readyThreads, Objects()
      ensures Valid() && Inv(View()) && Outcome(View(), code) == Scheduler.Resume(old(View()), tid)
    {
      ghost var s := View();
      ResumeKeeps(s, tid);
      if tid < 0 || tid >= threads.Length {
        return ERROR;
      }
      if threads[tid] == null {
        return ERROR;
      }
      if threads[tid].state == Blocked && !threads[tid].isSleeping {
        SetStateOf(threads[tid], Ready);
        PushBack(threads[tid]);
      }
      if threads[tid].isSleeping {
        SetStateOf(threads[tid], Asleep);
      }
      code := SUCCESS;
    }

    // uthread_sleep
    method Sleep(numQuantums: int) returns (code: int)
      requires Valid() && Inv(View())
      modifies this, Objects()
      ensures Valid() && Inv(View()) && Outcome(View(), code) == Scheduler.Sleep(old(View()), numQuantums)
      ensures code == if numQuantums > 0 && old(View()).running != 0 then 0 else -1
    {
      ghost var s := View();
      SleepKeeps(s, numQuantums);
      if numQuantums <= 0 {
        return ERROR;
      }
      if runningThread.id == MAIN_ID {
        return ERROR;
      }
      SleepRunning(numQuantums);
      code := SUCCESS;
    }

    method SleepRunning(numQuantums: int)
      requires Valid() && Sound(View()) && numQuantums > 0 && runningThread.id != MAIN_ID
      modifies this, Objects()
      ensures Valid() && View() == Scheduler.Sleep(old(View()), numQuantums).s
    {
      FallAsleep(numQuantums + 1);
      SignalHandler();
    }

    method FallAsleep(duration: int)
      requires Valid()
      modifies runningThread
      ensures var s := old(View());
              var t := old(runningThread.View()).(sleepDuration := duration, sleeping := true, state := Asleep);
              Valid() && View() == s.(threads := s.threads[s.running := Some(t)])
    {
      ghost var ts := Table();
      runningThread.SetSleepDuration(duration);
      runningThread.SetIsSleeping(true);
      runningThread.SetState(Asleep);
      assert Table() == ts[runningThread.id := Some(runningThread.View())];
    }

    // uthread_get_quantums
    method GetQuantums(tid: int) returns (quantums: int)
      requires Valid()
      ensures quantums == Scheduler.GetQuantums(View(), tid)
      ensures quantums == if Live(Table(), tid) then threads[tid].quantums else -1
    {
      if tid < 0 || tid >= threads.Length || threads[tid] == null {
        return ERROR;
      }
      quantums := threads[tid].quantums;
    }
  }
}
