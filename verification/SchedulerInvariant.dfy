// What every call and tick keeps: each live thread is in exactly one place, and the ids are tidy.
module SchedulerInvariant {
  import opened Wrappers
  import opened Scheduler

  ghost predicate Distinct(q: seq<nat>) {
    forall i, j :: 0 <= i < j < |q| ==> q[i] != q[j]
  }

  ghost predicate SleepFits(t: Tcb) {
    t.sleepDuration >= 0 && (t.sleeping <==> t.sleepDuration >= 1)
  }

  // The state says where the thread is: running, queued, asleep, or blocked (asleep or not).
  ghost predicate Placed(s: Sched, id: nat)
    requires Live(s.threads, id)
  {
    var t := s.threads[id].value;
    && (id == s.running <==> t.state == Running)
    && (id in s.ready <==> t.state == Ready)
    && SleepFits(t)
    && (t.sleeping ==> t.state == Asleep || t.state == Blocked)
    && (t.state == Asleep ==> t.sleeping)
  }

  // Main is never blocked, asleep or dead.
  ghost predicate MainIsUp(s: Sched) {
    Live(s.threads, MAIN_ID) && (s.threads[MAIN_ID].value.state == Running || s.threads[MAIN_ID].value.state == Ready)
  }

  function LiveCount(ts: Table): nat {
    if ts == [] then 0 else LiveCount(ts[..|ts| - 1]) + if ts[|ts| - 1].Some? then 1 else 0
  }

  lemma {:induction false} LiveCountUpdate(ts: Table, id: nat, t: Option<Tcb>)
    requires id < |ts|
    ensures LiveCount(ts[id := t]) == LiveCount(ts) - (if ts[id].Some? then 1 else 0) + (if t.Some? then 1 else 0)
    ensures ts[id].Some? ==> LiveCount(ts) > 0
  {
    var n := |ts| - 1;
    if id < n {
      assert ts[id := t][..n] == ts[..n][id := t];
      LiveCountUpdate(ts[..n], id, t);
    } else {
      assert ts[id := t][..n] == ts[..n];
    }
  }

  lemma {:induction false} SameLiveCount(ts: Table, ts': Table)
    requires |ts| == |ts'| && forall i :: 0 <= i < |ts| ==> ts[i].Some? == ts'[i].Some?
    ensures LiveCount(ts) == LiveCount(ts')
  {
    if ts != [] {
      SameLiveCount(ts[..|ts| - 1], ts'[..|ts| - 1]);
    }
  }

  lemma {:induction false} NobodyLive(ts: Table)
    requires forall i :: 0 <= i < |ts| ==> ts[i].None?
    ensures LiveCount(ts) == 0
  {
    if ts != [] {
      NobodyLive(ts[..|ts| - 1]);
    }
  }

  // The live ids and the freed ids are disjoint and together an initial segment of the ids.
  ghost predicate IdsInv(s: Sched) {
    && s.count == LiveCount(s.threads)
    && Ascending(s.unused)
    && s.count + |s.unused| <= |s.threads|
    && (forall i :: 0 <= i < |s.unused| ==> s.unused[i] < s.count + |s.unused|)
    && (forall id: nat :: Live(s.threads, id) <==> id < s.count + |s.unused| && id !in s.unused)
  }

  ghost predicate Others(s: Sched, but: nat) {
    forall id: nat :: Live(s.threads, id) && id != but ==> Placed(s, id)
  }

  ghost predicate Frame(s: Sched) {
    Sound(s) && Distinct(s.ready) && MainIsUp(s) && IdsInv(s)
  }

  ghost predicate Inv(s: Sched) {
    Frame(s) && (forall id: nat :: Live(s.threads, id) ==> Placed(s, id))
  }

  // Between a thread's decision to leave the processor and the switch: only the thread in the
  // running slot may be out of place.
  ghost predicate Leaving(s: Sched) {
    && Frame(s) && Others(s, s.running)
    && s.running !in s.ready
    && var t := s.threads[s.running].value;
       && SleepFits(t)
       && (t.state == Running || (t.state == Blocked && s.running != MAIN_ID) || (t.state == Asleep
          && s.running != MAIN_ID))
       && (t.sleeping <==> t.state == Asleep)
  }

  lemma InitialInv(max: nat)
    requires max >= 1
    ensures Inv(Initial(max))
  {
    var ts := Initial(max).threads;
    NobodyLive(ts[MAIN_ID := None]);
    LiveCountUpdate(ts, MAIN_ID, None);
  }

  // ---- starting a quantum ----

  lemma SameIds(s: Sched, s': Sched)
    requires IdsInv(s) && s'.count == s.count && s'.unused == s.unused && |s'.threads| == |s.threads|
    requires forall i :: 0 <= i < |s.threads| ==> s'.threads[i].Some? == s.threads[i].Some?
    ensures IdsInv(s')
  {
    SameLiveCount(s.threads, s'.threads);
    assert forall id: nat :: Live(s'.threads, id) <==> Live(s.threads, id);
  }

  lemma UpdateKeeps(s: Sched)
    requires Leaving(s) && s.threads[s.running].value.sleepDuration != 1
    ensures Leaving(UpdateSleeping(s))
  {
    var r := UpdateSleeping(s);
    Updated(s);
    SameIds(s, r);
    WakersAre(s.threads, |s.threads|);
    var w := Wakers(s.threads);
    forall i, j | 0 <= i < j < |r.ready|
      ensures r.ready[i] != r.ready[j]
    {
      if i < |s.ready| <= j {
        assert Wakes(s.threads, w[j - |s.ready|]);
        assert Placed(s, s.ready[i]) && Placed(s, w[j - |s.ready|]);
      }
    }
    forall id: nat | Live(r.threads, id) && id != r.running
      ensures Placed(r, id)
    {
      assert Placed(s, id);
      assert id in r.ready <==> id in s.ready || id in w;
    }
  }

  lemma MainIsQueued(s: Sched)
    requires Leaving(s) && s.running != MAIN_ID
    ensures MAIN_ID in s.ready
  {
    assert Placed(s, MAIN_ID);
  }

  // A switch leaves everybody in place; the thread that still wants the processor goes to the end of
  // the queue.
  lemma PreemptKeeps(s: Sched)
    requires Leaving(s)
    ensures Inv(Preempt(s))
    ensures var stays := s.threads[s.running].value.state == Running;
            if s.ready == [] then Preempt(s).running == s.running && Preempt(s).ready == [] && s.running == MAIN_ID
            else
              && Preempt(s).running == s.ready[0]
              && Preempt(s).ready == s.ready[1..] + (if stays then [s.running] else [])
  {
    var r := Preempt(s);
    if s.ready == [] && s.running != MAIN_ID {
      MainIsQueued(s);
    }
    SameIds(s, r);
    if s.ready != [] {
      assert forall id :: id in s.ready <==> id == s.ready[0] || id in s.ready[1..];
      assert s.ready[1..] + [] == s.ready[1..];
    }
    forall id: nat | Live(r.threads, id)
      ensures Placed(r, id)
    {
      if id != s.running {
        assert Placed(s, id);
      }
    }
  }

  // A quantum start from any state in which a thread may give up the processor.
  lemma StartKeeps(s: Sched)
    requires Leaving(s) && s.threads[s.running].value.sleepDuration != 1
    ensures Inv(StartQuantum(s))
    ensures var stays, q := s.threads[s.running].value.state == Running, s.ready + Wakers(s.threads);
            if q == [] then StartQuantum(s).running == s.running && StartQuantum(s).ready == [] && s.running == MAIN_ID
            else
              && StartQuantum(s).running == q[0]
              && StartQuantum(s).ready == q[1..] + (if stays then [s.running] else [])
  {
    UpdateKeeps(s);
    Updated(s);
    var p := Preempt(UpdateSleeping(s));
    PreemptKeeps(UpdateSleeping(s));
    AnyTotal(p, p.total + 1);
  }

  lemma AnyTotal(s: Sched, total: int)
    requires Inv(s)
    ensures Inv(s.(total := total))
  {
    var r := s.(total := total);
    SameIds(s, r);
    forall id: nat | Live(r.threads, id)
      ensures Placed(r, id)
    {
      assert Placed(s, id);
    }
  }

  lemma InvLeaving(s: Sched)
    requires Inv(s)
    ensures Leaving(s) && s.threads[s.running].value.state == Running
    ensures s.threads[s.running].value.sleepDuration == 0
  {
    assert Placed(s, s.running);
  }

  // ---- the heap ----

  lemma {:induction false} PushKeeps(h: seq<nat>, id: nat)
    requires Ascending(h) && id !in h
    ensures Ascending(Push(h, id)) && |Push(h, id)| == |h| + 1
    ensures forall x :: x in Push(h, id) <==> x == id || x in h
  {
    if h != [] && id > h[0] {
      PushKeeps(h[1..], id);
      assert h == [h[0]] + h[1..];
      var p := Push(h[1..], id);
      forall j | 0 <= j < |p|
        ensures h[0] < p[j]
      {
        assert p[j] in p;
      }
    }
  }

  lemma RemoveIds(s: Sched, tid: nat)
    requires IdsInv(s) && Live(s.threads, tid)
    ensures IdsInv(Remove(s, tid))
  {
    PushKeeps(s.unused, tid);
    LiveCountUpdate(s.threads, tid, None);
    var r := Remove(s, tid);
    assert forall id: nat :: Live(r.threads, id) <==> Live(s.threads, id) && id != tid;
    assert forall i :: 0 <= i < |r.unused| ==> r.unused[i] in r.unused;
  }

  // ---- removing a thread ----

  lemma ErasedQueue(q: seq<nat>, id: nat)
    requires Distinct(q) && id in q
    ensures Distinct(Erase(q, id))
    ensures forall x :: x in Erase(q, id) <==> x in q && x != id
    ensures Erase(q, id) == q[..Index(q, id)] + q[Index(q, id) + 1..]
  {
    var i := Index(q, id);
    assert q == q[..i] + [id] + q[i + 1..];
    assert id !in q[i + 1..];
  }

  lemma RemoveKeeps(s: Sched, tid: nat)
    requires Frame(s) && Others(s, tid) && Live(s.threads, tid)
    requires tid !in s.ready && tid != s.running && tid != MAIN_ID
    ensures Inv(Remove(s, tid))
  {
    RemoveIds(s, tid);
    var r := Remove(s, tid);
    forall id: nat | Live(r.threads, id)
      ensures Placed(r, id)
    {
      assert Placed(s, id);
    }
  }

  lemma EraseKeepsOthers(s: Sched, tid: nat)
    requires Inv(s) && tid in s.ready
    ensures var r := s.(ready := Erase(s.ready, tid));
            Frame(r) && Others(r, tid) && tid !in r.ready && tid != r.running
  {
    ErasedQueue(s.ready, tid);
    var r := s.(ready := Erase(s.ready, tid));
    SameIds(s, r);
    assert Placed(s, tid);
    forall i | 0 <= i < |r.ready|
      ensures Live(s.threads, r.ready[i])
    {
      assert r.ready[i] in r.ready;
    }
    forall id: nat | Live(r.threads, id) && id != tid
      ensures Placed(r, id)
    {
      assert Placed(s, id);
    }
  }

  // ---- the calls ----

  lemma SelfSwitch(s: Sched)
    requires Inv(s) && s.running != MAIN_ID
    ensures s.ready != []
    ensures StartQuantum(s).ready == (s.ready + Wakers(s.threads))[1..] + [s.running]
    ensures StartQuantum(s).running == s.ready[0] && Inv(StartQuantum(s))
  {
    InvLeaving(s);
    MainIsQueued(s);
    StartKeeps(s);
  }

  // produce_id returns the least id that is not live.
  lemma ProducedId(s: Sched)
    requires IdsInv(s) && s.count != |s.threads|
    ensures var id := ProduceId(s.unused, s.count).0;
            0 <= id < |s.threads| && !Live(s.threads, id) && forall j :: 0 <= j < id ==> Live(s.threads, j)
  {
    var id := ProduceId(s.unused, s.count).0;
    if s.unused != [] {
      assert s.unused[0] in s.unused;
      forall j | 0 <= j < id
        ensures Live(s.threads, j)
      {
        assert j !in s.unused;
      }
    }
  }

  lemma ProducedIds(s: Sched, ts: Table, t: Tcb)
    requires IdsInv(s) && s.count != |s.threads|
    requires 0 <= ProduceId(s.unused, s.count).0 < |s.threads|
    requires ts == s.threads[ProduceId(s.unused, s.count).0 := Some(t)]
    ensures IdsInv(s.(threads := ts, unused := ProduceId(s.unused, s.count).1, count := s.count + 1))
  {
    ProducedId(s);
    var (id, unused) := ProduceId(s.unused, s.count);
    LiveCountUpdate(s.threads, id, Some(t));
    assert forall x: nat :: Live(ts, x) <==> Live(s.threads, x) || x == id;
    if s.unused != [] {
      assert s.unused == [s.unused[0]] + unused;
      assert id !in unused;
    }
  }

  lemma SpawnKeeps(s: Sched, nullEntry: bool)
    requires Inv(s)
    ensures Inv(Spawn(s, nullEntry).s)
  {
    var r, id := Spawn(s, nullEntry).s, Spawn(s, nullEntry).code;
    if s.count != |s.threads| && !nullEntry {
      ProducedId(s);
      ProducedIds(s, r.threads, Tcb(Ready, 0, 0, false));
      assert IdsInv(r);
      forall x: nat | Live(r.threads, x)
        ensures Placed(r, x)
      {
        if x != id {
          assert Placed(s, x);
        }
      }
    }
  }

  // A thread that terminates itself is switched out to the end of the queue, and that is the entry
  // that pop_back removes.
  lemma SelfTerminateKeeps(s: Sched)
    requires Inv(s) && s.running != MAIN_ID
    ensures StartQuantum(s).ready != [] && Live(StartQuantum(s).threads, s.running)
    ensures var p, q := StartQuantum(s), (s.ready + Wakers(s.threads))[1..];
            p.ready == q + [s.running] && Terminate(s, s.running).s == Remove(p.(ready := q), s.running)
    ensures Inv(Terminate(s, s.running).s)
  {
    SelfSwitch(s);
    Updated(s);
    var tid, p := s.running, StartQuantum(s);
    var q := p.(ready := (s.ready + Wakers(s.threads))[1..]);
    assert p.ready[..|p.ready| - 1] == q.ready && p.ready[|p.ready| - 1] == tid;
    SameIds(p, q);
    forall id: nat | Live(q.threads, id) && id != tid
      ensures Placed(q, id)
    {
      assert Placed(p, id);
    }
    assert Placed(p, tid);
    RemoveKeeps(q, tid);
  }

  // Unless it ends the process.
  lemma TerminateKeeps(s: Sched, tid: int)
    requires Inv(s)
    requires tid == s.running && Live(s.threads, tid) && tid != MAIN_ID ==> StartQuantum(s).ready != []
    ensures Terminate(s, tid).Outcome? ==> Inv(Terminate(s, tid).s)
  {
    if !Live(s.threads, tid) || tid == MAIN_ID {
    } else if tid == s.running {
      SelfTerminateKeeps(s);
    } else if tid in s.ready {
      EraseKeepsOthers(s, tid);
      RemoveKeeps(s.(ready := Erase(s.ready, tid)), tid);
    } else {
      assert Placed(s, tid);
      RemoveKeeps(s, tid);
    }
  }

  // Terminating main deletes every thread.
  lemma {:induction false} Released(s: Sched, n: nat)
    requires n <= |s.threads|
    ensures var r := Release(s, n);
            && (forall i :: 0 <= i < |s.threads| ==> r.threads[i] == if i < n then None else s.threads[i])
            && r.count == s.count - LiveCount(s.threads) + LiveCount(r.threads)
  {
    if n > 0 {
      Released(s, n - 1);
      LiveCountUpdate(Release(s, n - 1).threads, n - 1, None);
    }
  }

  lemma BlockKeeps(s: Sched, tid: int)
    requires Inv(s)
    ensures Inv(Block(s, tid).s)
  {
    if Live(s.threads, tid) && tid != MAIN_ID {
      assert Placed(s, tid);
      if tid == s.running {
        var b := s.(threads := SetState(s.threads, tid, Blocked));
        SetStateLeaves(s, Blocked, 0, false);
        StartKeeps(b);
      } else {
        var r := Block(s, tid).s;
        SameIds(s, r);
        if tid in s.ready {
          EraseKeepsOthers(s, tid);
        }
        forall id: nat | Live(r.threads, id)
          ensures Placed(r, id)
        {
          assert Placed(s, id);
        }
      }
    }
  }

  // The running thread, other than main, marks itself blocked or asleep.
  lemma SetStateLeaves(s: Sched, st: State, duration: nat, sleeping: bool)
    requires Inv(s) && s.running != MAIN_ID
    requires (st == Blocked && !sleeping && duration == 0) || (st == Asleep && sleeping && duration >= 1)
    ensures var t := s.threads[s.running].value.(state := st, sleepDuration := duration, sleeping := sleeping);
            Leaving(s.(threads := s.threads[s.running := Some(t)]))
    ensures !sleeping ==> s.threads[s.running].value.sleepDuration == 0 && !s.threads[s.running].value.sleeping
  {
    InvLeaving(s);
    var t := s.threads[s.running].value.(state := st, sleepDuration := duration, sleeping := sleeping);
    var r := s.(threads := s.threads[s.running := Some(t)]);
    SameIds(s, r);
    forall id: nat | Live(r.threads, id) && id != r.running
      ensures Placed(r, id)
    {
      assert Placed(s, id);
    }
  }

  lemma ResumeKeeps(s: Sched, tid: int)
    requires Inv(s)
    ensures Inv(Resume(s, tid).s)
  {
    if Live(s.threads, tid) {
      assert Placed(s, tid) && Placed(s, MAIN_ID);
      var r := Resume(s, tid).s;
      SameIds(s, r);
      forall id: nat | Live(r.threads, id)
        ensures Placed(r, id)
      {
        assert Placed(s, id);
      }
    }
  }

  lemma SleepKeeps(s: Sched, quantums: int)
    requires Inv(s)
    ensures Inv(Sleep(s, quantums).s)
  {
    if quantums > 0 && s.running != MAIN_ID {
      SetStateLeaves(s, Asleep, quantums + 1, true);
      var t := s.threads[s.running].value.(sleepDuration := quantums + 1, sleeping := true, state := Asleep);
      StartKeeps(s.(threads := s.threads[s.running := Some(t)]));
    }
  }
}
