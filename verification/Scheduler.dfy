// The bookkeeping of the user-level thread library as a value, and each library call and timer tick
// as a function on it.
module Scheduler {
  import opened Wrappers

  const MAIN_ID := 0
  const SUCCESS := 0
  const ERROR := -1

  datatype State = Ready | Running | Blocked | Asleep

  datatype Tcb = Tcb(state: State, quantums: int, sleepDuration: int, sleeping: bool)

  type Table = seq<Option<Tcb>>

  // threads is the table of all MAX_THREAD_NUM ids, ready the deque (front first), unused the heap of
  // freed ids (smallest first), count the number of Thread objects.
  datatype Sched = Sched(threads: Table, ready: seq<nat>, running: nat, unused: seq<nat>, count: int, total: int)

  // What a call leaves and returns; terminating main ends the process instead.
  datatype Outcome = Outcome(s: Sched, code: int) | Exited(s: Sched)

  predicate Live(ts: Table, id: int) {
    0 <= id < |ts| && ts[id].Some?
  }

  // No call reaches outside the table or through a null pointer.
  ghost predicate Sound(s: Sched) {
    Live(s.threads, s.running) && forall i :: 0 <= i < |s.ready| ==> Live(s.threads, s.ready[i])
  }

  function SetState(ts: Table, id: nat, st: State): Table
    requires Live(ts, id)
  {
    ts[id := Some(ts[id].value.(state := st))]
  }

  function IncreaseQuantums(ts: Table, id: nat): Table
    requires Live(ts, id)
  {
    ts[id := Some(ts[id].value.(quantums := ts[id].value.quantums + 1))]
  }

  // preempt
  function Preempt(s: Sched): (r: Sched)
    requires Sound(s)
    ensures Sound(r)
  {
    if s.ready == [] then
      s.(threads := IncreaseQuantums(s.threads, s.running))
    else
      var next := s.ready[0];
      var ts := SetState(s.threads, next, Running);
      if !ts[s.running].value.sleeping && ts[s.running].value.state != Blocked then
        s.(threads := IncreaseQuantums(SetState(ts, s.running, Ready), next), ready := s.ready[1..] + [s.running],
           running := next)
      else
        s.(threads := IncreaseQuantums(ts, next), ready := s.ready[1..], running := next)
  }

  // One round of the loop of update_sleeping_threads.
  function UpdateOne(s: Sched, id: nat): (r: Sched)
    requires id < |s.threads|
    ensures |r.threads| == |s.threads|
  {
    if !Live(s.threads, id) || !s.threads[id].value.sleeping then s
    else
      var t := s.threads[id].value;
      if t.sleepDuration - 1 != 0 then
        s.(threads := s.threads[id := Some(t.(sleepDuration := t.sleepDuration - 1))])
      else if t.state == Blocked then
        s.(threads := s.threads[id := Some(t.(sleepDuration := 0, sleeping := false))])
      else
        s.(threads := s.threads[id := Some(t.(sleepDuration := 0, sleeping := false, state := Ready))],
           ready := s.ready + [id])
  }

  // The first n rounds.
  function UpdateSleepingTo(s: Sched, n: nat): (r: Sched)
    requires n <= |s.threads|
    ensures |r.threads| == |s.threads|
  {
    if n == 0 then s else UpdateOne(UpdateSleepingTo(s, n - 1), n - 1)
  }

  function UpdateSleeping(s: Sched): (r: Sched) {
    UpdateSleepingTo(s, |s.threads|)
  }

  // What update_sleeping_threads makes of one thread, and whether it queues it.
  function Rested(t: Tcb): Tcb {
    if !t.sleeping then t
    else if t.sleepDuration != 1 then t.(sleepDuration := t.sleepDuration - 1)
    else t.(sleepDuration := 0, sleeping := false, state := if t.state == Blocked then Blocked else Ready)
  }

  predicate Wakes(ts: Table, id: int) {
    Live(ts, id) && ts[id].value.sleeping && ts[id].value.sleepDuration == 1 && ts[id].value.state != Blocked
  }

  // The ids below n that wake, in the order in which they join the queue.
  function WakersTo(ts: Table, n: nat): seq<nat>
    requires n <= |ts|
  {
    if n == 0 then []
    else if Wakes(ts, n - 1) then WakersTo(ts, n - 1) + [n - 1]
    else WakersTo(ts, n - 1)
  }

  function Wakers(ts: Table): seq<nat> {
    WakersTo(ts, |ts|)
  }

  lemma {:induction false} UpdatedTo(s: Sched, n: nat)
    requires n <= |s.threads|
    ensures UpdateSleepingTo(s, n) == s.(threads := UpdateSleepingTo(s, n).threads,
            ready := s.ready + WakersTo(s.threads, n))
    ensures forall i :: 0 <= i < |s.threads| ==>
              UpdateSleepingTo(s, n).threads[i] ==
              if i < n && s.threads[i].Some? then Some(Rested(s.threads[i].value)) else s.threads[i]
  {
    if n > 0 {
      UpdatedTo(s, n - 1);
      assert s.ready + WakersTo(s.threads, n - 1) + [n - 1] == s.ready + (WakersTo(s.threads, n - 1) + [n - 1]);
    } else {
      assert s.ready + [] == s.ready;
    }
  }

  lemma {:induction false} WakersAre(ts: Table, n: nat)
    requires n <= |ts|
    ensures forall i :: 0 <= i < |WakersTo(ts, n)| ==> WakersTo(ts, n)[i] < n && Wakes(ts, WakersTo(ts, n)[i])
    ensures forall id :: 0 <= id < n && Wakes(ts, id) ==> id in WakersTo(ts, n)
    ensures forall i, j :: 0 <= i < j < |WakersTo(ts, n)| ==> WakersTo(ts, n)[i] < WakersTo(ts, n)[j]
  {
    if n > 0 {
      WakersAre(ts, n - 1);
    }
  }

  // Main fact about update_sleeping_threads: every sleeper gets one step closer, those that arrive
  // and are not blocked join the end of the queue in order of id, and nothing else changes.
  lemma Updated(s: Sched)
    ensures var r := UpdateSleeping(s);
            && r == s.(threads := r.threads, ready := s.ready + Wakers(s.threads)) && |r.threads| == |s.threads|
            && forall i :: 0 <= i < |s.threads| ==>
                 r.threads[i] == if s.threads[i].Some? then Some(Rested(s.threads[i].value)) else None
  {
    UpdatedTo(s, |s.threads|);
  }

  lemma UpdatedIsSound(s: Sched)
    requires Sound(s)
    ensures Sound(UpdateSleeping(s))
  {
    Updated(s);
    WakersAre(s.threads, |s.threads|);
  }

  // A quantum starts: update_sleeping_threads; preempt; ++total_quantums.
  function StartQuantum(s: Sched): (r: Sched)
    requires Sound(s)
    ensures Sound(r)
  {
    UpdatedIsSound(s);
    var p := Preempt(UpdateSleeping(s));
    p.(total := p.total + 1)
  }

  // ---- the heap of freed ids ----

  predicate Ascending(h: seq<nat>) {
    forall i, j :: 0 <= i < j < |h| ==> h[i] < h[j]
  }

  function Push(h: seq<nat>, id: nat): seq<nat> {
    if h == [] || id <= h[0] then [id] + h else [h[0]] + Push(h[1..], id)
  }

  // ---- the library calls ----

  function Initial(max: nat): Sched
    requires max >= 1
  {
    Sched(seq(max, i => if i == MAIN_ID then Some(Tcb(Running, 1, 0, false)) else None), [], MAIN_ID, [], 1, 1)
  }

  // produce_id: the id, and the heap without it.
  function ProduceId(unused: seq<nat>, count: int): (int, seq<nat>) {
    if unused == [] then (count, unused) else (unused[0], unused[1..])
  }

  function Spawn(s: Sched, nullEntry: bool): Outcome
    requires s.count != |s.threads| ==> 0 <= ProduceId(s.unused, s.count).0 < |s.threads|
  {
    if s.count == |s.threads| || nullEntry then Outcome(s, ERROR)
    else
      var (id, unused) := ProduceId(s.unused, s.count);
      Outcome(s.(threads := s.threads[id := Some(Tcb(Ready, 0, 0, false))], ready := s.ready + [id], unused := unused,
                 count := s.count + 1), id)
  }

  // terminate_thread; deleting a null pointer is no error.
  function Remove(s: Sched, tid: nat): (r: Sched)
    requires tid < |s.threads|
    ensures |r.threads| == |s.threads|
  {
    s.(threads := s.threads[tid := None], unused := Push(s.unused, tid),
       count := if s.threads[tid].Some? then s.count - 1 else s.count)
  }

  // terminate_thread for the first n ids.
  function Release(s: Sched, n: nat): (r: Sched)
    requires n <= |s.threads|
    ensures |r.threads| == |s.threads|
  {
    if n == 0 then s else Remove(Release(s, n - 1), n - 1)
  }

  function Index(q: seq<nat>, id: nat): (i: nat)
    ensures i <= |q|
    ensures i < |q| ==> q[i] == id
    ensures i < |q| <==> id in q
    ensures forall j :: 0 <= j < i ==> q[j] != id
  {
    if q == [] || q[0] == id then 0 else 1 + Index(q[1..], id)
  }

  // std::find, then erase.
  function Erase(q: seq<nat>, id: nat): seq<nat> {
    var i := Index(q, id);
    if i < |q| then q[..i] + q[i + 1..] else q
  }

  function Terminate(s: Sched, tid: int): Outcome
    requires Sound(s)
    requires tid == s.running && Live(s.threads, tid) && tid != MAIN_ID ==> StartQuantum(s).ready != []
  {
    if !Live(s.threads, tid) then Outcome(s, ERROR)
    else if tid == MAIN_ID then Exited(Release(s, |s.threads|))
    else if tid == s.running then
      UpdatedIsSound(s);
      Updated(s);
      var p := Preempt(UpdateSleeping(s));
      var q := Remove(p.(ready := p.ready[..|p.ready| - 1]), tid);
      Outcome(q.(total := q.total + 1), SUCCESS)
    else if tid in s.ready then Outcome(Remove(s.(ready := Erase(s.ready, tid)), tid), SUCCESS)
    else if s.threads[tid].value.state == Blocked || s.threads[tid].value.sleeping then Outcome(Remove(s, tid), SUCCESS)
    else Outcome(s, SUCCESS)
  }

  function Block(s: Sched, tid: int): Outcome
    requires Sound(s)
  {
    if !Live(s.threads, tid) || tid == MAIN_ID then Outcome(s, ERROR)
    else if tid == s.running then
      Outcome(StartQuantum(s.(threads := SetState(s.threads, tid, Blocked))), SUCCESS)
    else
      var s1 := if s.threads[tid].value.state == Ready
                then s.(threads := SetState(s.threads, tid, Blocked), ready := Erase(s.ready, tid)) else s;
      if s1.threads[tid].value.sleeping then Outcome(s1.(threads := SetState(s1.threads, tid, Blocked)), SUCCESS)
      else Outcome(s1, SUCCESS)
  }

  function Resume(s: Sched, tid: int): Outcome {
    if !Live(s.threads, tid) then Outcome(s, ERROR)
    else
      var t := s.threads[tid].value;
      var s1 := if t.state == Blocked && !t.sleeping
                then s.(threads := SetState(s.threads, tid, Ready), ready := s.ready + [tid]) else s;
      if s1.threads[tid].value.sleeping then Outcome(s1.(threads := SetState(s1.threads, tid, Asleep)), SUCCESS)
      else Outcome(s1, SUCCESS)
  }

  function Sleep(s: Sched, quantums: int): Outcome
    requires Sound(s)
  {
    if quantums <= 0 || s.running == MAIN_ID then Outcome(s, ERROR)
    else
      var t := s.threads[s.running].value.(sleepDuration := quantums + 1, sleeping := true, state := Asleep);
      Outcome(StartQuantum(s.(threads := s.threads[s.running := Some(t)])), SUCCESS)
  }

  function GetQuantums(s: Sched, tid: int): int {
    if !Live(s.threads, tid) then ERROR else s.threads[tid].value.quantums
  }
}
