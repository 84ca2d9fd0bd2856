// Every job ends, and ends well.
module JobOutcome {
  import opened JobSteps
  import opened JobInvariant
  import opened JobResults
  import opened JobTermination

  ghost predicate CanStep(c: Config, s: Job) {
    exists t: nat, a: Action :: Enabled(c, s, t, a)
  }

  // Some thread makes a step whenever one can; which one, and which step, is open.
  ghost predicate PressesOn(c: Config, run: nat -> Job) {
    forall k: nat :: if CanStep(c, run(k)) then Next(c, run(k), run(k + 1)) else run(k + 1) == run(k)
  }

  lemma {:induction false} InvAlong(c: Config, run: nat -> Job, k: nat)
    requires c.Valid() && Initial(c, run(0)) && PressesOn(c, run)
    ensures JobInv(c, run(k))
  {
    if k == 0 {
      InitialInv(c, run(0));
    } else {
      InvAlong(c, run, k - 1);
      assert run(k) == run(k - 1 + 1);
      if CanStep(c, run(k - 1)) {
        NextKeeps(c, run(k - 1), run(k));
      }
    }
  }

  // Main result: however the threads are scheduled, after finitely many steps all of them have
  // returned, and then the job is complete.
  lemma EveryJobCompletes(c: Config, run: nat -> Job) returns (k: nat)
    requires c.Valid() && Initial(c, run(0)) && PressesOn(c, run)
    ensures AllDone(run(k)) && IsComplete(c, run(k))
  {
    NoInfiniteRun(c, run);
    k :| !Next(c, run(k), run(k + 1));
    InvAlong(c, run, k);
    if !AllDone(run(k)) {
      var t, a := CanStepUnlessDone(c, run(k));
      assert CanStep(c, run(k));
    }
    DoneIsComplete(c, run(k));
  }
}
