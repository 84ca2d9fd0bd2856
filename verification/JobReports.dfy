// What getJobState can observe during a run.
module JobReports {
  import opened JobWord
  import opened Shuffle
  import opened JobSteps
  import opened JobInvariant
  import opened JobResults

  datatype JobState = JobState(stage: nat, percentage: real)

  // getJobState on a loaded value, with exact division.
  function GetJobState(val: nat): JobState {
    JobState(GetStage(val), Percentage(GetPairsProcessed(val), GetTotalPairs(val)))
  }

  function Percentage(processed: nat, totalPairs: nat): real {
    if totalPairs == 0 then 0.0
    else
      var p := 100.0 * processed as real / totalPairs as real;
      if p > 100.0 then 100.0 else p
  }

  ghost predicate NotBelow(later: JobState, earlier: JobState) {
    later.stage > earlier.stage || (later.stage == earlier.stage && later.percentage >= earlier.percentage)
  }

  lemma QuotientTimes(x: real, t: real)
    requires t > 0.0
    ensures x / t * t == x
  {
  }

  lemma ScaleMono(x: real, y: real, t: real)
    requires x < y && t > 0.0
    ensures x * t < y * t
  {
  }

  lemma QuotientMono(x: real, y: real, t: real)
    requires x <= y && t > 0.0
    ensures x / t <= y / t
  {
    var a, b := x / t, y / t;
    assert a * t == x by { QuotientTimes(x, t); }
    assert b * t == y by { QuotientTimes(y, t); }
    if b < a {
      ScaleMono(b, a, t);
      assert false;
    }
  }

  lemma QuotientAtLeast(x: real, k: real, t: real)
    requires x >= k * t && t > 0.0
    ensures x / t >= k
  {
    var a := x / t;
    assert a * t == x by { QuotientTimes(x, t); }
    if a < k {
      ScaleMono(a, k, t);
      assert false;
    }
  }

  lemma DivideMono(p: nat, q: nat, total: nat)
    requires p <= q && total > 0
    ensures 100.0 * p as real / total as real <= 100.0 * q as real / total as real
    ensures p >= total ==> 100.0 * p as real / total as real >= 100.0
  {
    QuotientMono(100.0 * p as real, 100.0 * q as real, total as real);
    if p >= total {
      QuotientAtLeast(100.0 * p as real, 100.0, total as real);
    }
  }

  // The percentage is the part of the total that is processed, never beyond the whole.
  lemma PercentageIs(processed: nat, total: nat)
    requires total > 0
    ensures Percentage(processed, total) * total as real
            == 100.0 * (if processed < total then processed else total) as real
  {
    QuotientTimes(100.0 * processed as real, total as real);
    AllProcessed(total);
    if processed < total {
      DivideMono(processed, total, total);
    } else {
      DivideMono(total, processed, total);
    }
  }

  lemma AllProcessed(n: nat)
    requires n > 0
    ensures 100.0 * n as real / n as real == 100.0
  {
    var t := n as real;
    var x := 100.0 * t / t;
    assert x * t == 100.0 * t by { QuotientTimes(100.0 * t, t); }
    if x < 100.0 {
      ScaleMono(x, 100.0, t);
      assert false;
    } else if x > 100.0 {
      ScaleMono(100.0, x, t);
      assert false;
    }
  }

  // r reports done of total, in hundredths; 0 if there is nothing to do.
  ghost predicate Tells(r: JobState, stage: nat, done: nat, total: nat) {
    r.stage == stage && r.percentage * total as real == 100.0 * done as real && (total == 0 ==> r.percentage == 0.0)
  }

  lemma PercentageTells(stage: nat, total: nat, processed: nat)
    ensures Tells(JobState(stage, Percentage(processed, total)), stage,
                  if processed < total then processed else total, total)
  {
    if total > 0 {
      PercentageIs(processed, total);
    }
  }

  lemma WordReads(stage: nat, total: nat, processed: nat)
    requires Fits(stage, total, processed)
    ensures GetJobState(Pack(stage, total, processed)) == JobState(stage, Percentage(processed, total))
  {
    PackUnpack(stage, total, processed);
  }

  // A word reads as its stage and the part of the total that is processed, never beyond the whole.
  lemma ReportIs(stage: nat, total: nat, processed: nat)
    requires Fits(stage, total, processed)
    ensures Tells(GetJobState(Pack(stage, total, processed)), stage, if processed < total then processed else total,
                  total)
  {
    WordReads(stage, total, processed);
    PercentageTells(stage, total, processed);
  }

  // Within a stage more processed pairs are no smaller a report, and all overshoots report the same.
  lemma ReportMono(stage: nat, total: nat, p: nat, q: nat)
    requires Fits(stage, total, p) && Fits(stage, total, q) && (p <= q || q >= total)
    ensures NotBelow(GetJobState(Pack(stage, total, q)), GetJobState(Pack(stage, total, p)))
  {
    WordReads(stage, total, p);
    WordReads(stage, total, q);
    if total > 0 {
      if p <= q {
        DivideMono(p, q, total);
      } else {
        DivideMono(q, q, total);
      }
    }
  }

  // A new stage outranks the one before.
  lemma StageMono(stage: nat, total: nat, val: nat)
    requires Fits(stage, total, 0) && GetStage(val) < stage
    ensures NotBelow(GetJobState(SetAtomicVar(stage, total)), GetJobState(val))
  {
    PackUnpack(stage, total, 0);
  }

  lemma ClaimReportGrows(c: Config, s: Job, t: nat)
    requires Shape(c, s) && MapWordInv(c, s) && Enabled(c, s, t, Claim)
    ensures NotBelow(GetJobState(Act(c, s, t, Claim).atomicVar), GetJobState(s.atomicVar))
  {
    Claimed(c, s, t);
    UndoersLeaveRoom(s, t);
    var k := s.claims + Sum(Undoers, s.pc);
    ReportMono(MAP_STAGE, c.inputs, k, k + 1);
  }

  lemma UndoReportGrows(c: Config, s: Job, t: nat)
    requires Shape(c, s) && MapWordInv(c, s) && Enabled(c, s, t, Action.Undo)
    ensures NotBelow(GetJobState(Act(c, s, t, Action.Undo).atomicVar), GetJobState(s.atomicVar))
  {
    Undone(c, s, t);
    FewUndoers(s.pc);
    SumUpdate(Undoers, s.pc, t, Sorting);
    var k := s.claims + Sum(Undoers, s.pc);
    ReportMono(MAP_STAGE, c.inputs, k, k - 1);
  }

  lemma StoreReportGrows(c: Config, s: Job, t: nat)
    requires Shape(c, s) && MapWordInv(c, s) && Enabled(c, s, t, StoreStage)
    ensures NotBelow(GetJobState(Act(c, s, t, StoreStage).atomicVar), GetJobState(s.atomicVar))
  {
    MapWord(c, s);
    StageMono(MAP_STAGE, c.inputs, s.atomicVar);
  }

  // The other steps leave the word alone.
  predicate StoresWord(a: Action) {
    || a.StoreStage? || a.Claim? || a.Undo? || a.StartShuffle? || a.TakePair? || a.EndShuffle? || a.Account?
  }

  lemma SameReport(c: Config, s: Job, t: nat, a: Action)
    requires !StoresWord(a) && Enabled(c, s, t, a)
    ensures NotBelow(GetJobState(Act(c, s, t, a).atomicVar), GetJobState(s.atomicVar))
  {
    assert Act(c, s, t, a).atomicVar == s.atomicVar;
  }

  lemma MapReportGrows(c: Config, s: Job, t: nat, a: Action)
    requires Shape(c, s) && Gathering(s) && MapWordInv(c, s) && Enabled(c, s, t, a)
    ensures NotBelow(GetJobState(Act(c, s, t, a).atomicVar), GetJobState(s.atomicVar))
  {
    OnlyEarlySteps(c, s, t, a);
    match a
    case StoreStage => StoreReportGrows(c, s, t);
    case Claim => ClaimReportGrows(c, s, t);
    case Undo => UndoReportGrows(c, s, t);
    case _ => SameReport(c, s, t, a);
  }

  lemma StartReportGrows(c: Config, s: Job, t: nat)
    requires Shape(c, s) && Untouched(s) && s.atomicVar == Pack(MAP_STAGE, c.inputs, c.inputs)
    requires Enabled(c, s, t, StartShuffle)
    ensures NotBelow(GetJobState(Act(c, s, t, StartShuffle).atomicVar), GetJobState(s.atomicVar))
  {
    SizeIsCardinality(s.shuffle.vecs);
    PackUnpack(MAP_STAGE, c.inputs, c.inputs);
    StageMono(SHUFFLE_STAGE, Size(s.shuffle.vecs), s.atomicVar);
  }

  lemma TakeReportGrows(c: Config, s: Job, t: nat, i: nat)
    requires Counting(s) && s.total < FIELD && Enabled(c, s, t, TakePair(i))
    ensures NotBelow(GetJobState(Act(c, s, t, TakePair(i)).atomicVar), GetJobState(s.atomicVar))
  {
    PairTaken(c, s, t, i);
    var done := s.total - Size(s.shuffle.vecs);
    ReportMono(SHUFFLE_STAGE, s.total, done, done + 1);
  }

  lemma EndReportGrows(c: Config, s: Job, t: nat)
    requires Counting(s) && s.total < FIELD && Enabled(c, s, t, EndShuffle)
    ensures NotBelow(GetJobState(Act(c, s, t, EndShuffle).atomicVar), GetJobState(s.atomicVar))
  {
    PackUnpack(SHUFFLE_STAGE, s.total, s.total - Size(s.shuffle.vecs));
    StageMono(REDUCE_STAGE, s.total, s.atomicVar);
  }

  lemma ShuffleReportGrows(c: Config, s: Job, t: nat, a: Action)
    requires ShuffleControl(c, s) && ShuffleStage(c, s) && Enabled(c, s, t, a)
    ensures NotBelow(GetJobState(Act(c, s, t, a).atomicVar), GetJobState(s.atomicVar))
  {
    OnlyShuffleSteps(c, s, t, a);
    match a
    case StartShuffle => StartReportGrows(c, s, t);
    case TakePair(i) => TakeReportGrows(c, s, t, i);
    case EndShuffle => EndReportGrows(c, s, t);
    case _ => SameReport(c, s, t, a);
  }

  lemma AccountReportGrows(c: Config, s: Job, t: nat)
    requires ReduceWordInv(s) && Enabled(c, s, t, Account) && s.total < FIELD
    ensures NotBelow(GetJobState(Act(c, s, t, Account).atomicVar), GetJobState(s.atomicVar))
  {
    var done, w := GroupAccounted(c, s, t);
    ReportMono(REDUCE_STAGE, s.total, done, done + w);
  }

  lemma ReduceReportGrows(c: Config, s: Job, t: nat, a: Action)
    requires ReduceControl(c, s) && ReduceWordInv(s) && s.total < FIELD && Enabled(c, s, t, a)
    ensures NotBelow(GetJobState(Act(c, s, t, a).atomicVar), GetJobState(s.atomicVar))
  {
    OnlyLateSteps(c, s, t, a);
    if a.Account? {
      AccountReportGrows(c, s, t);
    } else {
      SameReport(c, s, t, a);
    }
  }

  lemma ReportGrows(c: Config, s: Job, t: nat, a: Action)
    requires JobInv(c, s) && Enabled(c, s, t, a)
    ensures NotBelow(GetJobState(Act(c, s, t, a).atomicVar), GetJobState(s.atomicVar))
  {
    if InMapPhase(c, s) {
      MapReportGrows(c, s, t, a);
    } else if InShufflePhase(c, s) {
      ShuffleReportGrows(c, s, t, a);
    } else {
      ReduceReportGrows(c, s, t, a);
    }
  }

  lemma NextReport(c: Config, s: Job, s': Job)
    requires JobInv(c, s) && Next(c, s, s')
    ensures NotBelow(GetJobState(s'.atomicVar), GetJobState(s.atomicVar))
  {
    var t: nat, a: Action :| Enabled(c, s, t, a) && s' == Act(c, s, t, a);
    ReportGrows(c, s, t, a);
  }

  lemma PercentageRange(val: nat)
    ensures 0.0 <= GetJobState(val).percentage <= 100.0
  {
    if GetTotalPairs(val) != 0 {
      DivideMono(0, GetPairsProcessed(val), GetTotalPairs(val));
    }
  }

  // The reports that loads of the progress word along a run give.
  ghost function Reports(run: seq<Job>): (r: seq<JobState>)
    ensures |r| == |run| && forall i :: 0 <= i < |run| ==> r[i] == GetJobState(run[i].atomicVar)
  {
    seq(|run|, i requires 0 <= i < |run| => GetJobState(run[i].atomicVar))
  }

  lemma {:induction false} NotBelowChain(r: seq<JobState>, i: nat, k: nat)
    requires i <= k < |r| && forall j :: 0 <= j < |r| - 1 ==> NotBelow(r[j + 1], r[j])
    ensures NotBelow(r[k], r[i])
    decreases k
  {
    if i < k {
      NotBelowChain(r, i, k - 1);
      assert NotBelow(r[k - 1 + 1], r[k - 1]);
    }
  }

  lemma ReportStep(c: Config, run: seq<Job>, j: nat)
    requires IsRun(c, run) && j + 1 < |run|
    ensures NotBelow(Reports(run)[j + 1], Reports(run)[j])
  {
    RunInv(c, run, j);
    NextReport(c, run[j], run[j + 1]);
  }

  // Successive reports never go back, and never exceed 100.
  lemma ReportsNeverGoBack(c: Config, run: seq<Job>, i: nat, k: nat)
    requires IsRun(c, run) && i <= k < |run|
    ensures NotBelow(Reports(run)[k], Reports(run)[i])
    ensures 0.0 <= Reports(run)[k].percentage <= 100.0
  {
    PercentageRange(run[k].atomicVar);
    forall j | 0 <= j < |run| - 1
      ensures NotBelow(Reports(run)[j + 1], Reports(run)[j])
    {
      ReportStep(c, run, j);
    }
    NotBelowChain(Reports(run), i, k);
  }

  // A finished job reports REDUCE, at 100 percent exactly if there were pairs to process.
  lemma FinishedReport(c: Config, run: seq<Job>, k: nat)
    requires IsRun(c, run) && k < |run| && AllDone(run[k])
    ensures GetJobState(run[k].atomicVar) == JobState(REDUCE_STAGE, if |run[k].emitted| > 0 then 100.0 else 0.0)
  {
    JobIsComplete(c, run, k);
    if |run[k].emitted| > 0 {
      AllProcessed(|run[k].emitted|);
    }
  }

  // ---- what a report says about the run ----

  // Before the map stage is stored there is nothing to report; then it is the inputs claimed.
  lemma MapReport(c: Config, s: Job)
    requires Shape(c, s) && MapWordInv(c, s)
    ensures if s.atomicVar == 0 then Tells(GetJobState(s.atomicVar), 0, 0, 0) && s.claims == 0
            else Tells(GetJobState(s.atomicVar), 1, s.claims, c.inputs)
  {
    MapWord(c, s);
    if s.atomicVar == 0 {
      ReportIs(UNDEFINED_STAGE, 0, 0);
    } else {
      var k := s.claims + Sum(Undoers, s.pc);
      assert s.claims == if k < c.inputs then k else c.inputs;
      ReportIs(MAP_STAGE, c.inputs, k);
    }
  }

  // Every pair is in a vector or in a group.
  lemma PairsMoved(s: Shuffling, all: multiset<Pair>)
    requires Conserves(s, all)
    ensures Size(s.vecs) + (Size(s.out) + |s.newVec|) == |all|
  {
    SizeIsCardinality(s.vecs);
    SizeIsCardinality(s.out);
    assert |multiset(s.newVec)| == |s.newVec|;
  }

  // While the pairs are moved it is those in groups.
  lemma MoveReport(c: Config, s: Job)
    requires Counting(s) && s.total < FIELD && Conserves(s.shuffle, s.emitted)
    ensures Tells(GetJobState(s.atomicVar), 2, Size(s.shuffle.out) + |s.shuffle.newVec|, |s.emitted|)
  {
    PairsMoved(s.shuffle, s.emitted);
    ReportIs(SHUFFLE_STAGE, s.total, s.total - Size(s.shuffle.vecs));
  }

  lemma OpenReport(c: Config, s: Job)
    requires Shape(c, s) && s.claims == c.inputs && s.atomicVar == Pack(MAP_STAGE, c.inputs, c.inputs)
    ensures Tells(GetJobState(s.atomicVar), 1, s.claims, c.inputs)
  {
    ReportIs(MAP_STAGE, c.inputs, c.inputs);
  }

  // In the end it is the pairs of the groups that are reduced and accounted for.
  lemma ReduceReport(c: Config, s: Job)
    requires Shape(c, s) && GroupsInv(c, s) && ReduceWordInv(s) && AccountsInv(s)
    ensures Tells(GetJobState(s.atomicVar), 3, PairsAccounted(s.groups, s.accounts), |s.emitted|)
  {
    ReportIs(REDUCE_STAGE, s.total, PairsAccounted(s.groups, s.accounts));
  }

  // What the word reports, given where the job is.
  ghost predicate TellsProgress(c: Config, s: Job) {
    var r := GetJobState(s.atomicVar);
    match r.stage
    case 0 => s.claims == 0 && Tells(r, 0, 0, 0)
    case 1 => Tells(r, 1, s.claims, c.inputs)
    case 2 => Tells(r, 2, Size(s.shuffle.out) + |s.shuffle.newVec|, |s.emitted|)
    case _ => |s.groups| == |s.accounts| && Tells(r, 3, PairsAccounted(s.groups, s.accounts), |s.emitted|)
  }

  // The stage that the word gives while a thread stands at p.
  predicate StageFits(p: PC, stage: nat) {
    && (p.Begin? || p.Locked? || p.Storing? ==> stage <= 1)
    && (p.Unlocking? || p.Claiming? || p.Mapping? || p.Undoing? || p.Sorting? || p.AtBarrier? || p == Starting ==>
          stage == 1)
    && (p == Picking || p == Taking ==> stage == 2)
    && (p.Posting? || InReduce(p) ==> stage == 3)
  }

  ghost predicate InStage(s: Job) {
    forall t :: 0 <= t < |s.pc| ==> StageFits(s.pc[t], GetJobState(s.atomicVar).stage)
  }

  lemma MapTells(c: Config, s: Job)
    requires Shape(c, s) && Gathering(s) && MapWordInv(c, s)
    ensures TellsProgress(c, s) && InStage(s)
  {
    MapReport(c, s);
  }

  lemma ShuffleTells(c: Config, s: Job)
    requires InShufflePhase(c, s)
    ensures TellsProgress(c, s)
    ensures GetJobState(s.atomicVar).stage == if s.pc[0] == Picking || s.pc[0] == Taking then 2 else 1
  {
    if s.pc[0] == Waiting || s.pc[0] == Starting {
      OpenReport(c, s);
    } else {
      MoveReport(c, s);
    }
  }

  lemma ShufflersInStage(c: Config, s: Job)
    requires ShuffleControl(c, s) && ShuffleStage(c, s)
    requires GetJobState(s.atomicVar).stage == if s.pc[0] == Picking || s.pc[0] == Taking then 2 else 1
    ensures InStage(s)
  {
    forall t | 0 <= t < |s.pc|
      ensures StageFits(s.pc[t], GetJobState(s.atomicVar).stage)
    {
      ShufflePlace(c, s, t);
    }
  }

  lemma ReduceTells(c: Config, s: Job)
    requires ReduceControl(c, s) && GroupsInv(c, s) && ReduceWordInv(s) && AccountsInv(s)
    ensures TellsProgress(c, s) && InStage(s)
  {
    ReduceReport(c, s);
  }

  lemma JobTells(c: Config, s: Job)
    requires JobInv(c, s)
    ensures |s.pc| == c.threads && TellsProgress(c, s) && InStage(s)
  {
    if InMapPhase(c, s) {
      MapTells(c, s);
    } else if InShufflePhase(c, s) {
      ShuffleTells(c, s);
      ShufflersInStage(c, s);
    } else {
      ReduceTells(c, s);
    }
  }

  // Main result on reports: at any moment of any run, the report is exact. In the map stage it is the
  // share of the inputs that are claimed (overshoots do not show), in the shuffle stage the share of the
  // emitted pairs that are in groups, in the reduce stage the share that is in groups accounted for.
  lemma ReportIsExact(c: Config, run: seq<Job>, k: nat)
    requires IsRun(c, run) && k < |run|
    ensures |run[k].pc| == c.threads && TellsProgress(c, run[k]) && InStage(run[k])
  {
    RunInv(c, run, k);
    JobTells(c, run[k]);
  }
}
