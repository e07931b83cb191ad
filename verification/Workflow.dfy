/** The workflow engine: `Run` interprets a list of steps with failure policies and jumps under
    a hop budget; `summarize` counts what happened. Commands run through an oracle. */
module Workflow {
  import opened Text
  import Templates

  datatype Step = Step(id: string, cmd: string, kind: string, onFail: string)

  /** The arguments of `Run`; the runner may answer differently at every hop. */
  datatype Job = Job(steps: seq<Step>, params: map<string, string>, dryRun: bool, exec: (nat, string) -> Outcome)

  /** What the injected runner reports; `error` is empty for a nil error. */
  datatype Outcome = Outcome(stdout: string, stderr: string, exitCode: int, ok: bool, error: string)

  datatype StepResult = StepResult(
    id: string, cmd: string, kind: string, stdout: string, stderr: string,
    exitCode: int, success: bool, error: string, action: string, skipped: bool)

  datatype Status = Success | Failed | Aborted

  datatype Summary = Summary(total: nat, ok: nat, failed: nat, failedIds: seq<string>)

  datatype RunResult = RunResult(status: Status, steps: seq<StepResult>, summary: Summary)

  datatype Verdict = Went | Jumped | Stopped

  /** One turn of the loop: the step it was at, what it recorded, where it went. */
  datatype Hop = Hop(at: nat, result: StepResult, verdict: Verdict, next: nat)

  const MAX_STEP_HOPS_FACTOR := 4

  function MaxHops(steps: seq<Step>): nat {
    |steps| * MAX_STEP_HOPS_FACTOR + 8
  }

  // ----- one hop -----

  predicate LastWithId(steps: seq<Step>, id: string, i: nat) {
    && i < |steps| && steps[i].id == id
    && forall j | i < j < |steps| :: steps[j].id != id
  }

  predicate Names(steps: seq<Step>, id: string) {
    exists i | 0 <= i < |steps| :: steps[i].id == id
  }

  predicate Tolerant(step: Step) {
    Trim(step.onFail) == "" || Trim(step.onFail) == "continue"
  }

  /** The step says abort, or names no step to jump to. */
  predicate Fatal(steps: seq<Step>, step: Step) {
    !Tolerant(step) && (Trim(step.onFail) == "abort" || !Names(steps, Trim(step.onFail)))
  }

  function Executed(step: Step, cmd: string, o: Outcome): StepResult {
    StepResult(step.id, cmd, "exec", o.stdout, o.stderr, o.exitCode, o.ok, o.error, "", false)
  }

  ghost predicate Filled(text: string, params: map<string, string>, cmd: string) {
    exists order :: Templates.Walks(order, params) && cmd == Trim(Templates.ReplaceInOrder(text, order, params))
  }

  /** What a failing step records and where it leads. */
  ghost predicate FailureOk(steps: seq<Step>, hop: Hop, plain: StepResult)
    requires hop.at < |steps|
  {
    var step := steps[hop.at];
    var policy := Trim(step.onFail);
    if Tolerant(step) then
      hop.verdict == Went && hop.next == hop.at + 1 && hop.result == plain.(action := "continued")
    else if policy == "abort" then
      hop.verdict == Stopped && hop.next == |steps| && hop.result == plain.(action := "aborted")
    else if Names(steps, policy) then
      hop.verdict == Jumped && LastWithId(steps, policy, hop.next) && hop.result == plain.(action := "jumped:" + policy)
    else
      hop.verdict == Stopped && hop.next == |steps|
      && hop.result == plain.(action := "aborted (unknown on_fail target)")
  }

  /** The `n`-th hop is what the engine does at that step. */
  ghost predicate HopOk(job: Job, n: nat, hop: Hop) {
    hop.at < |job.steps| &&
    var step := job.steps[hop.at];
    if step.kind == "summary" then
      && hop.verdict == Went && hop.next == hop.at + 1
      && hop.result == StepResult(step.id, "", "summary", "", "", 0, true, "", "", false)
    else if job.dryRun then
      && hop.verdict == Went && hop.next == hop.at + 1
      && Filled(step.cmd, job.params, hop.result.cmd)
      && hop.result == StepResult(step.id, hop.result.cmd, "exec", "", "", 0, false, "", "dry-run", true)
    else
      && Filled(step.cmd, job.params, hop.result.cmd)
      && var o := job.exec(n, hop.result.cmd);
         var plain := Executed(step, hop.result.cmd, o);
         if o.ok then hop.verdict == Went && hop.next == hop.at + 1 && hop.result == plain
         else FailureOk(job.steps, hop, plain)
  }

  function Position(hops: seq<Hop>): nat {
    if hops == [] then 0 else hops[|hops| - 1].next
  }

  /** A run so far: it starts at the first step and every hop starts where the last one led. */
  ghost predicate Trail(job: Job, hops: seq<Hop>) {
    hops == [] ||
    var front, last := hops[..|hops| - 1], hops[|hops| - 1];
    Trail(job, front) && last.at == Position(front) && HopOk(job, |front|, last)
  }

  /** A run that is over: past the last step, or out of hops. */
  ghost predicate Finished(job: Job, hops: seq<Hop>) {
    && Trail(job, hops)
    && |hops| <= MaxHops(job.steps)
    && (Position(hops) >= |job.steps| || |hops| == MaxHops(job.steps))
  }

  function Results(hops: seq<Hop>): seq<StepResult> {
    seq(|hops|, n requires 0 <= n < |hops| => hops[n].result)
  }

  /** The status lattice: a jump turns success into failure, a stop aborts. */
  function StatusOf(hops: seq<Hop>): Status {
    if hops == [] then Success
    else
      var before := StatusOf(hops[..|hops| - 1]);
      match hops[|hops| - 1].verdict
      case Went => before
      case Jumped => if before == Success then Failed else before
      case Stopped => Aborted
  }

  lemma {:induction false} TrailAt(job: Job, hops: seq<Hop>, n: nat)
    requires Trail(job, hops) && n < |hops|
    ensures HopOk(job, n, hops[n])
    ensures hops[n].at == if n == 0 then 0 else hops[n - 1].next
  {
    if n < |hops| - 1 {
      TrailAt(job, hops[..|hops| - 1], n);
    }
  }

  lemma RecordGrows(hops: seq<Hop>, hop: Hop)
    ensures Results(hops + [hop]) == Results(hops) + [hop.result]
    ensures Position(hops + [hop]) == hop.next
    ensures StatusOf(hops + [hop]) ==
      if hop.verdict == Stopped then Aborted
      else if hop.verdict == Jumped && StatusOf(hops) == Success then Failed
      else StatusOf(hops)
  {
    var more := hops + [hop];
    assert more[..|more| - 1] == hops;
  }

  // ----- the engine -----

  method BuildIndex(steps: seq<Step>) returns (index: map<string, nat>)
    ensures forall id :: id in index <==> Names(steps, id)
    ensures forall id | id in index :: LastWithId(steps, id, index[id])
  {
    index := map[];
    for i := 0 to |steps|
      invariant forall id | id in index :: index[id] < i && LastWithId(steps[..i], id, index[id])
      invariant forall id :: id in index <==> Names(steps[..i], id)
    {
      index := index[steps[i].id := i];
      assert steps[..i + 1] == steps[..i] + [steps[i]];
    }
    assert steps[..|steps|] == steps;
  }

  method Fail(steps: seq<Step>, index: map<string, nat>, at: nat, plain: StepResult) returns (hop: Hop)
    requires at < |steps|
    requires forall id :: id in index <==> Names(steps, id)
    requires forall id | id in index :: LastWithId(steps, id, index[id])
    ensures hop.at == at && hop.result.cmd == plain.cmd && FailureOk(steps, hop, plain)
  {
    var policy := Trim(steps[at].onFail);
    if policy == "" || policy == "continue" {
      hop := Hop(at, plain.(action := "continued"), Went, at + 1);
    } else if policy == "abort" {
      hop := Hop(at, plain.(action := "aborted"), Stopped, |steps|);
    } else if policy in index {
      hop := Hop(at, plain.(action := "jumped:" + policy), Jumped, index[policy]);
    } else {
      hop := Hop(at, plain.(action := "aborted (unknown on_fail target)"), Stopped, |steps|);
    }
  }

  method Take(job: Job, index: map<string, nat>, n: nat, at: nat) returns (hop: Hop)
    requires at < |job.steps|
    requires forall id :: id in index <==> Names(job.steps, id)
    requires forall id | id in index :: LastWithId(job.steps, id, index[id])
    ensures hop.at == at && HopOk(job, n, hop)
  {
    var step := job.steps[at];
    if step.kind == "summary" {
      return Hop(at, StepResult(step.id, "", "summary", "", "", 0, true, "", "", false), Went, at + 1);
    }
    var cmd, order := Templates.FillParams(step.cmd, job.params);
    assert Filled(step.cmd, job.params, cmd);
    if job.dryRun {
      return Hop(at, StepResult(step.id, cmd, "exec", "", "", 0, false, "", "dry-run", true), Went, at + 1);
    }
    var o := job.exec(n, cmd);
    if o.ok {
      return Hop(at, Executed(step, cmd, o), Went, at + 1);
    }
    hop := Fail(job.steps, index, at, Executed(step, cmd, o));
  }

  method Run(job: Job)
    returns (res: RunResult, ghost hops: seq<Hop>)
    ensures Finished(job, hops)
    ensures res.steps == Results(hops) && res.status == StatusOf(hops)
    ensures |hops| <= 4 * |job.steps| + 8 && (Position(hops) >= |job.steps| || |hops| == 4 * |job.steps| + 8)
    ensures Records(job, hops, res) && SumsUp(job, hops, res)
    ensures FollowsTheSteps(job, hops, res) && StatusTells(job, hops, res.status)
    ensures |res.steps| <= 4 * |job.steps| + 8
    ensures res.status == Success ==> ListsAllSteps(job, res.steps)
  {
    var index := BuildIndex(job.steps);
    var status, recorded := Success, [];
    var i, n := 0, 0;
    hops := [];
    while i < |job.steps| && n < MaxHops(job.steps)
      invariant n == |hops| <= MaxHops(job.steps) && i == Position(hops)
      invariant Trail(job, hops)
      invariant recorded == Results(hops) && status == StatusOf(hops)
      decreases MaxHops(job.steps) - n
    {
      var hop := Take(job, index, n, i);
      recorded := recorded + [hop.result];
      if hop.verdict == Stopped {
        status := Aborted;
      } else if hop.verdict == Jumped && status == Success {
        status := Failed;
      }
      RecordGrows(hops, hop);
      hops := hops + [hop];
      assert hops[..|hops| - 1] == hops[..n];
      i, n := hop.next, n + 1;
    }
    var summary := Summarize(recorded);
    res := RunResult(status, recorded, summary);
    RunRecords(job, hops, res);
    RunGoesAsTold(job, hops, res);
    StatusOfTells(job, hops);
    SuccessListsAll(job, hops, res);
  }

  // ----- where a run goes -----

  /** The recorded command is the step's with its holes filled, in some order of the map. After a failure the
      step's own word decides: blank or "continue" goes on, "abort" ends the run, the id of a step jumps to
      the last one that has it, and any other word ends the run. */
  ghost predicate GoesAsTold(job: Job, n: nat, at: nat, r: StepResult, next: nat) {
    var end := |job.steps|;
    at < end &&
    var step := job.steps[at];
    var told := Trim(step.onFail);
    if step.kind == "summary" then next == at + 1
    else
      && (exists order :: Templates.Walks(order, job.params)
            && r.cmd == Trim(Templates.ReplaceInOrder(step.cmd, order, job.params)))
      && if job.dryRun || job.exec(n, r.cmd).ok then next == at + 1
         else if told == "" || told == "continue" then next == at + 1 && r.action == "continued"
         else if told == "abort" then next == end && r.action == "aborted"
         else if forall j | 0 <= j < end :: job.steps[j].id != told then
           next == end && r.action == "aborted (unknown on_fail target)"
         else
           && next < end && job.steps[next].id == told && r.action == "jumped:" + told
           && forall j | next < j < end :: job.steps[j].id != told
  }

  lemma HopGoesAsTold(job: Job, n: nat, hop: Hop)
    requires HopOk(job, n, hop)
    ensures GoesAsTold(job, n, hop.at, hop.result, hop.next)
  {
  }

  /** Every hop starts where the one before it led, the first one at the first step, and goes as told. */
  ghost predicate FollowsTheSteps(job: Job, hops: seq<Hop>, res: RunResult) {
    && |res.steps| == |hops|
    && (forall n | 0 <= n < |hops| :: hops[n].at == if n == 0 then 0 else hops[n - 1].next)
    && forall n | 0 <= n < |hops| :: GoesAsTold(job, n, hops[n].at, res.steps[n], hops[n].next)
  }

  lemma RunGoesAsTold(job: Job, hops: seq<Hop>, res: RunResult)
    requires Trail(job, hops) && res.steps == Results(hops)
    ensures FollowsTheSteps(job, hops, res)
  {
    forall n | 0 <= n < |hops|
      ensures GoesAsTold(job, n, hops[n].at, hops[n].result, hops[n].next)
      ensures hops[n].at == if n == 0 then 0 else hops[n - 1].next
    {
      TrailAt(job, hops, n);
      HopGoesAsTold(job, n, hops[n]);
    }
  }

  /** Hop `n` ran, failed, and its step does not say to go on. */
  ghost predicate Deviates(job: Job, hops: seq<Hop>, n: nat) {
    && Ran(job, hops, n) && !job.exec(n, hops[n].result.cmd).ok
    && var told := Trim(job.steps[hops[n].at].onFail); told != "" && told != "continue"
  }

  /** And it says to stop, or names no step. */
  ghost predicate Halts(job: Job, hops: seq<Hop>, n: nat) {
    && Deviates(job, hops, n)
    && var told := Trim(job.steps[hops[n].at].onFail);
       told == "abort" || forall j | 0 <= j < |job.steps| :: job.steps[j].id != told
  }

  lemma VerdictTells(job: Job, hops: seq<Hop>, n: nat)
    requires n < |hops| && HopOk(job, n, hops[n])
    ensures hops[n].verdict == Went <==> !Deviates(job, hops, n)
    ensures hops[n].verdict == Stopped <==> Halts(job, hops, n)
  {
  }

  /** The run succeeded exactly when no hop deviated, and was aborted exactly when one of them halted it. */
  ghost predicate StatusTells(job: Job, hops: seq<Hop>, status: Status) {
    && (status == Success <==> forall n | 0 <= n < |hops| :: !Deviates(job, hops, n))
    && (status == Aborted <==> exists n | 0 <= n < |hops| :: Halts(job, hops, n))
  }

  lemma StatusOfTells(job: Job, hops: seq<Hop>)
    requires Trail(job, hops)
    ensures StatusTells(job, hops, StatusOf(hops))
  {
    StatusSuccess(hops);
    AbortedMeansLastStopped(job, hops);
    forall n | 0 <= n < |hops|
      ensures hops[n].verdict == Went <==> !Deviates(job, hops, n)
      ensures hops[n].verdict == Stopped <==> Halts(job, hops, n)
      ensures Halts(job, hops, n) ==> n == |hops| - 1
    {
      TrailAt(job, hops, n);
      VerdictTells(job, hops, n);
      if hops[n].verdict == Stopped {
        NothingAfterAStop(job, hops, n);
      }
    }
  }

  lemma NothingAfterAStop(job: Job, hops: seq<Hop>, n: nat)
    requires Trail(job, hops) && n < |hops| && hops[n].verdict == Stopped
    ensures n == |hops| - 1
  {
    if n < |hops| - 1 {
      StepsOn(job, hops, n);
      NeverAtTheEnd(job, hops, n + 1);
    }
  }

  lemma NeverAtTheEnd(job: Job, hops: seq<Hop>, n: nat)
    requires Trail(job, hops) && 0 < n < |hops|
    ensures hops[n - 1].next != |job.steps|
  {
    StepsOn(job, hops, n);
  }

  lemma StepsOn(job: Job, hops: seq<Hop>, n: nat)
    requires Trail(job, hops) && n < |hops|
    ensures hops[n].at < |job.steps| && hops[n].at == if n == 0 then 0 else hops[n - 1].next
    ensures hops[n].verdict == Went ==> hops[n].next == hops[n].at + 1
    ensures hops[n].verdict == Stopped ==> hops[n].next == |job.steps|
  {
    TrailAt(job, hops, n);
    WhereHopsGo(job, n, hops[n]);
  }

  /** Each step once, in order. */
  ghost predicate ListsAllSteps(job: Job, recorded: seq<StepResult>) {
    && |recorded| == |job.steps|
    && forall n | 0 <= n < |recorded| :: recorded[n].id == job.steps[n].id
  }

  lemma SuccessListsAll(job: Job, hops: seq<Hop>, res: RunResult)
    requires Finished(job, hops) && res.status == StatusOf(hops) && Records(job, hops, res)
    ensures res.status == Success ==> ListsAllSteps(job, res.steps)
  {
    SuccessMeansInOrder(job, hops);
    if res.status == Success {
      forall n | 0 <= n < |hops|
        ensures res.steps[n].id == job.steps[n].id
      {
        assert RecordsItsStep(job, n, hops[n].at, res.steps[n]) && hops[n].at == n;
      }
    }
  }

  // ----- what a run records -----

  /** What the runner answered is what the step records; a summary and a dry run record that nothing ran. */
  ghost predicate RecordsItsStep(job: Job, n: nat, at: nat, r: StepResult) {
    at < |job.steps| && r.id == job.steps[at].id &&
    if job.steps[at].kind == "summary" then
      r.kind == "summary" && r.success && !r.skipped && r.cmd == "" && r.action == ""
    else if job.dryRun then
      && r.kind == "exec" && r.skipped && !r.success && r.exitCode == 0 && r.stdout == "" && r.stderr == ""
      && r.action == "dry-run"
    else
      var o := job.exec(n, r.cmd);
      && r.kind == "exec" && !r.skipped && r.success == o.ok && r.exitCode == o.exitCode
      && r.stdout == o.stdout && r.stderr == o.stderr && r.error == o.error
      && (r.action == "" <==> o.ok)
  }

  ghost predicate Records(job: Job, hops: seq<Hop>, res: RunResult) {
    && |res.steps| == |hops|
    && forall n | 0 <= n < |hops| :: RecordsItsStep(job, n, hops[n].at, res.steps[n])
  }

  /** Hop `n` ran its command. */
  predicate Ran(job: Job, hops: seq<Hop>, n: nat) {
    n < |hops| && hops[n].at < |job.steps| && job.steps[hops[n].at].kind != "summary" && !job.dryRun
  }

  ghost predicate Lists(at: seq<nat>, job: Job, hops: seq<Hop>, ok: bool) {
    && (forall i, j | 0 <= i < j < |at| :: at[i] < at[j])
    && (forall n: nat :: n in at <==> Ran(job, hops, n) && job.exec(n, hops[n].result.cmd).ok == ok)
  }

  /** The summary counts the hops that ran by what their runner answered, and names the steps of the failed
      ones in order. */
  ghost predicate SumsUp(job: Job, hops: seq<Hop>, res: RunResult) {
    exists failed, ok :: Lists(failed, job, hops, false) && Lists(ok, job, hops, true)
      && res.summary.failed == |failed| && res.summary.ok == |ok| && res.summary.total == |ok| + |failed|
      && res.summary.failedIds == Ids(job, hops, failed)
  }

  function Ids(job: Job, hops: seq<Hop>, at: seq<nat>): seq<string> {
    seq(|at|, i requires 0 <= i < |at| =>
      if at[i] < |hops| && hops[at[i]].at < |job.steps| then job.steps[hops[at[i]].at].id else "")
  }

  lemma HopRecords(job: Job, n: nat, hop: Hop)
    requires HopOk(job, n, hop)
    ensures RecordsItsStep(job, n, hop.at, hop.result)
  {
  }

  lemma TrailRecords(job: Job, hops: seq<Hop>)
    requires Trail(job, hops)
    ensures forall n | 0 <= n < |hops| :: RecordsItsStep(job, n, hops[n].at, hops[n].result)
  {
    forall n | 0 <= n < |hops|
      ensures RecordsItsStep(job, n, hops[n].at, hops[n].result)
    {
      TrailAt(job, hops, n);
      HopRecords(job, n, hops[n]);
    }
  }

  /** The hops up to `n` whose command ran and was answered `ok`. */
  function RanUpTo(job: Job, hops: seq<Hop>, n: nat, ok: bool): seq<nat>
    requires n <= |hops|
  {
    if n == 0 then []
    else
      RanUpTo(job, hops, n - 1, ok)
      + (if Ran(job, hops, n - 1) && job.exec(n - 1, hops[n - 1].result.cmd).ok == ok then [n - 1] else [])
  }

  lemma {:induction false} RanUpToLists(job: Job, hops: seq<Hop>, n: nat, ok: bool)
    requires n <= |hops|
    ensures var at := RanUpTo(job, hops, n, ok);
      && (forall i, j | 0 <= i < j < |at| :: at[i] < at[j])
      && (forall m: nat :: m in at <==> m < n && Ran(job, hops, m) && job.exec(m, hops[m].result.cmd).ok == ok)
  {
    RanUpToIncreases(job, hops, n, ok);
    forall m: nat
      ensures m in RanUpTo(job, hops, n, ok) <==>
        m < n && Ran(job, hops, m) && job.exec(m, hops[m].result.cmd).ok == ok
    {
      RanUpToHas(job, hops, n, ok, m);
    }
  }

  /** Growing hop by hop, and all below `n`. */
  ghost predicate GrowsBelow(at: seq<nat>, n: nat) {
    && (forall i | 0 <= i < |at| :: at[i] < n)
    && (forall i, j | 0 <= i < j < |at| :: at[i] < at[j])
  }

  lemma {:induction false} RanUpToIncreases(job: Job, hops: seq<Hop>, n: nat, ok: bool)
    requires n <= |hops|
    ensures GrowsBelow(RanUpTo(job, hops, n, ok), n)
  {
    if n > 0 {
      RanUpToIncreases(job, hops, n - 1, ok);
      OneMoreGrows(RanUpTo(job, hops, n - 1, ok), n - 1);
      assert RanUpTo(job, hops, n - 1, ok) + [] == RanUpTo(job, hops, n - 1, ok);
    }
  }

  lemma OneMoreGrows(front: seq<nat>, n: nat)
    requires GrowsBelow(front, n)
    ensures GrowsBelow(front, n + 1) && GrowsBelow(front + [n], n + 1)
  {
  }

  lemma {:induction false} RanUpToHas(job: Job, hops: seq<Hop>, n: nat, ok: bool, m: nat)
    requires n <= |hops|
    ensures m in RanUpTo(job, hops, n, ok) <==>
      m < n && Ran(job, hops, m) && job.exec(m, hops[m].result.cmd).ok == ok
  {
    if n > 0 {
      RanUpToHas(job, hops, n - 1, ok, m);
    }
  }

  lemma {:induction false} SummaryUpTo(job: Job, hops: seq<Hop>, n: nat)
    requires n <= |hops| && Trail(job, hops)
    ensures var s := SummaryOf(Results(hops)[..n]);
      && s.ok == |RanUpTo(job, hops, n, true)| && s.failed == |RanUpTo(job, hops, n, false)|
      && s.failedIds == Ids(job, hops, RanUpTo(job, hops, n, false))
  {
    if n > 0 {
      SummaryUpTo(job, hops, n - 1);
      SummaryOneMore(Results(hops), n - 1);
      TrailAt(job, hops, n - 1);
      HopRecords(job, n - 1, hops[n - 1]);
      RanOneMore(job, hops, n - 1, true);
      RanOneMore(job, hops, n - 1, false);
    }
  }

  lemma SummaryOneMore(results: seq<StepResult>, n: nat)
    requires n < |results|
    ensures var before, after, r := SummaryOf(results[..n]), SummaryOf(results[..n + 1]), results[n];
      var counts := r.kind != "summary" && !r.skipped;
      && after.ok == before.ok + (if counts && r.success then 1 else 0)
      && after.failed == before.failed + (if counts && !r.success then 1 else 0)
      && after.failedIds == before.failedIds + (if counts && !r.success then [r.id] else [])
  {
    assert results[..n + 1][..n] == results[..n];
  }

  lemma RanOneMore(job: Job, hops: seq<Hop>, n: nat, ok: bool)
    requires n < |hops|
    ensures var before, after := RanUpTo(job, hops, n, ok), RanUpTo(job, hops, n + 1, ok);
      if Ran(job, hops, n) && job.exec(n, hops[n].result.cmd).ok == ok then
        |after| == |before| + 1 && Ids(job, hops, after) == Ids(job, hops, before) + [job.steps[hops[n].at].id]
      else after == before
  {
  }

  lemma RunRecords(job: Job, hops: seq<Hop>, res: RunResult)
    requires Trail(job, hops) && res.steps == Results(hops) && res.summary == SummaryOf(res.steps)
    ensures Records(job, hops, res) && SumsUp(job, hops, res)
  {
    TrailRecords(job, hops);
    RunSumsUp(job, hops, res);
  }

  lemma RunSumsUp(job: Job, hops: seq<Hop>, res: RunResult)
    requires Trail(job, hops) && res.steps == Results(hops) && res.summary == SummaryOf(res.steps)
    ensures SumsUp(job, hops, res)
  {
    SummaryUpTo(job, hops, |hops|);
    assert Results(hops)[..|hops|] == Results(hops);
    var failed, ok := RanUpTo(job, hops, |hops|, false), RanUpTo(job, hops, |hops|, true);
    AllRanAreListed(job, hops, false);
    AllRanAreListed(job, hops, true);
    assert Lists(failed, job, hops, false) && Lists(ok, job, hops, true);
  }

  lemma AllRanAreListed(job: Job, hops: seq<Hop>, ok: bool)
    ensures Lists(RanUpTo(job, hops, |hops|, ok), job, hops, ok)
  {
    RanUpToLists(job, hops, |hops|, ok);
  }

  // ----- the roll-up -----

  predicate Counted(r: StepResult) {
    r.kind != "summary" && !r.skipped
  }

  function FailedIds(results: seq<StepResult>): seq<string> {
    if results == [] then []
    else
      var last := results[|results| - 1];
      FailedIds(results[..|results| - 1]) + (if Counted(last) && !last.success then [last.id] else [])
  }

  function CountOk(results: seq<StepResult>): nat {
    if results == [] then 0
    else
      var last := results[|results| - 1];
      CountOk(results[..|results| - 1]) + (if Counted(last) && last.success then 1 else 0)
  }

  function SummaryOf(results: seq<StepResult>): Summary {
    var failed := FailedIds(results);
    Summary(CountOk(results) + |failed|, CountOk(results), |failed|, failed)
  }

  /** `summarize`, up to the wording */
  method Summarize(results: seq<StepResult>) returns (s: Summary)
    ensures s == SummaryOf(results)
  {
    var total, ok, failed, failedIds := 0, 0, 0, [];
    for i := 0 to |results|
      invariant Summary(total, ok, failed, failedIds) == SummaryOf(results[..i])
    {
      assert results[..i + 1][..i] == results[..i];
      var r := results[i];
      if r.kind == "summary" || r.skipped {
        continue;
      }
      total := total + 1;
      if r.success {
        ok := ok + 1;
      } else {
        failed := failed + 1;
        failedIds := failedIds + [r.id];
      }
    }
    assert results[..|results|] == results;
    s := Summary(total, ok, failed, failedIds);
  }

  // ----- what runs look like -----

  /** The step graph: to the next step, from a fatal step to the end, or to a named step. */
  ghost predicate Edge(steps: seq<Step>, i: nat, j: nat) {
    && i < |steps|
    && (|| j == i + 1
        || (steps[i].kind != "summary" && Fatal(steps, steps[i]) && j == |steps|)
        || (steps[i].kind != "summary" && !Tolerant(steps[i]) && !Fatal(steps, steps[i])
            && LastWithId(steps, Trim(steps[i].onFail), j)))
  }

  lemma FailureIsAnEdge(steps: seq<Step>, hop: Hop, plain: StepResult)
    requires hop.at < |steps| && steps[hop.at].kind != "summary" && FailureOk(steps, hop, plain)
    ensures Edge(steps, hop.at, hop.next)
  {
  }

  lemma HopIsAnEdge(job: Job, n: nat, hop: Hop)
    requires HopOk(job, n, hop)
    ensures Edge(job.steps, hop.at, hop.next)
  {
    if hop.next != hop.at + 1 {
      FailureIsAnEdge(job.steps, hop, Executed(job.steps[hop.at], hop.result.cmd, job.exec(n, hop.result.cmd)));
    }
  }

  lemma {:induction false} RunIsAPath(job: Job, hops: seq<Hop>, n: nat)
    requires Trail(job, hops) && n < |hops|
    ensures Edge(job.steps, hops[n].at, hops[n].next)
    ensures hops[n].at == if n == 0 then 0 else hops[n - 1].next
  {
    TrailAt(job, hops, n);
    HopIsAnEdge(job, n, hops[n]);
  }

  ghost predicate Straight(hops: seq<Hop>) {
    forall n | 0 <= n < |hops| :: hops[n].verdict == Went
  }

  lemma {:induction false} StatusSuccess(hops: seq<Hop>)
    ensures StatusOf(hops) == Success <==> Straight(hops)
  {
    if hops != [] {
      StatusSuccess(hops[..|hops| - 1]);
    }
  }

  lemma WhereHopsGo(job: Job, n: nat, hop: Hop)
    requires HopOk(job, n, hop)
    ensures hop.at < |job.steps|
    ensures hop.verdict == Went ==> hop.next == hop.at + 1
    ensures hop.verdict == Stopped ==> hop.next == |job.steps|
  {
  }

  lemma {:induction false} StraightIsInOrder(job: Job, hops: seq<Hop>, n: nat)
    requires Trail(job, hops) && Straight(hops) && n < |hops|
    ensures hops[n].at == n && hops[n].next == n + 1
  {
    StepsOn(job, hops, n);
    if n > 0 {
      StraightIsInOrder(job, hops, n - 1);
    }
  }

  /** The status is success exactly when every step was visited once, in order, and none of
      them jumped or stopped the run. */
  lemma SuccessMeansInOrder(job: Job, hops: seq<Hop>)
    requires Finished(job, hops)
    ensures StatusOf(hops) == Success <==>
      |hops| == |job.steps| && forall n | 0 <= n < |hops| :: hops[n].at == n && hops[n].verdict == Went
  {
    StatusSuccess(hops);
    if Straight(hops) {
      forall n | 0 <= n < |hops|
        ensures hops[n].at == n && hops[n].next == n + 1 && n < |job.steps|
      {
        StraightIsInOrder(job, hops, n);
        TrailAt(job, hops, n);
      }
      assert hops != [] ==> hops[|hops| - 1].at == |hops| - 1;
    }
  }

  /** A stop is always the last hop, so the status is aborted exactly when the last recorded
      step stopped the run. */
  lemma {:induction false} AbortedMeansLastStopped(job: Job, hops: seq<Hop>)
    requires Trail(job, hops)
    ensures StatusOf(hops) == Aborted <==> hops != [] && hops[|hops| - 1].verdict == Stopped
  {
    if hops != [] {
      var front := hops[..|hops| - 1];
      NeverAbortedBefore(job, hops, |front|);
    }
  }

  lemma {:induction false} NeverAbortedBefore(job: Job, hops: seq<Hop>, n: nat)
    requires Trail(job, hops) && n < |hops|
    ensures StatusOf(hops[..n]) != Aborted
  {
    if n > 0 {
      NeverAbortedBefore(job, hops, n - 1);
      assert hops[..n][..n - 1] == hops[..n - 1];
      StepsOn(job, hops, n - 1);
      StepsOn(job, hops, n);
    }
  }

  // ----- running out of hops -----

  function Visits(hops: seq<Hop>, i: nat): nat {
    if hops == [] then 0
    else Visits(hops[..|hops| - 1], i) + (if hops[|hops| - 1].at == i then 1 else 0)
  }

  function VisitsBelow(hops: seq<Hop>, i: nat): nat {
    if hops == [] then 0
    else VisitsBelow(hops[..|hops| - 1], i) + (if hops[|hops| - 1].at < i then 1 else 0)
  }

  lemma {:induction false} VisitsAddUp(hops: seq<Hop>, i: nat)
    ensures VisitsBelow(hops, i + 1) == VisitsBelow(hops, i) + Visits(hops, i)
  {
    if hops != [] {
      VisitsAddUp(hops[..|hops| - 1], i);
    }
  }

  lemma {:induction false} VisitsBounds(hops: seq<Hop>, n: nat)
    ensures VisitsBelow(hops, 0) == 0
    ensures (forall k | 0 <= k < |hops| :: hops[k].at < n) ==> VisitsBelow(hops, n) == |hops|
  {
    if hops != [] {
      VisitsBounds(hops[..|hops| - 1], n);
    }
  }

  lemma {:induction false} Pigeonhole(hops: seq<Hop>, n: nat)
    requires forall i | 0 <= i < n :: Visits(hops, i) <= MAX_STEP_HOPS_FACTOR
    ensures VisitsBelow(hops, n) <= n * MAX_STEP_HOPS_FACTOR
  {
    if n == 0 {
      VisitsBounds(hops, 0);
    } else {
      Pigeonhole(hops, n - 1);
      VisitsAddUp(hops, n - 1);
    }
  }

  /** A run cut off by the hop budget has failed, and went through some step more than
      `maxStepHopsFactor` times. */
  lemma OutOfHopsMeansFailed(job: Job, hops: seq<Hop>)
    requires Finished(job, hops) && Position(hops) < |job.steps|
    ensures StatusOf(hops) == Failed
    ensures exists i | 0 <= i < |job.steps| :: Visits(hops, i) > MAX_STEP_HOPS_FACTOR
  {
    SuccessMeansInOrder(job, hops);
    AbortedMeansLastStopped(job, hops);
    TrailAt(job, hops, |hops| - 1);
    if forall i | 0 <= i < |job.steps| :: Visits(hops, i) <= MAX_STEP_HOPS_FACTOR {
      Pigeonhole(hops, |job.steps|);
      forall k | 0 <= k < |hops|
        ensures hops[k].at < |job.steps|
      {
        TrailAt(job, hops, k);
      }
      VisitsBounds(hops, |job.steps|);
      assert false;
    }
  }
}
