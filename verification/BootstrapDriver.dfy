/** `run_bootstrap_job`, with a crash possible before every write, and whole runs of it. */
module BootstrapDriver {
  import opened Jobs
  import opened Optional

  /** What `execute_bootstrap` does: return, raise OSError or ValueError, or raise something else. */
  datatype Execution = Returns(result: BootstrapResult) | Raises(message: string) | Escapes

  /**
   * One call: its request, the fresh id its job would get, the first of the fresh ids of its events
   * and checkpoints, what executing would do, and how many of its writes reach the disk before a crash.
   */
  datatype Call = Call(
    plan: string, requestId: string, target: string, jobId: string, firstId: nat, execution: Execution, now: int, survive: nat)

  datatype Outcome =
    | Returned(job: Job, result: BootstrapResult, executed: bool)
    | Raised
    | Crashed

  // ---- the documents one call writes, in order ----

  function Started(c: Call): JobFile {
    var f := Created(c.jobId, BOOTSTRAP, c.target, c.now);
    WithEvent(f, NextEvent(f, c.firstId, c.jobId, "JOB_STARTED", RUNNING,
                           map["plan_sha256" := Text(c.plan), "approval_request_id" := Text(c.requestId)], c.now))
  }

  function Authorized(c: Call): JobFile {
    WithCheckpoint(Started(c), c.firstId + 1, c.jobId,
                   map["phase" := Text("authority-verified"), "plan_sha256" := Text(c.plan)], c.now)
  }

  function Failed(c: Call, message: string): JobFile {
    WithEvent(Authorized(c), NextEvent(Authorized(c), c.firstId + 2, c.jobId, "BOOTSTRAP_FAILED", FAILED,
                                       map["error" := Text(message)], c.now))
  }

  function Recorded(c: Call, r: BootstrapResult): JobFile {
    WithCheckpoint(Authorized(c), c.firstId + 2, c.jobId, map["phase" := Text("completed"), "result" := ResultDoc(r)], c.now)
  }

  function Finished(c: Call, r: BootstrapResult): JobFile {
    WithEvent(Recorded(c, r), NextEvent(Recorded(c, r), c.firstId + 3, c.jobId,
                                        if r.succeeded then "BOOTSTRAP_COMPLETED" else "BOOTSTRAP_FAILED",
                                        if r.succeeded then SUCCEEDED else JobStatus.FAILED,
                                        map["diagnostics" := Texts(r.diagnostics)], c.now))
  }

  function Script(c: Call): seq<JobFile> {
    [Created(c.jobId, BOOTSTRAP, c.target, c.now), Started(c), Authorized(c)]
    + match c.execution
      case Returns(r) => [Recorded(c, r), Finished(c, r)]
      case Raises(message) => [Failed(c, message)]
      case Escapes => []
  }

  /** The store after the first `n` writes of a call. */
  function AfterWrites(files: Files, c: Call, n: nat): Files
    requires n <= |Script(c)|
  {
    if n == 0 then files else files[c.jobId := Readable(Script(c)[n - 1])]
  }

  ghost predicate SomeCompleted(files: Files, plan: string, target: string) {
    exists id, r :: Completed(files, id, plan, target, r)
  }

  /** What one call may do to the store and answer. */
  ghost predicate Ran(before: Files, c: Call, after: Files, o: Outcome) {
    if SomeCompleted(before, c.plan, c.target) then
      && after == before
      && o.Returned? && !o.executed
      && exists id :: Completed(before, id, c.plan, c.target, o.result) && before[id].file.job == o.job
    else if c.survive < |Script(c)| then
      after == AfterWrites(before, c, c.survive) && o == Crashed
    else
      && after == AfterWrites(before, c, |Script(c)|)
      && o == match c.execution
              case Returns(r) => Returned(Finished(c, r).job, r, true)
              case _ => Raised
  }

  /** From the authority checkpoint on: execute, and record how it went. */
  method ExecuteAndRecord(store: JobStore, c: Call, ghost before: Files) returns (o: Outcome)
    requires c.survive >= 3 && store.files == AfterWrites(before, c, 3)
    modifies store
    ensures if c.survive < |Script(c)| then store.files == AfterWrites(before, c, c.survive) && o == Crashed
            else
              && store.files == AfterWrites(before, c, |Script(c)|)
              && o == match c.execution
                      case Returns(r) => Returned(Finished(c, r).job, r, true)
                      case _ => Raised
  {
    match c.execution {
      case Escapes =>
        return Raised;
      case Raises(message) =>
        if c.survive == 3 {
          return Crashed;
        }
        var failed := store.AppendEvent(
          c.firstId + 2, c.jobId, "BOOTSTRAP_FAILED", JobStatus.FAILED, 1, map["error" := Text(message)], c.now);
        return Raised;
      case Returns(r) =>
        if c.survive == 3 {
          return Crashed;
        }
        o := RecordResult(store, c, r, before);
    }
  }

  /** The checkpoint with the result, and the last event. */
  method RecordResult(store: JobStore, c: Call, r: BootstrapResult, ghost before: Files) returns (o: Outcome)
    requires c.survive >= 4 && c.execution == Returns(r) && store.files == AfterWrites(before, c, 3)
    modifies store
    ensures if c.survive < |Script(c)| then store.files == AfterWrites(before, c, c.survive) && o == Crashed
            else store.files == AfterWrites(before, c, |Script(c)|) && o == Returned(Finished(c, r).job, r, true)
  {
    assert Authorized(c).job.revision == 1 && Recorded(c, r).job.revision == 1;
    hide Authorized, Started, Created;
    var recorded := store.SaveCheckpoint(
      c.firstId + 2, c.jobId, map["phase" := Text("completed"), "result" := ResultDoc(r)], 1, c.now);
    assert store.files == AfterWrites(before, c, 4);
    if c.survive == 4 {
      return Crashed;
    }
    var finished := store.AppendEvent(
      c.firstId + 3, c.jobId, if r.succeeded then "BOOTSTRAP_COMPLETED" else "BOOTSTRAP_FAILED",
      if r.succeeded then SUCCEEDED else JobStatus.FAILED, 1,
      map["diagnostics" := Texts(r.diagnostics)], c.now);
    var reloaded := store.Load(c.jobId);
    return Returned(reloaded.value.job, r, true);
  }

  method RunBootstrapJob(store: JobStore, c: Call, listing: seq<string>) returns (o: Outcome)
    requires c.jobId !in store.files
    requires forall id :: id in listing <==> id in store.files
    modifies store
    ensures Ran(old(store.files), c, store.files, o)
  {
    hide Completed, Succeeded, HasResult, NamesPlan;
    ghost var before := store.files;
    var existing := store.FindCompletedBootstrap(c.plan, c.target, listing);
    if existing.Some? {
      return Returned(existing.value.0, existing.value.1, false);
    }
    if c.survive == 0 {
      return Crashed;
    }
    var job := store.Create(c.jobId, BOOTSTRAP, c.target, c.now);
    if c.survive == 1 {
      return Crashed;
    }
    var started := store.AppendEvent(
      c.firstId, c.jobId, "JOB_STARTED", RUNNING, 0,
      map["plan_sha256" := Text(c.plan), "approval_request_id" := Text(c.requestId)], c.now);
    assert store.files == AfterWrites(before, c, 2);
    if c.survive == 2 {
      return Crashed;
    }
    var authorized := store.SaveCheckpoint(
      c.firstId + 1, c.jobId, map["phase" := Text("authority-verified"), "plan_sha256" := Text(c.plan)], 1, c.now);
    o := ExecuteAndRecord(store, c, before);
  }

  // ---- whole runs ----

  datatype Run = Run(states: seq<Files>, calls: seq<Call>, outcomes: seq<Outcome>)

  /** Calls one after another, each with a fresh job id. */
  ghost predicate IsRun(run: Run) {
    && |run.states| == |run.calls| + 1 && |run.outcomes| == |run.calls|
    && forall i :: 0 <= i < |run.calls| ==>
         && run.calls[i].jobId !in run.states[i]
         && Ran(run.states[i], run.calls[i], run.states[i + 1], run.outcomes[i])
  }

  /** At most one job per plan and target has succeeded, and it carries its result. */
  ghost predicate SucceedsOnce(files: Files) {
    && (forall id, plan, target :: id in files && files[id].Readable? && Succeeded(files[id].file, plan, target) ==>
          exists r :: Completed(files, id, plan, target, r))
    && forall a, b, plan, target, r, s ::
         Completed(files, a, plan, target, r) && Completed(files, b, plan, target, s) ==> a == b && r == s
  }

  lemma NewestResultIsUnique(checkpoints: seq<Checkpoint>, r: BootstrapResult, s: BootstrapResult)
    requires HasResult(checkpoints, r) && HasResult(checkpoints, s)
    ensures r == s
  {
    var i :| 0 <= i < |checkpoints|
      && HoldsDict(checkpoints[i]) && checkpoints[i].state["result"] == ResultDoc(r)
      && forall j :: i < j < |checkpoints| ==> !HoldsDict(checkpoints[j]);
    var k :| 0 <= k < |checkpoints|
      && HoldsDict(checkpoints[k]) && checkpoints[k].state["result"] == ResultDoc(s)
      && forall j :: k < j < |checkpoints| ==> !HoldsDict(checkpoints[j]);
    assert i == k;
  }

  /** Among the documents of a call only the last, of a successful result, counts as succeeded. */
  lemma OnlyFinishedSucceeds(c: Call, n: nat, plan: string, target: string)
    requires n < |Script(c)| && Succeeded(Script(c)[n], plan, target)
    ensures plan == c.plan && target == c.target && n == 4
    ensures c.execution.Returns? && c.execution.result.succeeded
    ensures HasResult(Script(c)[n].checkpoints, c.execution.result)
  {
    var f := Script(c)[n];
    var e :| e in f.events && "plan_sha256" in e.payload && e.payload["plan_sha256"] == Text(plan);
    assert n == 4;
    assert f.checkpoints[1].state["result"] == ResultDoc(c.execution.result);
  }

  lemma {:induction false} CallKeepsSucceedsOnce(before: Files, c: Call, after: Files, o: Outcome)
    requires SucceedsOnce(before) && c.jobId !in before && Ran(before, c, after, o)
    ensures SucceedsOnce(after)
  {
    if after != before {
      var n := if c.survive < |Script(c)| then c.survive else |Script(c)|;
      assert after == before[c.jobId := Readable(Script(c)[n - 1])];
      forall id, plan, target | id in after && after[id].Readable? && Succeeded(after[id].file, plan, target)
        ensures exists r :: Completed(after, id, plan, target, r)
      {
        if id == c.jobId {
          OnlyFinishedSucceeds(c, n - 1, plan, target);
          assert Completed(after, id, plan, target, c.execution.result);
        } else {
          var r :| Completed(before, id, plan, target, r);
          assert Completed(after, id, plan, target, r);
        }
      }
      forall a, b, plan, target, r, s
        | Completed(after, a, plan, target, r) && Completed(after, b, plan, target, s)
        ensures a == b && r == s
      {
        OthersWereThere(before, c, n, after, a, plan, target, r);
        OthersWereThere(before, c, n, after, b, plan, target, s);
        if a == b {
          NewestResultIsUnique(after[a].file.checkpoints, r, s);
        }
      }
    }
  }

  lemma OthersWereThere(before: Files, c: Call, n: nat, after: Files, id: string, plan: string, target: string,
                        r: BootstrapResult)
    requires 0 < n <= |Script(c)| && after == before[c.jobId := Readable(Script(c)[n - 1])]
    requires Completed(after, id, plan, target, r)
    ensures id == c.jobId ==> plan == c.plan && target == c.target
    ensures id != c.jobId ==> Completed(before, id, plan, target, r)
  {
    if id == c.jobId {
      OnlyFinishedSucceeds(c, n - 1, plan, target);
    }
  }

  /** Over every run of calls with crashes, at most one job per plan and target ever succeeds. */
  lemma {:induction false} BootstrapSucceedsAtMostOnce(run: Run, i: nat)
    requires IsRun(run) && SucceedsOnce(run.states[0]) && i < |run.states|
    ensures SucceedsOnce(run.states[i])
  {
    if i > 0 {
      BootstrapSucceedsAtMostOnce(run, i - 1);
      CallKeepsSucceedsOnce(run.states[i - 1], run.calls[i - 1], run.states[i], run.outcomes[i - 1]);
    }
  }

  lemma {:induction false} CompletedStays(run: Run, i: nat, k: nat, id: string, plan: string, target: string,
                                          r: BootstrapResult)
    requires IsRun(run) && i <= k < |run.states|
    requires Completed(run.states[i], id, plan, target, r)
    ensures id in run.states[k] && run.states[k][id] == run.states[i][id]
    ensures Completed(run.states[k], id, plan, target, r)
    decreases k - i
  {
    if i < k {
      CompletedStays(run, i, k - 1, id, plan, target, r);
      assert Ran(run.states[k - 1], run.calls[k - 1], run.states[k], run.outcomes[k - 1]);
    }
  }

  /** Once a bootstrap has succeeded, every later call for it returns that job and executes nothing. */
  lemma SuccessIsReturnedEverAfter(run: Run, i: nat, k: nat, id: string, r: BootstrapResult)
    requires IsRun(run) && SucceedsOnce(run.states[0]) && i <= k < |run.calls|
    requires Completed(run.states[i], id, run.calls[k].plan, run.calls[k].target, r)
    ensures run.outcomes[k] == Returned(run.states[i][id].file.job, r, false)
    ensures run.states[k + 1] == run.states[k]
  {
    var c := run.calls[k];
    CompletedStays(run, i, k, id, c.plan, c.target, r);
    BootstrapSucceedsAtMostOnce(run, k);
    assert Ran(run.states[k], c, run.states[k + 1], run.outcomes[k]);
    var other :| Completed(run.states[k], other, c.plan, c.target, run.outcomes[k].result)
                 && run.states[k][other].file.job == run.outcomes[k].job;
  }

  /** A success that a call reports after executing is on disk, result and all, under the job it returns. */
  lemma ReportedSuccessIsOnDisk(before: Files, c: Call, after: Files, o: Outcome)
    requires c.jobId !in before && Ran(before, c, after, o) && o.Returned? && o.result.succeeded
    requires o.executed
    ensures Completed(after, c.jobId, c.plan, c.target, o.result) && after[c.jobId].file.job == o.job
  {
    var f := Finished(c, o.result);
    assert f == Script(c)[4];
    assert f.events[0].payload["plan_sha256"] == Text(c.plan);
    assert f.events[0] in f.events;
    assert HoldsDict(f.checkpoints[1]);
  }
}
