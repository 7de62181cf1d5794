/** What a job's document shows of its log, and of the execution it records. */
module JobOutcomes {
  import opened Optional
  import opened Jobs
  import Log = JobLog
  import opened BootstrapDriver

  // ---- status and update time ----

  ghost predicate AllFollow(files: Files) {
    forall id :: id in files ==> files[id].Readable? && FollowsLog(files[id].file)
  }

  ghost predicate SystemFollows(s: Log.System) {
    AllFollow(s.files) && forall w :: w in s.prepared ==> FollowsLog(s.prepared[w].file)
  }

  lemma PreparedFollows(f: JobFile, recordId: nat, op: Log.Operation, now: int)
    requires FollowsLog(f) && Log.Prepare(f, recordId, op, now).Some?
    ensures FollowsLog(Log.Prepare(f, recordId, op, now).value)
  {
  }

  lemma StepFollows(s: Log.System, step: Log.Step)
    requires SystemFollows(s)
    ensures SystemFollows(Log.Next(s, step))
  {
    match step {
      case ReadStep(w, op, now) =>
        if op.id in s.files && Log.Prepare(s.files[op.id].file, s.unused, op, now).Some? {
          PreparedFollows(s.files[op.id].file, s.unused, op, now);
        }
      case CreateStep(id, operation, target, now) =>
        assert FollowsLog(Created(id, operation, target, now));
      case _ =>
    }
    hide FollowsLog, Created;
  }

  /**
   * However creations, appends and checkpoints of several writers interleave: the status and the
   * update time of every job are those of its last event, or of its creation.
   */
  lemma {:induction false} StatusFollowsLog(steps: seq<Log.Step>, id: string)
    requires id in Log.After(Log.START, steps).files
    ensures var stored := Log.After(Log.START, steps).files[id];
            && stored.Readable?
            && var f := stored.file;
               && (f.events == [] ==> f.job.status == CREATED && f.job.updatedAt == f.job.createdAt)
               && (f.events != [] ==>
                     f.job.status == f.events[|f.events| - 1].status && f.job.updatedAt == f.events[|f.events| - 1].occurredAt)
  {
    RunFollows(steps);
    hide Log.After;
  }

  lemma {:induction false} RunFollows(steps: seq<Log.Step>)
    ensures SystemFollows(Log.After(Log.START, steps))
  {
    if steps != [] {
      hide Log.Next, SystemFollows;
      RunFollows(steps[..|steps| - 1]);
      StepFollows(Log.After(Log.START, steps[..|steps| - 1]), steps[|steps| - 1]);
    } else {
      assert Log.After(Log.START, steps) == Log.START;
    }
  }

  // ---- the documents of a bootstrap call ----

  /** What the documents of a call say of its job: who it is about is fixed, the rest is told by the log. */
  lemma ScriptShowsJob(c: Call, n: nat)
    requires n < |Script(c)|
    ensures var f := Script(c)[n];
            && f.job.jobId == c.jobId && f.job.operation == "target.bootstrap.execute" && f.job.target == c.target
            && f.job.createdAt == c.now && FollowsLog(f) && f.job.revision == |f.events|
            && (forall e :: e in f.events ==> e.jobId == c.jobId && e.occurredAt == c.now)
            && (forall k :: k in f.checkpoints ==> k.jobId == c.jobId && k.createdAt == c.now)
  {
  }

  /** Created; started for that plan and request; then with the checkpoint that its authority is verified. */
  lemma ScriptBegins(c: Call)
    ensures |Script(c)| >= 3 && Script(c)[0].events == [] && Script(c)[0].checkpoints == [] && Script(c)[1].checkpoints == []
    ensures var started, authorized := Script(c)[1], Script(c)[2];
            && |started.events| == 1 && started.job.status == RUNNING
            && started.events[0].eventType == "JOB_STARTED" && started.events[0].status == RUNNING
            && started.events[0].payload == map["plan_sha256" := Text(c.plan), "approval_request_id" := Text(c.requestId)]
            && authorized.events == started.events && authorized.job == started.job
            && |authorized.checkpoints| == 1 && authorized.checkpoints[0].sequence == 1
            && authorized.checkpoints[0].state == map["phase" := Text("authority-verified"), "plan_sha256" := Text(c.plan)]
  {
  }

  /** A result is kept as a checkpoint; then the last event tells whether it succeeded, with its diagnostics. */
  lemma ScriptEndsWithResult(c: Call, r: BootstrapResult)
    requires c.execution == Returns(r)
    ensures |Script(c)| == 5
    ensures var recorded, finished := Script(c)[3], Script(c)[4];
            && recorded.events == Script(c)[2].events && recorded.job == Script(c)[2].job
            && |recorded.checkpoints| == 2 && recorded.checkpoints[0] == Script(c)[2].checkpoints[0]
            && recorded.checkpoints[1].sequence == 1
            && recorded.checkpoints[1].state == map["phase" := Text("completed"), "result" := ResultDoc(r)]
            && finished.checkpoints == recorded.checkpoints
            && |finished.events| == 2 && finished.events[0] == recorded.events[0]
            && finished.events[1].sequence == 2
            && finished.events[1].payload == map["diagnostics" := Texts(r.diagnostics)]
            && finished.events[1].eventType == (if r.succeeded then "BOOTSTRAP_COMPLETED" else "BOOTSTRAP_FAILED")
            && finished.events[1].status == (if r.succeeded then SUCCEEDED else JobStatus.FAILED)
            && finished.job.status == (if r.succeeded then SUCCEEDED else JobStatus.FAILED)
  {
  }

  /** An OSError or ValueError is recorded as a failure with its message; anything else leaves the job as it stood. */
  lemma ScriptEndsWithError(c: Call)
    requires !c.execution.Returns?
    ensures c.execution.Escapes? ==> |Script(c)| == 3
    ensures c.execution.Raises? ==>
              && |Script(c)| == 4
              && var failed := Script(c)[3];
                 && failed.job.status == JobStatus.FAILED && failed.checkpoints == Script(c)[2].checkpoints
                 && |failed.events| == 2 && failed.events[0] == Script(c)[2].events[0]
                 && failed.events[1].eventType == "BOOTSTRAP_FAILED" && failed.events[1].status == JobStatus.FAILED
                 && failed.events[1].sequence == 2
                 && failed.events[1].payload == map["error" := Text(c.execution.message)]
  {
  }

  /**
   * A call that executed to its end leaves its outcome on disk: SUCCEEDED exactly for a result that
   * succeeded, otherwise FAILED, with the diagnostics or the error in the last event; what it
   * returns is that job and that result.  An exception of another kind leaves the job RUNNING.
   */
  lemma OutcomeIsRecorded(before: Files, c: Call, after: Files, o: Outcome)
    requires Ran(before, c, after, o) && !SomeCompleted(before, c.plan, c.target) && c.survive >= |Script(c)|
    ensures c.jobId in after && after[c.jobId].Readable? && forall id :: id in before && id != c.jobId ==> id in after && after[id] == before[id]
    ensures var f := after[c.jobId].file;
            && f.events != []
            && var last := f.events[|f.events| - 1];
               match c.execution
               case Returns(r) =>
                 && f.job.status == (if r.succeeded then SUCCEEDED else JobStatus.FAILED)
                 && last.status == f.job.status && last.payload == map["diagnostics" := Texts(r.diagnostics)]
                 && o == Returned(f.job, r, true)
               case Raises(message) =>
                 f.job.status == JobStatus.FAILED && last.status == JobStatus.FAILED
                 && last.payload == map["error" := Text(message)] && o == Raised
               case Escapes => f.job.status == RUNNING && last.status == RUNNING && o == Raised
  {
    ScriptBegins(c);
    if c.execution.Returns? {
      ScriptEndsWithResult(c, c.execution.result);
      assert Finished(c, c.execution.result) == Script(c)[4];
    } else {
      ScriptEndsWithError(c);
    }
    hide Script, SomeCompleted, Finished;
  }

  /** A call that found a completed job, or crashed before its last write, never leaves a success of its own. */
  lemma CrashedCallIsRunning(before: Files, c: Call, after: Files, o: Outcome)
    requires Ran(before, c, after, o) && !SomeCompleted(before, c.plan, c.target) && 0 < c.survive < |Script(c)|
    ensures o == Crashed && c.jobId in after && after[c.jobId].Readable?
    ensures after[c.jobId].file.job.status == if c.survive == 1 then CREATED else RUNNING
  {
    ScriptBegins(c);
    if c.execution.Returns? {
      ScriptEndsWithResult(c, c.execution.result);
    } else {
      ScriptEndsWithError(c);
    }
    ScriptShowsJob(c, c.survive - 1);
    hide Script, SomeCompleted;
  }

  /** Over every run of calls, with crashes, from an empty store, status and update time follow the log. */
  lemma {:induction false} DriverStatusFollowsLog(run: Run, i: nat)
    requires IsRun(run) && i < |run.states| && run.states[0] == map[]
    ensures AllFollow(run.states[i])
  {
    if i > 0 {
      DriverStatusFollowsLog(run, i - 1);
      var c := run.calls[i - 1];
      assert Ran(run.states[i - 1], c, run.states[i], run.outcomes[i - 1]);
      forall n: nat | n < |Script(c)| ensures FollowsLog(Script(c)[n]) {
        ScriptShowsJob(c, n);
      }
      hide Script, SomeCompleted, FollowsLog, Finished;
    }
  }

  // ---- what the loader accepts and says ----

  /**
   * A document is accepted exactly when it is stored under its own id, all its events and checkpoints
   * are of that job, the events are counted from one, the revision counts them, and the checkpoints
   * do not fall or go beyond it.
   */
  lemma AcceptedExactly(id: string, f: JobFile)
    ensures Log.Accepted(id, f) <==>
              && f.job.jobId == id && f.job.revision == |f.events|
              && (forall e :: e in f.events ==> e.jobId == id) && (forall i :: 0 <= i < |f.events| ==> f.events[i].sequence == i + 1)
              && (forall k :: k in f.checkpoints ==> k.jobId == id && k.sequence <= |f.events|)
              && forall i, j :: 0 <= i < j < |f.checkpoints| ==> f.checkpoints[i].sequence <= f.checkpoints[j].sequence
  {
  }

  /** Whatever is not accepted has exactly one reason, and a reason is true of the document. */
  lemma RefusedForOneReason(id: string, stored: Stored)
    ensures (exists why :: Log.Applies(why, id, stored)) <==> !(stored.Readable? && Log.Accepted(id, stored.file))
    ensures forall x, y :: Log.Applies(x, id, stored) && Log.Applies(y, id, stored) ==> x == y
    ensures Log.Applies(Log.Unavailable, id, stored) <==> stored.Unreadable?
    ensures stored.Readable? ==>
              var f := stored.file;
              && (Log.Applies(Log.WrongPath, id, stored) <==> f.job.jobId != id)
              && (Log.Applies(Log.WrongIdentity, id, stored) ==>
                    (exists e :: e in f.events && e.jobId != id) || exists k :: k in f.checkpoints && k.jobId != id)
              && (Log.Applies(Log.BadEvents, id, stored) ==> exists i :: 0 <= i < |f.events| && f.events[i].sequence != i + 1)
              && (Log.Applies(Log.BadRevision, id, stored) ==> f.job.revision != |f.events|)
              && (Log.Applies(Log.BadCheckpoints, id, stored) ==>
                    || (exists k :: k in f.checkpoints && k.sequence > |f.events|)
                    || exists i, j :: 0 <= i < j < |f.checkpoints| && f.checkpoints[i].sequence > f.checkpoints[j].sequence)
  {
    if !(stored.Readable? && Log.Accepted(id, stored.file)) {
      var why := if stored.Unreadable? then Log.Unavailable else ReasonFor(id, stored.file);
      assert Log.Applies(why, id, stored);
    }
  }

  function ReasonFor(id: string, f: JobFile): Log.LoadError {
    if f.job.jobId != id then Log.WrongPath else if !Log.SameJob(id, f) then Log.WrongIdentity
    else if !Log.CountedFromOne(f.events) then Log.BadEvents
    else if f.job.revision != |f.events| then Log.BadRevision else Log.BadCheckpoints
  }
}
