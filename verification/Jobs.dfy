/** Job documents, the store that rewrites them, and the bootstrap driver. */
module Jobs {
  import opened Optional

  const BOOTSTRAP := "target.bootstrap.execute"

  datatype JobStatus = CREATED | RUNNING | SUCCEEDED | FAILED | BLOCKED

  datatype BootstrapResult = BootstrapResult(succeeded: bool, packageSha256: string, diagnostics: seq<string>)

  /** A JSON value inside a payload; a result document is a dict that validates as a result. */
  datatype Data = Text(text: string) | Texts(texts: seq<string>) | ResultDoc(result: BootstrapResult) | OtherDict

  type Payload = map<string, Data>

  /** Event and checkpoint ids are random in the code; here they are numbers that a caller brings along. */
  datatype Event = Event(
    eventId: nat, jobId: string, sequence: nat, eventType: string, status: JobStatus, occurredAt: int, payload: Payload)

  datatype Checkpoint = Checkpoint(checkpointId: nat, jobId: string, sequence: nat, state: Payload, createdAt: int)

  datatype Job = Job(
    jobId: string, operation: string, target: string, status: JobStatus, revision: nat,
    createdAt: int, updatedAt: int)

  /** The document behind one job. */
  datatype JobFile = JobFile(job: Job, events: seq<Event>, checkpoints: seq<Checkpoint>)

  /** A file on disk: a document, or bytes that do not load as one. */
  datatype Stored = Readable(file: JobFile) | Unreadable

  type Files = map<string, Stored>

  // ---- the documents each operation writes ----

  function Created(jobId: string, operation: string, target: string, now: int): JobFile {
    JobFile(Job(jobId, operation, target, CREATED, 0, now, now), [], [])
  }

  function NextEvent(f: JobFile, eventId: nat, jobId: string, eventType: string, status: JobStatus, payload: Payload,
                     now: int): Event
  {
    Event(eventId, jobId, f.job.revision + 1, eventType, status, now, payload)
  }

  function WithEvent(f: JobFile, e: Event): JobFile {
    JobFile(f.job.(status := e.status, revision := e.sequence, updatedAt := e.occurredAt),
            f.events + [e], f.checkpoints)
  }

  function WithCheckpoint(f: JobFile, checkpointId: nat, jobId: string, state: Payload, now: int): JobFile {
    f.(checkpoints := f.checkpoints + [Checkpoint(checkpointId, jobId, f.job.revision, state, now)])
  }

  // ---- completed bootstraps ----

  predicate NamesPlan(f: JobFile, plan: string) {
    exists e :: e in f.events && "plan_sha256" in e.payload && e.payload["plan_sha256"] == Text(plan)
  }

  predicate HoldsDict(c: Checkpoint) {
    "result" in c.state && (c.state["result"].ResultDoc? || c.state["result"].OtherDict?)
  }

  /** The last checkpoint that holds a result dict holds this valid result. */
  predicate HasResult(checkpoints: seq<Checkpoint>, r: BootstrapResult) {
    exists i :: 0 <= i < |checkpoints|
      && HoldsDict(checkpoints[i]) && checkpoints[i].state["result"] == ResultDoc(r)
      && forall j :: i < j < |checkpoints| ==> !HoldsDict(checkpoints[j])
  }

  predicate Succeeded(f: JobFile, plan: string, target: string) {
    f.job.operation == BOOTSTRAP && f.job.target == target && f.job.status == SUCCEEDED && NamesPlan(f, plan)
  }

  /** The job at `id` is a successful bootstrap of this plan on this target, with result `r`. */
  predicate Completed(files: Files, id: string, plan: string, target: string, r: BootstrapResult) {
    id in files && files[id].Readable? && Succeeded(files[id].file, plan, target)
    && HasResult(files[id].file.checkpoints, r)
  }

  datatype Error = NotLoadable | RevisionConflict

  datatype Result<+T> = Ok(value: T) | Err(error: Error)

  class JobStore {
    var files: Files

    constructor ()
      ensures files == map[]
    {
      files := map[];
    }

    method Create(jobId: string, operation: string, target: string, now: int) returns (job: Job)
      modifies this
      ensures files == old(files)[jobId := Readable(Created(jobId, operation, target, now))]
      ensures var f := files[jobId].file;
              && job == f.job && f.events == [] && f.checkpoints == []
              && job.jobId == jobId && job.operation == operation && job.target == target && job.status == CREATED
              && job.revision == 0 && job.createdAt == now && job.updatedAt == now
    {
      var file := Created(jobId, operation, target, now);
      files := files[jobId := Readable(file)];
      job := file.job;
    }

    method Load(jobId: string) returns (r: Result<JobFile>)
      ensures r == if jobId in files && files[jobId].Readable? then Ok(files[jobId].file) else Err(NotLoadable)
    {
      if jobId !in files || files[jobId].Unreadable? {
        return Err(NotLoadable);
      }
      r := Ok(files[jobId].file);
    }

    method AppendEvent(eventId: nat, jobId: string, eventType: string, status: JobStatus, expectedRevision: nat,
                       payload: Payload, now: int)
      returns (r: Result<Event>)
      modifies this
      ensures r.Ok? <==> old(jobId in files && files[jobId].Readable?)
                         && old(files)[jobId].file.job.revision == expectedRevision
      ensures r.Ok? ==>
                var f := old(files)[jobId].file;
                && r.value == NextEvent(f, eventId, jobId, eventType, status, payload, now)
                && files == old(files)[jobId := Readable(WithEvent(f, r.value))]
      ensures r.Ok? ==>
                var f, g, e := old(files)[jobId].file, files[jobId].file, r.value;
                && e.eventId == eventId && e.jobId == jobId && e.sequence == expectedRevision + 1
                && e.eventType == eventType && e.status == status && e.payload == payload && e.occurredAt == now
                && g.events == f.events + [e] && g.checkpoints == f.checkpoints
                && g.job.status == status && g.job.revision == expectedRevision + 1 && g.job.updatedAt == now
                && g.job.jobId == f.job.jobId && g.job.operation == f.job.operation && g.job.target == f.job.target
                && g.job.createdAt == f.job.createdAt
      ensures r.Err? ==> files == old(files)
                         && (r.error == RevisionConflict <==> jobId in files && files[jobId].Readable?)
    {
      var loaded := Load(jobId);
      if loaded.Err? {
        return Err(loaded.error);
      }
      var f := loaded.value;
      if f.job.revision != expectedRevision {
        return Err(RevisionConflict);
      }
      var event := NextEvent(f, eventId, jobId, eventType, status, payload, now);
      files := files[jobId := Readable(WithEvent(f, event))];
      r := Ok(event);
    }

    method SaveCheckpoint(checkpointId: nat, jobId: string, state: Payload, expectedRevision: nat, now: int)
      returns (r: Result<Checkpoint>)
      modifies this
      ensures r.Ok? <==> old(jobId in files && files[jobId].Readable?)
                         && old(files)[jobId].file.job.revision == expectedRevision
      ensures r.Ok? ==>
                var f := old(files)[jobId].file;
                && r.value == Checkpoint(checkpointId, jobId, f.job.revision, state, now)
                && files == old(files)[jobId := Readable(WithCheckpoint(f, checkpointId, jobId, state, now))]
      ensures r.Ok? ==>
                var f, g, c := old(files)[jobId].file, files[jobId].file, r.value;
                && c.checkpointId == checkpointId && c.jobId == jobId && c.sequence == expectedRevision
                && c.state == state && c.createdAt == now
                && g.checkpoints == f.checkpoints + [c] && g.events == f.events && g.job == f.job
      ensures r.Err? ==> files == old(files)
                         && (r.error == RevisionConflict <==> jobId in files && files[jobId].Readable?)
    {
      var loaded := Load(jobId);
      if loaded.Err? {
        return Err(loaded.error);
      }
      var f := loaded.value;
      if f.job.revision != expectedRevision {
        return Err(RevisionConflict);
      }
      var updated := WithCheckpoint(f, checkpointId, jobId, state, now);
      files := files[jobId := Readable(updated)];
      r := Ok(Checkpoint(checkpointId, jobId, f.job.revision, state, now));
    }

    /** The inner loop of the search: the newest result dict decides. */
    method NewestResult(checkpoints: seq<Checkpoint>) returns (r: Option<BootstrapResult>)
      ensures r.Some? ==> HasResult(checkpoints, r.value)
      ensures r.None? ==> forall x :: !HasResult(checkpoints, x)
    {
      var i := |checkpoints|;
      while i > 0
        invariant 0 <= i <= |checkpoints|
        invariant forall j :: i <= j < |checkpoints| ==> !HoldsDict(checkpoints[j])
      {
        i := i - 1;
        if "result" in checkpoints[i].state {
          match checkpoints[i].state["result"]
          case ResultDoc(result) => return Some(result);
          case OtherDict =>
            assert HoldsDict(checkpoints[i]);
            break;
          case _ =>
        }
      }
      return None;
    }

    /** `listing` is the order in which the directory happens to list the files. */
    method FindCompletedBootstrap(plan: string, target: string, listing: seq<string>)
      returns (r: Option<(Job, BootstrapResult)>)
      requires forall id :: id in listing <==> id in files
      ensures r.Some? ==> exists id :: Completed(files, id, plan, target, r.value.1) && files[id].file.job == r.value.0
      ensures r.None? ==> forall id, x :: !Completed(files, id, plan, target, x)
    {
      for n := 0 to |listing|
        invariant forall m, x :: 0 <= m < n ==> !Completed(files, listing[m], plan, target, x)
      {
        var id := listing[n];
        var loaded := Load(id);
        if loaded.Err? {
          continue;
        }
        var f := loaded.value;
        if f.job.operation != BOOTSTRAP || f.job.target != target {
          continue;
        }
        if f.job.status != SUCCEEDED {
          continue;
        }
        if !NamesPlan(f, plan) {
          continue;
        }
        var newest := NewestResult(f.checkpoints);
        if newest.Some? {
          assert Completed(files, id, plan, target, newest.value);
          return Some((f.job, newest.value));
        }
      }
      return None;
    }
  }

  // ---- what counts as a completed bootstrap ----

  /**
   * A completed bootstrap is a succeeded job of that operation and target, one of whose events names
   * the plan, and whose newest result dict is this result.
   */
  lemma CompletedExactly(files: Files, id: string, plan: string, target: string, r: BootstrapResult)
    ensures Completed(files, id, plan, target, r) <==>
              && id in files && files[id].Readable?
              && var f := files[id].file;
                 && f.job.operation == "target.bootstrap.execute" && f.job.target == target && f.job.status == SUCCEEDED
                 && (exists e :: e in f.events && "plan_sha256" in e.payload && e.payload["plan_sha256"] == Text(plan))
                 && exists i :: 0 <= i < |f.checkpoints|
                      && "result" in f.checkpoints[i].state && f.checkpoints[i].state["result"] == ResultDoc(r)
                      && forall j :: i < j < |f.checkpoints| && "result" in f.checkpoints[j].state ==>
                           f.checkpoints[j].state["result"].Text? || f.checkpoints[j].state["result"].Texts?
  {
  }

  /** The status and the update time of a job are those of its last event, or of its creation. */
  predicate FollowsLog(f: JobFile) {
    if f.events == [] then f.job.status == CREATED && f.job.updatedAt == f.job.createdAt
    else
      var last := f.events[|f.events| - 1];
      f.job.status == last.status && f.job.updatedAt == last.occurredAt
  }

  /** Each of the documents the store writes keeps that, whatever the event says. */
  lemma WritersFollowLog(f: JobFile, e: Event, checkpointId: nat, id: string, state: Payload, now: int, operation: string,
                         target: string)
    ensures FollowsLog(WithEvent(f, e)) && FollowsLog(Created(id, operation, target, now))
    ensures FollowsLog(f) ==> FollowsLog(WithCheckpoint(f, checkpointId, id, state, now))
  {
  }
}
