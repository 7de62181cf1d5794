/**
 * The independent loader of job documents, and the store's writers interleaved: each
 * operation reads its document in one step and replaces the file in a later one.
 */
module JobLog {
  import opened Ordering
  import opened Jobs
  import opened Optional
  import Driver = BootstrapDriver

  // ---- the loader ----

  /** The loader's demands on the document stored under `id`. */
  predicate Accepted(id: string, f: JobFile) {
    && f.job.jobId == id
    && SameJob(id, f) && CountedFromOne(f.events) && f.job.revision == |f.events|
    && Ordered(f.checkpoints, f.job.revision)
  }

  predicate AllAccepted(files: Files) {
    forall id :: id in files ==> files[id].Readable? && Accepted(id, files[id].file)
  }

  datatype LoadError = Unavailable | WrongPath | WrongIdentity | BadEvents | BadRevision | BadCheckpoints

  predicate SameJob(id: string, f: JobFile) {
    && (forall i :: 0 <= i < |f.events| ==> f.events[i].jobId == id)
    && forall i :: 0 <= i < |f.checkpoints| ==> f.checkpoints[i].jobId == id
  }

  predicate CountedFromOne(events: seq<Event>) {
    forall i :: 0 <= i < |events| ==> events[i].sequence == i + 1
  }

  predicate Ordered(checkpoints: seq<Checkpoint>, revision: nat) {
    && (forall i, j :: 0 <= i < j < |checkpoints| ==> checkpoints[i].sequence <= checkpoints[j].sequence)
    && forall i :: 0 <= i < |checkpoints| ==> checkpoints[i].sequence <= revision
  }

  /** What a refusal says of the file: this is wrong with it, and nothing that is looked at earlier. */
  predicate Applies(why: LoadError, id: string, stored: Stored) {
    match why
    case Unavailable => stored.Unreadable?
    case WrongPath => stored.Readable? && stored.file.job.jobId != id
    case WrongIdentity => stored.Readable? && stored.file.job.jobId == id && !SameJob(id, stored.file)
    case BadEvents =>
      stored.Readable? && stored.file.job.jobId == id && SameJob(id, stored.file) && !CountedFromOne(stored.file.events)
    case BadRevision =>
      && stored.Readable? && stored.file.job.jobId == id && SameJob(id, stored.file) && CountedFromOne(stored.file.events)
      && stored.file.job.revision != |stored.file.events|
    case BadCheckpoints =>
      && stored.Readable? && stored.file.job.jobId == id && SameJob(id, stored.file) && CountedFromOne(stored.file.events)
      && stored.file.job.revision == |stored.file.events|
      && !Ordered(stored.file.checkpoints, stored.file.job.revision)
  }

  datatype Loaded = Records(records: seq<JobFile>) | Rejected(id: string, why: LoadError)

  /** `sequences == list(range(1, len(sequences) + 1))`, as a loop over the event list. */
  method CountsFromOne(events: seq<Event>) returns (ok: bool)
    ensures ok <==> CountedFromOne(events)
  {
    for i := 0 to |events|
      invariant forall j :: 0 <= j < i ==> events[j].sequence == j + 1
    {
      if events[i].sequence != i + 1 {
        return false;
      }
    }
    return true;
  }

  /** Sorted, and nowhere beyond the revision. */
  method CheckpointsInOrder(checkpoints: seq<Checkpoint>, revision: nat) returns (ok: bool)
    ensures ok <==> Ordered(checkpoints, revision)
  {
    for i := 0 to |checkpoints|
      invariant forall j, k :: 0 <= j < k < i ==> checkpoints[j].sequence <= checkpoints[k].sequence
      invariant forall j :: 0 <= j < i ==> checkpoints[j].sequence <= revision
    {
      if (i > 0 && checkpoints[i - 1].sequence > checkpoints[i].sequence) || checkpoints[i].sequence > revision {
        return false;
      }
    }
    return true;
  }

  /** The checks on one file, in the loader's order. */
  method CheckRecord(id: string, stored: Stored) returns (why: Option<LoadError>)
    ensures why.None? <==> stored.Readable? && Accepted(id, stored.file)
    ensures why.Some? ==> Applies(why.value, id, stored)
  {
    if stored.Unreadable? {
      return Some(Unavailable);
    }
    var f := stored.file;
    if f.job.jobId != id {
      return Some(WrongPath);
    }
    if (exists i :: 0 <= i < |f.events| && f.events[i].jobId != id)
       || exists i :: 0 <= i < |f.checkpoints| && f.checkpoints[i].jobId != id {
      return Some(WrongIdentity);
    }
    var counted := CountsFromOne(f.events);
    if !counted {
      return Some(BadEvents);
    }
    if f.job.revision != (if f.events == [] then 0 else f.events[|f.events| - 1].sequence) {
      return Some(BadRevision);
    }
    var ordered := CheckpointsInOrder(f.checkpoints, f.job.revision);
    if !ordered {
      return Some(BadCheckpoints);
    }
    return None;
  }

  const SUFFIX := ".json"

  /** The name of a job's file; the loader reads the files in the order of these names. */
  function FileName(id: string): string {
    id + SUFFIX
  }

  function Stem(name: string): string {
    if |name| >= |SUFFIX| then name[..|name| - |SUFFIX|] else name
  }

  lemma StemOfName(id: string)
    ensures Stem(FileName(id)) == id
  {
  }

  function FileNames(ids: set<string>): set<string> {
    set id | id in ids :: FileName(id)
  }

  lemma {:induction false} AsManyNames(ids: set<string>)
    ensures |FileNames(ids)| == |ids|
  {
    if ids != {} {
      var id :| id in ids;
      AsManyNames(ids - {id});
      assert FileName(id) !in FileNames(ids - {id}) by {
        forall x | x in ids - {id} ensures FileName(x) != FileName(id) {
          StemOfName(x);
          StemOfName(id);
        }
      }
      assert FileNames(ids) == FileNames(ids - {id}) + {FileName(id)};
    }
  }

  /** In name order, what is below the current name has been looked at. */
  lemma FirstsComeBefore(names: set<string>, n: nat)
    requires n < |Sorted(names)|
    ensures forall x :: x in names && Below(x, Sorted(names)[n]) ==> exists i :: 0 <= i < n && Sorted(names)[i] == x
  {
    var sorted := Sorted(names);
    forall x | x in names && Below(x, sorted[n]) ensures exists i :: 0 <= i < n && sorted[i] == x {
      assert x in sorted;
      var i :| 0 <= i < |sorted| && sorted[i] == x;
      if i > n {
        BelowIsAsymmetric(sorted[n], sorted[i]);
      } else if i == n {
        BelowIsAsymmetric(sorted[n], sorted[n]);
      }
    }
  }

  predicate Loads(files: Files, id: string) {
    id in files && files[id].Readable? && Accepted(id, files[id].file)
  }

  /** All files before the `n`th name load, and these are their documents. */
  ghost predicate LoadedSoFar(files: Files, names: seq<string>, n: nat, records: seq<JobFile>) {
    && |records| == n <= |names|
    && forall i :: 0 <= i < n ==> Loads(files, Stem(names[i])) && files[Stem(names[i])] == Readable(records[i])
  }

  lemma RefusedFirst(files: Files, n: nat, records: seq<JobFile>)
    requires n < |Sorted(FileNames(files.Keys))| && LoadedSoFar(files, Sorted(FileNames(files.Keys)), n, records)
    ensures var name := Sorted(FileNames(files.Keys))[n];
            && Stem(name) in files
            && forall id :: id in files && Below(FileName(id), FileName(Stem(name))) ==> Loads(files, id)
  {
    var names := FileNames(files.Keys);
    assert Sorted(names)[n] in names;
    var at :| at in files && FileName(at) == Sorted(names)[n];
    StemOfName(at);
    FirstsComeBefore(names, n);
    forall id | id in files && Below(FileName(id), FileName(at)) ensures Loads(files, id) {
      assert FileName(id) in names;
      var i :| 0 <= i < n && Sorted(names)[i] == FileName(id);
      StemOfName(id);
    }
  }

  lemma AllLoaded(files: Files, records: seq<JobFile>)
    requires LoadedSoFar(files, Sorted(FileNames(files.Keys)), |Sorted(FileNames(files.Keys))|, records)
    ensures forall id :: id in files ==> Loads(files, id)
    ensures |records| == |files|
  {
    AsManyNames(files.Keys);
    var names := Sorted(FileNames(files.Keys));
    forall id | id in files ensures Loads(files, id) {
      assert FileName(id) in names;
      var i :| 0 <= i < |names| && names[i] == FileName(id);
      StemOfName(id);
    }
  }

  /** `_load_job_records`: all documents in the order of their names, or the first that is refused. */
  method LoadJobRecords(files: Files) returns (r: Loaded)
    ensures r.Records? <==> forall id :: id in files ==> Loads(files, id)
    ensures r.Records? ==> LoadedSoFar(files, Sorted(FileNames(files.Keys)), |files|, r.records)
    ensures r.Rejected? ==>
              && r.id in files && Applies(r.why, r.id, files[r.id])
              && forall id :: id in files && Below(FileName(id), FileName(r.id)) ==> Loads(files, id)
  {
    var names := Sorted(FileNames(files.Keys));
    var records: seq<JobFile> := [];
    hide Sorted, Accepted, Applies, FileNames;
    for n := 0 to |names|
      invariant LoadedSoFar(files, names, n, records)
    {
      RefusedFirst(files, n, records);
      var id := Stem(names[n]);
      var why := CheckRecord(id, files[id]);
      if why.Some? {
        return Rejected(id, why.value);
      }
      records := records + [files[id].file];
    }
    AllLoaded(files, records);
    r := Records(records);
  }

  // ---- interleaved writers ----

  datatype Operation =
    | Append(id: string, eventType: string, status: JobStatus, payload: Payload, expected: nat)
    | Save(id: string, state: Payload, expected: nat)

  /** A document that a writer has prepared from what it read by adding one record, and not yet written. */
  datatype Prepared = Prepared(id: string, base: JobFile, file: JobFile, recordId: nat)

  /** `unused` is the next id that no event or checkpoint has had. */
  datatype System = System(files: Files, prepared: map<nat, Prepared>, unused: nat)

  datatype Step =
    | CreateStep(id: string, operation: string, target: string, now: int)
    | ReadStep(writer: nat, op: Operation, now: int)
    | WriteStep(writer: nat)

  const START := System(map[], map[], 0)

  /** The document an operation would write after reading `f`, if the revision check passes. */
  function Prepare(f: JobFile, recordId: nat, op: Operation, now: int): Option<JobFile> {
    if f.job.revision != op.expected then None
    else match op
      case Append(id, eventType, status, payload, _) =>
        Some(WithEvent(f, NextEvent(f, recordId, id, eventType, status, payload, now)))
      case Save(id, state, _) => Some(WithCheckpoint(f, recordId, id, state, now))
  }

  function Next(s: System, step: Step): System {
    match step
    case CreateStep(id, operation, target, now) =>
      if id in s.files then s else s.(files := s.files[id := Readable(Created(id, operation, target, now))])
    case ReadStep(w, op, now) =>
      if op.id in s.files && s.files[op.id].Readable? && Prepare(s.files[op.id].file, s.unused, op, now).Some? then
        var f := s.files[op.id].file;
        var p := Prepared(op.id, f, Prepare(f, s.unused, op, now).value, s.unused);
        System(s.files, s.prepared[w := p], s.unused + 1)
      else s
    case WriteStep(w) =>
      if w in s.prepared then
        s.(files := s.files[s.prepared[w].id := Readable(s.prepared[w].file)], prepared := s.prepared - {w})
      else s
  }

  function After(s: System, steps: seq<Step>): System {
    if steps == [] then s else Next(After(s, steps[..|steps| - 1]), steps[|steps| - 1])
  }

  predicate WellLogged(s: System) {
    && AllAccepted(s.files)
    && forall w :: w in s.prepared ==> Accepted(s.prepared[w].id, s.prepared[w].file)
  }

  /** An operation's document stays well formed, and keeps what it was made from. */
  lemma PrepareKeepsAccepted(id: string, f: JobFile, recordId: nat, op: Operation, now: int)
    requires op.id == id && Accepted(id, f) && Prepare(f, recordId, op, now).Some?
    ensures var g := Prepare(f, recordId, op, now).value;
            && Accepted(id, g)
            && f.events <= g.events && f.checkpoints <= g.checkpoints
            && |g.events| + |g.checkpoints| == |f.events| + |f.checkpoints| + 1
  {
    var g := Prepare(f, recordId, op, now).value;
    if op.Save? {
      assert g.checkpoints[..|f.checkpoints|] == f.checkpoints;
    }
  }

  lemma StepKeepsWellLogged(s: System, step: Step)
    requires WellLogged(s)
    ensures WellLogged(Next(s, step))
  {
    match step {
      case ReadStep(w, op, now) =>
        if op.id in s.files && Prepare(s.files[op.id].file, s.unused, op, now).Some? {
          PrepareKeepsAccepted(op.id, s.files[op.id].file, s.unused, op, now);
        }
      case _ =>
    }
  }

  /** However creations, reads and writes interleave, the loader accepts every document. */
  lemma {:induction false} WritersKeepLogsLoadable(steps: seq<Step>)
    ensures WellLogged(After(START, steps))
  {
    if steps != [] {
      WritersKeepLogsLoadable(steps[..|steps| - 1]);
      StepKeepsWellLogged(After(START, steps[..|steps| - 1]), steps[|steps| - 1]);
    }
  }

  // ---- when a write loses something ----

  /** The ids of all events and checkpoints of a document. */
  function Ids(f: JobFile): set<nat> {
    (set i | 0 <= i < |f.events| :: f.events[i].eventId) + set i | 0 <= i < |f.checkpoints| :: f.checkpoints[i].checkpointId
  }

  /** Every event and checkpoint of `f` is in `g`. */
  predicate Keeps(f: JobFile, g: JobFile) {
    (forall e :: e in f.events ==> e in g.events) && forall c :: c in f.checkpoints ==> c in g.checkpoints
  }

  lemma KeptIds(f: JobFile, g: JobFile)
    requires Keeps(f, g)
    ensures Ids(f) <= Ids(g)
  {
    forall x | x in Ids(f) ensures x in Ids(g) {
      if i :| 0 <= i < |f.events| && f.events[i].eventId == x {
        assert f.events[i] in g.events;
      } else {
        var i :| 0 <= i < |f.checkpoints| && f.checkpoints[i].checkpointId == x;
        assert f.checkpoints[i] in g.checkpoints;
      }
    }
  }

  lemma PreparedIds(f: JobFile, recordId: nat, op: Operation, now: int)
    requires Prepare(f, recordId, op, now).Some?
    ensures var g := Prepare(f, recordId, op, now).value; Ids(g) == Ids(f) + {recordId} && Keeps(f, g)
  {
    var g := Prepare(f, recordId, op, now).value;
    if op.Append? {
      assert g.events[|f.events|].eventId == recordId;
      assert forall i :: 0 <= i < |f.events| ==> g.events[i] == f.events[i];
    } else {
      assert g.checkpoints[|f.checkpoints|].checkpointId == recordId;
      assert forall i :: 0 <= i < |f.checkpoints| ==> g.checkpoints[i] == f.checkpoints[i];
    }
  }

  /** A prepared document: its base with one record more, whose id is nowhere else yet. */
  ghost predicate PreparedSound(s: System, w: nat)
    requires w in s.prepared
  {
    var p := s.prepared[w];
    && p.id in s.files && Keeps(p.base, p.file) && Ids(p.file) == Ids(p.base) + {p.recordId}
    && (forall i :: i in Ids(p.file) ==> i < s.unused)
    && (forall id :: id in s.files && s.files[id].Readable? ==> p.recordId !in Ids(s.files[id].file))
    && forall x :: x in s.prepared ==>
         p.recordId !in Ids(s.prepared[x].base) && (x != w ==> s.prepared[x].recordId != p.recordId)
  }

  /** The record `t` is on disk, and whoever read it read the file as it is. */
  ghost predicate Marks(s: System, id: string, t: nat)
    requires id in s.files && s.files[id].Readable?
  {
    && t in Ids(s.files[id].file)
    && forall w :: w in s.prepared && s.prepared[w].id == id && t in Ids(s.prepared[w].base) ==>
         s.prepared[w].base == s.files[id].file
  }

  /** The newest record marks the file; a file without records is as everybody read it. */
  ghost predicate FileSound(s: System, id: string)
    requires id in s.files
  {
    && s.files[id].Readable?
    && (forall i :: i in Ids(s.files[id].file) ==> i < s.unused)
    && if Ids(s.files[id].file) == {}
       then forall w :: w in s.prepared && s.prepared[w].id == id ==> s.prepared[w].base == s.files[id].file
       else exists t :: Marks(s, id, t)
  }

  ghost predicate Tracked(s: System) {
    && (forall w :: w in s.prepared ==> PreparedSound(s, w))
    && forall id :: id in s.files ==> FileSound(s, id)
  }

  lemma CreateKeepsTracked(s: System, id: string, operation: string, target: string, now: int)
    requires Tracked(s) && id !in s.files
    ensures Tracked(Next(s, CreateStep(id, operation, target, now)))
  {
    var t := Next(s, CreateStep(id, operation, target, now));
    PreparedStaySound(s, id, operation, target, now);
    assert Ids(Created(id, operation, target, now)) == {};
    hide Ids, Created, PreparedSound;
    forall x | x in t.files ensures FileSound(t, x) {
      if x != id {
        OtherFileStaysSound(s, t, x);
      }
    }
  }

  lemma PreparedStaySound(s: System, id: string, operation: string, target: string, now: int)
    requires Tracked(s) && id !in s.files
    ensures var t := Next(s, CreateStep(id, operation, target, now));
            forall w :: w in t.prepared ==> PreparedSound(t, w) && t.prepared[w].id != id
  {
    var t := Next(s, CreateStep(id, operation, target, now));
    var f := Created(id, operation, target, now);
    assert Ids(f) == {};
    assert t == s.(files := s.files[id := Readable(f)]);
    hide Ids, Keeps, Created, Next;
    forall w | w in t.prepared ensures PreparedSound(t, w) && t.prepared[w].id != id {
      assert PreparedSound(s, w);
      hide Tracked;
      EmptyFileKeepsPrepared(s, w, id, f);
    }
  }

  lemma EmptyFileKeepsPrepared(s: System, w: nat, id: string, f: JobFile)
    requires w in s.prepared && PreparedSound(s, w) && Ids(f) == {} && id !in s.files
    ensures PreparedSound(s.(files := s.files[id := Readable(f)]), w)
  {
    hide Ids, Keeps;
  }

  /** A step that touches neither the file nor what was read of it. */
  lemma OtherFileStaysSound(s: System, t: System, id: string)
    requires id in s.files && FileSound(s, id) && id in t.files && t.files[id] == s.files[id] && s.unused <= t.unused
    requires forall w :: w in t.prepared && t.prepared[w].id == id ==>
               (w in s.prepared && s.prepared[w] == t.prepared[w]) || t.prepared[w].base == t.files[id].file
    ensures FileSound(t, id)
  {
    hide Ids;
    if m :| Marks(s, id, m) {
      assert Marks(t, id, m);
    }
  }

  lemma ReadKeepsTracked(s: System, w: nat, op: Operation, now: int)
    requires Tracked(s) && op.id in s.files && s.files[op.id].Readable?
    requires Prepare(s.files[op.id].file, s.unused, op, now).Some?
    ensures Tracked(Next(s, ReadStep(w, op, now)))
  {
    var t := Next(s, ReadStep(w, op, now));
    PreparedIds(s.files[op.id].file, s.unused, op, now);
    ReadPreparedSound(s, t, w, t.prepared[w]);
    hide Ids, Keeps, Prepare, PreparedSound, FileSound;
    forall id | id in t.files ensures FileSound(t, id) {
      OtherFileStaysSound(s, t, id);
    }
  }

  lemma ReadPreparedSound(s: System, t: System, w: nat, p: Prepared)
    requires Tracked(s) && t == System(s.files, s.prepared[w := p], s.unused + 1)
    requires p.id in s.files && s.files[p.id] == Readable(p.base) && p.recordId == s.unused
    requires Ids(p.file) == Ids(p.base) + {p.recordId} && Keeps(p.base, p.file)
    ensures forall x :: x in t.prepared ==> PreparedSound(t, x)
  {
    hide Ids, Keeps, Marks;
    assert FileSound(s, p.id);
    forall x | x in s.prepared ensures PreparedSound(s, x) {
    }
    forall id | id in s.files ensures FileSound(s, id) {
    }
    hide FileSound;
    forall x | x in s.prepared ensures forall i :: i in Ids(s.prepared[x].base) ==> i < s.unused {
      assert PreparedSound(s, x);
    }
    forall x | x in t.prepared ensures PreparedSound(t, x) {
      assert x != w ==> PreparedSound(s, x);
      NewIdIsNowhere(s);
    }
  }

  lemma NewIdIsNowhere(s: System)
    requires Tracked(s)
    ensures forall id :: id in s.files && s.files[id].Readable? ==> s.unused !in Ids(s.files[id].file)
    ensures forall x :: x in s.prepared ==>
              s.prepared[x].recordId != s.unused && s.unused !in Ids(s.prepared[x].base)
  {
    hide Ids, Keeps;
    forall id | id in s.files && s.files[id].Readable? ensures s.unused !in Ids(s.files[id].file) {
      assert FileSound(s, id);
    }
    forall x | x in s.prepared ensures s.prepared[x].recordId != s.unused && s.unused !in Ids(s.prepared[x].base) {
      assert PreparedSound(s, x);
    }
  }

  lemma WriteKeepsTracked(s: System, w: nat)
    requires Tracked(s) && w in s.prepared
    ensures Tracked(Next(s, WriteStep(w)))
  {
    hide Ids, Keeps;
    var t := Next(s, WriteStep(w));
    var p := s.prepared[w];
    assert PreparedSound(s, w);
    forall x | x in t.prepared ensures PreparedSound(t, x) {
      assert PreparedSound(s, x);
    }
    forall id | id in t.files ensures FileSound(t, id) {
      if id == p.id {
        assert Marks(t, id, p.recordId);
      } else {
        assert FileSound(s, id);
        if m :| Marks(s, id, m) {
          assert Marks(t, id, m);
        }
      }
    }
  }

  lemma StepKeepsTracked(s: System, step: Step)
    requires Tracked(s)
    ensures Tracked(Next(s, step))
  {
    hide Tracked, Prepare;
    match step {
      case CreateStep(id, operation, target, now) =>
        if id !in s.files {
          CreateKeepsTracked(s, id, operation, target, now);
        }
      case ReadStep(w, op, now) =>
        if op.id in s.files && s.files[op.id].Readable? && Prepare(s.files[op.id].file, s.unused, op, now).Some? {
          ReadKeepsTracked(s, w, op, now);
        }
      case WriteStep(w) =>
        if w in s.prepared {
          WriteKeepsTracked(s, w);
        }
    }
  }

  lemma {:induction false} RunIsTracked(steps: seq<Step>)
    ensures Tracked(After(START, steps))
  {
    if steps != [] {
      RunIsTracked(steps[..|steps| - 1]);
      hide Tracked, Next;
      StepKeepsTracked(After(START, steps[..|steps| - 1]), steps[|steps| - 1]);
    }
  }

  /**
   * In every reachable system: a write keeps all events and checkpoints on disk if and only if the
   * file is still the document its writer read.
   */
  lemma WriteKeepsLogExactly(steps: seq<Step>, w: nat)
    requires w in After(START, steps).prepared
    ensures var s := After(START, steps);
            var p := s.prepared[w];
            && p.id in s.files && s.files[p.id].Readable?
            && Next(s, WriteStep(w)).files[p.id] == Readable(p.file)
            && (Keeps(s.files[p.id].file, p.file) <==> s.files[p.id].file == p.base)
  {
    RunIsTracked(steps);
    TrackedWriteExactly(After(START, steps), w);
    hide After, Tracked, Keeps;
  }

  lemma TrackedWriteExactly(s: System, w: nat)
    requires Tracked(s) && w in s.prepared
    ensures var p := s.prepared[w];
            && p.id in s.files && s.files[p.id].Readable?
            && (Keeps(s.files[p.id].file, p.file) <==> s.files[p.id].file == p.base)
  {
    var p := s.prepared[w];
    assert PreparedSound(s, w) && FileSound(s, p.id);
    var f := s.files[p.id].file;
    if Keeps(f, p.file) {
      KeptIds(f, p.file);
      if Ids(f) != {} {
        var t :| Marks(s, p.id, t);
        assert t in Ids(p.base);
      }
    }
    hide Ids, Keeps;
  }

  /**
   * The revision check is made on read, not on write, so it does not stop a lost update: two
   * appends that expect the same revision both go through, and the first event is gone.
   */
  lemma OverlappingAppendsLoseAnEvent(id: string, p: Payload, q: Payload, now: int)
    ensures var a, b := Append(id, "A", RUNNING, p, 0), Append(id, "B", RUNNING, q, 0);
            var s0 := Next(START, CreateStep(id, "op", "t", now));
            var f := Created(id, "op", "t", now);
            var s := Next(Next(Next(Next(s0, ReadStep(1, a, now)), ReadStep(2, b, now)), WriteStep(1)), WriteStep(2));
            && id in s.files && s.files[id].Readable?
            && s.files[id].file.events == [NextEvent(f, 1, id, "B", RUNNING, q, now)]
            && NextEvent(f, 0, id, "A", RUNNING, p, now) !in s.files[id].file.events
  {
    var a, b := Append(id, "A", RUNNING, p, 0), Append(id, "B", RUNNING, q, 0);
    var f := Created(id, "op", "t", now);
    var s0 := Next(START, CreateStep(id, "op", "t", now));
    var s1 := Next(s0, ReadStep(1, a, now));
    var s2 := Next(s1, ReadStep(2, b, now));
    var s3 := Next(s2, WriteStep(1));
    assert s2.prepared[2].file.events == [NextEvent(f, 1, id, "B", RUNNING, q, now)];
  }

  // ---- what the bootstrap driver leaves ----

  lemma AppendStaysAccepted(eventId: nat, id: string, f: JobFile, eventType: string, status: JobStatus, payload: Payload, now: int)
    requires Accepted(id, f)
    ensures Accepted(id, WithEvent(f, NextEvent(f, eventId, id, eventType, status, payload, now)))
  {
  }

  lemma CheckpointStaysAccepted(checkpointId: nat, id: string, f: JobFile, state: Payload, now: int)
    requires Accepted(id, f)
    ensures Accepted(id, WithCheckpoint(f, checkpointId, id, state, now))
  {
  }

  lemma FirstDocumentsAccepted(c: Driver.Call)
    ensures Accepted(c.jobId, Created(c.jobId, BOOTSTRAP, c.target, c.now))
    ensures Accepted(c.jobId, Driver.Started(c)) && Accepted(c.jobId, Driver.Authorized(c))
  {
    var id, now := c.jobId, c.now;
    var f := Created(id, BOOTSTRAP, c.target, now);
    assert Accepted(id, f);
    hide Accepted, WithEvent, WithCheckpoint, NextEvent, Created;
    AppendStaysAccepted(c.firstId, id, f, "JOB_STARTED", RUNNING,
                        map["plan_sha256" := Text(c.plan), "approval_request_id" := Text(c.requestId)], now);
    CheckpointStaysAccepted(c.firstId + 1, id, Driver.Started(c),
                            map["phase" := Text("authority-verified"), "plan_sha256" := Text(c.plan)], now);
  }

  lemma LastDocumentsAccepted(c: Driver.Call)
    requires Accepted(c.jobId, Driver.Authorized(c))
    ensures forall r :: c.execution == Driver.Returns(r) ==>
              Accepted(c.jobId, Driver.Recorded(c, r)) && Accepted(c.jobId, Driver.Finished(c, r))
    ensures forall message :: c.execution == Driver.Raises(message) ==> Accepted(c.jobId, Driver.Failed(c, message))
  {
    var id, now := c.jobId, c.now;
    hide Accepted, WithEvent, WithCheckpoint, NextEvent, Driver.Authorized;
    match c.execution {
      case Returns(r) =>
        CheckpointStaysAccepted(c.firstId + 2, id, Driver.Authorized(c),
                                map["phase" := Text("completed"), "result" := ResultDoc(r)], now);
        AppendStaysAccepted(c.firstId + 3, id, Driver.Recorded(c, r),
                            if r.succeeded then "BOOTSTRAP_COMPLETED" else "BOOTSTRAP_FAILED",
                            if r.succeeded then SUCCEEDED else JobStatus.FAILED, map["diagnostics" := Texts(r.diagnostics)], now);
      case Raises(message) =>
        AppendStaysAccepted(c.firstId + 2, id, Driver.Authorized(c), "BOOTSTRAP_FAILED", FAILED,
                            map["error" := Text(message)], now);
      case Escapes =>
    }
  }

  /** Every document a bootstrap call writes is one the loader accepts. */
  lemma ScriptIsAccepted(c: Driver.Call, k: nat)
    requires k < |Driver.Script(c)|
    ensures Accepted(c.jobId, Driver.Script(c)[k])
  {
    FirstDocumentsAccepted(c);
    LastDocumentsAccepted(c);
    hide Accepted, Driver.Started, Driver.Authorized, Driver.Recorded, Driver.Finished, Driver.Failed, Created;
  }

  /** Whole runs of the driver, crashing before any write, leave only documents the loader accepts. */
  lemma {:induction false} DriverLogsLoadable(run: Driver.Run, i: nat)
    requires Driver.IsRun(run) && AllAccepted(run.states[0]) && i < |run.states|
    ensures AllAccepted(run.states[i])
  {
    if i > 0 {
      DriverLogsLoadable(run, i - 1);
      var c := run.calls[i - 1];
      forall k | 0 <= k < |Driver.Script(c)| ensures Accepted(c.jobId, Driver.Script(c)[k]) {
        ScriptIsAccepted(c, k);
      }
      assert Driver.Ran(run.states[i - 1], c, run.states[i], run.outcomes[i - 1]);
      hide Accepted, Driver.Script, Driver.SomeCompleted;
    }
  }
}
