/** Registering a producer's summary: two files written in order, each created only if absent. */
module ArtifactIngestion {
  import opened Optional

  datatype Summary = Summary(targetId: string, robotId: string, jobId: Option<string>, producerRevision: string, body: string)

  datatype Request = Request(key: string, targetId: string, summary: Summary)

  /** The SHA-256 of a request, taken as injective. */
  datatype RequestDigest = DigestOf(request: Request)

  datatype Status = REGISTERED | REPLAYED

  /** A receipt; its registration id is a digest of target and key. */
  datatype Receipt = Receipt(
    key: string, targetId: string, jobId: Option<string>, status: Status, producerRevision: string, registeredAt: int)

  /** The content of a registration file. */
  datatype Record = Record(digest: RequestDigest, receipt: Receipt)

  datatype Store = Store(summaries: map<string, Summary>, registrations: map<string, Record>)

  /** Robots by target profile, and targets by job. */
  datatype Directory = Directory(profiles: map<string, string>, jobs: map<string, string>)

  datatype Crash = NoCrash | BeforeSummary | BetweenWrites | AfterBoth

  datatype Answer = Given(receipt: Receipt) | Conflict | Crashed

  // ---- one registration ----

  predicate IsLower(c: char) { 'a' <= c <= 'z' }

  predicate IsDigit(c: char) { '0' <= c <= '9' }

  /** The pattern of a target that has a summary file. */
  predicate NamesSummary(target: string) {
    && 3 <= |target| <= 64 && IsLower(target[0])
    && forall i :: 0 <= i < |target| ==> IsLower(target[i]) || IsDigit(target[i]) || target[i] == '_' || target[i] == '-'
  }

  /** The target is registered, and the summary and its job are about it. */
  predicate Identified(d: Directory, q: Request) {
    && q.targetId in d.profiles
    && q.summary.targetId == q.targetId && q.summary.robotId == d.profiles[q.targetId]
    && (q.summary.jobId.Some? ==> q.summary.jobId.value in d.jobs && d.jobs[q.summary.jobId.value] == q.targetId)
  }

  function NewRecord(q: Request, now: int): Record {
    Record(DigestOf(q), Receipt(q.key, q.targetId, q.summary.jobId, REGISTERED, q.summary.producerRevision, now))
  }

  /** The answer of a request whose key is taken. */
  function Replay(stored: Record, q: Request): Answer {
    if stored.digest != DigestOf(q) then Conflict else Given(stored.receipt.(status := REPLAYED))
  }

  /** The store and the answer after `register_artifact_analysis` run alone. */
  function Register(s: Store, d: Directory, q: Request, now: int, crash: Crash): (Store, Answer) {
    if !Identified(d, q) then (s, Conflict)
    else if q.key in s.registrations then (s, Replay(s.registrations[q.key], q))
    else if !NamesSummary(q.targetId) || q.targetId in s.summaries then (s, Conflict)
    else
      var written := s.(summaries := s.summaries[q.targetId := q.summary]);
      var registered := written.(registrations := s.registrations[q.key := NewRecord(q, now)]);
      match crash
      case BeforeSummary => (s, Crashed)
      case BetweenWrites => (written, Crashed)
      case AfterBoth => (registered, Crashed)
      case NoCrash => (registered, Given(NewRecord(q, now).receipt))
  }

  class AnalysisArtifacts {
    var summaries: map<string, Summary>
    var registrations: map<string, Record>

    ghost function Contents(): Store
      reads this
    {
      Store(summaries, registrations)
    }

    constructor ()
      ensures Contents() == Store(map[], map[])
    {
      summaries, registrations := map[], map[];
    }

    /** `register_artifact_analysis`. */
    method RegisterArtifactAnalysis(d: Directory, q: Request, now: int, crash: Crash) returns (a: Answer)
      modifies this
      ensures (Contents(), a) == Register(old(Contents()), d, q, now, crash)
    {
      if q.targetId !in d.profiles {
        return Conflict;
      }
      if q.summary.targetId != q.targetId || q.summary.robotId != d.profiles[q.targetId] {
        return Conflict;
      }
      if q.summary.jobId.Some? {
        var job := q.summary.jobId.value;
        if job !in d.jobs || d.jobs[job] != q.targetId {
          return Conflict;
        }
      }
      if q.key in registrations {
        var stored := registrations[q.key];
        if stored.digest != DigestOf(q) {
          return Conflict;
        }
        return Given(stored.receipt.(status := REPLAYED));
      }
      if !NamesSummary(q.targetId) || q.targetId in summaries {
        return Conflict;
      }
      var receipt := Receipt(q.key, q.targetId, q.summary.jobId, REGISTERED, q.summary.producerRevision, now);
      if crash.BeforeSummary? {
        return Crashed;
      }
      summaries := summaries[q.targetId := q.summary];
      if crash.BetweenWrites? {
        return Crashed;
      }
      registrations := registrations[q.key := Record(DigestOf(q), receipt)];
      if crash.AfterBoth? {
        return Crashed;
      }
      return Given(receipt);
    }
  }

  // ---- any interleaving ----

  /** Past the replay check, past the look for a summary, or past writing it. */
  datatype Stage = Checked | Looked | Wrote

  datatype Writer = Writer(stage: Stage, request: Request, now: int)

  /** The store, the writers under way, and every receipt given out with the request it answers. */
  datatype World = World(store: Store, writers: map<nat, Writer>, given: set<(Request, Receipt)>)

  /** A writer that is never moved again has crashed. */
  datatype Step =
    | Begin(who: nat, d: Directory, q: Request, now: int) | Look(who: nat)
    | WriteSummary(who: nat) | WriteRecord(who: nat)

  const START := World(Store(map[], map[]), map[], {})

  function Leave(w: World, who: nat): World {
    w.(writers := w.writers - {who})
  }

  function Move(w: World, who: nat, stage: Stage): World
    requires who in w.writers
  {
    w.(writers := w.writers[who := w.writers[who].(stage := stage)])
  }

  predicate At(w: World, who: nat, stage: Stage) {
    who in w.writers && w.writers[who].stage == stage
  }

  function DoBegin(w: World, who: nat, d: Directory, q: Request, now: int): World {
    if who in w.writers || !Identified(d, q) then w
    else if q.key in w.store.registrations then
      match Replay(w.store.registrations[q.key], q)
      case Given(receipt) => w.(given := w.given + {(q, receipt)})
      case _ => w
    else w.(writers := w.writers[who := Writer(Checked, q, now)])
  }

  function DoWriteSummary(w: World, who: nat): World
    requires who in w.writers
  {
    var q := w.writers[who].request;
    if q.targetId in w.store.summaries then Leave(w, who)
    else Move(w.(store := w.store.(summaries := w.store.summaries[q.targetId := q.summary])), who, Wrote)
  }

  function DoWriteRecord(w: World, who: nat): World
    requires who in w.writers
  {
    var q := w.writers[who].request;
    var record := NewRecord(q, w.writers[who].now);
    if q.key in w.store.registrations then Leave(w, who)
    else
      Leave(World(w.store.(registrations := w.store.registrations[q.key := record]), w.writers,
                  w.given + {(q, record.receipt)}), who)
  }

  function Next(w: World, step: Step): World {
    match step
    case Begin(who, d, q, now) => DoBegin(w, who, d, q, now)
    case Look(who) =>
      if !At(w, who, Checked) then w
      else
        var q := w.writers[who].request;
        if !NamesSummary(q.targetId) || q.targetId in w.store.summaries then Leave(w, who) else Move(w, who, Looked)
    case WriteSummary(who) => if At(w, who, Looked) then DoWriteSummary(w, who) else w
    case WriteRecord(who) => if At(w, who, Wrote) then DoWriteRecord(w, who) else w
  }

  function After(w: World, steps: seq<Step>): World {
    if steps == [] then w else Next(After(w, steps[..|steps| - 1]), steps[|steps| - 1])
  }

  // ---- the invariant ----

  /** The record is the one of its request, and the request's summary is on disk. */
  ghost predicate RecordSound(s: Store, key: string)
    requires key in s.registrations
  {
    var record := s.registrations[key];
    var q := record.digest.request;
    && q.key == key && record == NewRecord(q, record.receipt.registeredAt)
    && q.targetId in s.summaries && s.summaries[q.targetId] == q.summary
  }

  function TargetOf(s: Store, key: string): string
    requires key in s.registrations
  {
    s.registrations[key].receipt.targetId
  }

  ghost predicate StoreSound(s: Store) {
    && (forall key :: key in s.registrations ==> RecordSound(s, key))
    && forall k, l :: k in s.registrations && l in s.registrations && k != l ==> TargetOf(s, k) != TargetOf(s, l)
  }

  /** A writer past its summary owns it: nobody else has registered or written for that target. */
  ghost predicate WriterSound(w: World, who: nat)
    requires who in w.writers
  {
    w.writers[who].stage.Wrote? ==>
      var q := w.writers[who].request;
      && q.targetId in w.store.summaries && w.store.summaries[q.targetId] == q.summary
      && (forall key :: key in w.store.registrations ==> TargetOf(w.store, key) != q.targetId)
      && forall x :: x in w.writers && x != who && w.writers[x].stage.Wrote? ==> w.writers[x].request.targetId != q.targetId
  }

  /** A receipt given out is the stored one, but for its status. */
  predicate ReceiptSound(s: Store, q: Request, receipt: Receipt) {
    && q.key in s.registrations && s.registrations[q.key].digest == DigestOf(q)
    && receipt.(status := REGISTERED) == s.registrations[q.key].receipt
  }

  ghost predicate Sound(w: World) {
    && StoreSound(w.store)
    && (forall who :: who in w.writers ==> WriterSound(w, who))
    && forall q, receipt :: (q, receipt) in w.given ==> ReceiptSound(w.store, q, receipt)
  }

  /** Nothing written is ever changed. */
  predicate Extends(s: Store, t: Store) {
    && (forall target :: target in s.summaries ==> target in t.summaries && t.summaries[target] == s.summaries[target])
    && forall key :: key in s.registrations ==> key in t.registrations && t.registrations[key] == s.registrations[key]
  }

  lemma LeaveOrLookKeepsSound(w: World, who: nat)
    requires Sound(w) && who in w.writers
    ensures Sound(Leave(w, who))
    ensures !w.writers[who].stage.Wrote? ==> Sound(Move(w, who, Looked))
  {
    hide StoreSound, ReceiptSound, TargetOf;
    var t := Leave(w, who);
    forall x | x in t.writers ensures WriterSound(t, x) {
      assert WriterSound(w, x);
    }
    if !w.writers[who].stage.Wrote? {
      var u := Move(w, who, Looked);
      forall x | x in u.writers ensures WriterSound(u, x) {
        assert WriterSound(w, x);
      }
    }
  }

  lemma BeginKeepsSound(w: World, who: nat, d: Directory, q: Request, now: int)
    requires Sound(w)
    ensures Sound(DoBegin(w, who, d, q, now))
  {
    var t := DoBegin(w, who, d, q, now);
    if q.key in w.store.registrations {
      assert RecordSound(w.store, q.key);
    }
    forall x | x in t.writers ensures WriterSound(t, x) {
      assert x in w.writers ==> WriterSound(w, x);
    }
    hide StoreSound, Identified;
  }

  /** A summary is written only where there is none, so no registration can be about that target yet. */
  lemma WriteSummaryKeepsSound(w: World, who: nat)
    requires Sound(w) && At(w, who, Looked) && w.writers[who].request.targetId !in w.store.summaries
    ensures Sound(DoWriteSummary(w, who))
  {
    var t := DoWriteSummary(w, who);
    var target := w.writers[who].request.targetId;
    forall key | key in w.store.registrations ensures RecordSound(t.store, key) && TargetOf(t.store, key) != target {
      assert RecordSound(w.store, key);
    }
    hide RecordSound;
    forall x | x in t.writers ensures WriterSound(t, x) {
      assert WriterSound(w, x);
    }
    forall q, receipt | (q, receipt) in t.given ensures ReceiptSound(t.store, q, receipt) {
      assert ReceiptSound(w.store, q, receipt);
    }
  }

  lemma WriteRecordKeepsSound(w: World, who: nat)
    requires Sound(w) && At(w, who, Wrote) && w.writers[who].request.key !in w.store.registrations
    ensures Sound(DoWriteRecord(w, who))
  {
    var t := DoWriteRecord(w, who);
    var q := w.writers[who].request;
    assert WriterSound(w, who);
    forall key | key in t.store.registrations ensures RecordSound(t.store, key) {
      assert key in w.store.registrations ==> RecordSound(w.store, key);
    }
    forall key | key in w.store.registrations ensures TargetOf(t.store, key) == TargetOf(w.store, key) != q.targetId {
    }
    hide RecordSound;
    forall x | x in t.writers ensures WriterSound(t, x) {
      assert WriterSound(w, x);
    }
    forall p, receipt | (p, receipt) in t.given ensures ReceiptSound(t.store, p, receipt) {
      assert (p, receipt) in w.given ==> ReceiptSound(w.store, p, receipt);
    }
  }

  lemma StepKeepsSound(w: World, step: Step)
    requires Sound(w)
    ensures Sound(Next(w, step)) && Extends(w.store, Next(w, step).store)
  {
    hide Sound, NamesSummary, Identified, Replay;
    match step {
      case Begin(who, d, q, now) => BeginKeepsSound(w, who, d, q, now);
      case Look(who) =>
        if At(w, who, Checked) {
          LeaveOrLookKeepsSound(w, who);
        }
      case WriteSummary(who) =>
        if At(w, who, Looked) {
          LeaveOrLookKeepsSound(w, who);
          if w.writers[who].request.targetId !in w.store.summaries {
            WriteSummaryKeepsSound(w, who);
          }
        }
      case WriteRecord(who) =>
        if At(w, who, Wrote) {
          LeaveOrLookKeepsSound(w, who);
          if w.writers[who].request.key !in w.store.registrations {
            WriteRecordKeepsSound(w, who);
          }
        }
    }
  }

  lemma {:induction false} RunKeepsSound(w: World, steps: seq<Step>)
    requires Sound(w)
    ensures Sound(After(w, steps)) && Extends(w.store, After(w, steps).store)
  {
    if steps != [] {
      hide Sound, Next;
      var init := steps[..|steps| - 1];
      RunKeepsSound(w, init);
      StepKeepsSound(After(w, init), steps[|steps| - 1]);
    }
  }

  // ---- the guarantees ----

  /**
   * At every moment of every interleaving: a registration has its summary on disk, with the
   * revision it registered, and no target is registered twice.
   */
  lemma RegistrationIntegrity(steps: seq<Step>)
    ensures var s := After(START, steps).store;
            && (forall key :: key in s.registrations ==>
                  var receipt := s.registrations[key].receipt;
                  && receipt.key == key && receipt.targetId in s.summaries
                  && s.summaries[receipt.targetId].producerRevision == receipt.producerRevision
                  && s.summaries[receipt.targetId] == s.registrations[key].digest.request.summary)
            && forall k, l :: k in s.registrations && l in s.registrations && TargetOf(s, k) == TargetOf(s, l) ==> k == l
  {
    RunKeepsSound(START, steps);
    var s := After(START, steps).store;
    hide After, ReceiptSound, WriterSound;
    forall key | key in s.registrations ensures RecordSound(s, key) {
    }
    forall k, l | k in s.registrations && l in s.registrations && k != l ensures TargetOf(s, k) != TargetOf(s, l) {
    }
  }

  /** Summaries and registrations, once there, stay as they are. */
  lemma NothingIsReplaced(steps: seq<Step>, later: seq<Step>)
    ensures Extends(After(START, steps).store, After(After(START, steps), later).store)
  {
    RunKeepsSound(START, steps);
    RunKeepsSound(After(START, steps), later);
    hide After, Sound, Extends;
  }

  /**
   * Every receipt given out can be had again, at any later moment: the same request is answered
   * with it, marked as replayed, exactly while target and job still identify; another request
   * under that key never gets one.
   */
  lemma ReceiptsReplay(steps: seq<Step>, later: seq<Step>, q: Request, receipt: Receipt, d: Directory, again: Request,
                       now: int, crash: Crash)
    requires (q, receipt) in After(START, steps).given && again.key == q.key
    ensures var s := After(After(START, steps), later).store;
            && Register(s, d, again, now, crash).0 == s
            && Register(s, d, again, now, crash).1
               == if again == q && Identified(d, q) then Given(receipt.(status := REPLAYED)) else Conflict
  {
    RunKeepsSound(START, steps);
    RunKeepsSound(After(START, steps), later);
    assert ReceiptSound(After(START, steps).store, q, receipt);
    hide After, Sound, Identified, NamesSummary;
  }

  /**
   * The answer of one call, in the code's order: a summary that is not about its target is refused;
   * a taken key replays its own request and refuses any other; a target that names no file, or
   * already has a summary, is refused; otherwise summary and registration are written as given.
   */
  lemma RegistrationDecided(s: Store, d: Directory, q: Request, now: int)
    ensures var (t, a) := Register(s, d, q, now, NoCrash);
            if q.targetId !in d.profiles || q.summary.targetId != q.targetId || q.summary.robotId != d.profiles[q.targetId]
               || (q.summary.jobId.Some? && (q.summary.jobId.value !in d.jobs || d.jobs[q.summary.jobId.value] != q.targetId))
            then a == Conflict && t == s
            else if q.key in s.registrations then
              && t == s
              && (s.registrations[q.key].digest != DigestOf(q) ==> a == Conflict)
              && (s.registrations[q.key].digest == DigestOf(q) ==>
                    a == Given(s.registrations[q.key].receipt.(status := REPLAYED)))
            else if !NamesSummary(q.targetId) || q.targetId in s.summaries then a == Conflict && t == s
            else
              && a == Given(Receipt(q.key, q.targetId, q.summary.jobId, REGISTERED, q.summary.producerRevision, now))
              && t.summaries == s.summaries[q.targetId := q.summary]
              && t.registrations.Keys == s.registrations.Keys + {q.key}
              && (forall key :: key in s.registrations ==> t.registrations[key] == s.registrations[key])
              && t.registrations[q.key] == Record(DigestOf(q), a.receipt)
  {
    hide NamesSummary;
  }

  /** A summary whose registration was never written. */
  predicate Orphaned(s: Store, target: string) {
    target in s.summaries && forall key :: key in s.registrations ==> s.registrations[key].receipt.targetId != target
  }

  /**
   * A crash between the two writes orphans the summary, and then every request for that target
   * conflicts, however often and under whatever key it is tried.
   */
  lemma CrashBetweenWritesIsFinal(s: Store, d: Directory, q: Request, now: int,
                                  again: Request, d2: Directory, later: int, crash: Crash)
    requires StoreSound(s) && Identified(d, q) && NamesSummary(q.targetId)
    requires q.key !in s.registrations && q.targetId !in s.summaries && again.targetId == q.targetId
    ensures var t := Register(s, d, q, now, BetweenWrites).0;
            && Orphaned(t, q.targetId) && q.key !in t.registrations
            && Register(t, d2, again, later, crash) == (t, Conflict)
  {
    var t := Register(s, d, q, now, BetweenWrites).0;
    forall key | key in t.registrations
      ensures TargetOf(t, key) != q.targetId
      ensures key == again.key ==> t.registrations[key].digest != DigestOf(again)
    {
      assert RecordSound(s, key);
    }
    hide NamesSummary, Identified, RecordSound;
  }

  /** No other crash does that: the summary of a new request is orphaned exactly by a crash between the writes. */
  lemma CrashOrphansExactly(s: Store, d: Directory, q: Request, now: int, crash: Crash)
    requires StoreSound(s) && Identified(d, q) && NamesSummary(q.targetId)
    requires q.key !in s.registrations && q.targetId !in s.summaries
    ensures Orphaned(Register(s, d, q, now, crash).0, q.targetId) <==> crash.BetweenWrites?
  {
    var t := Register(s, d, q, now, crash).0;
    forall key | key in s.registrations ensures TargetOf(s, key) != q.targetId {
      assert RecordSound(s, key);
    }
    hide NamesSummary, Identified, RecordSound;
    if crash.NoCrash? || crash.AfterBoth? {
      assert q.key in t.registrations && TargetOf(t, q.key) == q.targetId;
    }
  }

  /** Nobody is about to register the target. */
  predicate Abandoned(w: World, target: string) {
    Orphaned(w.store, target)
    && forall who :: who in w.writers && w.writers[who].stage.Wrote? ==> w.writers[who].request.targetId != target
  }

  lemma StepKeepsAbandoned(w: World, step: Step, target: string)
    requires Sound(w) && Abandoned(w, target)
    ensures Abandoned(Next(w, step), target)
  {
    hide Sound, Identified, NamesSummary, Replay;
  }

  /** An abandoned summary is never registered, whoever tries and however the tries interleave. */
  lemma {:induction false} AbandonedForever(w: World, steps: seq<Step>, target: string)
    requires Sound(w) && Abandoned(w, target)
    ensures Abandoned(After(w, steps), target)
  {
    if steps != [] {
      hide Sound, Next, Abandoned;
      var init := steps[..|steps| - 1];
      AbandonedForever(w, init, target);
      RunKeepsSound(w, init);
      StepKeepsAbandoned(After(w, init), steps[|steps| - 1], target);
    }
  }

  /** Two writers with one key and two targets. */
  function SharedKey(d: Directory, p: Request, e: Directory, q: Request, now: int): seq<Step> {
    [Begin(0, d, p, now), Begin(1, e, q, now), Look(0), Look(1), WriteSummary(0), WriteSummary(1), WriteRecord(0), WriteRecord(1)]
  }

  /** Two writers at the same stage. */
  function Pair(p: Request, q: Request, now: int, stage: Stage): map<nat, Writer> {
    map[0 := Writer(stage, p, now)][1 := Writer(stage, q, now)]
  }

  lemma BothCheck(d: Directory, p: Request, e: Directory, q: Request, now: int)
    requires Identified(d, p) && Identified(e, q)
    ensures Next(Next(START, Begin(0, d, p, now)), Begin(1, e, q, now)) == World(START.store, Pair(p, q, now, Checked), {})
  {
    hide Identified;
  }

  lemma BothLook(p: Request, q: Request, now: int)
    requires NamesSummary(p.targetId) && NamesSummary(q.targetId)
    ensures Next(Next(World(START.store, Pair(p, q, now, Checked), {}), Look(0)), Look(1))
            == World(START.store, Pair(p, q, now, Looked), {})
  {
    hide NamesSummary;
    assert Pair(p, q, now, Checked)[0 := Writer(Looked, p, now)][1 := Writer(Looked, q, now)] == Pair(p, q, now, Looked);
  }

  lemma BothWriteSummaries(p: Request, q: Request, now: int)
    requires p.targetId != q.targetId
    ensures Next(Next(World(START.store, Pair(p, q, now, Looked), {}), WriteSummary(0)), WriteSummary(1))
            == World(Store(map[p.targetId := p.summary][q.targetId := q.summary], map[]), Pair(p, q, now, Wrote), {})
  {
    assert Pair(p, q, now, Looked)[0 := Writer(Wrote, p, now)][1 := Writer(Wrote, q, now)] == Pair(p, q, now, Wrote);
  }

  lemma SecondRecordFails(w: World, p: Request, q: Request, now: int)
    requires w.writers == Pair(p, q, now, Wrote) && p.key == q.key && p.targetId != q.targetId
    requires q.targetId in w.store.summaries && w.store.registrations == map[]
    ensures Abandoned(Next(Next(w, WriteRecord(0)), WriteRecord(1)), q.targetId)
  {
  }

  /** No crash is needed: of two interleaved requests with one key, the later loses its target for good. */
  lemma SharedKeyAbandonsTarget(d: Directory, p: Request, e: Directory, q: Request, now: int)
    requires Identified(d, p) && Identified(e, q) && NamesSummary(p.targetId) && NamesSummary(q.targetId)
    requires p.key == q.key && p.targetId != q.targetId
    ensures Abandoned(After(START, SharedKey(d, p, e, q, now)), q.targetId)
  {
    hide *;
    var steps := SharedKey(d, p, e, q, now);
    BothCheck(d, p, e, q, now);
    BothLook(p, q, now);
    BothWriteSummaries(p, q, now);
    SecondRecordFails(World(Store(map[p.targetId := p.summary][q.targetId := q.summary], map[]), Pair(p, q, now, Wrote), {}),
                      p, q, now);
    SharedKeyInSteps(d, p, e, q, now);
  }

  lemma SharedKeyInSteps(d: Directory, p: Request, e: Directory, q: Request, now: int)
    ensures After(START, SharedKey(d, p, e, q, now))
            == Next(Next(Next(Next(Next(Next(Next(Next(START, Begin(0, d, p, now)), Begin(1, e, q, now)), Look(0)), Look(1)),
                                   WriteSummary(0)), WriteSummary(1)), WriteRecord(0)), WriteRecord(1))
  {
    AfterEight(START, SharedKey(d, p, e, q, now));
    hide Next, After;
  }

  lemma AfterEight(w: World, s: seq<Step>)
    requires |s| == 8
    ensures After(w, s)
            == Next(Next(Next(Next(Next(Next(Next(Next(w, s[0]), s[1]), s[2]), s[3]), s[4]), s[5]), s[6]), s[7])
  {
    hide Next;
    AfterFront(w, s);
    AfterFront(w, s[..7]);
    AfterFront(w, s[..6]);
    AfterFront(w, s[..5]);
    AfterFront(w, s[..4]);
    AfterFront(w, s[..3]);
    AfterFront(w, s[..2]);
    AfterFront(w, s[..1]);
    assert s[..7][..6] == s[..6] && s[..6][..5] == s[..5] && s[..5][..4] == s[..4];
    assert s[..4][..3] == s[..3] && s[..3][..2] == s[..2] && s[..2][..1] == s[..1] && s[..1][..0] == [];
    hide After;
  }

  lemma AfterFront(w: World, s: seq<Step>)
    requires s != []
    ensures After(w, s) == Next(After(w, s[..|s| - 1]), s[|s| - 1])
    ensures After(w, []) == w
  {
  }

  // ---- exactly when a target is lost ----

  /** A crash loses the target exactly when it comes between the two writes, whatever the others do. */
  lemma CrashAbandonsExactly(w: World, who: nat)
    requires Sound(w) && who in w.writers && !Abandoned(w, w.writers[who].request.targetId)
    ensures Abandoned(Leave(w, who), w.writers[who].request.targetId) <==> w.writers[who].stage.Wrote?
  {
    assert WriterSound(w, who);
    var t, target := Leave(w, who), w.writers[who].request.targetId;
    assert forall x :: x in t.writers ==> x != who && x in w.writers && t.writers[x] == w.writers[x];
    assert forall x :: x in w.writers && x != who ==> x in t.writers;
    hide StoreSound, ReceiptSound;
    assert w.writers[who].stage.Wrote? ==> forall key :: key in w.store.registrations ==> TargetOf(w.store, key) != target;
  }

  /** Without a crash it is lost exactly when the key has meanwhile been taken. */
  lemma LastWriteAbandonsExactly(w: World, who: nat)
    requires Sound(w) && At(w, who, Wrote)
    ensures Abandoned(Next(w, WriteRecord(who)), w.writers[who].request.targetId)
            <==> w.writers[who].request.key in w.store.registrations
  {
    assert WriterSound(w, who);
    var t, q := Next(w, WriteRecord(who)), w.writers[who].request;
    hide StoreSound, ReceiptSound;
    if q.key in w.store.registrations {
      assert forall key :: key in w.store.registrations ==> TargetOf(w.store, key) != q.targetId;
      assert forall x :: x in t.writers ==> x != who && x in w.writers && t.writers[x] == w.writers[x];
    } else {
      assert q.key in t.store.registrations && TargetOf(t.store, q.key) == q.targetId;
    }
  }

  /** The requests that come in, each with the directory of profiles and jobs it meets. */
  predicate Over(offered: iset<(Directory, Request)>, steps: seq<Step>) {
    forall i :: 0 <= i < |steps| && steps[i].Begin? ==> (steps[i].d, steps[i].q) in offered
  }

  /** The request gets as far as writing a summary, if it meets that directory and there is none yet. */
  ghost predicate CanWrite(offered: iset<(Directory, Request)>, q: Request) {
    NamesSummary(q.targetId) && exists d :: (d, q) in offered && Identified(d, q)
  }

  /** Of the requests that can write, no two share a key and differ in target. */
  ghost predicate KeysTellTargets(offered: iset<(Directory, Request)>) {
    forall p, q :: CanWrite(offered, p) && CanWrite(offered, q) && p.key == q.key ==> p.targetId == q.targetId
  }

  /** No summary is lost: each is registered or about to be. */
  ghost predicate NothingLost(w: World) {
    forall target :: target in w.store.summaries ==> !Abandoned(w, target)
  }

  ghost predicate WriterOffered(offered: iset<(Directory, Request)>, w: World, who: nat)
    requires who in w.writers
  {
    var q := w.writers[who].request;
    (exists d :: (d, q) in offered && Identified(d, q)) && (!w.writers[who].stage.Checked? ==> NamesSummary(q.targetId))
  }

  /** Every request at work or registered is one of those offered. */
  ghost predicate AllOffered(offered: iset<(Directory, Request)>, w: World) {
    && (forall who :: who in w.writers ==> WriterOffered(offered, w, who))
    && forall key :: key in w.store.registrations ==> CanWrite(offered, w.store.registrations[key].digest.request)
  }

  lemma WriterCanWrite(offered: iset<(Directory, Request)>, w: World, who: nat)
    requires AllOffered(offered, w) && At(w, who, Wrote)
    ensures CanWrite(offered, w.writers[who].request)
  {
    assert WriterOffered(offered, w, who);
    hide NamesSummary, Identified;
  }

  lemma StepKeepsOffered(offered: iset<(Directory, Request)>, w: World, step: Step)
    requires AllOffered(offered, w) && (step.Begin? ==> (step.d, step.q) in offered)
    ensures AllOffered(offered, Next(w, step))
  {
    hide NamesSummary, Identified, Replay, CanWrite;
    var t := Next(w, step);
    forall x | x in t.writers ensures WriterOffered(offered, t, x) {
      assert x in w.writers ==> WriterOffered(offered, w, x);
    }
    forall key | key in t.store.registrations ensures CanWrite(offered, t.store.registrations[key].digest.request) {
      if key !in w.store.registrations {
        WriterCanWrite(offered, w, step.who);
      }
    }
  }

  /** With such keys the last write never finds its key taken: the registration there would be about the same target. */
  lemma LastWriteSucceeds(offered: iset<(Directory, Request)>, w: World, who: nat)
    requires Sound(w) && AllOffered(offered, w) && KeysTellTargets(offered) && At(w, who, Wrote)
    ensures w.writers[who].request.key !in w.store.registrations
  {
    var q := w.writers[who].request;
    WriterCanWrite(offered, w, who);
    assert WriterSound(w, who);
    hide NamesSummary, Identified, ReceiptSound;
    forall key | key in w.store.registrations ensures key != q.key {
      assert RecordSound(w.store, key);
      assert TargetOf(w.store, key) == w.store.registrations[key].digest.request.targetId;
      assert CanWrite(offered, w.store.registrations[key].digest.request);
    }
  }

  lemma StepLosesNothing(w: World, step: Step)
    requires Sound(w) && NothingLost(w)
    requires step.WriteRecord? && At(w, step.who, Wrote) ==> w.writers[step.who].request.key !in w.store.registrations
    ensures NothingLost(Next(w, step))
  {
    hide Sound, NamesSummary, Identified, Replay;
    var t := Next(w, step);
    forall target | target in t.store.summaries ensures !Abandoned(t, target) {
      if target in w.store.summaries {
        OneTargetIsKept(w, step, target);
      } else {
        assert step.WriteSummary? && At(t, step.who, Wrote) && t.writers[step.who].request.targetId == target;
      }
    }
  }

  lemma OneTargetIsKept(w: World, step: Step, target: string)
    requires target in w.store.summaries && !Abandoned(w, target)
    requires step.WriteRecord? && At(w, step.who, Wrote) ==> w.writers[step.who].request.key !in w.store.registrations
    ensures !Abandoned(Next(w, step), target)
  {
    hide NamesSummary, Identified, Replay;
    var t := Next(w, step);
    if key :| key in w.store.registrations && w.store.registrations[key].receipt.targetId == target {
      assert key in t.store.registrations && t.store.registrations[key].receipt.targetId == target;
    } else {
      var x :| x in w.writers && w.writers[x].stage.Wrote? && w.writers[x].request.targetId == target;
      if step.WriteRecord? && step.who == x {
        var key := w.writers[x].request.key;
        assert key in t.store.registrations && t.store.registrations[key].receipt.targetId == target;
      } else {
        assert x in t.writers && t.writers[x] == w.writers[x];
      }
    }
  }

  lemma {:induction false} RunLosesNothing(offered: iset<(Directory, Request)>, steps: seq<Step>)
    requires KeysTellTargets(offered) && Over(offered, steps)
    ensures Sound(After(START, steps)) && AllOffered(offered, After(START, steps)) && NothingLost(After(START, steps))
  {
    if steps != [] {
      hide Sound, Next, AllOffered, NothingLost, KeysTellTargets;
      var init, step := steps[..|steps| - 1], steps[|steps| - 1];
      RunLosesNothing(offered, init);
      var w := After(START, init);
      StepKeepsSound(w, step);
      StepKeepsOffered(offered, w, step);
      if step.WriteRecord? && At(w, step.who, Wrote) {
        LastWriteSucceeds(offered, w, step.who);
      }
      StepLosesNothing(w, step);
    }
  }

  lemma {:induction false} RunKeepsOffered(offered: iset<(Directory, Request)>, steps: seq<Step>)
    requires Over(offered, steps)
    ensures AllOffered(offered, After(START, steps))
  {
    if steps != [] {
      hide Next, AllOffered;
      RunKeepsOffered(offered, steps[..|steps| - 1]);
      StepKeepsOffered(offered, After(START, steps[..|steps| - 1]), steps[|steps| - 1]);
    }
  }

  /**
   * Every registration in a reachable store came in with a directory in which its target has a
   * profile with the summary's robot, and its job, if it names one, is a job of that target; and
   * what it records is what that request said.
   */
  lemma RegisteredIsAboutItsTarget(offered: iset<(Directory, Request)>, steps: seq<Step>, key: string)
    requires Over(offered, steps) && key in After(START, steps).store.registrations
    ensures var s := After(START, steps).store;
            var record := s.registrations[key];
            var q := record.digest.request;
            && q.key == key && q.targetId in s.summaries && s.summaries[q.targetId] == q.summary
            && record.receipt.key == key && record.receipt.targetId == q.targetId && record.receipt.jobId == q.summary.jobId
            && record.receipt.status == REGISTERED && record.receipt.producerRevision == q.summary.producerRevision
            && exists d :: (d, q) in offered && q.targetId in d.profiles
                 && q.summary.targetId == q.targetId && q.summary.robotId == d.profiles[q.targetId]
                 && (q.summary.jobId.Some? ==> q.summary.jobId.value in d.jobs && d.jobs[q.summary.jobId.value] == q.targetId)
  {
    RunKeepsOffered(offered, steps);
    RunKeepsSound(START, steps);
    var w := After(START, steps);
    assert RecordSound(w.store, key);
    var q := w.store.registrations[key].digest.request;
    assert CanWrite(offered, q);
    hide NamesSummary, After, ReceiptSound, WriterSound, Sound, AllOffered;
    var d :| (d, q) in offered && Identified(d, q);
    assert q.targetId in d.profiles;
  }

  ghost predicate NeverAbandons(offered: iset<(Directory, Request)>) {
    forall steps, target :: Over(offered, steps) ==> !Abandoned(After(START, steps), target)
  }

  /**
   * Over all interleavings of the requests that come in, no target is ever abandoned if and only if
   * no two of those that can write share a key and differ in target.
   */
  lemma KeysDecideLoss(offered: iset<(Directory, Request)>)
    ensures NeverAbandons(offered) <==> KeysTellTargets(offered)
  {
    hide After, Abandoned, NamesSummary, Identified;
    if KeysTellTargets(offered) {
      forall steps, target | Over(offered, steps) ensures !Abandoned(After(START, steps), target) {
        RunLosesNothing(offered, steps);
        LostIsASummary(After(START, steps), target);
      }
    } else {
      var p, q :| CanWrite(offered, p) && CanWrite(offered, q) && p.key == q.key && p.targetId != q.targetId;
      var d :| (d, p) in offered && Identified(d, p);
      var e :| (e, q) in offered && Identified(e, q);
      SharedKeyAbandonsTarget(d, p, e, q, 0);
      assert Over(offered, SharedKey(d, p, e, q, 0));
    }
  }

  lemma LostIsASummary(w: World, target: string)
    requires NothingLost(w)
    ensures !Abandoned(w, target)
  {
  }

  /** A writer that runs alone does what `register_artifact_analysis` does in one go. */
  lemma SoloRunIsRegister(s: Store, d: Directory, q: Request, now: int)
    ensures var steps := [Begin(0, d, q, now), Look(0), WriteSummary(0), WriteRecord(0)];
            var t := After(World(s, map[], {}), steps);
            && t.store == Register(s, d, q, now, NoCrash).0
            && forall receipt :: (q, receipt) in t.given <==> Register(s, d, q, now, NoCrash).1 == Given(receipt)
  {
    var w := World(s, map[], {});
    var four := [Begin(0, d, q, now), Look(0), WriteSummary(0), WriteRecord(0)];
    SoloSteps(s, d, q, now);
    hide *;
    AfterFront(w, four);
    AfterFront(w, four[..3]);
    AfterFront(w, four[..2]);
    AfterFront(w, four[..1]);
    assert four[..3][..2] == four[..2] && four[..2][..1] == four[..1] && four[..1][..0] == [];
  }

  lemma SoloSteps(s: Store, d: Directory, q: Request, now: int)
    ensures var t := Next(Next(Next(Next(World(s, map[], {}), Begin(0, d, q, now)), Look(0)), WriteSummary(0)), WriteRecord(0));
            && t.store == Register(s, d, q, now, NoCrash).0
            && forall receipt :: (q, receipt) in t.given <==> Register(s, d, q, now, NoCrash).1 == Given(receipt)
  {
    hide Identified, NamesSummary;
    var none: map<nat, Writer> := map[];
    var t0 := Next(World(s, none, {}), Begin(0, d, q, now));
    if !Identified(d, q) || q.key in s.registrations {
      assert t0.writers == none && t0.store == s;
    } else if !NamesSummary(q.targetId) || q.targetId in s.summaries {
      assert t0 == World(s, none[0 := Writer(Checked, q, now)], {});
      assert Next(t0, Look(0)).writers == none;
    } else {
      var t2 := Next(Next(t0, Look(0)), WriteSummary(0));
      var written := s.(summaries := s.summaries[q.targetId := q.summary]);
      assert t2.store == written && t2.given == {} && At(t2, 0, Wrote) && t2.writers[0] == Writer(Wrote, q, now);
    }
  }
}
