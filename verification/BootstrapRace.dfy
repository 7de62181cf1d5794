/**
 * Several bootstrap drivers at once.  Each lists the job files, reads them one by one in search of
 * a completed job, and then, if it found none, makes the writes of its call one by one; it may stop
 * anywhere.
 */
module BootstrapRace {
  import opened Jobs
  import opened BootstrapDriver

  /**
   * What a driver listed, which of these files it has read and when, whether one of them held a
   * completed job, how many of its writes it has made, and when it made the last of them.
   */
  datatype Progress = Progress(
    call: Call, listing: set<string>, readAt: map<string, nat>, found: bool, done: nat, finishedAt: nat)

  datatype World = World(files: Files, drivers: map<nat, Progress>, clock: nat)

  /** A driver that is never moved again has crashed. */
  datatype Step = List(who: nat, call: Call) | Read(who: nat, id: string) | Write(who: nat)

  const START := World(map[], map[], 0)

  predicate Taken(w: World, jobId: string) {
    jobId in w.files || exists who :: who in w.drivers && w.drivers[who].call.jobId == jobId
  }

  /** The job in that file is a completed one for this request. */
  ghost predicate CompletedAt(files: Files, id: string, plan: string, target: string) {
    exists r :: Completed(files, id, plan, target, r)
  }

  /** The search is over, and without success: all that was listed has been read. */
  predicate Proceeds(p: Progress) {
    !p.found && p.readAt.Keys == p.listing
  }

  predicate Reads(w: World, who: nat, id: string) {
    who in w.drivers && !w.drivers[who].found && id in w.drivers[who].listing && id !in w.drivers[who].readAt
  }

  predicate Writes(w: World, who: nat) {
    who in w.drivers && Proceeds(w.drivers[who]) && w.drivers[who].done < |Script(w.drivers[who].call)|
  }

  /** A job id is new; a driver that finds a completed job returns it, reads no further and writes nothing. */
  ghost function Next(w: World, step: Step): World {
    match step
    case List(who, c) =>
      if who in w.drivers || Taken(w, c.jobId) then w
      else World(w.files, w.drivers[who := Progress(c, w.files.Keys, map[], false, 0, 0)], w.clock + 1)
    case Read(who, id) =>
      if !Reads(w, who, id) then w
      else
        var p := w.drivers[who];
        var found := CompletedAt(w.files, id, p.call.plan, p.call.target);
        World(w.files, w.drivers[who := p.(readAt := p.readAt[id := w.clock], found := found)], w.clock + 1)
    case Write(who) =>
      if !Writes(w, who) then w
      else
        var p := w.drivers[who];
        World(w.files[p.call.jobId := Readable(Script(p.call)[p.done])],
              w.drivers[who := p.(done := p.done + 1, finishedAt := w.clock)], w.clock + 1)
  }

  ghost function After(w: World, steps: seq<Step>): World {
    if steps == [] then w else Next(After(w, steps[..|steps| - 1]), steps[|steps| - 1])
  }

  /** The driver has made its final write, and that write records a success. */
  predicate Wins(p: Progress) {
    p.done == |Script(p.call)| && p.call.execution.Returns? && p.call.execution.result.succeeded
  }

  predicate SameRequest(p: Progress, q: Progress) {
    p.call.plan == q.call.plan && p.call.target == q.call.target
  }

  /** `p` read the file of `q` after the last write of `q`. */
  predicate ReadAfter(p: Progress, q: Progress) {
    q.call.jobId in p.readAt && q.finishedAt < p.readAt[q.call.jobId]
  }

  /** No job that records a success for the same request was finished when the driver read its file, if it read it at all. */
  ghost predicate SearchMisses(w: World, p: Progress) {
    forall x :: x in w.drivers && Wins(w.drivers[x]) && SameRequest(w.drivers[x], p) ==> !ReadAfter(p, w.drivers[x])
  }

  // ---- the invariant ----

  /** The driver's own file and times. */
  predicate OwnFileSound(files: Files, clock: nat, p: Progress) {
    && p.readAt.Keys <= p.listing && p.call.jobId !in p.listing && p.done <= |Script(p.call)|
    && (forall id :: id in p.readAt ==> p.readAt[id] < clock)
    && (!Proceeds(p) ==> p.done == 0)
    && (p.done == 0 ==> p.call.jobId !in files)
    && (p.done > 0 ==> p.finishedAt < clock
                       && p.call.jobId in files && files[p.call.jobId] == Readable(Script(p.call)[p.done - 1]))
  }

  predicate OtherJob(w: World, a: nat, b: nat)
    requires a in w.drivers && b in w.drivers
  {
    a != b ==> w.drivers[a].call.jobId != w.drivers[b].call.jobId
  }

  predicate HasDriver(w: World, id: string) {
    exists who :: who in w.drivers && w.drivers[who].call.jobId == id
  }

  ghost predicate Decided(w: World, p: Progress) {
    !p.found <==> SearchMisses(w, p)
  }

  ghost predicate Sound(w: World) {
    && (forall who :: who in w.drivers ==> OwnFileSound(w.files, w.clock, w.drivers[who]))
    && (forall who :: who in w.drivers ==> Decided(w, w.drivers[who]))
    && (forall a, b :: a in w.drivers && b in w.drivers ==> OtherJob(w, a, b))
    && forall id :: id in w.files ==> HasDriver(w, id)
  }

  lemma SoundByParts(t: World)
    requires forall x :: x in t.drivers ==> OwnFileSound(t.files, t.clock, t.drivers[x])
    requires forall x :: x in t.drivers ==> Decided(t, t.drivers[x])
    requires forall a, b :: a in t.drivers && b in t.drivers ==> OtherJob(t, a, b)
    requires forall id :: id in t.files ==> HasDriver(t, id)
    ensures Sound(t)
  {
    hide OwnFileSound, Decided, OtherJob, HasDriver;
  }

  // ---- what is on disk ----

  lemma LastDocumentWins(c: Call, n: nat, plan: string, target: string)
    requires n < |Script(c)| && Succeeded(Script(c)[n], plan, target)
    ensures plan == c.plan && target == c.target && n + 1 == |Script(c)|
    ensures c.execution.Returns? && c.execution.result.succeeded
  {
    OnlyFinishedSucceeds(c, n, plan, target);
  }

  lemma FinishedIsCompleted(c: Call)
    requires c.execution.Returns? && c.execution.result.succeeded
    ensures |Script(c)| == 5 && Succeeded(Script(c)[4], c.plan, c.target)
    ensures HasResult(Script(c)[4].checkpoints, c.execution.result)
  {
    var f := Finished(c, c.execution.result);
    assert f == Script(c)[4];
    assert f.events[0].payload["plan_sha256"] == Text(c.plan);
    assert f.events[0] in f.events;
    assert HoldsDict(f.checkpoints[1]);
  }

  /** A winner's job is on disk as completed, with its result. */
  lemma WinnerIsCompleted(w: World, who: nat)
    requires Sound(w) && who in w.drivers && Wins(w.drivers[who])
    ensures var c := w.drivers[who].call; Completed(w.files, c.jobId, c.plan, c.target, c.execution.result)
  {
    var c := w.drivers[who].call;
    assert OwnFileSound(w.files, w.clock, w.drivers[who]);
    FinishedIsCompleted(c);
    hide Script, Decided, Succeeded, HasResult;
  }

  /** A file holds a completed job for a request exactly when its driver has won with it. */
  lemma CompletedByWinner(w: World, id: string, plan: string, target: string)
    requires Sound(w)
    ensures CompletedAt(w.files, id, plan, target) <==>
              exists who :: who in w.drivers && Wins(w.drivers[who]) && w.drivers[who].call.jobId == id
                            && w.drivers[who].call.plan == plan && w.drivers[who].call.target == target
  {
    hide Script, HasResult, SearchMisses;
    if CompletedAt(w.files, id, plan, target) {
      var r :| Completed(w.files, id, plan, target, r);
      assert HasDriver(w, id);
      var who :| who in w.drivers && w.drivers[who].call.jobId == id;
      assert OwnFileSound(w.files, w.clock, w.drivers[who]);
      LastDocumentWins(w.drivers[who].call, w.drivers[who].done - 1, plan, target);
    }
    if who :| who in w.drivers && Wins(w.drivers[who]) && w.drivers[who].call.jobId == id
              && w.drivers[who].call.plan == plan && w.drivers[who].call.target == target {
      WinnerIsCompleted(w, who);
    }
  }

  // ---- every step keeps it ----

  lemma ScriptIsNotEmpty(c: Call)
    ensures |Script(c)| >= 3
  {
  }

  lemma ListKeepsFiles(w: World, who: nat, c: Call)
    requires Sound(w) && who !in w.drivers && !Taken(w, c.jobId)
    ensures var t := Next(w, List(who, c));
            && (forall x :: x in t.drivers ==> OwnFileSound(t.files, t.clock, t.drivers[x]))
            && (forall a, b :: a in t.drivers && b in t.drivers ==> OtherJob(t, a, b))
            && (forall id :: id in t.files ==> HasDriver(t, id))
  {
    var t := Next(w, List(who, c));
    ScriptIsNotEmpty(c);
    hide Script, Decided;
    forall x | x in t.drivers ensures OwnFileSound(t.files, t.clock, t.drivers[x]) {
      assert x in w.drivers ==> OwnFileSound(w.files, w.clock, w.drivers[x]);
    }
    forall a, b | a in t.drivers && b in t.drivers ensures OtherJob(t, a, b) {
      assert a in w.drivers && b in w.drivers ==> OtherJob(w, a, b);
    }
    forall id | id in t.files ensures HasDriver(t, id) {
      assert HasDriver(w, id);
      var x :| x in w.drivers && w.drivers[x].call.jobId == id;
      assert x in t.drivers && t.drivers[x].call.jobId == id;
    }
  }

  lemma ListKeepsSound(w: World, who: nat, c: Call)
    requires Sound(w) && who !in w.drivers && !Taken(w, c.jobId)
    ensures Sound(Next(w, List(who, c)))
  {
    var t := Next(w, List(who, c));
    ListKeepsFiles(w, who, c);
    ScriptIsNotEmpty(c);
    hide Script, OwnFileSound, OtherJob, HasDriver;
    assert !Wins(t.drivers[who]);
    hide Wins, Decided;
    forall x | x in t.drivers ensures Decided(t, t.drivers[x]) {
      assert x in w.drivers ==> Decided(w, w.drivers[x]);
      NewcomerKeepsDecided(w, t, who, x);
    }
  }

  /** A driver that has read nothing has found nothing, and it has not won. */
  lemma NewcomerKeepsDecided(w: World, t: World, who: nat, x: nat)
    requires who !in w.drivers && x in t.drivers && who in t.drivers && t.drivers == w.drivers[who := t.drivers[who]]
    requires !Wins(t.drivers[who]) && t.drivers[who].readAt == map[] && !t.drivers[who].found
    requires x in w.drivers ==> Decided(w, w.drivers[x])
    ensures Decided(t, t.drivers[x])
  {
    hide Wins;
    if x in w.drivers && !SearchMisses(w, w.drivers[x]) {
      var y :| y in w.drivers && Wins(w.drivers[y]) && SameRequest(w.drivers[y], w.drivers[x]) && ReadAfter(w.drivers[x], w.drivers[y]);
      assert y != who && t.drivers[y] == w.drivers[y];
    }
    if x in w.drivers && SearchMisses(w, w.drivers[x]) {
      forall y | y in t.drivers && Wins(t.drivers[y]) && SameRequest(t.drivers[y], t.drivers[x])
        ensures !ReadAfter(t.drivers[x], t.drivers[y])
      {
        assert y != who && t.drivers[y] == w.drivers[y];
      }
    }
  }

  lemma ReadKeepsFiles(w: World, who: nat, id: string)
    requires Sound(w) && Reads(w, who, id)
    ensures var t := Next(w, Read(who, id));
            && (forall x :: x in t.drivers ==> OwnFileSound(t.files, t.clock, t.drivers[x]))
            && (forall a, b :: a in t.drivers && b in t.drivers ==> OtherJob(t, a, b))
            && (forall id :: id in t.files ==> HasDriver(t, id))
  {
    var t := Next(w, Read(who, id));
    ReadKeepsJobs(w, who, id);
    forall x | x in t.drivers ensures OwnFileSound(t.files, t.clock, t.drivers[x]) {
      assert OwnFileSound(w.files, w.clock, w.drivers[x]);
      hide Sound;
      ReadKeepsOwnFile(w, who, id, x);
    }
    hide Script, Decided, CompletedAt, OwnFileSound, OtherJob, HasDriver;
  }

  lemma ReadKeepsOwnFile(w: World, who: nat, id: string, x: nat)
    requires Reads(w, who, id) && x in w.drivers && OwnFileSound(w.files, w.clock, w.drivers[x])
    ensures var t := Next(w, Read(who, id)); x in t.drivers && OwnFileSound(t.files, t.clock, t.drivers[x])
  {
    hide Script, CompletedAt;
  }

  lemma ReadKeepsJobs(w: World, who: nat, id: string)
    requires Sound(w) && Reads(w, who, id)
    ensures var t := Next(w, Read(who, id));
            && (forall a, b :: a in t.drivers && b in t.drivers ==> OtherJob(t, a, b))
            && (forall id :: id in t.files ==> HasDriver(t, id))
  {
    var t := Next(w, Read(who, id));
    hide Script, Decided, CompletedAt, OwnFileSound;
    forall a, b | a in t.drivers && b in t.drivers ensures OtherJob(t, a, b) {
      assert OtherJob(w, a, b);
    }
    forall x | x in t.files ensures HasDriver(t, x) {
      assert HasDriver(w, x);
      var y :| y in w.drivers && w.drivers[y].call.jobId == x;
      assert y in t.drivers && t.drivers[y].call.jobId == x;
    }
  }

  /** The winners and what they won are the same, and everybody but `who` has read what it had. */
  predicate SameWinners(w: World, t: World, who: nat) {
    && who in w.drivers && t.drivers.Keys == w.drivers.Keys
    && forall x :: x in w.drivers ==>
         && (Wins(t.drivers[x]) <==> Wins(w.drivers[x])) && t.drivers[x].call == w.drivers[x].call
         && t.drivers[x].finishedAt == w.drivers[x].finishedAt
         && (x != who ==> t.drivers[x] == w.drivers[x])
  }

  lemma OthersStayDecided(w: World, t: World, who: nat, x: nat)
    requires SameWinners(w, t, who) && x in w.drivers && x != who && Decided(w, w.drivers[x])
    ensures Decided(t, t.drivers[x])
  {
    hide Wins;
    if SearchMisses(w, w.drivers[x]) {
      forall y | y in t.drivers && Wins(t.drivers[y]) && SameRequest(t.drivers[y], t.drivers[x])
        ensures !ReadAfter(t.drivers[x], t.drivers[y])
      {
        assert Wins(w.drivers[y]) && SameRequest(w.drivers[y], w.drivers[x]);
      }
    } else {
      var y :| y in w.drivers && Wins(w.drivers[y]) && SameRequest(w.drivers[y], w.drivers[x]) && ReadAfter(w.drivers[x], w.drivers[y]);
      assert Wins(t.drivers[y]) && SameRequest(t.drivers[y], t.drivers[x]) && ReadAfter(t.drivers[x], t.drivers[y]);
    }
  }

  /** A read finds a completed job exactly when the driver of that file has won by then. */
  lemma ReaderIsDecided(w: World, t: World, who: nat, id: string)
    requires SameWinners(w, t, who) && !w.drivers[who].found && Decided(w, w.drivers[who])
    requires t.drivers[who] == w.drivers[who].(readAt := w.drivers[who].readAt[id := w.clock], found := t.drivers[who].found)
    requires id !in w.drivers[who].readAt
    requires forall x :: x in w.drivers && Wins(w.drivers[x]) ==> w.drivers[x].finishedAt < w.clock
    requires t.drivers[who].found <==>
               exists x :: x in w.drivers && Wins(w.drivers[x]) && w.drivers[x].call.jobId == id && SameRequest(w.drivers[x], w.drivers[who])
    ensures Decided(t, t.drivers[who])
  {
    hide Wins;
    var p := t.drivers[who];
    if p.found {
      var x :| x in w.drivers && Wins(w.drivers[x]) && w.drivers[x].call.jobId == id && SameRequest(w.drivers[x], w.drivers[who]);
      assert Wins(t.drivers[x]) && SameRequest(t.drivers[x], p) && ReadAfter(p, t.drivers[x]);
    } else {
      forall y | y in t.drivers && Wins(t.drivers[y]) && SameRequest(t.drivers[y], p) ensures !ReadAfter(p, t.drivers[y]) {
        assert Wins(w.drivers[y]) && SameRequest(w.drivers[y], w.drivers[who]) && !ReadAfter(w.drivers[who], w.drivers[y]);
      }
    }
  }

  lemma WinnersFinishedBefore(w: World)
    requires Sound(w)
    ensures forall y :: y in w.drivers && Wins(w.drivers[y]) ==> w.drivers[y].finishedAt < w.clock
  {
    forall y | y in w.drivers && Wins(w.drivers[y]) ensures w.drivers[y].finishedAt < w.clock {
      assert OwnFileSound(w.files, w.clock, w.drivers[y]);
      ScriptIsNotEmpty(w.drivers[y].call);
    }
    hide Script, Decided;
  }

  lemma ReadKeepsSound(w: World, who: nat, id: string)
    requires Sound(w) && Reads(w, who, id)
    ensures Sound(Next(w, Read(who, id)))
  {
    var t := Next(w, Read(who, id));
    ReadKeepsFiles(w, who, id);
    WinnersFinishedBefore(w);
    CompletedByWinner(w, id, w.drivers[who].call.plan, w.drivers[who].call.target);
    ReadGives(w, who, id);
    assert forall x :: x in w.drivers ==> Decided(w, w.drivers[x]);
    hide Sound, Decided, OwnFileSound, OtherJob, HasDriver, CompletedAt, Wins, SameWinners;
    ReaderIsDecided(w, t, who, id);
    forall x | x in t.drivers && x != who ensures Decided(t, t.drivers[x]) {
      assert x in w.drivers && Decided(w, w.drivers[x]);
      OthersStayDecided(w, t, who, x);
    }
    SoundByParts(t);
  }

  lemma ReadGives(w: World, who: nat, id: string)
    requires Reads(w, who, id)
    ensures var t := Next(w, Read(who, id));
            && SameWinners(w, t, who)
            && t.drivers[who].found == CompletedAt(w.files, id, w.drivers[who].call.plan, w.drivers[who].call.target)
            && t.drivers[who] == w.drivers[who].(readAt := w.drivers[who].readAt[id := w.clock], found := t.drivers[who].found)
  {
    hide Script, CompletedAt;
  }

  lemma WriteGives(w: World, who: nat)
    requires Writes(w, who)
    ensures var t := Next(w, Write(who));
            && t.drivers == w.drivers[who := w.drivers[who].(done := w.drivers[who].done + 1, finishedAt := w.clock)]
            && !Wins(w.drivers[who])
  {
    hide Script;
  }

  /** A write makes its driver a winner at most, later than anything read so far. */
  lemma WriteKeepsDecided(w: World, t: World, who: nat, x: nat)
    requires who in w.drivers && !Wins(w.drivers[who]) && x in w.drivers && Decided(w, w.drivers[x])
    requires t.drivers == w.drivers[who := w.drivers[who].(done := w.drivers[who].done + 1, finishedAt := w.clock)]
    requires forall id :: id in w.drivers[x].readAt ==> w.drivers[x].readAt[id] < w.clock
    ensures Decided(t, t.drivers[x])
  {
    hide Wins;
    var p, q := w.drivers[x], t.drivers[x];
    assert q.readAt == p.readAt && q.call == p.call && q.found == p.found;
    assert !ReadAfter(q, t.drivers[who]);
    if SearchMisses(w, p) {
      forall y | y in t.drivers && Wins(t.drivers[y]) && SameRequest(t.drivers[y], q) ensures !ReadAfter(q, t.drivers[y]) {
        assert y != who ==> Wins(w.drivers[y]) && SameRequest(w.drivers[y], p);
      }
    } else {
      var y :| y in w.drivers && Wins(w.drivers[y]) && SameRequest(w.drivers[y], p) && ReadAfter(p, w.drivers[y]);
      assert y != who && Wins(t.drivers[y]) && SameRequest(t.drivers[y], q) && ReadAfter(q, t.drivers[y]);
    }
  }

  lemma WriteKeepsOwnFile(w: World, who: nat, x: nat)
    requires Writes(w, who) && x in w.drivers
    requires OwnFileSound(w.files, w.clock, w.drivers[x]) && OtherJob(w, x, who)
    ensures var t := Next(w, Write(who)); x in t.drivers && OwnFileSound(t.files, t.clock, t.drivers[x])
  {
    hide Script;
  }

  lemma WriteKeepsJobs(w: World, who: nat)
    requires Sound(w) && Writes(w, who)
    ensures var t := Next(w, Write(who));
            && (forall a, b :: a in t.drivers && b in t.drivers ==> OtherJob(t, a, b))
            && (forall id :: id in t.files ==> HasDriver(t, id))
  {
    var t := Next(w, Write(who));
    hide Script, Decided, OwnFileSound;
    forall a, b | a in t.drivers && b in t.drivers ensures OtherJob(t, a, b) {
      assert OtherJob(w, a, b);
    }
    forall id | id in t.files ensures HasDriver(t, id) {
      if id == w.drivers[who].call.jobId {
        assert t.drivers[who].call.jobId == id;
      } else {
        assert HasDriver(w, id);
        var x :| x in w.drivers && w.drivers[x].call.jobId == id;
        assert x in t.drivers && t.drivers[x].call.jobId == id;
      }
    }
  }

  lemma WriteKeepsSound(w: World, who: nat)
    requires Sound(w) && Writes(w, who)
    ensures Sound(Next(w, Write(who)))
  {
    var t := Next(w, Write(who));
    WriteGives(w, who);
    WriteKeepsJobs(w, who);
    forall x | x in t.drivers ensures OwnFileSound(t.files, t.clock, t.drivers[x]) && Decided(t, t.drivers[x]) {
      assert OwnFileSound(w.files, w.clock, w.drivers[x]) && OtherJob(w, x, who) && Decided(w, w.drivers[x]);
      hide Sound, Script, OtherJob, HasDriver, Decided, Writes, Next;
      WriteKeepsOwnFile(w, who, x);
      WriteKeepsDecided(w, t, who, x);
    }
    hide *;
    SoundByParts(t);
  }

  lemma StepKeepsSound(w: World, step: Step)
    requires Sound(w)
    ensures Sound(Next(w, step))
  {
    hide Sound, Script, CompletedAt, Writes, Reads;
    match step {
      case List(who, c) =>
        if who !in w.drivers && !Taken(w, c.jobId) {
          ListKeepsSound(w, who, c);
        }
      case Read(who, id) =>
        if Reads(w, who, id) {
          ReadKeepsSound(w, who, id);
        }
      case Write(who) =>
        if Writes(w, who) {
          WriteKeepsSound(w, who);
        }
    }
  }

  lemma {:induction false} RunIsSound(w: World, steps: seq<Step>)
    requires Sound(w)
    ensures Sound(After(w, steps))
  {
    if steps != [] {
      hide Sound, Next;
      RunIsSound(w, steps[..|steps| - 1]);
      StepKeepsSound(After(w, steps[..|steps| - 1]), steps[|steps| - 1]);
    }
  }

  // ---- the guarantees ----

  /** The driver is through: it found a completed job, or it has made all its writes. */
  predicate Ended(p: Progress) {
    p.found || p.done == |Script(p.call)|
  }

  /** A driver finds a completed job exactly when it reads the file of a success for its request after that was finished. */
  lemma SearchDecides(steps: seq<Step>, who: nat)
    requires who in After(START, steps).drivers
    ensures var w := After(START, steps); !w.drivers[who].found <==> SearchMisses(w, w.drivers[who])
  {
    RunIsSound(START, steps);
    assert Decided(After(START, steps), After(START, steps).drivers[who]);
    hide After, SearchMisses, Script;
  }

  /**
   * Of two drivers for one request that would succeed, and that are both through, both succeed if
   * and only if both searches miss: no file of a success for that request was read after its last write.
   */
  lemma BothSucceedExactly(steps: seq<Step>, a: nat, b: nat)
    requires var w := After(START, steps); a in w.drivers && b in w.drivers
    requires var w := After(START, steps);
             var p, q := w.drivers[a], w.drivers[b];
             && SameRequest(p, q) && Ended(p) && Ended(q)
             && p.call.execution.Returns? && p.call.execution.result.succeeded
             && q.call.execution.Returns? && q.call.execution.result.succeeded
    ensures var w := After(START, steps);
            var c, d := w.drivers[a].call, w.drivers[b].call;
            Completed(w.files, c.jobId, c.plan, c.target, c.execution.result)
            && Completed(w.files, d.jobId, d.plan, d.target, d.execution.result)
            <==> SearchMisses(w, w.drivers[a]) && SearchMisses(w, w.drivers[b])
  {
    RunIsSound(START, steps);
    hide After;
    var w := After(START, steps);
    EndedSucceedsExactly(w, a);
    EndedSucceedsExactly(w, b);
    hide *;
  }

  lemma EndedSucceedsExactly(w: World, who: nat)
    requires Sound(w) && who in w.drivers && Ended(w.drivers[who])
    requires w.drivers[who].call.execution.Returns? && w.drivers[who].call.execution.result.succeeded
    ensures var c := w.drivers[who].call;
            Completed(w.files, c.jobId, c.plan, c.target, c.execution.result) <==> SearchMisses(w, w.drivers[who])
  {
    assert Decided(w, w.drivers[who]) && OwnFileSound(w.files, w.clock, w.drivers[who]);
    if !w.drivers[who].found {
      WinnerIsCompleted(w, who);
    }
    hide Script, SearchMisses, Succeeded, HasResult;
  }

  // ---- runs of one driver ----

  function WritesOf(who: nat, n: nat): seq<Step> {
    seq(n, _ => Write(who))
  }

  lemma {:induction false} WritesRunOn(w: World, who: nat, n: nat)
    requires who in w.drivers && Proceeds(w.drivers[who]) && w.drivers[who].done + n <= |Script(w.drivers[who].call)|
    ensures var t := After(w, WritesOf(who, n));
            && t.drivers.Keys == w.drivers.Keys
            && t.drivers[who].call == w.drivers[who].call && Proceeds(t.drivers[who])
            && t.drivers[who].done == w.drivers[who].done + n
            && (forall x :: x in w.drivers && x != who ==> t.drivers[x] == w.drivers[x])
            && (w.drivers[who].done == 0 ==> t.files == AfterWrites(w.files, w.drivers[who].call, n))
  {
    hide Script;
    if n > 0 {
      WritesRunOn(w, who, n - 1);
      assert WritesOf(who, n)[..n - 1] == WritesOf(who, n - 1);
    }
  }

  lemma {:induction false} AfterInParts(w: World, a: seq<Step>, b: seq<Step>)
    ensures After(w, a + b) == After(After(w, a), b)
    decreases |b|
  {
    if b == [] {
      assert a + b == a;
    } else {
      var init, last := b[..|b| - 1], b[|b| - 1];
      AfterInParts(w, a, init);
      assert (a + b)[..|a + b| - 1] == a + init;
      hide Next;
    }
  }

  lemma AfterOne(w: World, step: Step)
    ensures After(w, [step]) == Next(w, step)
  {
    hide Next;
    var one := [step];
    assert one[..0] == [];
  }

  // ---- one driver alone ----

  /** Every listed file once, in some order. */
  predicate Enumerates(order: seq<string>, listing: set<string>) {
    && (forall i, j :: 0 <= i < j < |order| ==> order[i] != order[j])
    && forall i :: 0 <= i < |order| ==> order[i] in listing
  }

  predicate Covers(order: seq<string>, listing: set<string>) {
    forall id :: id in listing ==> id in order
  }

  function ReadsOf(who: nat, order: seq<string>): (steps: seq<Step>)
    ensures |steps| == |order|
  {
    seq(|order|, i requires 0 <= i < |order| => Read(who, order[i]))
  }

  /** Reading on, a driver finds a completed job if there is one among the files it has read. */
  lemma {:induction false} ReadsRunOn(w: World, who: nat, order: seq<string>)
    requires who in w.drivers && w.drivers[who].readAt == map[] && !w.drivers[who].found
    requires Enumerates(order, w.drivers[who].listing)
    ensures var t := After(w, ReadsOf(who, order));
            && t.files == w.files && who in t.drivers
            && t.drivers[who].call == w.drivers[who].call && t.drivers[who].done == w.drivers[who].done
            && t.drivers[who].listing == w.drivers[who].listing
            && (t.drivers[who].found <==>
                  exists i :: 0 <= i < |order| && CompletedAt(w.files, order[i], w.drivers[who].call.plan, w.drivers[who].call.target))
            && (!t.drivers[who].found ==> forall id :: id in t.drivers[who].readAt <==> id in order)
  {
    hide CompletedAt;
    if order != [] {
      var n := |order| - 1;
      ReadsRunOn(w, who, order[..n]);
      assert ReadsOf(who, order)[..n] == ReadsOf(who, order[..n]);
      assert order == order[..n] + [order[n]];
    }
  }

  lemma {:induction false} FoundWritesNothing(w: World, who: nat, n: nat)
    requires who in w.drivers && w.drivers[who].found
    ensures After(w, WritesOf(who, n)) == w
  {
    if n > 0 {
      FoundWritesNothing(w, who, n - 1);
      assert WritesOf(who, n)[..n - 1] == WritesOf(who, n - 1);
    }
  }

  /** The writes of a call that reach the disk. */
  function Survivors(c: Call): nat {
    if c.survive < |Script(c)| then c.survive else |Script(c)|
  }

  /** A driver that runs alone, reading the files in any order, does what one call does. */
  lemma SoloRunIsCall(files: Files, c: Call, order: seq<string>)
    requires c.jobId !in files && Enumerates(order, files.Keys) && Covers(order, files.Keys)
    ensures exists o :: Ran(files, c, After(World(files, map[], 0), [List(0, c)] + ReadsOf(0, order) + WritesOf(0, Survivors(c))).files, o)
  {
    var w := World(files, map[], 0);
    var listed := After(w, [List(0, c)]);
    AfterOne(w, List(0, c));
    assert listed.files == files && listed.drivers[0] == Progress(c, files.Keys, map[], false, 0, 0);
    hide After, Next, CompletedAt, Script, Completed;
    AfterInParts(w, [List(0, c)] + ReadsOf(0, order), WritesOf(0, Survivors(c)));
    AfterInParts(w, [List(0, c)], ReadsOf(0, order));
    ReadsRunOn(listed, 0, order);
    var t := After(listed, ReadsOf(0, order));
    if t.drivers[0].found {
      FoundWritesNothing(t, 0, Survivors(c));
      FoundIsReturned(files, c, order);
    } else {
      assert t.drivers[0].readAt.Keys == t.drivers[0].listing by {
        assert forall id :: id in files.Keys <==> id in order;
      }
      WritesRunOn(t, 0, Survivors(c));
      NotFoundRuns(files, c, order);
    }
  }

  lemma FoundIsReturned(files: Files, c: Call, order: seq<string>)
    requires exists i :: 0 <= i < |order| && CompletedAt(files, order[i], c.plan, c.target)
    ensures exists o :: Ran(files, c, files, o)
  {
    var i :| 0 <= i < |order| && CompletedAt(files, order[i], c.plan, c.target);
    var r :| Completed(files, order[i], c.plan, c.target, r);
    hide Script, Succeeded, HasResult;
    assert Ran(files, c, files, Returned(files[order[i]].file.job, r, false));
  }

  lemma NotFoundRuns(files: Files, c: Call, order: seq<string>)
    requires Covers(order, files.Keys)
    requires !exists i :: 0 <= i < |order| && CompletedAt(files, order[i], c.plan, c.target)
    ensures exists o :: Ran(files, c, AfterWrites(files, c, Survivors(c)), o)
  {
    hide Script, Succeeded, HasResult, AfterWrites;
    forall id, r ensures !Completed(files, id, c.plan, c.target, r) {
      assert Completed(files, id, c.plan, c.target, r) ==> CompletedAt(files, id, c.plan, c.target);
      assert id in files.Keys ==> id in order;
    }
    hide Completed;
    assert !SomeCompleted(files, c.plan, c.target);
    var o := if c.survive < |Script(c)| then Crashed
             else match c.execution case Returns(r) => Returned(Finished(c, r).job, r, true) case _ => Raised;
    assert Ran(files, c, AfterWrites(files, c, Survivors(c)), o);
  }

  // ---- a run with two successes ----

  /** Two drivers list, then one runs to its end, then the other. */
  function Overlapping(c: Call, d: Call): seq<Step> {
    [List(0, c)] + [List(1, d)] + WritesOf(0, 5) + WritesOf(1, 5)
  }

  lemma BothList(c: Call, d: Call)
    requires c.jobId != d.jobId
    ensures var w := After(After(START, [List(0, c)]), [List(1, d)]);
            && 0 in w.drivers && 1 in w.drivers
            && w.drivers[0] == Progress(c, {}, map[], false, 0, 0) && w.drivers[1] == Progress(d, {}, map[], false, 0, 0)
  {
    AfterOne(START, List(0, c));
    AfterOne(After(START, [List(0, c)]), List(1, d));
    assert START.files.Keys == {};
    hide Script, After;
  }

  /**
   * The guarantee is for calls one after another.  Two drivers that both search before either
   * finishes both run to success, whatever the plan and target.
   */
  lemma OverlappingCallsBothSucceed(c: Call, d: Call, r: BootstrapResult)
    requires c.plan == d.plan && c.target == d.target && c.jobId != d.jobId
    requires c.execution == Returns(r) && d.execution == Returns(r) && r.succeeded
    ensures var files := After(START, Overlapping(c, d)).files;
            && Completed(files, c.jobId, c.plan, c.target, r) && Completed(files, d.jobId, d.plan, d.target, r)
            && !SucceedsOnce(files)
  {
    FinishedIsCompleted(c);
    FinishedIsCompleted(d);
    var w2 := After(After(START, [List(0, c)]), [List(1, d)]);
    BothList(c, d);
    hide Script, Next, After, Overlapping, Completed;
    WritesRunOn(w2, 0, 5);
    var w3 := After(w2, WritesOf(0, 5));
    WritesRunOn(w3, 1, 5);
    OverlappingInParts(c, d);
    RunIsSound(START, Overlapping(c, d));
    var w := After(START, Overlapping(c, d));
    WinnerIsCompleted(w, 0);
    WinnerIsCompleted(w, 1);
  }

  lemma OverlappingInParts(c: Call, d: Call)
    ensures After(START, Overlapping(c, d))
            == After(After(After(After(START, [List(0, c)]), [List(1, d)]), WritesOf(0, 5)), WritesOf(1, 5))
  {
    hide After, WritesOf;
    AfterInParts(START, [List(0, c)], [List(1, d)]);
    AfterInParts(START, [List(0, c)] + [List(1, d)], WritesOf(0, 5));
    AfterInParts(START, [List(0, c)] + [List(1, d)] + WritesOf(0, 5), WritesOf(1, 5));
  }
}
