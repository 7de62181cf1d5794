/** Interleaved publishers: the record files they can leave, and when the revision listing then refuses the episode. */
module EpisodeRaceListing {
  import opened Optional
  import opened EpisodeTypes
  import opened EpisodeValidation
  import opened EpisodeProjection
  import opened EpisodeGuarantees
  import opened EpisodeStore
  import opened EpisodeHistory
  import opened EpisodeListing
  import R = EpisodeRace

  // ---- one publisher alone ----

  function Alone(s: Store): R.World {
    R.World(s, map[], {}, {})
  }

  function SoloAt(s: Store, r: Record, stage: R.Stage): R.World {
    Alone(s).(publishers := map[0 := R.Publisher(stage, r, LoadPublication(s, KeyOf(r.identity)))])
  }

  lemma ChecksAreMayFollow(s: Store, r: Record)
    requires Project(r).Some?
    ensures R.PassesChecks(s, R.Publisher(R.HasRead, r, LoadPublication(s, KeyOf(r.identity)))) <==> MayFollow(s, r, Project(r).value)
  {
    hide LoadPublication, Project, LoadRecord;
  }

  lemma FreeExactly(s: Store, r: Record)
    requires Consistent(s)
    ensures RecordFree(s, r) <==> (r.identity in s.records ==> s.records[r.identity] == r)
  {
    SoundRecordLoads(s, r.identity);
    hide Consistent, LoadRecord;
  }

  lemma SoloBegins(s: Store, r: Record)
    requires ValidRecord(r)
    ensures R.Next(Alone(s), R.Begin(0, r)) == if Project(r).Some? then SoloAt(s, r, R.HasRead) else Alone(s)
    ensures R.Next(Alone(s), R.Check(0)) == Alone(s) && R.Next(Alone(s), R.Look(0)) == Alone(s)
    ensures R.Next(Alone(s), R.Create(0)) == Alone(s) && R.Next(Alone(s), R.Write(0)) == Alone(s)
  {
    hide ValidRecord, Project, LoadPublication;
  }

  lemma SoloChecks(s: Store, r: Record)
    ensures R.Next(SoloAt(s, r, R.HasRead), R.Check(0))
            == if R.PassesChecks(s, R.Publisher(R.HasRead, r, LoadPublication(s, KeyOf(r.identity))))
               then SoloAt(s, r, R.Checked) else Alone(s)
  {
    hide LoadPublication, R.PassesChecks;
    assert SoloAt(s, r, R.HasRead).publishers - {0} == map[];
  }

  lemma SoloSees(s: Store, r: Record)
    ensures R.Next(SoloAt(s, r, R.Checked), R.Look(0))
            == if r.identity !in s.records then SoloAt(s, r, R.FoundAbsent)
               else if s.records[r.identity] == r then SoloAt(s, r, R.Recorded) else Alone(s)
  {
    hide LoadPublication;
    assert SoloAt(s, r, R.Checked).publishers - {0} == map[];
  }

  function Looked(s: Store, r: Record): R.World {
    SoloAt(s, r, if r.identity in s.records then R.Recorded else R.FoundAbsent)
  }

  /** After reading, checking and looking: nobody is left if the call is refused, else the publisher knows if its record is there. */
  lemma SoloLooks(s: Store, r: Record)
    requires Consistent(s) && ValidRecord(r)
    ensures R.Next(R.Next(R.Next(Alone(s), R.Begin(0, r)), R.Check(0)), R.Look(0))
            == if Accepts(s, r) then Looked(s, r) else Alone(s)
  {
    hide ValidRecord, Project, LoadPublication, R.PassesChecks, MayFollow, RecordFree, Consistent, R.Next, SoloAt, Alone;
    FreeExactly(s, r);
    SoloBegins(s, r);
    SoloChecks(s, r);
    SoloSees(s, r);
    if Project(r).Some? {
      ChecksAreMayFollow(s, r);
    }
  }

  lemma SoloCreates(s: Store, r: Record)
    requires r.identity in s.records ==> s.records[r.identity] == r
    ensures var created := R.Next(Looked(s, r), R.Create(0));
            && created.store == Committed(s, r)
            && created.publishers == SoloAt(s, r, R.Recorded).publishers
  {
    hide LoadPublication;
    if r.identity in s.records {
      assert s.records[r.identity := r] == s.records;
    }
  }

  lemma SoloWrites(s: Store, r: Record, w: R.World)
    requires Consistent(s) && Accepts(s, r) && w.store == Committed(s, r) && w.publishers == SoloAt(s, r, R.Recorded).publishers
    ensures R.Next(w, R.Write(0)).store == Publish(s, r, NoCrash).0
  {
    var key := KeyOf(r.identity);
    hide LoadPublication, Project, MayFollow, RecordFree, Consistent, Publish, R.Next, SoloAt;
    AcceptedFollows(s, r);
    SoundPublicationLoads(s, key);
    WriteAlone(s, r, w);
    AcceptedPublishes(s, r);
    if key in s.publications && Current(s, key) == r.identity.revision {
      assert s.publications[key := Project(r).value] == s.publications;
    }
  }

  lemma AcceptedPublishes(s: Store, r: Record)
    requires Accepts(s, r)
    ensures Publish(s, r, NoCrash).0 == Committed(s, r).(publications := s.publications[KeyOf(r.identity) := Project(r).value])
  {
    hide Project, MayFollow, RecordFree;
  }

  lemma WriteAlone(s: Store, r: Record, w: R.World)
    requires Project(r).Some? && w.store == Committed(s, r) && w.publishers == SoloAt(s, r, R.Recorded).publishers
    ensures var read, key := LoadPublication(s, KeyOf(r.identity)), KeyOf(r.identity);
            R.Next(w, R.Write(0)).store
            == if read.Found? && read.value.detail.identity.revision == r.identity.revision then Committed(s, r)
               else Committed(s, r).(publications := s.publications[key := Project(r).value])
  {
    hide LoadPublication, Project;
  }

  /** A publisher that runs alone, or stops after its look or its record, does what one call does. */
  lemma SoloRunIsPublish(s: Store, r: Record)
    requires Consistent(s) && ValidRecord(r)
    ensures R.After(Alone(s), [R.Begin(0, r), R.Check(0), R.Look(0)]).store == Publish(s, r, BeforeRecord).0
    ensures R.After(Alone(s), [R.Begin(0, r), R.Check(0), R.Look(0), R.Create(0)]).store == Publish(s, r, AfterRecord).0
    ensures R.After(Alone(s), [R.Begin(0, r), R.Check(0), R.Look(0), R.Create(0)] + [R.Write(0)]).store
            == Publish(s, r, NoCrash).0
  {
    hide ValidRecord, Project, MayFollow, R.After, Consistent, LoadPublication, R.Next, RecordFree;
    R.AfterFew(Alone(s), R.Begin(0, r), R.Check(0), R.Look(0), R.Create(0));
    var four := R.After(Alone(s), [R.Begin(0, r), R.Check(0), R.Look(0), R.Create(0)]);
    R.AfterInParts(Alone(s), [R.Begin(0, r), R.Check(0), R.Look(0), R.Create(0)], [R.Write(0)]);
    R.AfterFew(four, R.Write(0), R.Write(0), R.Write(0), R.Write(0));
    SoloLooks(s, r);
    SoloBegins(s, r);
    FreeExactly(s, r);
    if Accepts(s, r) {
      SoloCreates(s, r);
      SoloWrites(s, r, four);
    }
  }

  // ---- the record files ----

  /** Every revision but the first has its parent. */
  predicate Rooted(s: Store, id: Identity) {
    id.revision >= 1 && (id.revision > 1 ==> At(KeyOf(id), id.revision - 1) in s.records)
  }

  predicate PublisherRooted(s: Store, p: R.Publisher) {
    && (p.stage.HasRead? && p.read.Missing? ==> p.record.identity.revision == 1)
    && (!p.stage.HasRead? ==> Rooted(s, p.record.identity))
    && (p.read.Found? ==> p.read.value.detail.identity in s.records && KeyOf(p.read.value.detail.identity) == KeyOf(p.record.identity))
  }

  ghost predicate AllRooted(w: R.World) {
    && R.Agreed(w)
    && (forall id :: id in w.store.records ==> Rooted(w.store, id))
    && forall who :: who in w.publishers ==> PublisherRooted(w.store, w.publishers[who])
  }

  /** No unpublished episode is offered anything but revision 1. */
  predicate BeginsAtOne(w: R.World, step: R.Step) {
    step.Begin? && KeyOf(step.record.identity) !in w.store.publications ==> step.record.identity.revision == 1
  }

  predicate AllBeginAtOne(steps: seq<R.Step>) {
    forall n: nat :: n < |steps| ==> BeginsAtOne(R.After(R.NOTHING, steps[..n]), steps[n])
  }

  lemma RevisionIsPositive(r: Record)
    requires ValidRecord(r)
    ensures r.identity.revision >= 1
  {
  }

  /** Records are only added, and only with their parent. */
  lemma RecordsStayRooted(w: R.World, step: R.Step)
    requires AllRooted(w)
    ensures var t := R.Next(w, step);
            && (forall id :: id in w.store.records ==> id in t.store.records)
            && (forall id :: id in t.store.records ==> Rooted(t.store, id))
  {
    var t := R.Next(w, step);
    hide R.Agreed, Project, ValidRecord, LoadPublication, R.PassesChecks;
    if !step.Begin? && step.who in w.publishers {
      assert PublisherRooted(w.store, w.publishers[step.who]);
    }
    forall id | id in t.store.records ensures Rooted(t.store, id) {
      assert id in w.store.records ==> Rooted(w.store, id);
    }
  }

  /** A publisher that is let past its checks has its parent, or publishes the first revision, or the current one again. */
  lemma ChecksRoot(w: R.World, p: R.Publisher)
    requires AllRooted(w) && PublisherRooted(w.store, p) && p.stage.HasRead? && R.PassesChecks(w.store, p)
    ensures Rooted(w.store, p.record.identity)
  {
    hide R.Agreed, Project, ValidRecord;
    if p.read.Found? {
      var id := p.read.value.detail.identity;
      assert Rooted(w.store, id);
      assert id == At(KeyOf(p.record.identity), id.revision);
    }
  }

  lemma NewcomerIsRooted(w: R.World, who: nat, r: Record)
    requires R.Agreed(w) && BeginsAtOne(w, R.Begin(who, r))
    ensures PublisherRooted(w.store, R.Publisher(R.HasRead, r, LoadPublication(w.store, KeyOf(r.identity))))
  {
    var key := KeyOf(r.identity);
    SoundPublicationLoads(w.store, key);
    if key in w.store.publications {
      assert PublicationSound(w.store, key);
    }
    hide Project, ValidRecord, LoadPublication;
  }

  lemma GrowingKeepsRooted(s: Store, t: Store, p: R.Publisher)
    requires PublisherRooted(s, p) && forall id :: id in s.records ==> id in t.records
    ensures PublisherRooted(t, p)
  {
  }

  lemma PublishersStayRooted(w: R.World, step: R.Step, who: nat)
    requires AllRooted(w) && BeginsAtOne(w, step) && who in R.Next(w, step).publishers
    ensures PublisherRooted(R.Next(w, step).store, R.Next(w, step).publishers[who])
  {
    var t := R.Next(w, step);
    RecordsStayRooted(w, step);
    PublisherMoves(w, step, who);
    var q := t.publishers[who];
    hide R.Next, BeginsAtOne;
    if step.Begin? && who == step.who && q == R.Publisher(R.HasRead, step.record, LoadPublication(w.store, KeyOf(step.record.identity))) {
      NewcomerIsRooted(w, who, step.record);
      hide *;
      GrowingKeepsRooted(w.store, t.store, q);
    } else {
      var p := w.publishers[who];
      assert PublisherRooted(w.store, p);
      if p.stage.HasRead? && R.PassesChecks(w.store, p) {
        ChecksRoot(w, p);
      }
      assert PublisherRooted(w.store, q);
      hide *;
      GrowingKeepsRooted(w.store, t.store, q);
    }
  }

  /** A step leaves a publisher as it is, starts it anew, or moves it on, past its checks only if they pass. */
  lemma PublisherMoves(w: R.World, step: R.Step, who: nat)
    requires who in R.Next(w, step).publishers
    ensures var q := R.Next(w, step).publishers[who];
            || (step.Begin? && who == step.who && q == R.Publisher(R.HasRead, step.record, LoadPublication(w.store, KeyOf(step.record.identity))))
            || (who in w.publishers && q == w.publishers[who].(stage := q.stage)
                && (q.stage.HasRead? <==> w.publishers[who].stage.HasRead?))
            || (who in w.publishers && q == w.publishers[who].(stage := q.stage)
                && w.publishers[who].stage.HasRead? && R.PassesChecks(w.store, w.publishers[who]))
  {
    hide Project, ValidRecord, LoadPublication, R.PassesChecks;
  }

  lemma StepKeepsRooted(w: R.World, step: R.Step)
    requires AllRooted(w) && BeginsAtOne(w, step)
    ensures AllRooted(R.Next(w, step))
  {
    R.StepKeepsAgreed(w, step);
    RecordsStayRooted(w, step);
    hide R.Next, PublisherRooted, Rooted, R.Agreed, BeginsAtOne;
    var t := R.Next(w, step);
    forall who | who in t.publishers ensures PublisherRooted(t.store, t.publishers[who]) {
      PublishersStayRooted(w, step, who);
    }
  }

  lemma {:induction false} RunIsRooted(steps: seq<R.Step>)
    requires AllBeginAtOne(steps)
    ensures AllRooted(R.After(R.NOTHING, steps))
  {
    hide R.Next, BeginsAtOne, Rooted, PublisherRooted;
    if steps == [] {
      R.StartIsAgreed(Bare(1));
    } else {
      var init := steps[..|steps| - 1];
      forall n: nat | n < |init| ensures BeginsAtOne(R.After(R.NOTHING, init[..n]), init[n]) {
        assert init[..n] == steps[..n];
      }
      RunIsRooted(init);
      assert BeginsAtOne(R.After(R.NOTHING, steps[..|init|]), steps[|init|]);
      hide AllRooted;
      StepKeepsRooted(R.After(R.NOTHING, init), steps[|steps| - 1]);
    }
  }

  // ---- the listing ----

  /** A set of positive numbers without gaps is an interval from 1. */
  lemma {:induction false} NoGaps(revisions: set<nat>, top: nat)
    requires forall v :: v in revisions ==> 1 <= v <= top && (v > 1 ==> v - 1 in revisions)
    ensures revisions == UpTo(|revisions|)
  {
    if top == 0 {
      assert revisions == {};
    } else if top in revisions {
      DownFrom(revisions, top, top - 1);
      assert revisions == UpTo(top);
    } else {
      NoGaps(revisions, top - 1);
    }
  }

  lemma {:induction false} DownFrom(revisions: set<nat>, top: nat, v: nat)
    requires top in revisions && v < top && forall x :: x in revisions && x > 1 ==> x - 1 in revisions
    ensures forall x: nat :: top - v <= x <= top ==> x in revisions
  {
    if v > 0 {
      DownFrom(revisions, top, v - 1);
      assert top - (v - 1) in revisions && top - (v - 1) > 1;
    }
  }

  lemma {:induction false} Top(revisions: set<nat>) returns (top: nat)
    ensures forall v: nat :: v in revisions ==> v <= top
  {
    if revisions == {} {
      top := 0;
    } else {
      var v :| v in revisions;
      var rest := Top(revisions - {v});
      top := if rest > v then rest else v;
      assert forall x: nat :: x in revisions ==> x == v || x in revisions - {v};
    }
  }

  /**
   * When every episode starts at revision 1: however publishers interleave and stop, the record
   * files of an episode are 1 to some number, at least the current revision.  So the listing from
   * the records is refused, but for its size, if and only if that number is beyond the current revision.
   */
  lemma InterleavedRecordsAreContiguous(steps: seq<R.Step>, key: Key)
    requires AllBeginAtOne(steps)
    ensures var s := R.After(R.NOTHING, steps).store;
            var n := |Revisions(s, key)|;
            && Consistent(s) && Revisions(s, key) == UpTo(n) && Current(s, key) <= n
            && (Revisions(s, key) == UpTo(Current(s, key)) <==> n == Current(s, key))
  {
    RunIsRooted(steps);
    var s := R.After(R.NOTHING, steps).store;
    hide R.After, R.PublisherSound, PublisherRooted;
    RootedIsContiguous(s, key);
  }

  lemma RootedIsContiguous(s: Store, key: Key)
    requires Consistent(s) && forall id :: id in s.records ==> Rooted(s, id)
    ensures var n := |Revisions(s, key)|;
            && Revisions(s, key) == UpTo(n) && Current(s, key) <= n
            && (Revisions(s, key) == UpTo(Current(s, key)) <==> n == Current(s, key))
  {
    var all := Revisions(s, key);
    var top := Top(all);
    forall v | v in all ensures 1 <= v <= top && (v > 1 ==> v - 1 in all) {
      RevisionsAre(s, key, v);
      assert Rooted(s, At(key, v));
      if v > 1 {
        RevisionsAre(s, key, v - 1);
      }
    }
    NoGaps(all, top);
    if key in s.publications {
      CurrentHasRecord(s, key);
    }
    hide Revisions, Consistent, Rooted;
  }

  /** Publishing the record after the current revision once more moves the current revision up to it. */
  lemma RepublishingCatchesUp(s: Store, key: Key)
    requires Consistent(s) && key in s.publications && At(key, Current(s, key) + 1) in s.records
    ensures var t := Publish(s, s.records[At(key, Current(s, key) + 1)], NoCrash).0;
            t.records == s.records && key in t.publications && Current(t, key) == Current(s, key) + 1
  {
    var r := s.records[At(key, Current(s, key) + 1)];
    NextRecordIsAccepted(s, key);
    AcceptedPublishes(s, r);
    hide *;
    PublishedIsCurrent(s, Publish(s, r, NoCrash).0, r, key);
  }

  lemma SameEntry<K, V>(m: map<K, V>, key: K)
    requires key in m
    ensures m[key := m[key]] == m
  {
  }

  lemma PublishedIsCurrent(s: Store, t: Store, r: Record, key: Key)
    requires r.identity in s.records && s.records[r.identity] == r && KeyOf(r.identity) == key && Project(r).Some?
    requires t == Committed(s, r).(publications := s.publications[key := Project(r).value])
    ensures t.records == s.records && key in t.publications && Current(t, key) == r.identity.revision
  {
    ProjectionKeepsIdentity(r);
    hide Project;
    SameEntry(s.records, r.identity);
  }

  lemma NextRecordIsAccepted(s: Store, key: Key)
    requires Consistent(s) && key in s.publications && At(key, Current(s, key) + 1) in s.records
    ensures var r := s.records[At(key, Current(s, key) + 1)];
            Accepts(s, r) && Project(r).Some? && r.identity == At(key, Current(s, key) + 1)
  {
    var r := s.records[At(key, Current(s, key) + 1)];
    assert RecordSound(s, At(key, Current(s, key) + 1));
    hide Project, ValidRecord, LoadPublication, LoadRecord, Consistent, RecordFree, Revisions;
    SoundPublicationLoads(s, key);
    FreeExactly(s, r);
    CurrentHasRecord(s, key);
    SoundRecordLoads(s, At(key, Current(s, key)));
    assert MayFollow(s, r, Project(r).value);
  }

  // ---- a run that the listing refuses ----

  lemma StepKeepsPublished(w: R.World, step: R.Step)
    ensures forall key :: key in w.store.publications ==> key in R.Next(w, step).store.publications
  {
    hide Project, ValidRecord, LoadPublication, R.PassesChecks;
  }

  lemma {:induction false} RunKeepsPublished(steps: seq<R.Step>, n: nat, m: nat, key: Key)
    requires n <= m <= |steps| && key in R.After(R.NOTHING, steps[..n]).store.publications
    ensures key in R.After(R.NOTHING, steps[..m]).store.publications
  {
    hide R.Next;
    if n < m {
      RunKeepsPublished(steps, n, m - 1, key);
      assert steps[..m][..m - 1] == steps[..m - 1];
      StepKeepsPublished(R.After(R.NOTHING, steps[..m - 1]), steps[m - 1]);
    }
  }

  function Rollback(): seq<R.Step> {
    R.Overtaking(Bare(1), Bare(2), Bare(3)) + [R.Write(1)]
  }

  /** The run begins with a whole publication of revision 1, and is about one episode. */
  lemma RollbackShape()
    ensures var steps := Rollback();
            && |steps| >= 5 && steps[..5] == R.UpToWrite(0, Bare(1)) + [R.Write(0)]
            && steps[0] == R.Begin(0, Bare(1)) && (forall i :: 1 <= i < 5 ==> !steps[i].Begin?)
    ensures forall i :: 0 <= i < |Rollback()| && Rollback()[i].Begin? ==>
              KeyOf(Rollback()[i].record.identity) == KeyOf(Bare(1).identity)
    ensures Bare(1).identity.revision == 1
  {
  }

  lemma RollbackBeginsAtOne()
    ensures AllBeginAtOne(Rollback())
  {
    BareIsPublishable(1);
    hide *;
    RollbackShape();
    FirstIsPublished(Bare(1));
    OneEpisodeBeginsAtOne(Rollback(), KeyOf(Bare(1).identity));
  }

  lemma OneEpisodeBeginsAtOne(steps: seq<R.Step>, key: Key)
    requires |steps| >= 5 && key in R.After(R.NOTHING, steps[..5]).store.publications
    requires steps[0].Begin? && steps[0].record.identity.revision == 1 && forall i :: 1 <= i < 5 ==> !steps[i].Begin?
    requires forall i :: 0 <= i < |steps| && steps[i].Begin? ==> KeyOf(steps[i].record.identity) == key
    ensures AllBeginAtOne(steps)
  {
    hide R.Next, R.After;
    forall n: nat | n < |steps| ensures BeginsAtOne(R.After(R.NOTHING, steps[..n]), steps[n]) {
      if n >= 5 {
        RunKeepsPublished(steps, 5, n, key);
      }
    }
  }

  lemma FirstIsPublished(r: Record)
    requires ValidRecord(r) && Project(r).Some?
    ensures KeyOf(r.identity) in R.After(R.NOTHING, R.UpToWrite(0, r) + [R.Write(0)]).store.publications
  {
    hide ValidRecord, Project, R.Next, R.After, R.Agreed, R.UpToWrite;
    R.StartIsAgreed(r);
    R.PublishedNew(R.NOTHING, 0, r);
    R.AfterInParts(R.NOTHING, R.UpToWrite(0, r), [R.Write(0)]);
  }

  lemma WriteKeepsRecords(w: R.World, who: nat)
    ensures R.Next(w, R.Write(who)).store.records == w.store.records
  {
    hide Project;
  }

  lemma RolledBack(r1: Record, r2: Record, r3: Record)
    requires R.ThreeRevisions(r1, r2, r3)
    ensures var s := R.After(R.NOTHING, R.Overtaking(r1, r2, r3) + [R.Write(1)]).store;
            Current(s, KeyOf(r3.identity)) == r2.identity.revision && r3.identity in s.records
  {
    var steps := R.Overtaking(r1, r2, r3);
    var w := R.After(R.NOTHING, steps);
    R.OvertakenPublisherStands(r1, r2, r3);
    assert r3.identity in w.store.records;
    hide *;
    R.StalledPublisherRollsBack(r1, r2, r3);
    WriteKeepsRecords(w, 1);
    R.AfterInParts(R.NOTHING, steps, [R.Write(1)]);
    R.AfterFew(w, R.Write(1), R.Write(1), R.Write(1), R.Write(1));
  }

  /** Nothing is missing, but the current revision has gone back to 2 while the records go on to 3. */
  lemma RollbackIsRefused()
    ensures AllBeginAtOne(Rollback())
    ensures var s, key := R.After(R.NOTHING, Rollback()).store, KeyOf(Bare(1).identity);
            Current(s, key) == 2 && |Revisions(s, key)| >= 3 && Revisions(s, key) != UpTo(Current(s, key))
  {
    var r1, r2, r3 := Bare(1), Bare(2), Bare(3);
    var s, key := R.After(R.NOTHING, Rollback()).store, KeyOf(r1.identity);
    assert r3.identity == At(key, 3) && KeyOf(r3.identity) == key && r2.identity.revision == 2;
    BareIsThree();
    RollbackBeginsAtOne();
    assert Rollback() == R.Overtaking(r1, r2, r3) + [R.Write(1)];
    hide *;
    RolledBack(r1, r2, r3);
    InterleavedRecordsAreContiguous(Rollback(), key);
    RevisionsAre(s, key, 3);
    assert 3 in UpTo(|Revisions(s, key)|);
  }

  lemma BareIsThree()
    ensures R.ThreeRevisions(Bare(1), Bare(2), Bare(3))
  {
    BareIsPublishable(1);
    BareIsPublishable(2);
    BareIsPublishable(3);
    hide ValidRecord, Project;
  }
}
