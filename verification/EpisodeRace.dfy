/**
 * Several publishers at once.  Each call of `publish_episode_record` is broken at its reads and
 * writes: read the publication, check it, look for the record file, create it if absent, write
 * the publication.  Any interleaving may happen, and a publisher may stop anywhere.
 */
module EpisodeRace {
  import opened Optional
  import opened EpisodeTypes
  import opened EpisodeValidation
  import opened EpisodeProjection
  import opened EpisodeGuarantees
  import opened EpisodeStore
  import opened EpisodeHistory

  /** Where a publisher stands; it holds its record and the publication it read at the start. */
  datatype Stage = HasRead | Checked | FoundAbsent | Recorded

  datatype Publisher = Publisher(stage: Stage, record: Record, read: Loaded<Projection>)

  /** The store, the publishers under way, and all that was ever committed or published. */
  datatype World = World(
    store: Store, publishers: map<nat, Publisher>, committed: set<Record>, published: set<Projection>)

  datatype Step = Begin(who: nat, record: Record) | Check(who: nat) | Look(who: nat) | Create(who: nat) | Write(who: nat)

  const NOTHING := World(EMPTY, map[], {}, {})

  function Stop(w: World, who: nat): World {
    w.(publishers := w.publishers - {who})
  }

  function Move(w: World, who: nat, p: Publisher, stage: Stage): World {
    w.(publishers := w.publishers[who := p.(stage := stage)])
  }

  /** The revision checks, on the publication read at the start; the parent is looked up now. */
  predicate PassesChecks(s: Store, p: Publisher) {
    match p.read
    case Missing => true
    case Invalid => false
    case Found(current) =>
      var v := current.detail.identity.revision;
      || (v == p.record.identity.revision && Project(p.record) == Some(current))
      || (v + 1 == p.record.identity.revision && LoadRecord(s, At(KeyOf(p.record.identity), v)).Found?)
  }

  function DoWrite(w: World, who: nat, p: Publisher): World {
    if Project(p.record).None?
       || (p.read.Found? && p.read.value.detail.identity.revision == p.record.identity.revision)
    then Stop(w, who)
    else
      var projection := Project(p.record).value;
      Stop(w.(store := w.store.(publications := w.store.publications[KeyOf(p.record.identity) := projection]),
              published := w.published + {projection}), who)
  }

  function DoCreate(w: World, who: nat, p: Publisher): World {
    if p.record.identity in w.store.records then
      if w.store.records[p.record.identity] == p.record then Move(w, who, p, Recorded) else Stop(w, who)
    else
      Move(w.(store := Committed(w.store, p.record), committed := w.committed + {p.record}), who, p, Recorded)
  }

  function Next(w: World, step: Step): World {
    match step
    case Begin(who, r) =>
      if ValidRecord(r) && Project(r).Some?
      then w.(publishers := w.publishers[who := Publisher(HasRead, r, LoadPublication(w.store, KeyOf(r.identity)))])
      else w
    case Check(who) =>
      if who !in w.publishers || w.publishers[who].stage != HasRead then w
      else if PassesChecks(w.store, w.publishers[who]) then Move(w, who, w.publishers[who], Checked)
      else Stop(w, who)
    case Look(who) =>
      if who !in w.publishers || w.publishers[who].stage != Checked then w
      else
        var p := w.publishers[who];
        if p.record.identity !in w.store.records then Move(w, who, p, FoundAbsent)
        else if w.store.records[p.record.identity] == p.record then Move(w, who, p, Recorded)
        else Stop(w, who)
    case Create(who) =>
      if who !in w.publishers || w.publishers[who].stage != FoundAbsent then w
      else DoCreate(w, who, w.publishers[who])
    case Write(who) =>
      if who !in w.publishers || w.publishers[who].stage != Recorded then w
      else DoWrite(w, who, w.publishers[who])
  }

  function After(w: World, steps: seq<Step>): World {
    if steps == [] then w else Next(After(w, steps[..|steps| - 1]), steps[|steps| - 1])
  }

  // ---- agreement ----

  /** A publisher works on a valid, projectable record; past creation, that record is the committed one. */
  ghost predicate PublisherSound(w: World, who: nat)
    requires who in w.publishers
  {
    var p := w.publishers[who];
    && ValidRecord(p.record) && Project(p.record).Some?
    && (p.stage.Recorded? ==> p.record.identity in w.store.records && w.store.records[p.record.identity] == p.record)
  }

  ghost predicate Agreed(w: World) {
    && Consistent(w.store)
    && (forall who :: who in w.publishers ==> PublisherSound(w, who))
    && (forall r :: r in w.committed ==> r.identity in w.store.records && w.store.records[r.identity] == r)
    && forall p :: p in w.published ==>
         p.detail.identity in w.store.records && Project(w.store.records[p.detail.identity]) == Some(p)
  }

  lemma MoveKeepsAgreed(w: World, who: nat, stage: Stage)
    requires Agreed(w) && who in w.publishers
    requires stage.Recorded? ==>
               var r := w.publishers[who].record; r.identity in w.store.records && w.store.records[r.identity] == r
    ensures Agreed(Move(w, who, w.publishers[who], stage)) && Agreed(Stop(w, who))
  {
    hide Consistent, ValidRecord, Project;
    var p := w.publishers[who];
    assert PublisherSound(w, who);
    var t := Move(w, who, p, stage);
    forall x | x in t.publishers ensures PublisherSound(t, x) {
      assert PublisherSound(w, x);
    }
    var u := Stop(w, who);
    forall x | x in u.publishers ensures PublisherSound(u, x) {
      assert PublisherSound(w, x);
    }
  }

  lemma CreateKeepsAgreed(w: World, who: nat)
    requires Agreed(w) && who in w.publishers
    ensures Agreed(DoCreate(w, who, w.publishers[who]))
  {
    var p := w.publishers[who];
    assert PublisherSound(w, who);
    if p.record.identity in w.store.records {
      MoveKeepsAgreed(w, who, if w.store.records[p.record.identity] == p.record then Recorded else HasRead);
    } else {
      CommitKeepsConsistent(w.store, p.record);
      CommitWorldKeepsAgreed(w, p.record);
      var t := w.(store := Committed(w.store, p.record), committed := w.committed + {p.record});
      MoveKeepsAgreed(t, who, Recorded);
    }
    hide Agreed, Consistent, ValidRecord, Project;
  }

  lemma CommitWorldKeepsAgreed(w: World, r: Record)
    requires Agreed(w) && r.identity !in w.store.records && Consistent(Committed(w.store, r))
    ensures Agreed(w.(store := Committed(w.store, r), committed := w.committed + {r}))
  {
    hide Consistent, ValidRecord, Project;
    var t := w.(store := Committed(w.store, r), committed := w.committed + {r});
    forall x | x in t.publishers ensures PublisherSound(t, x) {
      assert PublisherSound(w, x);
    }
  }

  lemma WriteKeepsAgreed(w: World, who: nat)
    requires Agreed(w) && who in w.publishers && w.publishers[who].stage.Recorded?
    ensures Agreed(DoWrite(w, who, w.publishers[who]))
  {
    hide Draft, ValidRecord, Publishable;
    var p := w.publishers[who];
    assert PublisherSound(w, who);
    ProjectionKeepsIdentity(p.record);
    PublicationKeepsConsistent(w.store, p.record);
    MoveKeepsAgreed(w, who, HasRead);
    if !(p.read.Found? && p.read.value.detail.identity.revision == p.record.identity.revision) {
      PublicationWorldKeepsAgreed(w, who);
    }
  }

  lemma PublicationWorldKeepsAgreed(w: World, who: nat)
    requires Agreed(w) && who in w.publishers && w.publishers[who].stage.Recorded?
    requires Project(w.publishers[who].record).Some?
    requires var r := w.publishers[who].record; var q := Project(r).value;
             && q.detail.identity == r.identity
             && Consistent(w.store.(publications := w.store.publications[KeyOf(r.identity) := q]))
    ensures var r := w.publishers[who].record; var q := Project(r).value;
            Agreed(Stop(w.(store := w.store.(publications := w.store.publications[KeyOf(r.identity) := q]),
                           published := w.published + {q}), who))
  {
    hide Consistent, ValidRecord, Project;
    var r := w.publishers[who].record;
    var q := Project(r).value;
    assert PublisherSound(w, who);
    var t := Stop(w.(store := w.store.(publications := w.store.publications[KeyOf(r.identity) := q]),
                     published := w.published + {q}), who);
    forall x | x in t.publishers ensures PublisherSound(t, x) {
      assert PublisherSound(w, x);
    }
  }

  lemma BeginKeepsAgreed(w: World, who: nat, r: Record)
    requires Agreed(w)
    ensures Agreed(Next(w, Begin(who, r)))
  {
    hide Consistent, ValidRecord, Project, LoadPublication;
    var t := Next(w, Begin(who, r));
    forall x | x in t.publishers ensures PublisherSound(t, x) {
      assert x in w.publishers ==> PublisherSound(w, x);
    }
  }

  lemma StepKeepsAgreed(w: World, step: Step)
    requires Agreed(w)
    ensures Agreed(Next(w, step))
  {
    hide Agreed, Consistent, ValidRecord, Project, LoadPublication, PassesChecks, DoCreate, DoWrite;
    match step {
      case Begin(who, r) => BeginKeepsAgreed(w, who, r);
      case Check(who) =>
        if who in w.publishers && w.publishers[who].stage == HasRead {
          MoveKeepsAgreed(w, who, Checked);
        }
      case Look(who) =>
        if who in w.publishers && w.publishers[who].stage == Checked {
          var r := w.publishers[who].record;
          MoveKeepsAgreed(w, who, if r.identity !in w.store.records then FoundAbsent
                                  else if w.store.records[r.identity] == r then Recorded else HasRead);
        }
      case Create(who) =>
        if who in w.publishers {
          CreateKeepsAgreed(w, who);
        }
      case Write(who) =>
        if who in w.publishers && w.publishers[who].stage.Recorded? {
          WriteKeepsAgreed(w, who);
        }
    }
  }

  lemma {:induction false} RunKeepsAgreed(w: World, steps: seq<Step>)
    requires Agreed(w)
    ensures Agreed(After(w, steps))
  {
    if steps != [] {
      hide Agreed, Next;
      RunKeepsAgreed(w, steps[..|steps| - 1]);
      StepKeepsAgreed(After(w, steps[..|steps| - 1]), steps[|steps| - 1]);
    }
  }

  /**
   * However publishers interleave: one content at most is ever committed under a revision, and all
   * that is ever published for a revision is the projection of that content.
   */
  lemma PublishersAgree(steps: seq<Step>)
    ensures var w := After(NOTHING, steps);
            && (forall a, b :: a in w.committed && b in w.committed && a.identity == b.identity ==> a == b)
            && (forall p, q :: p in w.published && q in w.published && p.detail.identity == q.detail.identity ==> p == q)
            && (forall p :: p in w.published ==>
                  p.detail.identity in w.store.records && Project(w.store.records[p.detail.identity]) == Some(p))
  {
    RunKeepsAgreed(NOTHING, steps);
    hide Project, Consistent;
  }

  // ---- what interleaving can break, and exactly when ----

  /** A read that gave a projection gives the same one afterwards. */
  ghost predicate KeepsReadable(s: Store, t: Store, key: Key) {
    forall v :: ReadRevision(s, key, Some(v)).Found? ==> ReadRevision(t, key, Some(v)) == ReadRevision(s, key, Some(v))
  }

  lemma MovingForwardKeepsReadable(s: Store, t: Store, r: Record)
    requires Consistent(s) && Consistent(t)
    requires r.identity in s.records && s.records[r.identity] == r && Project(r).Some?
    requires t == s.(publications := s.publications[KeyOf(r.identity) := Project(r).value])
    requires Current(s, KeyOf(r.identity)) <= r.identity.revision
    ensures KeepsReadable(s, t, KeyOf(r.identity))
  {
    var key := KeyOf(r.identity);
    ProjectionKeepsIdentity(r);
    hide Project, Consistent;
    forall v | ReadRevision(s, key, Some(v)).Found? ensures ReadRevision(t, key, Some(v)) == ReadRevision(s, key, Some(v)) {
      ReadGivesCommittedProjection(s, key, v);
      ReadGivesCommittedProjection(t, key, v);
    }
  }

  lemma MovingBackLosesTheCurrent(s: Store, t: Store, r: Record)
    requires Consistent(s) && Consistent(t) && Project(r).Some?
    requires t == s.(publications := s.publications[KeyOf(r.identity) := Project(r).value])
    requires Current(s, KeyOf(r.identity)) > r.identity.revision
    ensures var v := Current(s, KeyOf(r.identity));
            ReadRevision(s, KeyOf(r.identity), Some(v)).Found? && ReadRevision(t, KeyOf(r.identity), Some(v)) == Missing
  {
    var key := KeyOf(r.identity);
    var v := Current(s, key);
    ProjectionKeepsIdentity(r);
    assert PublicationSound(s, key);
    assert s.publications[key].detail.identity == At(key, v);
    hide Project, Consistent;
    ReadGivesCommittedProjection(s, key, v);
    ReadGivesCommittedProjection(t, key, v);
  }

  /** What the last step of a publisher that got past creation writes. */
  lemma WriteMovesPublication(w: World, who: nat)
    requires who in w.publishers && w.publishers[who].stage.Recorded? && Project(w.publishers[who].record).Some?
    requires var p := w.publishers[who];
             !(p.read.Found? && p.read.value.detail.identity.revision == p.record.identity.revision)
    ensures var r := w.publishers[who].record;
            Next(w, Write(who)).store
            == w.store.(publications := w.store.publications[KeyOf(r.identity) := Project(r).value])
    ensures Next(w, Write(who)).publishers == w.publishers - {who}
  {
    hide Project;
  }

  /**
   * The publication write is no compare-and-swap.  It keeps history readable exactly when the
   * revision that is current at that moment is not beyond the one being written.
   */
  lemma WriteKeepsHistoryExactly(w: World, who: nat)
    requires Agreed(w) && who in w.publishers && w.publishers[who].stage.Recorded?
    requires var p := w.publishers[who];
             !(p.read.Found? && p.read.value.detail.identity.revision == p.record.identity.revision)
    ensures var r := w.publishers[who].record;
            KeepsReadable(w.store, Next(w, Write(who)).store, KeyOf(r.identity))
            <==> Current(w.store, KeyOf(r.identity)) <= r.identity.revision
  {
    var r := w.publishers[who].record;
    var key := KeyOf(r.identity);
    assert PublisherSound(w, who);
    hide Project, ValidRecord, Consistent, ReadRevision, Next, DoWrite;
    var t := w.store.(publications := w.store.publications[key := Project(r).value]);
    WriteMovesPublication(w, who);
    PublicationKeepsConsistent(w.store, r);
    if Current(w.store, key) <= r.identity.revision {
      MovingForwardKeepsReadable(w.store, t, r);
    } else {
      MovingBackLosesTheCurrent(w.store, t, r);
      var v := Current(w.store, key);
      assert ReadRevision(t, key, Some(v)) != ReadRevision(w.store, key, Some(v));
    }
  }

  // ---- a run that goes back ----

  /** The steps of a publisher up to its last write, when its record is new. */
  function UpToWrite(who: nat, r: Record): seq<Step> {
    [Begin(who, r), Check(who), Look(who), Create(who)]
  }

  /** The steps of a publisher up to its last write, when its record is already committed. */
  function Rejoining(who: nat, r: Record): seq<Step> {
    [Begin(who, r), Check(who), Look(who)]
  }

  /**
   * Three revisions of one episode: publisher 1 stalls before its last write, publisher 2 finds
   * its record and publishes it, publisher 3 publishes the next revision.
   */
  function Overtaking(r1: Record, r2: Record, r3: Record): seq<Step> {
    UpToWrite(0, r1) + [Write(0)] + UpToWrite(1, r2) + Rejoining(2, r2) + [Write(2)] + UpToWrite(3, r3) + [Write(3)]
  }

  lemma {:induction false} AfterInParts(w: World, a: seq<Step>, b: seq<Step>)
    ensures After(w, a + b) == After(After(w, a), b)
    decreases |b|
  {
    if b == [] {
      assert a + b == a;
    } else {
      var init, last := b[..|b| - 1], b[|b| - 1];
      AfterInParts(w, a, init);
      assert (a + b)[..|a + b| - 1] == a + init;
      hide Next;
    }
  }

  /** The next revision, or the first publication of an episode. */
  predicate IsNext(s: Store, r: Record) {
    var key := KeyOf(r.identity);
    key in s.publications ==> Current(s, key) + 1 == r.identity.revision
  }

  /** A publisher past creation that did not find its own revision current. */
  predicate AboutToWrite(w: World, who: nat, r: Record) {
    && who in w.publishers && w.publishers[who].stage.Recorded? && w.publishers[who].record == r
    && !(w.publishers[who].read.Found? && w.publishers[who].read.value.detail.identity.revision == r.identity.revision)
  }

  lemma AfterFew(w: World, a: Step, b: Step, c: Step, d: Step)
    ensures After(w, [a]) == Next(w, a)
    ensures After(w, [a, b, c]) == Next(Next(Next(w, a), b), c)
    ensures After(w, [a, b, c, d]) == Next(Next(Next(Next(w, a), b), c), d)
  {
    hide Next;
    var s1, s2, s3, s4 := [a], [a, b], [a, b, c], [a, b, c, d];
    assert s1[..0] == [] && s2[..1] == s1 && s3[..2] == s2 && s4[..3] == s3;
  }

  /** The publisher as it stands after reading the publication. */
  function Fresh(w: World, r: Record, stage: Stage): Publisher {
    Publisher(stage, r, LoadPublication(w.store, KeyOf(r.identity)))
  }

  function Standing(w: World, who: nat, p: Publisher): World {
    w.(publishers := w.publishers[who := p])
  }

  /** A revision that may come next passes the checks. */
  lemma NextPassesChecks(w: World, r: Record)
    requires Agreed(w) && IsNext(w.store, r)
    ensures PassesChecks(w.store, Fresh(w, r, HasRead))
    ensures var read := LoadPublication(w.store, KeyOf(r.identity));
            !(read.Found? && read.value.detail.identity.revision == r.identity.revision)
  {
    var key := KeyOf(r.identity);
    SoundPublicationLoads(w.store, key);
    if key in w.store.publications {
      assert PublicationSound(w.store, key);
      assert w.store.publications[key].detail.identity == At(key, Current(w.store, key));
      SoundRecordLoads(w.store, At(key, Current(w.store, key)));
    }
    hide Project, ValidRecord, Consistent, LoadPublication, LoadRecord;
  }

  lemma BeginAndCheck(w: World, who: nat, r: Record)
    requires ValidRecord(r) && Project(r).Some? && PassesChecks(w.store, Fresh(w, r, HasRead))
    ensures Next(Next(w, Begin(who, r)), Check(who)) == Standing(w, who, Fresh(w, r, Checked))
  {
    hide Project, ValidRecord, LoadPublication, PassesChecks;
    var p, q := Fresh(w, r, HasRead), Fresh(w, r, Checked);
    assert Next(w, Begin(who, r)) == Standing(w, who, p);
    assert w.publishers[who := p][who := q] == w.publishers[who := q];
  }

  lemma LookAndCreate(w: World, who: nat, r: Record)
    ensures r.identity !in w.store.records ==>
              Next(Next(Standing(w, who, Fresh(w, r, Checked)), Look(who)), Create(who))
              == Standing(w, who, Fresh(w, r, Recorded)).(store := Committed(w.store, r), committed := w.committed + {r})
    ensures r.identity in w.store.records && w.store.records[r.identity] == r ==>
              Next(Standing(w, who, Fresh(w, r, Checked)), Look(who)) == Standing(w, who, Fresh(w, r, Recorded))
  {
    hide Project, ValidRecord, LoadPublication, PassesChecks;
    var p, q, z := Fresh(w, r, Checked), Fresh(w, r, FoundAbsent), Fresh(w, r, Recorded);
    assert w.publishers[who := p][who := q] == w.publishers[who := q];
    assert w.publishers[who := q][who := z] == w.publishers[who := z];
    assert w.publishers[who := p][who := z] == w.publishers[who := z];
  }

  /** Alone up to its last write: the record is committed, the publication is untouched. */
  lemma NewRecordIsCommitted(w: World, who: nat, r: Record)
    requires Agreed(w) && ValidRecord(r) && Project(r).Some? && IsNext(w.store, r) && r.identity !in w.store.records
    ensures var t := After(w, UpToWrite(who, r));
            && t.store == Committed(w.store, r) && AboutToWrite(t, who, r)
            && forall x :: x != who && x in w.publishers ==> x in t.publishers && t.publishers[x] == w.publishers[x]
  {
    hide Project, ValidRecord, LoadPublication, PassesChecks, Agreed, Next, After;
    NextPassesChecks(w, r);
    AfterFew(w, Begin(who, r), Check(who), Look(who), Create(who));
    BeginAndCheck(w, who, r);
    LookAndCreate(w, who, r);
  }

  lemma CommittedRecordIsFound(w: World, who: nat, r: Record)
    requires Agreed(w) && ValidRecord(r) && Project(r).Some? && IsNext(w.store, r)
    requires r.identity in w.store.records && w.store.records[r.identity] == r
    ensures var t := After(w, Rejoining(who, r));
            && t.store == w.store && AboutToWrite(t, who, r)
            && forall x :: x != who && x in w.publishers ==> x in t.publishers && t.publishers[x] == w.publishers[x]
  {
    hide Project, ValidRecord, LoadPublication, PassesChecks, Agreed, Next, After;
    NextPassesChecks(w, r);
    AfterFew(w, Begin(who, r), Check(who), Look(who), Create(who));
    BeginAndCheck(w, who, r);
    LookAndCreate(w, who, r);
  }

  lemma WritePublishes(w: World, who: nat, r: Record)
    requires AboutToWrite(w, who, r) && Project(r).Some?
    ensures var t := After(w, [Write(who)]);
            && t.store == w.store.(publications := w.store.publications[KeyOf(r.identity) := Project(r).value])
            && forall x :: x != who && x in w.publishers ==> x in t.publishers && t.publishers[x] == w.publishers[x]
  {
    hide Project, Next, DoWrite;
    WriteMovesPublication(w, who);
    assert [Write(who)][..0] == [];
    assert After(w, [Write(who)]) == Next(w, Write(who));
  }

  /** What both parts of the run have in common: the current revision and the committed records. */
  predicate Holds(s: Store, r: Record, current: Record) {
    && Project(current).Some? && r.identity in s.records && s.records[r.identity] == r
    && KeyOf(current.identity) in s.publications && s.publications[KeyOf(current.identity)] == Project(current).value
  }

  lemma PublishedNew(w: World, who: nat, r: Record)
    requires Agreed(w) && ValidRecord(r) && Project(r).Some? && IsNext(w.store, r) && r.identity !in w.store.records
    ensures var t := After(After(w, UpToWrite(who, r)), [Write(who)]);
            && Agreed(t) && Holds(t.store, r, r) && t.store.records == w.store.records[r.identity := r]
            && forall x :: x != who && x in w.publishers ==> x in t.publishers && t.publishers[x] == w.publishers[x]
  {
    hide Project, ValidRecord, Agreed, Next, After, IsNext;
    NewRecordIsCommitted(w, who, r);
    var u := After(w, UpToWrite(who, r));
    RunKeepsAgreed(w, UpToWrite(who, r));
    WritePublishes(u, who, r);
    RunKeepsAgreed(u, [Write(who)]);
  }

  lemma PublishedFound(w: World, who: nat, r: Record)
    requires Agreed(w) && ValidRecord(r) && Project(r).Some? && IsNext(w.store, r)
    requires r.identity in w.store.records && w.store.records[r.identity] == r
    ensures var t := After(After(w, Rejoining(who, r)), [Write(who)]);
            && Agreed(t) && Holds(t.store, r, r) && t.store.records == w.store.records
            && forall x :: x != who && x in w.publishers ==> x in t.publishers && t.publishers[x] == w.publishers[x]
  {
    hide Project, ValidRecord, Agreed, Next, After, IsNext;
    CommittedRecordIsFound(w, who, r);
    var u := After(w, Rejoining(who, r));
    RunKeepsAgreed(w, Rejoining(who, r));
    WritePublishes(u, who, r);
    RunKeepsAgreed(u, [Write(who)]);
  }

  /** The same record at three consecutive revisions of one episode. */
  predicate ThreeRevisions(r1: Record, r2: Record, r3: Record) {
    && ValidRecord(r1) && ValidRecord(r2) && ValidRecord(r3)
    && Project(r1).Some? && Project(r2).Some? && Project(r3).Some?
    && KeyOf(r1.identity) == KeyOf(r2.identity) == KeyOf(r3.identity)
    && r2.identity.revision == r1.identity.revision + 1 && r3.identity.revision == r2.identity.revision + 1
  }

  lemma OvertakingInParts(r1: Record, r2: Record, r3: Record)
    ensures After(NOTHING, Overtaking(r1, r2, r3))
            == After(After(After(After(After(After(After(NOTHING,
                 UpToWrite(0, r1)), [Write(0)]), UpToWrite(1, r2)), Rejoining(2, r2)), [Write(2)]),
                 UpToWrite(3, r3)), [Write(3)])
  {
    hide After;
    var a := UpToWrite(0, r1);
    var b := a + [Write(0)];
    var c := b + UpToWrite(1, r2);
    var d := c + Rejoining(2, r2);
    var e := d + [Write(2)];
    var f := e + UpToWrite(3, r3);
    AfterInParts(NOTHING, a, [Write(0)]);
    AfterInParts(NOTHING, b, UpToWrite(1, r2));
    AfterInParts(NOTHING, c, Rejoining(2, r2));
    AfterInParts(NOTHING, d, [Write(2)]);
    AfterInParts(NOTHING, e, UpToWrite(3, r3));
    AfterInParts(NOTHING, f, [Write(3)]);
  }

  lemma PublicationIsNext(s: Store, r: Record, next: Record)
    requires Holds(s, r, r) && KeyOf(next.identity) == KeyOf(r.identity)
    requires next.identity.revision == r.identity.revision + 1
    ensures IsNext(s, next)
  {
    ProjectionKeepsIdentity(r);
    hide Project;
  }

  /** The next record committed by a publisher that has yet to write it; the current revision stands. */
  lemma CommittedAhead(w: World, who: nat, r: Record, next: Record)
    requires Agreed(w) && Holds(w.store, r, r) && KeyOf(next.identity) == KeyOf(r.identity)
    requires next.identity.revision == r.identity.revision + 1 && next.identity !in w.store.records
    requires ValidRecord(next) && Project(next).Some?
    ensures var t := After(w, UpToWrite(who, next));
            && Agreed(t) && AboutToWrite(t, who, next) && IsNext(t.store, next)
            && t.store.records == w.store.records[next.identity := next]
  {
    PublicationIsNext(w.store, r, next);
    hide Project, ValidRecord, Agreed, Next, After;
    NewRecordIsCommitted(w, who, next);
    RunKeepsAgreed(w, UpToWrite(who, next));
  }

  lemma StartIsAgreed(r: Record)
    ensures Agreed(NOTHING) && IsNext(NOTHING.store, r) && NOTHING.store == EMPTY
  {
    hide Project, ValidRecord, Current;
  }

  /** After the run the third revision is current, and publisher 1 has yet to write the second. */
  lemma OvertakenPublisherStands(r1: Record, r2: Record, r3: Record)
    requires ThreeRevisions(r1, r2, r3)
    ensures var w := After(NOTHING, Overtaking(r1, r2, r3));
            Agreed(w) && Holds(w.store, r3, r3) && AboutToWrite(w, 1, r2)
  {
    OvertakingInParts(r1, r2, r3);
    StartIsAgreed(r1);
    hide Project, ValidRecord, Agreed, Next, After, IsNext, Overtaking, Holds, UpToWrite, Rejoining;
    PublishedNew(NOTHING, 0, r1);
    var w2 := After(After(NOTHING, UpToWrite(0, r1)), [Write(0)]);
    CommittedAhead(w2, 1, r1, r2);
    var w3 := After(w2, UpToWrite(1, r2));
    PublishedFound(w3, 2, r2);
    var w5 := After(After(w3, Rejoining(2, r2)), [Write(2)]);
    PublicationIsNext(w5.store, r2, r3);
    PublishedNew(w5, 3, r3);
  }

  /** A concrete counterexample to stable history under interleaving. */
  lemma StalledPublisherRollsBack(r1: Record, r2: Record, r3: Record)
    requires ThreeRevisions(r1, r2, r3)
    ensures var w := After(NOTHING, Overtaking(r1, r2, r3));
            var t := Next(w, Write(1));
            var key, v := KeyOf(r3.identity), r3.identity.revision;
            && ReadRevision(w.store, key, Some(v)) == Found(Project(r3).value)
            && ReadRevision(t.store, key, Some(v)) == Missing
            && Current(t.store, key) == r2.identity.revision
  {
    var w := After(NOTHING, Overtaking(r1, r2, r3));
    var key := KeyOf(r3.identity);
    OvertakenPublisherStands(r1, r2, r3);
    ProjectionKeepsIdentity(r2);
    ProjectionKeepsIdentity(r3);
    WriteMovesPublication(w, 1);
    hide Project, ValidRecord, Next, After, Overtaking, Consistent, ReadRevision;
    PublicationKeepsConsistent(w.store, r2);
    ReadGivesCommittedProjection(w.store, key, r3.identity.revision);
    MovingBackLosesTheCurrent(w.store, Next(w, Write(1)).store, r2);
  }

  /** Stable history does not survive interleaving: some run and one more write make a readable revision unreadable. */
  lemma InterleavingCanLoseHistory()
    ensures exists steps: seq<Step>, who: nat, key: Key, v: nat ::
              && ReadRevision(After(NOTHING, steps).store, key, Some(v)).Found?
              && ReadRevision(Next(After(NOTHING, steps), Write(who)).store, key, Some(v)) == Missing
  {
    var r1, r2, r3 := Bare(1), Bare(2), Bare(3);
    BareIsPublishable(1);
    BareIsPublishable(2);
    BareIsPublishable(3);
    hide Project, ValidRecord, Next, After, Overtaking, ReadRevision;
    StalledPublisherRollsBack(r1, r2, r3);
    var w := After(NOTHING, Overtaking(r1, r2, r3));
    assert ReadRevision(w.store, KeyOf(r3.identity), Some(3)).Found?;
    assert ReadRevision(Next(w, Write(1)).store, KeyOf(r3.identity), Some(3)) == Missing;
  }
}
