/** Whole runs of publishing, with crashes: what stays readable, and which record files exist. */
module EpisodeHistory {
  import opened Optional
  import opened EpisodeTypes
  import opened EpisodeValidation
  import opened EpisodeProjection
  import opened EpisodeStore

  // ---- the invariant ----

  /** The record file holds a valid record that belongs there and projects. */
  ghost predicate RecordSound(s: Store, id: Identity)
    requires id in s.records
  {
    ValidRecord(s.records[id]) && s.records[id].identity == id && Project(s.records[id]).Some?
  }

  /** The publication is the projection of the record committed under its revision. */
  ghost predicate PublicationSound(s: Store, key: Key)
    requires key in s.publications
  {
    var p := s.publications[key];
    && KeyOf(p.detail.identity) == key
    && p.detail.identity in s.records
    && Project(s.records[p.detail.identity]) == Some(p)
  }

  ghost predicate Consistent(s: Store) {
    && (forall id :: id in s.records ==> RecordSound(s, id))
    && forall key :: key in s.publications ==> PublicationSound(s, key)
  }

  lemma ProjectionKeepsIdentity(r: Record)
    requires Project(r).Some?
    ensures Project(r).value.detail.identity == r.identity && Publishable(Project(r).value)
  {
  }

  lemma SoundPublicationLoads(s: Store, key: Key)
    requires Consistent(s)
    ensures LoadPublication(s, key) == if key in s.publications then Found(s.publications[key]) else Missing
  {
    hide Draft, ValidRecord, Publishable;
    if key in s.publications {
      assert PublicationSound(s, key);
      ProjectionKeepsIdentity(s.records[s.publications[key].detail.identity]);
    }
  }

  lemma SoundRecordLoads(s: Store, id: Identity)
    requires Consistent(s)
    ensures LoadRecord(s, id) == if id in s.records then Found(s.records[id]) else Missing
  {
    if id in s.records {
      assert RecordSound(s, id);
    }
  }

  /** The revision that is current, 0 before the first publication. */
  function Current(s: Store, key: Key): nat {
    if key in s.publications then s.publications[key].detail.identity.revision else 0
  }

  /** A revision is readable when it is not beyond the current one and its record is there. */
  function Readable(s: Store, key: Key, v: nat): bool {
    key in s.publications && v <= Current(s, key) && At(key, v) in s.records
  }

  /** In a consistent store every read gives the projection of the committed record. */
  lemma ReadGivesCommittedProjection(s: Store, key: Key, v: nat)
    requires Consistent(s)
    ensures ReadRevision(s, key, Some(v))
            == if Readable(s, key, v) && Project(s.records[At(key, v)]).Some?
               then Found(Project(s.records[At(key, v)]).value) else Missing
    ensures Readable(s, key, v) ==> Project(s.records[At(key, v)]).Some?
  {
    hide Draft, ValidRecord, Publishable;
    SoundPublicationLoads(s, key);
    SoundRecordLoads(s, At(key, v));
    if key in s.publications {
      assert PublicationSound(s, key);
      assert s.publications[key].detail.identity == At(key, Current(s, key));
    }
    if At(key, v) in s.records {
      assert RecordSound(s, At(key, v));
    }
  }

  // ---- one call ----

  /** What an accepted call found in the store. */
  lemma AcceptedFollows(s: Store, r: Record)
    requires Consistent(s) && Accepts(s, r)
    ensures r.identity in s.records ==> s.records[r.identity] == r
    ensures var key := KeyOf(r.identity);
            key in s.publications ==>
              && At(key, Current(s, key)) in s.records
              && (r.identity.revision == Current(s, key) + 1
                  || (r.identity.revision == Current(s, key) && Project(r) == Some(s.publications[key])))
  {
    hide Draft, ValidRecord, Publishable;
    var key := KeyOf(r.identity);
    SoundPublicationLoads(s, key);
    SoundRecordLoads(s, r.identity);
    if key in s.publications {
      assert PublicationSound(s, key);
      assert s.publications[key].detail.identity == At(key, Current(s, key));
    }
  }

  lemma CommitKeepsConsistent(s: Store, r: Record)
    requires Consistent(s) && ValidRecord(r) && Project(r).Some?
    requires r.identity in s.records ==> s.records[r.identity] == r
    ensures Consistent(Committed(s, r))
  {
    hide Draft, ValidRecord, Publishable;
    var t := Committed(s, r);
    forall id | id in t.records ensures RecordSound(t, id) {
      assert id in s.records ==> RecordSound(s, id);
    }
    forall key | key in t.publications ensures PublicationSound(t, key) {
      assert PublicationSound(s, key);
    }
  }

  lemma PublicationKeepsConsistent(s: Store, r: Record)
    requires Consistent(s) && Project(r).Some? && r.identity in s.records && s.records[r.identity] == r
    ensures Consistent(s.(publications := s.publications[KeyOf(r.identity) := Project(r).value]))
  {
    hide Draft, ValidRecord, Publishable;
    var t := s.(publications := s.publications[KeyOf(r.identity) := Project(r).value]);
    ProjectionKeepsIdentity(r);
    forall id | id in t.records ensures RecordSound(t, id) {
      assert RecordSound(s, id);
    }
    forall key | key in t.publications ensures PublicationSound(t, key) {
      assert key != KeyOf(r.identity) ==> PublicationSound(s, key);
    }
  }

  lemma CallKeepsConsistent(s: Store, r: Record, crash: Crash)
    requires Consistent(s) && ValidRecord(r)
    ensures Consistent(Publish(s, r, crash).0)
  {
    hide Draft, ValidRecord, Publishable;
    if Accepts(s, r) {
      AcceptedFollows(s, r);
      CommitKeepsConsistent(s, r);
      PublicationKeepsConsistent(Committed(s, r), r);
    }
  }

  lemma CallKeepsReadable(s: Store, r: Record, crash: Crash, key: Key, v: nat)
    requires Consistent(s) && ValidRecord(r) && Readable(s, key, v)
    ensures var t := Publish(s, r, crash).0;
            Readable(t, key, v) && t.records[At(key, v)] == s.records[At(key, v)]
  {
    hide Draft, ValidRecord, Publishable;
    if Accepts(s, r) {
      AcceptedFollows(s, r);
      ProjectionKeepsIdentity(r);
    }
  }

  // ---- runs ----

  datatype Call = Call(record: Record, crash: Crash)

  function After(s: Store, calls: seq<Call>): Store {
    if calls == [] then s
    else
      var last := calls[|calls| - 1];
      Publish(After(s, calls[..|calls| - 1]), last.record, last.crash).0
  }

  predicate ValidCalls(calls: seq<Call>) {
    forall i :: 0 <= i < |calls| ==> ValidRecord(calls[i].record)
  }

  const EMPTY := Store(map[], map[])

  lemma {:induction false} RunKeepsConsistent(s: Store, calls: seq<Call>)
    requires Consistent(s) && ValidCalls(calls)
    ensures Consistent(After(s, calls))
  {
    if calls != [] {
      var init := calls[..|calls| - 1];
      RunKeepsConsistent(s, init);
      CallKeepsConsistent(After(s, init), calls[|calls| - 1].record, calls[|calls| - 1].crash);
    }
  }

  lemma {:induction false} RunKeepsReadable(s: Store, calls: seq<Call>, key: Key, v: nat)
    requires Consistent(s) && ValidCalls(calls) && Readable(s, key, v)
    ensures Consistent(After(s, calls)) && Readable(After(s, calls), key, v)
    ensures After(s, calls).records[At(key, v)] == s.records[At(key, v)]
  {
    hide Draft, ValidRecord, Publishable;
    if calls != [] {
      var init, last := calls[..|calls| - 1], calls[|calls| - 1];
      RunKeepsReadable(s, init, key, v);
      CallKeepsConsistent(After(s, init), last.record, last.crash);
      CallKeepsReadable(After(s, init), last.record, last.crash, key, v);
    }
  }

  /** From an empty store, whatever could once be read is read unchanged ever after, through every crash. */
  lemma HistoryIsStable(before: seq<Call>, later: seq<Call>, key: Key, v: nat)
    requires ValidCalls(before) && ValidCalls(later)
    requires ReadRevision(After(EMPTY, before), key, Some(v)).Found?
    ensures ReadRevision(After(After(EMPTY, before), later), key, Some(v))
            == ReadRevision(After(EMPTY, before), key, Some(v))
  {
    var s := After(EMPTY, before);
    RunKeepsConsistent(EMPTY, before);
    ReadGivesCommittedProjection(s, key, v);
    RunKeepsReadable(s, later, key, v);
    ReadGivesCommittedProjection(After(s, later), key, v);
  }

  /** In particular: what a call published is what its revision reads as, ever after. */
  lemma PublishedStaysReadable(before: seq<Call>, c: Call, later: seq<Call>)
    requires ValidCalls(before) && ValidRecord(c.record) && ValidCalls(later)
    requires Publish(After(EMPTY, before), c.record, c.crash).1.Published?
    ensures var (s, o) := Publish(After(EMPTY, before), c.record, c.crash);
            && Project(c.record) == Some(o.projection)
            && ReadRevision(After(s, later), KeyOf(c.record.identity), Some(c.record.identity.revision))
               == Found(o.projection)
  {
    hide Draft, ValidRecord, Publishable;
    var (s, o) := Publish(After(EMPTY, before), c.record, c.crash);
    var key, v := KeyOf(c.record.identity), c.record.identity.revision;
    RunKeepsConsistent(EMPTY, before);
    CallKeepsConsistent(After(EMPTY, before), c.record, c.crash);
    ProjectionKeepsIdentity(c.record);
    assert Readable(s, key, v);
    RunKeepsReadable(s, later, key, v);
    ReadGivesCommittedProjection(After(s, later), key, v);
  }
}
