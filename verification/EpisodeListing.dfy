/** Which record files a run of publishing leaves, and when the revision listing reads them all. */
module EpisodeListing {
  import opened Optional
  import opened PublicText
  import opened Sequencing
  import opened EpisodeTypes
  import opened EpisodeValidation
  import opened EpisodeProjection
  import opened EpisodeGuarantees
  import opened EpisodeStore
  import opened EpisodeHistory

  /** `EpisodeRevisionSummary`, as far as it is derived. */
  datatype RevisionSummary = RevisionSummary(
    revision: nat, parentRevision: Option<nat>, committedAt: int, detail: Detail, isCurrent: bool, fromRecord: bool)

  datatype Listing = NotPublished | Rejected | Listed(items: seq<RevisionSummary>)

  /** The revisions that have a record file. */
  function Revisions(s: Store, key: Key): set<nat> {
    set id | id in s.records && KeyOf(id) == key :: id.revision
  }

  lemma RevisionsAre(s: Store, key: Key, v: nat)
    ensures v in Revisions(s, key) <==> At(key, v) in s.records
  {
    if At(key, v) in s.records {
      assert KeyOf(At(key, v)) == key;
    }
    if v in Revisions(s, key) {
      var id :| id in s.records && KeyOf(id) == key && id.revision == v;
      assert id == At(key, v);
    }
  }

  function UpTo(n: nat): (s: set<nat>)
    ensures |s| == n && forall v :: v in s <==> 1 <= v <= n
  {
    if n == 0 then {} else UpTo(n - 1) + {n}
  }

  /** One entry of the listing. */
  method SummarizeRevision(s: Store, key: Key, v: nat, published: Projection) returns (item: RevisionSummary)
    requires Consistent(s) && key in s.publications && published == s.publications[key]
    requires 1 <= v <= Current(s, key) && v in Revisions(s, key)
    ensures ItemShows(s, key, Current(s, key), item, v)
  {
    hide Draft, ValidRecord, Publishable;
    RevisionsAre(s, key, v);
    SoundRecordLoads(s, At(key, v));
    ReadGivesCommittedProjection(s, key, v);
    SoundPublicationLoads(s, key);
    assert PublicationSound(s, key);
    hide PublicationSound, Consistent, RecordSound, Revisions;
    var current := published.detail.identity.revision;
    var record := LoadRecord(s, At(key, v)).value;
    var projection := if v == current then published else Project(record).value;
    item := RevisionSummary(v, record.parentRevision, record.committedAt, projection.detail, v == current, true);
  }

  /** The summary of revision `v` tells what a read of it gives and what its record says. */
  ghost predicate ItemShows(s: Store, key: Key, current: nat, item: RevisionSummary, v: nat) {
    && item.revision == v && item.isCurrent == (v == current) && item.fromRecord
    && ReadRevision(s, key, Some(v)).Found?
    && item.detail == ReadRevision(s, key, Some(v)).value.detail
    && LoadRecord(s, At(key, v)).Found?
    && item.parentRevision == LoadRecord(s, At(key, v)).value.parentRevision
    && item.committedAt == LoadRecord(s, At(key, v)).value.committedAt
  }

  /** The entries from `current` downwards, newest first. */
  ghost predicate ItemsShow(s: Store, key: Key, current: nat, items: seq<RevisionSummary>) {
    |items| <= current && forall i :: 0 <= i < |items| ==> ItemShows(s, key, current, items[i], current - i)
  }

  /** The loop over the revisions, newest first. */
  method SummarizeAll(s: Store, key: Key, published: Projection) returns (items: seq<RevisionSummary>)
    requires Consistent(s) && key in s.publications && published == s.publications[key]
    requires Revisions(s, key) == UpTo(Current(s, key))
    ensures |items| == Current(s, key) && ItemsShow(s, key, Current(s, key), items)
  {
    var current := published.detail.identity.revision;
    hide Consistent, Revisions, ItemShows;
    items := [];
    var v := current;
    while v > 0
      invariant 0 <= v <= current && |items| == current - v
      invariant ItemsShow(s, key, current, items)
    {
      assert v in UpTo(current);
      var item := SummarizeRevision(s, key, v, published);
      items := items + [item];
      v := v - 1;
    }
  }

  /** What the listing takes for the mark of an adapted legacy publication. */
  const LEGACY_MARK := "Legacy rolo-episode-publication" + "/" + "v1 adapted"

  /** Some limitation starts with the mark. */
  predicate LegacyMarked(limitations: seq<string>) {
    exists x :: x in limitations && LEGACY_MARK <= x
  }

  /** The one entry of an episode that is listed without its records. */
  function IndependentItem(d: Detail): RevisionSummary {
    RevisionSummary(d.identity.revision, None, d.asOf, d, true, false)
  }

  /**
   * `build_episode_revision_collection`, before it is cut into a page.  An episode whose current
   * publication carries the mark, or that has no records, is listed as its current revision alone.
   */
  method ListRevisions(s: Store, key: Key) returns (r: Listing)
    requires Consistent(s)
    ensures r.NotPublished? <==> key !in s.publications
    ensures key in s.publications && LegacyMarked(s.publications[key].detail.limitations) ==>
              r == Listed([IndependentItem(s.publications[key].detail)])
    ensures key in s.publications && !LegacyMarked(s.publications[key].detail.limitations) ==>
              && (r.Listed? <==> Revisions(s, key) == UpTo(Current(s, key)) && Current(s, key) <= MAX_REVISIONS)
              && (r.Listed? ==> |r.items| == Current(s, key) && ItemsShow(s, key, Current(s, key), r.items))
  {
    hide Draft, ValidRecord, Publishable, LoadPublication, Consistent, Revisions, ItemsShow, LegacyMarked;
    SoundPublicationLoads(s, key);
    var loaded := LoadPublication(s, key);
    if !loaded.Found? {
      return NotPublished;
    }
    var current := loaded.value.detail.identity.revision;
    var available := Revisions(s, key);
    CurrentHasRecord(s, key);
    if LegacyMarked(loaded.value.detail.limitations) || available == {} {
      return Listed([IndependentItem(loaded.value.detail)]);
    }
    if |available| > MAX_REVISIONS || available != UpTo(current) {
      return Rejected;
    }
    var items := SummarizeAll(s, key, loaded.value);
    return Listed(items);
  }

  /** A published episode has the record of its current revision. */
  lemma CurrentHasRecord(s: Store, key: Key)
    requires Consistent(s) && key in s.publications
    ensures At(key, Current(s, key)) in s.records && Current(s, key) in Revisions(s, key)
  {
    assert PublicationSound(s, key);
    assert s.publications[key].detail.identity == At(key, Current(s, key));
    RevisionsAre(s, key, Current(s, key));
    hide PublicationSound, Consistent, RecordSound;
  }

  // ---- whose episodes carry the mark ----

  /** A note the projection adds starts with another letter. */
  predicate NoMark(notes: seq<string>) {
    forall x :: x in notes ==> x != [] && x[0] != 'L'
  }

  lemma {:induction false} AssetNotesCarryNoMark(assets: seq<ProducerAsset>)
    ensures NoMark(AssetNotes(assets))
  {
    if assets != [] {
      AssetNotesCarryNoMark(assets[..|assets| - 1]);
      assert AssetNote(assets[|assets| - 1].assetId)[0] == 'A';
    }
  }

  lemma {:induction false} EventNotesCarryNoMark(events: seq<ProducerEvent>, usable: set<string>)
    ensures NoMark(EventNotes(events, usable))
  {
    if events != [] {
      EventNotesCarryNoMark(events[..|events| - 1], usable);
      assert EventNote(events[|events| - 1].eventId)[0] == 'E';
    }
  }

  lemma {:induction false} FindingNotesCarryNoMark(findings: seq<ProducerFinding>, usable: set<string>)
    ensures NoMark(FindingNotes(findings, usable))
  {
    if findings != [] {
      FindingNotesCarryNoMark(findings[..|findings| - 1], usable);
      assert FindingNote(findings[|findings| - 1].findingId)[0] == 'F';
    }
  }

  lemma MarkSurvivesExactly(own: seq<string>, added: seq<string>)
    requires |own| <= MAX_LIMITATIONS && NoMark(added)
    ensures LegacyMarked(UniqueLimitations(own + added)) <==> LegacyMarked(own)
  {
    hide UniqueLimitations;
    OwnLimitationsSurvive(own, added);
    assert LEGACY_MARK[0] == 'L';
  }

  function AddedNotes(r: Record): seq<string> {
    AssetNotes(r.assets) + EventNotes(SortBy(r.events, EventSequence), UsableIds(r.assets))
    + FindingNotes(r.findings, UsableIds(r.assets)) + ClockNotes(r)
  }

  lemma NoMarkTogether(a: seq<string>, b: seq<string>, c: seq<string>, d: seq<string>)
    requires NoMark(a) && NoMark(b) && NoMark(c) && NoMark(d)
    ensures NoMark(a + b + c + d)
  {
  }

  lemma ClockNotesCarryNoMark(r: Record)
    ensures NoMark(ClockNotes(r))
  {
    hide WorstSynchronization;
    assert CLOCK_NOTE[0] == 'T';
  }

  lemma AddedNotesCarryNoMark(r: Record)
    ensures NoMark(AddedNotes(r))
  {
    hide AssetNotes, EventNotes, FindingNotes, SortBy, UsableIds, ClockNotes, NoMark;
    var sorted, usable := SortBy(r.events, EventSequence), UsableIds(r.assets);
    AssetNotesCarryNoMark(r.assets);
    EventNotesCarryNoMark(sorted, usable);
    FindingNotesCarryNoMark(r.findings, usable);
    ClockNotesCarryNoMark(r);
    NoMarkTogether(AssetNotes(r.assets), EventNotes(sorted, usable), FindingNotes(r.findings, usable), ClockNotes(r));
  }

  lemma PublishedLimitations(r: Record)
    ensures Draft(r).detail.limitations == UniqueLimitations(r.limitations + AddedNotes(r))
  {
    hide AssetNotes, EventNotes, FindingNotes, SortBy, UsableIds, WorstSynchronization, UniqueLimitations,
      PublicAssets, PublicEvents, PublicFindings, EvidenceIds, LanesOf, ProjectedCoverage;
    assert Limitations(r, SortBy(r.events, EventSequence), UsableIds(r.assets)) == r.limitations + AddedNotes(r);
  }

  /** A publication carries the mark exactly when its producer put it among the record's own limitations. */
  lemma MarkedExactly(r: Record)
    requires ValidRecord(r)
    ensures LegacyMarked(Draft(r).detail.limitations) <==> LegacyMarked(r.limitations)
  {
    assert |r.limitations| <= MAX_LIMITATIONS;
    hide *;
    AddedNotesCarryNoMark(r);
    PublishedLimitations(r);
    MarkSurvivesExactly(r.limitations, AddedNotes(r));
  }

  /**
   * So the revisions of a published episode are listed from its records, if and only if no
   * limitation of its current record carries the mark.
   */
  lemma ListedFromRecordsExactly(s: Store, key: Key)
    requires Consistent(s) && key in s.publications
    ensures At(key, Current(s, key)) in s.records
    ensures LegacyMarked(s.publications[key].detail.limitations) <==> LegacyMarked(s.records[At(key, Current(s, key))].limitations)
  {
    CurrentHasRecord(s, key);
    assert PublicationSound(s, key) && RecordSound(s, At(key, Current(s, key)));
    assert s.publications[key].detail.identity == At(key, Current(s, key));
    var r := s.records[At(key, Current(s, key))];
    assert s.publications[key] == Draft(r);
    hide Draft, ValidRecord, Publishable, LegacyMarked;
    MarkedExactly(r);
  }

  /** A bare record whose producer writes the mark as a limitation of its own. */
  function Marked(v: nat): Record
    requires v >= 1
  {
    Bare(v).(limitations := [LEGACY_MARK + " by hand."])
  }

  lemma MarkedIsMarked(v: nat)
    requires v >= 1
    ensures LegacyMarked(Marked(v).limitations)
  {
    var text := LEGACY_MARK + " by hand.";
    assert LEGACY_MARK <= text && text in Marked(v).limitations;
  }

  lemma MarkedTextIsSafe()
    ensures SafeTexts([LEGACY_MARK + " by hand."])
  {
    var text := LEGACY_MARK + " by hand.";
    assert text == "Legacy rolo-episode-publication" + "/" + "v1 adapted by hand.";
    OneSlashIsSafe("Legacy rolo-episode-publication", "v1 adapted by hand.");
    hide SafeText;
  }

  lemma MarkedIsPublishable(v: nat)
    requires v >= 1
    ensures ValidRecord(Marked(v)) && Project(Marked(v)).Some?
  {
    MarkedIsProjectable(v);
    hide Projectable;
    ProjectionSucceedsExactly(Marked(v));
  }

  lemma MarkedIsProjectable(v: nat)
    requires v >= 1
    ensures Projectable(Marked(v))
  {
    MarkedTextIsSafe();
    PlainTextIsSafe("t");
    hide SafeText;
  }

  lemma FirstPublicationIs(r: Record)
    requires Project(r).Some?
    ensures var key := KeyOf(r.identity);
            Publish(EMPTY, r, NoCrash).0 == Store(map[r.identity := r], map[key := Draft(r)])
  {
    hide Draft, Publishable, ValidRecord;
    assert Accepts(EMPTY, r);
  }

  lemma OnlyRevision(r: Record, p: Projection)
    ensures Revisions(Store(map[r.identity := r], map[KeyOf(r.identity) := p]), KeyOf(r.identity)) == {r.identity.revision}
  {
    var s := Store(map[r.identity := r], map[KeyOf(r.identity) := p]);
    assert r.identity in s.records;
  }

  lemma FirstPublication(r: Record)
    requires ValidRecord(r) && Project(r).Some?
    ensures var s := Publish(EMPTY, r, NoCrash).0;
            var key := KeyOf(r.identity);
            && Consistent(s) && key in s.publications && s.publications[key] == Draft(r)
            && Current(s, key) == r.identity.revision && Revisions(s, key) == {r.identity.revision}
  {
    ProjectionKeepsIdentity(r);
    assert Project(r).value == Draft(r);
    hide Draft, ValidRecord, Publishable, Publish, Project, Revisions;
    FirstPublicationIs(r);
    OnlyRevision(r, Draft(r));
    assert Consistent(EMPTY);
    CallKeepsConsistent(EMPTY, r, NoCrash);
  }

  /** Published first as revision 5, such an episode is listed, though its records are not 1 to current. */
  lemma MarkHidesMissingHistory()
    ensures var s := Publish(EMPTY, Marked(5), NoCrash).0;
            var key := KeyOf(Marked(5).identity);
            && Consistent(s) && key in s.publications && LegacyMarked(s.publications[key].detail.limitations)
            && Current(s, key) == 5 && Revisions(s, key) == {5} != UpTo(5)
  {
    var r := Marked(5);
    MarkedIsMarked(5);
    assert 1 in UpTo(5) && r.identity.revision == 5;
    hide *;
    MarkedIsPublishable(5);
    MarkedExactly(r);
    FirstPublication(r);
    assert 1 !in {5};
  }

  // ---- contiguity ----

  /** No unpublished episode is offered anything but revision 1. */
  predicate StartsAtOne(s: Store, c: Call) {
    KeyOf(c.record.identity) !in s.publications ==> c.record.identity.revision == 1
  }

  ghost predicate AllStartAtOne(s: Store, calls: seq<Call>) {
    forall n :: 0 <= n < |calls| ==> StartsAtOne(After(s, calls[..n]), calls[n])
  }

  /** The records are exactly 1..current, or a crash has left the next one too. */
  ghost predicate Contiguous(s: Store, key: Key) {
    Revisions(s, key) == UpTo(Current(s, key)) || Revisions(s, key) == UpTo(Current(s, key) + 1)
  }

  lemma CommitAddsRevision(s: Store, r: Record, key: Key)
    ensures Revisions(Committed(s, r), key)
            == Revisions(s, key) + if KeyOf(r.identity) == key then {r.identity.revision} else {}
  {
    var t := Committed(s, r);
    forall v: nat ensures v in Revisions(t, key) <==>
      v in Revisions(s, key) || (KeyOf(r.identity) == key && v == r.identity.revision)
    {
      RevisionsAre(s, key, v);
      RevisionsAre(t, key, v);
    }
  }

  /** The revisions after an accepted call, and which revision is then current. */
  lemma AcceptedCallAddsRevision(s: Store, r: Record, crash: Crash, key: Key)
    requires Consistent(s) && ValidRecord(r) && Accepts(s, r) && crash != BeforeRecord
    ensures var t := Publish(s, r, crash).0;
            && Revisions(t, key) == Revisions(s, key) + (if KeyOf(r.identity) == key then {r.identity.revision} else {})
            && Current(t, key) == if KeyOf(r.identity) == key && crash.NoCrash? then r.identity.revision else Current(s, key)
  {
    hide Draft, ValidRecord, Publishable;
    ProjectionKeepsIdentity(r);
    CommitAddsRevision(s, r, key);
    RecordsDecideRevisions(Committed(s, r), Publish(s, r, crash).0, key);
  }

  /** An accepted revision is the current one or the next, and never 0. */
  lemma AcceptedRevisionIsNext(s: Store, c: Call)
    requires Consistent(s) && ValidRecord(c.record) && StartsAtOne(s, c) && Accepts(s, c.record)
    ensures var n, current := c.record.identity.revision, Current(s, KeyOf(c.record.identity));
            n >= 1 && (n == current || n == current + 1)
  {
    assert c.record.identity.revision >= 1;
    hide Draft, ValidRecord, Publishable;
    AcceptedFollows(s, c.record);
  }

  lemma UpToGrows(n: nat)
    ensures UpTo(n + 1) == UpTo(n) + {n + 1}
    ensures n >= 1 ==> UpTo(n) + {n} == UpTo(n)
    ensures UpTo(n + 1) + {n + 1} == UpTo(n + 1)
    ensures n >= 1 ==> UpTo(n + 1) + {n} == UpTo(n + 1)
  {
  }

  /** The same, on the set of revisions alone. */
  lemma NextRevisionKeepsInterval(before: set<nat>, current: nat, n: nat, after: set<nat>)
    requires n >= 1 && (n == current || n == current + 1) && after == before + {n}
    ensures before == UpTo(current) ==> after == UpTo(n)
    ensures before == UpTo(current) || before == UpTo(current + 1) ==> after == UpTo(current) || after == UpTo(current + 1)
    ensures before == UpTo(current + 1) ==> after == UpTo(current + 1)
  {
    UpToGrows(current);
  }

  lemma CallKeepsContiguous(s: Store, c: Call, key: Key)
    requires Consistent(s) && ValidRecord(c.record) && StartsAtOne(s, c) && Contiguous(s, key)
    ensures Contiguous(Publish(s, c.record, c.crash).0, key)
    ensures c.crash.NoCrash? && Revisions(s, key) == UpTo(Current(s, key)) ==>
              var t := Publish(s, c.record, c.crash).0;
              Revisions(t, key) == UpTo(Current(t, key))
  {
    hide ValidRecord, Project, Accepts, Publish, Revisions, UpTo, Current, Consistent, StartsAtOne;
    var t := Publish(s, c.record, c.crash).0;
    if Accepts(s, c.record) && c.crash != BeforeRecord {
      AcceptedCallAddsRevision(s, c.record, c.crash, key);
      AcceptedRevisionIsNext(s, c);
      if key == KeyOf(c.record.identity) {
        NextRevisionKeepsInterval(Revisions(s, key), Current(s, key), c.record.identity.revision, Revisions(t, key));
      } else {
        assert Revisions(t, key) == Revisions(s, key);
      }
    } else {
      IdleCallChangesNothing(s, c.record, c.crash);
    }
  }

  lemma IdleCallChangesNothing(s: Store, r: Record, crash: Crash)
    requires !Accepts(s, r) || crash == BeforeRecord
    ensures Publish(s, r, crash).0 == s
  {
    hide Accepts;
  }

  lemma RecordsDecideRevisions(s: Store, t: Store, key: Key)
    ensures s.records == t.records ==> Revisions(s, key) == Revisions(t, key)
  {
  }

  /**
   * When every episode starts at revision 1, its records are 1..current throughout, plus at most the
   * next one after a crash.
   */
  lemma {:induction false} RunKeepsContiguous(calls: seq<Call>, key: Key)
    requires ValidCalls(calls) && AllStartAtOne(EMPTY, calls)
    ensures Contiguous(After(EMPTY, calls), key)
  {
    if calls == [] {
      assert Revisions(EMPTY, key) == {} == UpTo(0);
    } else {
      var init, last := calls[..|calls| - 1], calls[|calls| - 1];
      InitStartsAtOne(calls);
      RunKeepsContiguous(init, key);
      RunKeepsConsistent(EMPTY, init);
      CallKeepsContiguous(After(EMPTY, init), last, key);
    }
  }

  lemma InitStartsAtOne(calls: seq<Call>)
    requires ValidCalls(calls) && AllStartAtOne(EMPTY, calls) && calls != []
    ensures var init, last := calls[..|calls| - 1], calls[|calls| - 1];
            && ValidCalls(init) && ValidRecord(last.record)
            && AllStartAtOne(EMPTY, init) && StartsAtOne(After(EMPTY, init), last)
  {
    hide ValidRecord, Publish, StartsAtOne;
    var init := calls[..|calls| - 1];
    forall n | 0 <= n < |init| ensures StartsAtOne(After(EMPTY, init[..n]), init[n]) {
      assert init[..n] == calls[..n];
    }
    assert calls[..|calls| - 1] == init;
  }

  predicate CrashFree(calls: seq<Call>) {
    forall i :: 0 <= i < |calls| ==> calls[i].crash.NoCrash?
  }

  /** Without crashes the records are exactly 1..current, so the listing can be refused only for its size. */
  lemma {:induction false} CrashFreeRunIsExact(calls: seq<Call>, key: Key)
    requires ValidCalls(calls) && AllStartAtOne(EMPTY, calls) && CrashFree(calls)
    ensures Revisions(After(EMPTY, calls), key) == UpTo(Current(After(EMPTY, calls), key))
  {
    if calls == [] {
      assert Revisions(EMPTY, key) == {} == UpTo(0);
    } else {
      var init, last := calls[..|calls| - 1], calls[|calls| - 1];
      InitStartsAtOne(calls);
      CrashFreeRunIsExact(init, key);
      RunKeepsConsistent(EMPTY, init);
      CallKeepsContiguous(After(EMPTY, init), last, key);
    }
  }

  // ---- recovery ----

  /** After a crash between the two writes, publishing the same record again reaches the uncrashed state. */
  lemma RepublishingRecovers(s: Store, r: Record)
    requires Consistent(s) && ValidRecord(r)
    ensures var (t, o) := Publish(s, r, AfterRecord);
            Publish(t, r, NoCrash) == Publish(s, r, NoCrash)
  {
    hide Draft, ValidRecord, Publishable;
    if Accepts(s, r) {
      AcceptedFollows(s, r);
      CommitKeepsConsistent(s, r);
      var t := Committed(s, r);
      SoundPublicationLoads(s, KeyOf(r.identity));
      SoundPublicationLoads(t, KeyOf(r.identity));
      SoundRecordLoads(t, r.identity);
      SoundRecordLoads(s, At(KeyOf(r.identity), Current(s, KeyOf(r.identity))));
      SoundRecordLoads(t, At(KeyOf(r.identity), Current(s, KeyOf(r.identity))));
      assert Accepts(t, r);
      assert t.records[r.identity := r] == t.records;
    }
  }

  /** After such a crash no other content can take the revision: the committed record is the only way on. */
  lemma CrashedRevisionIsTaken(s: Store, r: Record, other: Record, crash: Crash)
    requires Consistent(s) && ValidRecord(r) && Publish(s, r, AfterRecord).1.Crashed?
    requires other.identity == r.identity && other != r
    ensures Publish(Publish(s, r, AfterRecord).0, other, crash) == (Publish(s, r, AfterRecord).0, Refused)
  {
    hide Draft, ValidRecord, Publishable;
    var t := Committed(s, r);
    AcceptedFollows(s, r);
    CommitKeepsConsistent(s, r);
    SoundRecordLoads(t, r.identity);
  }
}
