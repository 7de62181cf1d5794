/** What a projection shows of its record, field by field. */
module EpisodeContents {
  import opened Lookup
  import opened Optional
  import opened PublicText
  import opened Sequencing
  import opened EpisodeTypes
  import opened EpisodeValidation
  import opened EpisodeProjection
  import opened EpisodeGuarantees
  import Listing = EpisodeListing

  // ---- references and support ----

  /** One public id per reference, each once, in the order of first mention. */
  ghost predicate ShowsReferences(ids: seq<EvidenceId>, robotId: string, refs: seq<string>) {
    && (forall i, j :: 0 <= i < j < |ids| ==> ids[i] != ids[j])
    && (forall ref :: ref in refs ==> EvidenceId(robotId, ref) in ids)
    && (forall id :: id in ids ==> id.robotId == robotId && id.reference in refs)
    && forall i, j :: 0 <= i < j < |ids| ==> MentionedBefore(refs, ids[i].reference, ids[j].reference)
  }

  ghost predicate MentionedBefore<T(!new)>(values: seq<T>, x: T, y: T) {
    exists k :: 0 <= k < |values| && values[k] == x && y !in values[..k + 1]
  }

  lemma {:induction false} DedupKeepsOrder<T(!new)>(values: seq<T>)
    ensures forall i, j :: 0 <= i < j < |Dedup(values)| ==> MentionedBefore(values, Dedup(values)[i], Dedup(values)[j])
  {
    if values != [] {
      var init, last := values[..|values| - 1], values[|values| - 1];
      DedupKeepsOrder(init);
      var d := Dedup(values);
      forall i, j | 0 <= i < j < |d| ensures MentionedBefore(values, d[i], d[j]) {
        if j < |Dedup(init)| {
          var k :| 0 <= k < |init| && init[k] == Dedup(init)[i] && Dedup(init)[j] !in init[..k + 1];
          assert values[k] == d[i] && values[..k + 1] == init[..k + 1];
        } else {
          assert d[i] in Dedup(init);
          var k :| 0 <= k < |init| && init[k] == d[i];
          assert values[k] == d[i] && values[..k + 1] == init[..k + 1];
        }
      }
    }
  }

  lemma EvidenceIdsShow(robotId: string, refs: seq<string>)
    ensures ShowsReferences(EvidenceIds(robotId, refs), robotId, refs)
  {
    var all := seq(|refs|, i requires 0 <= i < |refs| => EvidenceId(robotId, refs[i]));
    DedupKeepsOrder(all);
    var ids := EvidenceIds(robotId, refs);
    forall ref | ref in refs ensures EvidenceId(robotId, ref) in ids {
      var i :| 0 <= i < |refs| && refs[i] == ref;
      assert all[i] in all;
    }
    forall i, j | 0 <= i < j < |ids| ensures MentionedBefore(refs, ids[i].reference, ids[j].reference) {
      assert MentionedBefore(all, ids[i], ids[j]) && ids[j] in all && ids[j].robotId == robotId;
      var k :| 0 <= k < |all| && all[k] == ids[i] && ids[j] !in all[..k + 1];
      forall l | 0 <= l < k + 1 ensures refs[l] != ids[j].reference {
        assert all[..k + 1][l] == all[l];
      }
    }
  }

  /** Some reference, or some of these assets is available and not SECRET. */
  predicate HasSupport(r: Record, refs: seq<string>, assetIds: seq<string>) {
    refs != [] || exists a :: a in r.assets && a.assetId in assetIds && a.availability == AVAILABLE && a.classification != SECRET
  }

  lemma UsableIdsAre(r: Record, x: string)
    ensures x in UsableIds(r.assets) <==> exists a :: a in r.assets && a.assetId == x && a.availability == AVAILABLE && a.classification != SECRET
  {
    if x in UsableIds(r.assets) {
      var i :| 0 <= i < |r.assets| && Usable(r.assets[i]) && r.assets[i].assetId == x;
      assert r.assets[i] in r.assets;
    }
    if a :| a in r.assets && a.assetId == x && a.availability == AVAILABLE && a.classification != SECRET {
      var i :| 0 <= i < |r.assets| && r.assets[i] == a;
      assert Usable(r.assets[i]);
    }
  }

  lemma SupportExactly(r: Record, refs: seq<string>, assetIds: seq<string>)
    ensures HasSupport(r, refs, assetIds) <==> refs != [] || exists x :: x in assetIds && x in UsableIds(r.assets)
  {
    forall x ensures x in UsableIds(r.assets) <==>
      exists a :: a in r.assets && a.assetId == x && a.availability == AVAILABLE && a.classification != SECRET
    {
      UsableIdsAre(r, x);
    }
    hide UsableIds;
  }

  // ---- the limitations shown ----

  /** The producer's own limitations, and of the given notes those that still fit. */
  ghost predicate ShowsLimitations(shown: seq<string>, own: seq<string>, notes: seq<string>) {
    && |shown| <= 32 && (forall i, j :: 0 <= i < j < |shown| ==> shown[i] != shown[j])
    && (forall x :: x in own ==> x in shown)
    && (forall x :: x in shown ==> x in own || x in notes)
    && (|own| + |notes| <= 32 ==> forall x :: x in notes ==> x in shown)
    && forall i, j :: 0 <= i < j < |shown| ==> MentionedBefore(own + notes, shown[i], shown[j])
  }

  lemma LimitationsShow(own: seq<string>, notes: seq<string>)
    requires |own| <= 32
    ensures ShowsLimitations(UniqueLimitations(own + notes), own, notes)
  {
    OwnLimitationsSurvive(own, notes);
    DedupKeepsOrder(own + notes);
    hide MentionedBefore;
    var d, shown := Dedup(own + notes), UniqueLimitations(own + notes);
    assert forall i :: 0 <= i < |shown| ==> shown[i] == d[i];
    if |own| + |notes| <= 32 {
      assert shown == d;
    }
  }

  // ---- assets ----

  /** The summary of an asset; a SECRET one shows neither digest nor reference, and is REDACTED. */
  ghost predicate AssetShown(r: Record, a: ProducerAsset, s: AssetSummary) {
    && s.identity == r.identity && s.assetId == a.assetId && s.sourceLabel == a.sourceLabel && s.capture == a.capture
    && s.world == a.world && s.synchronization == a.synchronization && s.classification == a.classification
    && (if a.classification == SECRET then
          && s.digest == None && s.evidenceId == None && s.availability == REDACTED
          && ShowsLimitations(s.limitations, a.limitations, [SECRET_NOTE])
        else
          && s.digest == a.digest && s.availability == a.availability
          && (a.artifactRef == None ==> s.evidenceId == None)
          && (a.artifactRef != None ==> s.evidenceId == Some(EvidenceId(r.identity.robotId, a.artifactRef.value)))
          && ShowsLimitations(s.limitations, a.limitations, if a.availability == AVAILABLE then [] else [UNAVAILABLE_NOTE]))
  }

  lemma PublicAssetShows(r: Record, a: ProducerAsset)
    requires ValidAsset(a)
    ensures AssetShown(r, a, PublicAsset(r.identity, a))
  {
    LimitationsShow(a.limitations, AssetLimit(a));
    hide UniqueLimitations, ShowsLimitations;
  }

  /** The three lists of a projection and their counts. */
  lemma ProjectionLists(r: Record, p: Projection)
    requires Project(r) == Some(p)
    ensures p.detail.assets == PublicAssets(r.identity, r.assets) && p.detail.assetCount == |p.detail.assets|
    ensures p.timeline == PublicEvents(r.identity, SortBy(r.events, EventSequence), UsableIds(r.assets))
    ensures p.detail.eventCount == |p.timeline|
    ensures p.detail.findings == PublicFindings(r.identity, r.findings, UsableIds(r.assets))
    ensures p.detail.findingCount == |p.detail.findings|
  {
    hide Publishable, PublicAssets, PublicEvents, PublicFindings, SortBy, UsableIds, UniqueLimitations, EvidenceIds, LanesOf,
      WorstSynchronization, Limitations, ProjectedCoverage;
  }

  lemma RecordParts(r: Record)
    requires ValidRecord(r)
    ensures (forall a :: a in r.assets ==> ValidAsset(a)) && (forall e :: e in r.events ==> ValidEvent(e))
    ensures (forall f :: f in r.findings ==> ValidFinding(f)) && |r.limitations| <= 32
    ensures AllInOrder(r.events, EventSequence, EventOffset)
  {
    hide ValidAsset, ValidEvent, ValidFinding, AllInOrder, KnownReferences, DistinctKeys, LifecycleRules;
  }

  /** Each asset of the record has its summary, in the record's order, and there are no others. */
  lemma AssetsShow(r: Record, p: Projection)
    requires ValidRecord(r) && Project(r) == Some(p)
    ensures |p.detail.assets| == |r.assets| == p.detail.assetCount
    ensures forall i :: 0 <= i < |r.assets| ==> AssetShown(r, r.assets[i], p.detail.assets[i])
  {
    hide ValidRecord, Project, PublicAsset, AssetShown, ValidAsset;
    RecordParts(r);
    ProjectionLists(r, p);
    forall i | 0 <= i < |r.assets| ensures AssetShown(r, r.assets[i], p.detail.assets[i]) {
      PublicAssetShows(r, r.assets[i]);
    }
  }

  // ---- events ----

  /** The event as its producer wrote it, or the withheld one exactly when nothing supports what it claims. */
  ghost predicate EventShown(r: Record, e: ProducerEvent, t: TimelineEvent) {
    && t.identity == r.identity && t.eventId == e.eventId && t.sequence == e.sequence && t.offsetMs == e.offsetMs
    && t.moment == e.moment && t.synchronization == e.synchronization
    && t.assetIds == e.assetIds && t.relatedEventIds == e.relatedEventIds
    && ShowsReferences(t.evidenceIds, r.identity.robotId, e.evidenceRefs)
    && (if e.authority == DECLARED || HasSupport(r, e.evidenceRefs, e.assetIds) then
          && t.lane == e.lane && t.title == e.title && t.summary == e.summary && t.severity == e.severity
          && t.authority == e.authority && t.metrics == e.metrics
          && ShowsLimitations(t.limitations, e.limitations, [])
        else
          && t.lane == ALERT && t.title == WITHHELD_TITLE && t.summary == WITHHELD_SUMMARY && t.severity == WARNING
          && t.authority == DECLARED && t.metrics == map[]
          && ShowsLimitations(t.limitations, e.limitations, [WITHHELD_NOTE]))
  }

  lemma PublicEventShows(r: Record, e: ProducerEvent)
    requires ValidEvent(e)
    ensures EventShown(r, e, PublicEvent(r.identity, e, UsableIds(r.assets)))
  {
    SupportExactly(r, e.evidenceRefs, e.assetIds);
    EvidenceIdsShow(r.identity.robotId, e.evidenceRefs);
    LimitationsShow(e.limitations, []);
    LimitationsShow(e.limitations, [WITHHELD_NOTE]);
    assert e.limitations + [] == e.limitations;
    hide HasSupport, EvidenceIds, UniqueLimitations, ShowsLimitations, ShowsReferences, ValidEvent;
    EventShownByParts(r, e, UsableIds(r.assets));
    hide UsableIds;
  }

  lemma EventShownByParts(r: Record, e: ProducerEvent, usable: set<string>)
    requires HasSupport(r, e.evidenceRefs, e.assetIds) <==> e.evidenceRefs != [] || exists x :: x in e.assetIds && x in usable
    requires ShowsReferences(EvidenceIds(r.identity.robotId, e.evidenceRefs), r.identity.robotId, e.evidenceRefs)
    requires ShowsLimitations(UniqueLimitations(e.limitations), e.limitations, [])
    requires ShowsLimitations(UniqueLimitations(e.limitations + [WITHHELD_NOTE]), e.limitations, [WITHHELD_NOTE])
    ensures EventShown(r, e, PublicEvent(r.identity, e, usable))
  {
    hide HasSupport, EvidenceIds, UniqueLimitations, ShowsLimitations, ShowsReferences;
  }

  /** The timeline holds each event of the record once, by growing sequence, and no others. */
  lemma EventsShow(r: Record, p: Projection)
    requires ValidRecord(r) && Project(r) == Some(p)
    ensures |p.timeline| == |r.events| == p.detail.eventCount
    ensures forall i, j :: 0 <= i < j < |p.timeline| ==> p.timeline[i].sequence < p.timeline[j].sequence
    ensures forall t :: t in p.timeline ==> exists e :: e in r.events && e.eventId == t.eventId && EventShown(r, e, t)
    ensures forall e :: e in r.events ==> exists t :: t in p.timeline && t.eventId == e.eventId && EventShown(r, e, t)
  {
    hide ValidRecord, Project, PublicEvent, EventShown, ValidEvent, SortBy, UsableIds, AllInOrder;
    var usable, sorted := UsableIds(r.assets), SortBy(r.events, EventSequence);
    RecordParts(r);
    ProjectionLists(r, p);
    SequencesGrow(r.events);
    forall k | 0 <= k < |sorted| ensures EventShown(r, sorted[k], p.timeline[k]) {
      assert sorted[k] in r.events;
      PublicEventShows(r, sorted[k]);
    }
    TimelineShows(r, p, sorted);
  }

  lemma TimelineShows(r: Record, p: Projection, sorted: seq<ProducerEvent>)
    requires |p.timeline| == |sorted| && forall k :: 0 <= k < |sorted| ==> EventShown(r, sorted[k], p.timeline[k])
    requires forall e :: e in sorted <==> e in r.events
    requires forall i, j :: 0 <= i < j < |sorted| ==> sorted[i].sequence < sorted[j].sequence
    ensures forall i, j :: 0 <= i < j < |p.timeline| ==> p.timeline[i].sequence < p.timeline[j].sequence
    ensures forall t :: t in p.timeline ==> exists e :: e in r.events && e.eventId == t.eventId && EventShown(r, e, t)
    ensures forall e :: e in r.events ==> exists t :: t in p.timeline && t.eventId == e.eventId && EventShown(r, e, t)
  {
    forall k | 0 <= k < |sorted|
      ensures p.timeline[k].sequence == sorted[k].sequence && p.timeline[k].eventId == sorted[k].eventId
    {
      assert EventShown(r, sorted[k], p.timeline[k]);
    }
    hide EventShown;
    forall t | t in p.timeline ensures exists e :: e in r.events && e.eventId == t.eventId && EventShown(r, e, t) {
      var k :| 0 <= k < |p.timeline| && p.timeline[k] == t;
      assert sorted[k] in sorted;
    }
    forall e | e in r.events ensures exists t :: t in p.timeline && t.eventId == e.eventId && EventShown(r, e, t) {
      var k :| 0 <= k < |sorted| && sorted[k] == e;
      assert p.timeline[k] in p.timeline;
    }
  }

  lemma SequencesGrow(events: seq<ProducerEvent>)
    requires AllInOrder(events, EventSequence, EventOffset)
    ensures var sorted := SortBy(events, EventSequence);
            forall i, j :: 0 <= i < j < |sorted| ==> sorted[i].sequence < sorted[j].sequence
  {
    SortKeepsOrderRule(events, EventSequence, EventOffset);
    var sorted := SortBy(events, EventSequence);
    hide SortBy;
    forall i, j | 0 <= i < j < |sorted| ensures sorted[i].sequence < sorted[j].sequence {
      assert InOrder(sorted[i], sorted[j], EventSequence, EventOffset) && EventSequence(sorted[i]) <= EventSequence(sorted[j]);
    }
  }

  // ---- findings ----

  /** A finding as its producer wrote it, with the authority of its kind and the assets that can be shown for it. */
  ghost predicate FindingShown(r: Record, f: ProducerFinding, g: FindingSummary) {
    && g.identity == r.identity && g.findingId == f.findingId && g.kind == f.kind && g.title == f.title && g.summary == f.summary
    && g.startMs == f.startMs && g.endMs == f.endMs && g.confidence == f.confidence && g.verification == f.verification
    && g.limitations == f.limitations
    && g.authority == (match f.kind
                       case OBSERVED_FACT => OBSERVED
                       case CANDIDATE_CAUSE => INFERRED
                       case HUMAN_CONFIRMATION => HUMAN_CONFIRMED
                       case VERIFIED_OUTCOME => Authority.VERIFIED)
    && ShowsReferences(g.supportingEvidenceIds, r.identity.robotId, f.evidenceRefs)
    && ShowsReferences(g.contradictingEvidenceIds, r.identity.robotId, f.contradictingRefs)
    && IsFiltered(g.supportingAssetIds, f.assetIds, r)
  }

  /** Of these assets those that are available and not SECRET, in their order. */
  ghost predicate IsFiltered(shown: seq<string>, assetIds: seq<string>, r: Record)
    decreases assetIds
  {
    if assetIds == [] then shown == []
    else
      var last := assetIds[|assetIds| - 1];
      if exists a :: a in r.assets && a.assetId == last && a.availability == AVAILABLE && a.classification != SECRET
      then shown != [] && shown[|shown| - 1] == last && IsFiltered(shown[..|shown| - 1], assetIds[..|assetIds| - 1], r)
      else IsFiltered(shown, assetIds[..|assetIds| - 1], r)
  }

  lemma {:induction false} OnlyUsableIsFiltered(r: Record, assetIds: seq<string>)
    ensures IsFiltered(OnlyUsable(assetIds, UsableIds(r.assets)), assetIds, r)
  {
    if assetIds != [] {
      var init, last := assetIds[..|assetIds| - 1], assetIds[|assetIds| - 1];
      OnlyUsableIsFiltered(r, init);
      UsableIdsAre(r, last);
      var shown, all := OnlyUsable(init, UsableIds(r.assets)), OnlyUsable(assetIds, UsableIds(r.assets));
      if last in UsableIds(r.assets) {
        assert all == shown + [last] && all[|all| - 1] == last && all[..|all| - 1] == shown;
      } else {
        assert all == shown + [] == shown;
      }
    }
    hide UsableIds;
  }

  lemma PublicFindingShows(r: Record, f: ProducerFinding)
    ensures FindingShown(r, f, PublicFinding(r.identity, f, UsableIds(r.assets)))
    ensures Kept(f, UsableIds(r.assets)) <==> HasSupport(r, f.evidenceRefs, f.assetIds)
  {
    SupportExactly(r, f.evidenceRefs, f.assetIds);
    EvidenceIdsShow(r.identity.robotId, f.evidenceRefs);
    EvidenceIdsShow(r.identity.robotId, f.contradictingRefs);
    OnlyUsableIsFiltered(r, f.assetIds);
    hide UsableIds, HasSupport, EvidenceIds, OnlyUsable, IsFiltered, ShowsReferences;
  }

  /** The shown findings are those of the record, at the given places, in order; every other one has nothing to show for it. */
  ghost predicate FindingsFrom(r: Record, findings: seq<ProducerFinding>, shown: seq<FindingSummary>, from: seq<nat>) {
    && |from| == |shown| && (forall i, j :: 0 <= i < j < |from| ==> from[i] < from[j])
    && (forall i :: 0 <= i < |from| ==> from[i] < |findings| && FindingShown(r, findings[from[i]], shown[i]))
    && forall k: nat :: k < |findings| ==> (k in from <==> HasSupport(r, findings[k].evidenceRefs, findings[k].assetIds))
  }

  lemma {:induction false} PublicFindingsFrom(r: Record, findings: seq<ProducerFinding>) returns (from: seq<nat>)
    ensures FindingsFrom(r, findings, PublicFindings(r.identity, findings, UsableIds(r.assets)), from)
  {
    hide FindingShown, HasSupport, PublicFinding, Kept, UsableIds;
    if findings == [] {
      from := [];
    } else {
      var init, last := findings[..|findings| - 1], findings[|findings| - 1];
      var before := PublicFindingsFrom(r, init);
      PublicFindingShows(r, last);
      var shown := PublicFindings(r.identity, init, UsableIds(r.assets));
      if Kept(last, UsableIds(r.assets)) {
        from := before + [|init|];
        assert PublicFindings(r.identity, findings, UsableIds(r.assets)) == shown + [PublicFinding(r.identity, last, UsableIds(r.assets))];
      } else {
        from := before;
        assert PublicFindings(r.identity, findings, UsableIds(r.assets)) == shown;
      }
      assert forall i :: 0 <= i < |before| ==> before[i] in before && findings[before[i]] == init[before[i]];
    }
  }

  /** Of the record's findings exactly those with something to show for them are shown, in the record's order. */
  lemma FindingsShow(r: Record, p: Projection) returns (from: seq<nat>)
    requires Project(r) == Some(p)
    ensures FindingsFrom(r, r.findings, p.detail.findings, from) && p.detail.findingCount == |p.detail.findings|
  {
    hide Project, FindingsFrom, PublicFindings, UsableIds;
    ProjectionLists(r, p);
    from := PublicFindingsFrom(r, r.findings);
  }

  // ---- the episode ----

  /** The clock of the record, of an event, or of an asset stands like this. */
  predicate SomeClock(r: Record, s: Sync) {
    r.synchronization == s || (exists e :: e in r.events && e.synchronization == s) || exists a :: a in r.assets && a.synchronization == s
  }

  lemma AmongClocks(r: Record, s: Sync)
    ensures s in [r.synchronization]
                 + seq(|r.events|, i requires 0 <= i < |r.events| => r.events[i].synchronization)
                 + seq(|r.assets|, i requires 0 <= i < |r.assets| => r.assets[i].synchronization)
            <==> SomeClock(r, s)
  {
    var es := seq(|r.events|, i requires 0 <= i < |r.events| => r.events[i].synchronization);
    var ss := seq(|r.assets|, i requires 0 <= i < |r.assets| => r.assets[i].synchronization);
    if e :| e in r.events && e.synchronization == s {
      var i :| 0 <= i < |r.events| && r.events[i] == e;
      assert es[i] == s && s in es;
    }
    if a :| a in r.assets && a.synchronization == s {
      var i :| 0 <= i < |r.assets| && r.assets[i] == a;
      assert ss[i] == s && s in ss;
    }
    if s in es {
      var i :| 0 <= i < |es| && es[i] == s;
      assert r.events[i] in r.events;
    }
    if s in ss {
      var i :| 0 <= i < |ss| && ss[i] == s;
      assert r.assets[i] in r.assets;
    }
  }

  lemma WorstClockExactly(r: Record)
    ensures var w := WorstSynchronization(r);
            && (w == UNSYNCED <==> SomeClock(r, UNSYNCED))
            && (w == DEGRADED <==> SomeClock(r, DEGRADED) && !SomeClock(r, UNSYNCED))
            && (w == Sync.UNKNOWN <==> SomeClock(r, Sync.UNKNOWN) && !SomeClock(r, DEGRADED) && !SomeClock(r, UNSYNCED))
            && (w == SYNCED <==> !SomeClock(r, Sync.UNKNOWN) && !SomeClock(r, DEGRADED) && !SomeClock(r, UNSYNCED))
  {
    AmongClocks(r, UNSYNCED);
    AmongClocks(r, DEGRADED);
    AmongClocks(r, Sync.UNKNOWN);
    AmongClocks(r, SYNCED);
    hide SomeClock, Worst;
  }

  /** What is copied from the record as it is. */
  lemma DetailShows(r: Record, p: Projection)
    requires Project(r) == Some(p)
    ensures var d := p.detail;
            && d.identity == r.identity && d.taskLabel == r.taskLabel
            && d.state == r.state && d.outcome == r.outcome && d.verification == r.verification
            && d.startedAt == r.startedAt && d.endedAt == r.endedAt && d.links == r.links
            && d.asOf == r.committedAt && d.isImmutable == r.isImmutable && d.clockDomain == r.clockDomain
            && d.expectedBehavior == r.expectedBehavior && d.observedBehavior == r.observedBehavior
            && ShowsReferences(d.evidenceIds, r.identity.robotId, r.evidenceRefs)
  {
    EvidenceIdsShow(r.identity.robotId, r.evidenceRefs);
    hide Publishable, PublicAssets, PublicEvents, PublicFindings, SortBy, UsableIds, UniqueLimitations, EvidenceIds, LanesOf,
      WorstSynchronization, Limitations, ProjectedCoverage, ShowsReferences;
  }

  /** The episode's clock is the worst of all. */
  lemma ClockShows(r: Record, p: Projection)
    requires Project(r) == Some(p)
    ensures var d := p.detail;
            && (d.synchronization == UNSYNCED <==> SomeClock(r, UNSYNCED))
            && (d.synchronization == DEGRADED <==> SomeClock(r, DEGRADED) && !SomeClock(r, UNSYNCED))
            && (d.synchronization == Sync.UNKNOWN <==>
                  SomeClock(r, Sync.UNKNOWN) && !SomeClock(r, DEGRADED) && !SomeClock(r, UNSYNCED))
            && (d.synchronization == SYNCED <==>
                  !SomeClock(r, Sync.UNKNOWN) && !SomeClock(r, DEGRADED) && !SomeClock(r, UNSYNCED))
  {
    hide Project, SomeClock, WorstSynchronization;
    WorstClockExactly(r);
    CoverageParts(r, p);
  }

  /**
   * The coverage is what the record claims, but PARTIAL rather than more than metadata if the clock
   * is not SYNCED, a finding is withheld, or an asset is not available.
   */
  lemma CoverageShows(r: Record, p: Projection)
    requires Project(r) == Some(p)
    ensures p.detail.coverage
            == if r.coverage != Coverage.METADATA_ONLY
                  && (p.detail.synchronization != SYNCED
                      || (exists f :: f in r.findings && !HasSupport(r, f.evidenceRefs, f.assetIds))
                      || exists a :: a in r.assets && a.availability != AVAILABLE)
               then Coverage.PARTIAL else r.coverage
  {
    hide Project, WorstSynchronization, HasSupport, FindingsFrom, ProjectedCoverage;
    CoverageParts(r, p);
    var from := FindingsShow(r, p);
    AllShownExactly(r, p.detail.findings, from);
    CoverageUnfolds(r, |p.detail.findings|);
  }

  lemma CoverageUnfolds(r: Record, n: nat)
    ensures ProjectedCoverage(r, n)
            == if r.coverage != Coverage.METADATA_ONLY
                  && (WorstSynchronization(r) != SYNCED || n != |r.findings| || exists a :: a in r.assets && a.availability != AVAILABLE)
               then Coverage.PARTIAL else r.coverage
  {
    hide WorstSynchronization;
    if a :| a in r.assets && a.availability != AVAILABLE {
      var i :| 0 <= i < |r.assets| && r.assets[i] == a;
      assert !r.assets[i].availability.AVAILABLE?;
    }
  }

  lemma CoverageParts(r: Record, p: Projection)
    requires Project(r) == Some(p)
    ensures p.detail.synchronization == WorstSynchronization(r)
    ensures p.detail.coverage == ProjectedCoverage(r, |p.detail.findings|)
  {
    hide Publishable, PublicAssets, PublicEvents, PublicFindings, SortBy, UsableIds, UniqueLimitations, EvidenceIds, LanesOf,
      WorstSynchronization, Limitations, ProjectedCoverage;
  }

  /** As many findings are shown as there are exactly when none is withheld. */
  lemma AllShownExactly(r: Record, shown: seq<FindingSummary>, from: seq<nat>)
    requires FindingsFrom(r, r.findings, shown, from)
    ensures |shown| != |r.findings| <==> exists f :: f in r.findings && !HasSupport(r, f.evidenceRefs, f.assetIds)
  {
    hide FindingShown, HasSupport;
    GrowingPlaces(from, |r.findings|);
    if f :| f in r.findings && !HasSupport(r, f.evidenceRefs, f.assetIds) {
      var k: nat :| k < |r.findings| && r.findings[k] == f;
      assert k !in from;
    }
    if forall f :: f in r.findings ==> HasSupport(r, f.evidenceRefs, f.assetIds) {
      forall k: nat | k < |r.findings| ensures k in from {
        assert r.findings[k] in r.findings;
      }
    }
  }

  /** Growing places below `n`: all of them exactly when there are `n`. */
  lemma {:induction false} GrowingPlaces(from: seq<nat>, n: nat)
    requires (forall i, j :: 0 <= i < j < |from| ==> from[i] < from[j]) && forall i :: 0 <= i < |from| ==> from[i] < n
    ensures |from| <= n && (|from| == n <==> forall k: nat :: k < n ==> k in from)
  {
    if n == 0 {
    } else if from != [] && from[|from| - 1] == n - 1 {
      var init := from[..|from| - 1];
      GrowingPlaces(init, n - 1);
      assert from == init + [n - 1];
      assert forall k: nat :: k in from <==> k in init || k == n - 1;
    } else {
      GrowingPlaces(from, n - 1);
      assert n - 1 !in from;
    }
  }

  // ---- notes and lanes ----

  /** The note that goes with each asset, event and finding of which something is missing, and with a bad clock. */
  ghost predicate IsNote(r: Record, x: string) {
    || (exists a :: a in r.assets && a.classification != SECRET && a.availability != AVAILABLE
          && x == "Asset " + a.assetId + " has no available " + "observation evidence.")
    || (exists e :: e in r.events && e.authority != DECLARED && !HasSupport(r, e.evidenceRefs, e.assetIds)
          && x == "Event " + e.eventId + " was reduced to a " + "missing-evidence alert.")
    || (exists f :: f in r.findings && !HasSupport(r, f.evidenceRefs, f.assetIds)
          && x == "Finding " + f.findingId + " was withheld because " + "supporting evidence is missing.")
    || (x == CLOCK_NOTE && (SomeClock(r, UNSYNCED) || SomeClock(r, DEGRADED) || SomeClock(r, Sync.UNKNOWN)))
  }

  lemma {:induction false} AssetNotesAre(assets: seq<ProducerAsset>, x: string)
    ensures x in AssetNotes(assets) <==>
              exists a :: a in assets && a.classification != SECRET && a.availability != AVAILABLE
                && x == "Asset " + a.assetId + " has no available " + "observation evidence."
  {
    if assets != [] {
      var init, last := assets[..|assets| - 1], assets[|assets| - 1];
      AssetNotesAre(init, x);
      assert AssetNote(last.assetId) == "Asset " + last.assetId + " has no available " + "observation evidence.";
      assert assets == init + [last];
    }
  }

  lemma {:induction false} EventNotesAre(r: Record, events: seq<ProducerEvent>, x: string)
    ensures x in EventNotes(events, UsableIds(r.assets)) <==>
              exists e :: e in events && e.authority != DECLARED && !HasSupport(r, e.evidenceRefs, e.assetIds)
                && x == "Event " + e.eventId + " was reduced to a " + "missing-evidence alert."
  {
    hide UsableIds, HasSupport;
    if events != [] {
      var init, last := events[..|events| - 1], events[|events| - 1];
      EventNotesAre(r, init, x);
      SupportExactly(r, last.evidenceRefs, last.assetIds);
      assert EventNote(last.eventId) == "Event " + last.eventId + " was reduced to a " + "missing-evidence alert.";
      assert events == init + [last];
    }
  }

  lemma {:induction false} FindingNotesAre(r: Record, findings: seq<ProducerFinding>, x: string)
    ensures x in FindingNotes(findings, UsableIds(r.assets)) <==>
              exists f :: f in findings && !HasSupport(r, f.evidenceRefs, f.assetIds)
                && x == "Finding " + f.findingId + " was withheld because " + "supporting evidence is missing."
  {
    hide UsableIds, HasSupport;
    if findings != [] {
      var init, last := findings[..|findings| - 1], findings[|findings| - 1];
      FindingNotesAre(r, init, x);
      SupportExactly(r, last.evidenceRefs, last.assetIds);
      assert FindingNote(last.findingId) == "Finding " + last.findingId + " was withheld because " + "supporting evidence is missing.";
      assert findings == init + [last];
    }
  }

  lemma NotesAre(r: Record, x: string)
    ensures x in Listing.AddedNotes(r) <==> IsNote(r, x)
  {
    var sorted := SortBy(r.events, EventSequence);
    AssetNotesAre(r.assets, x);
    EventNotesAre(r, sorted, x);
    FindingNotesAre(r, r.findings, x);
    WorstClockExactly(r);
    hide AssetNotes, EventNotes, FindingNotes, UsableIds, HasSupport, SomeClock, WorstSynchronization, SortBy;
    assert forall e :: e in sorted <==> e in r.events;
  }

  /** The episode's limitations are the record's own and, as far as there is room, a note for whatever is missing, and no others. */
  lemma NotesShow(r: Record, p: Projection) returns (notes: seq<string>)
    requires ValidRecord(r) && Project(r) == Some(p)
    ensures ShowsLimitations(p.detail.limitations, r.limitations, notes)
    ensures forall x :: x in notes <==> IsNote(r, x)
  {
    notes := Listing.AddedNotes(r);
    RecordParts(r);
    assert p == Draft(r);
    hide *;
    Listing.PublishedLimitations(r);
    LimitationsShow(r.limitations, notes);
    forall x ensures x in notes <==> IsNote(r, x) {
      NotesAre(r, x);
    }
  }

  /** The lanes in the order of their names. */
  function LanePlace(l: Lane): nat {
    match l
    case AGENT => 0 case ALERT => 1 case CHECKPOINT => 2 case COMMAND => 3 case CONFIGURATION => 4
    case GATE => 5 case OBSERVATION => 6 case OUTCOME => 7 case STATE => 8 case TELEMETRY => 9
  }

  predicate InNameOrder(lanes: seq<Lane>) {
    forall i, j :: 0 <= i < j < |lanes| ==> LanePlace(lanes[i]) < LanePlace(lanes[j])
  }

  lemma {:induction false} KeptLanesGrow(lanes: seq<Lane>, used: set<Lane>)
    requires InNameOrder(lanes)
    ensures InNameOrder(KeepLanes(lanes, used))
  {
    if lanes != [] {
      var init, last := lanes[..|lanes| - 1], lanes[|lanes| - 1];
      assert InNameOrder(init);
      KeptLanesGrow(init, used);
      var kept := KeepLanes(init, used);
      forall i | 0 <= i < |kept| ensures LanePlace(kept[i]) < LanePlace(last) {
        assert kept[i] in kept;
        var k :| 0 <= k < |init| && init[k] == kept[i];
        assert lanes[k] == init[k];
      }
      assert KeepLanes(lanes, used) == if last in used then kept + [last] else kept;
    }
  }

  /** The available lanes are those of the shown events, each once, in the order of their names. */
  lemma LanesShow(r: Record, p: Projection)
    requires Project(r) == Some(p)
    ensures forall l :: l in p.detail.availableLanes <==> exists t :: t in p.timeline && t.lane == l
    ensures InNameOrder(p.detail.availableLanes)
  {
    LanesAreListed(r, p);
    hide *;
    LanesOfAre(p.timeline);
    LanesGrow(p.timeline);
  }

  lemma LanesGrow(timeline: seq<TimelineEvent>)
    ensures InNameOrder(LanesOf(timeline))
  {
    assert InNameOrder(LANES);
    KeptLanesGrow(LANES, set i | 0 <= i < |timeline| :: timeline[i].lane);
    hide KeepLanes;
  }

  lemma LanesAreListed(r: Record, p: Projection)
    requires Project(r) == Some(p)
    ensures p.detail.availableLanes == LanesOf(p.timeline)
  {
    hide Publishable, PublicAssets, PublicEvents, PublicFindings, SortBy, UsableIds, UniqueLimitations, EvidenceIds, LanesOf,
      WorstSynchronization, Limitations, ProjectedCoverage;
  }
}
