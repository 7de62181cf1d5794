/** What the projection promises: exactly when it succeeds, and what it never shows. */
module EpisodeGuarantees {
  import opened Lookup
  import opened Optional
  import opened PublicText
  import opened Sequencing
  import opened EpisodeTypes
  import opened EpisodeValidation
  import opened EpisodeProjection

  // ---- the side condition, on the record ----

  /** A verified outcome leans on no usable asset from outside the physical world. */
  predicate OutcomePhysical(f: ProducerFinding, assets: seq<ProducerAsset>) {
    f.kind.VERIFIED_OUTCOME? ==>
      forall i :: 0 <= i < |assets| && Usable(assets[i]) && assets[i].assetId in f.assetIds ==> assets[i].world.PHYSICAL?
  }

  predicate OutcomesPhysical(r: Record) {
    forall i :: 0 <= i < |r.findings| ==> OutcomePhysical(r.findings[i], r.assets)
  }

  predicate MetricsPublic(metrics: map<string, Metric>) {
    MetricsValid(metrics) && forall name :: name in metrics ==> PublicKey(name)
  }

  predicate EventTextSafe(e: ProducerEvent, usable: set<string>) {
    SafeTexts(e.limitations) && (!Withheld(e, usable) ==> SafeText(e.title) && SafeText(e.summary))
  }

  predicate FindingTextSafe(f: ProducerFinding, usable: set<string>) {
    Kept(f, usable) ==> SafeText(f.title) && SafeText(f.summary) && SafeTexts(f.limitations)
  }

  predicate RecordTextSafe(r: Record) {
    && SafeText(r.taskLabel) && SafeTexts(r.limitations)
    && SafeOptional(r.expectedBehavior) && SafeOptional(r.observedBehavior)
    && (forall i :: 0 <= i < |r.assets| ==> SafeText(r.assets[i].sourceLabel) && SafeTexts(r.assets[i].limitations))
    && (forall i :: 0 <= i < |r.events| ==> EventTextSafe(r.events[i], UsableIds(r.assets)))
    && forall i :: 0 <= i < |r.findings| ==> FindingTextSafe(r.findings[i], UsableIds(r.assets))
  }

  predicate EventsMeasured(r: Record) {
    forall i :: 0 <= i < |r.events| && !Withheld(r.events[i], UsableIds(r.assets)) ==> MetricsPublic(r.events[i].metrics)
  }

  /** What a valid record must satisfy, beyond being valid, to be published. */
  predicate Projectable(r: Record) {
    && (r.verification == Verification.VERIFIED ==> r.evidenceRefs != [])
    && OutcomesPhysical(r)
    && EventsMeasured(r)
    && RecordTextSafe(r)
  }

  // ---- assets ----

  lemma AssetLimitationsBounded(a: ProducerAsset)
    requires ValidAsset(a)
    ensures |UniqueLimitations(a.limitations + AssetLimit(a))| <= MAX_LIMITATIONS
    ensures SafeTexts(UniqueLimitations(a.limitations + AssetLimit(a))) <==> SafeTexts(a.limitations)
  {
    OwnLimitationsSurvive(a.limitations, AssetLimit(a));
    AssetTextsAreSafe();
  }

  lemma PublicAssetIsValid(id: Identity, a: ProducerAsset)
    requires ValidAsset(a)
    ensures ValidAssetSummary(PublicAsset(id, a))
    ensures SafeTexts(PublicAsset(id, a).limitations) <==> SafeTexts(a.limitations)
  {
    AssetLimitationsBounded(a);
  }

  lemma AssetById(r: Record, i: nat)
    requires DistinctKeys(r.assets, AssetKey) && i < |r.assets|
    ensures var byId := ById(PublicAssets(r.identity, r.assets), SummaryKey);
            r.assets[i].assetId in byId && byId[r.assets[i].assetId] == PublicAsset(r.identity, r.assets[i])
  {
    var public := PublicAssets(r.identity, r.assets);
    forall j, k | 0 <= j < k < |public| ensures SummaryKey(public[j]) != SummaryKey(public[k]) {
      assert AssetKey(r.assets[j]) != AssetKey(r.assets[k]);
    }
    DistinctKeysAreKept(public, SummaryKey, i);
  }

  // ---- events ----

  lemma EventLimitationsBounded(e: ProducerEvent, usable: set<string>, id: Identity)
    requires ValidEvent(e)
    ensures |PublicEvent(id, e, usable).limitations| <= MAX_LIMITATIONS
    ensures SafeTexts(PublicEvent(id, e, usable).limitations) <==> SafeTexts(e.limitations)
  {
    EventTextsAreSafe();
    OwnLimitationsSurvive(e.limitations, [WITHHELD_NOTE]);
    OwnLimitationsSurvive(e.limitations, []);
    assert e.limitations + [] == e.limitations;
  }

  lemma PublicEventIsValid(id: Identity, e: ProducerEvent, usable: set<string>)
    requires ValidEvent(e)
    ensures ValidTimelineEvent(PublicEvent(id, e, usable)) <==> (!Withheld(e, usable) ==> MetricsValid(e.metrics))
  {
    EventLimitationsBounded(e, usable, id);
    EvidenceIdsEmpty(id.robotId, e.evidenceRefs);
  }

  predicate EventSafe(e: TimelineEvent) {
    && SafeText(e.title) && SafeText(e.summary) && SafeTexts(e.limitations)
    && forall name :: name in e.metrics ==> PublicKey(name)
  }

  lemma PublicEventIsSafe(id: Identity, e: ProducerEvent, usable: set<string>)
    requires ValidEvent(e)
    ensures EventSafe(PublicEvent(id, e, usable)) <==>
              && EventTextSafe(e, usable)
              && (!Withheld(e, usable) ==> forall name :: name in e.metrics ==> PublicKey(name))
  {
    EventLimitationsBounded(e, usable, id);
    EventTextsAreSafe();
    WithheldSummaryIsSafe();
  }

  // ---- findings ----

  lemma {:induction false} PublicFindingsAre(id: Identity, findings: seq<ProducerFinding>, usable: set<string>)
    ensures |PublicFindings(id, findings, usable)| <= |findings|
    ensures forall f :: f in PublicFindings(id, findings, usable) <==>
              exists i :: 0 <= i < |findings| && Kept(findings[i], usable) && f == PublicFinding(id, findings[i], usable)
  {
    hide PublicFinding, Kept;
    if findings != [] {
      var init, last := findings[..|findings| - 1], findings[|findings| - 1];
      PublicFindingsAre(id, init, usable);
      forall f ensures f in PublicFindings(id, findings, usable) <==>
        exists i :: 0 <= i < |findings| && Kept(findings[i], usable) && f == PublicFinding(id, findings[i], usable)
      {
        if f in PublicFindings(id, init, usable) {
          var i :| 0 <= i < |init| && Kept(init[i], usable) && f == PublicFinding(id, init[i], usable);
          assert findings[i] == init[i];
        }
        if i :| 0 <= i < |findings| && Kept(findings[i], usable) && f == PublicFinding(id, findings[i], usable) {
          if i < |init| {
            assert init[i] == findings[i];
          }
        }
      }
    }
  }

  lemma PublicFindingIsValid(id: Identity, f: ProducerFinding, usable: set<string>)
    requires ValidFinding(f) && Kept(f, usable)
    ensures ValidFindingSummary(PublicFinding(id, f, usable))
  {
    EvidenceIdsEmpty(id.robotId, f.evidenceRefs);
    if f.evidenceRefs == [] {
      var x :| x in f.assetIds && x in usable;
      assert x in OnlyUsable(f.assetIds, usable);
    }
  }

  lemma UsableAt(r: Record, x: string) returns (i: nat)
    requires x in UsableIds(r.assets)
    ensures i < |r.assets| && r.assets[i].assetId == x && Usable(r.assets[i])
  {
    i :| 0 <= i < |r.assets| && Usable(r.assets[i]) && r.assets[i].assetId == x;
  }

  /** A usable asset is found by its id, available and of its own world. */
  lemma UsableIsFound(r: Record, k: nat)
    requires DistinctKeys(r.assets, AssetKey) && k < |r.assets| && Usable(r.assets[k])
    ensures var byId := ById(PublicAssets(r.identity, r.assets), SummaryKey);
            && r.assets[k].assetId in byId
            && byId[r.assets[k].assetId].availability.AVAILABLE?
            && byId[r.assets[k].assetId].world == r.assets[k].world
  {
    AssetById(r, k);
  }

  lemma FindingIsSupported(r: Record, i: nat)
    requires ValidRecord(r) && i < |r.findings| && Kept(r.findings[i], UsableIds(r.assets))
    ensures FindingSupported(PublicFinding(r.identity, r.findings[i], UsableIds(r.assets)),
                             ById(PublicAssets(r.identity, r.assets), SummaryKey))
            <==> OutcomePhysical(r.findings[i], r.assets)
  {
    assert DistinctKeys(r.assets, AssetKey);
    hide ValidRecord, PublicAssets, PublicAsset, Usable, Dedup;
    var f := r.findings[i];
    var public := PublicFinding(r.identity, f, UsableIds(r.assets));
    var byId := ById(PublicAssets(r.identity, r.assets), SummaryKey);
    SupportCovers(r, f);
    OutcomeSupportIsPhysical(r, f);
  }

  /** What a kept finding lists is available. */
  lemma SupportIsAvailable(r: Record, f: ProducerFinding, x: string)
    requires DistinctKeys(r.assets, AssetKey) && x in OnlyUsable(f.assetIds, UsableIds(r.assets))
    ensures var byId := ById(PublicAssets(r.identity, r.assets), SummaryKey);
            x in byId && byId[x].availability.AVAILABLE?
  {
    hide PublicAssets, PublicAsset, Usable;
    var k := UsableAt(r, x);
    UsableIsFound(r, k);
  }

  /** It covers the finding when that has no evidence of its own. */
  lemma SupportCovers(r: Record, f: ProducerFinding)
    requires DistinctKeys(r.assets, AssetKey) && Kept(f, UsableIds(r.assets))
    ensures var byId := ById(PublicAssets(r.identity, r.assets), SummaryKey);
            var ids := OnlyUsable(f.assetIds, UsableIds(r.assets));
            && (forall x :: x in ids ==> x in byId && byId[x].availability.AVAILABLE?)
            && (EvidenceIds(r.identity.robotId, f.evidenceRefs) == [] ==> exists x :: x in ids && byId[x].availability.AVAILABLE?)
  {
    EvidenceIdsEmpty(r.identity.robotId, f.evidenceRefs);
    hide PublicAssets, PublicAsset, Usable, EvidenceIds;
    var byId := ById(PublicAssets(r.identity, r.assets), SummaryKey);
    var ids := OnlyUsable(f.assetIds, UsableIds(r.assets));
    forall x | x in ids ensures x in byId && byId[x].availability.AVAILABLE? {
      SupportIsAvailable(r, f, x);
    }
    if f.evidenceRefs == [] {
      var x :| x in f.assetIds && x in UsableIds(r.assets);
      assert x in ids && byId[x].availability.AVAILABLE?;
    }
  }

  lemma OutcomeSupportIsPhysical(r: Record, f: ProducerFinding)
    requires DistinctKeys(r.assets, AssetKey)
    ensures var byId := ById(PublicAssets(r.identity, r.assets), SummaryKey);
            var ids := OnlyUsable(f.assetIds, UsableIds(r.assets));
            (f.kind.VERIFIED_OUTCOME? ==> forall x :: x in ids ==> x in byId && byId[x].world.PHYSICAL?)
            <==> OutcomePhysical(f, r.assets)
  {
    hide PublicAssets, PublicAsset;
    var byId := ById(PublicAssets(r.identity, r.assets), SummaryKey);
    var ids := OnlyUsable(f.assetIds, UsableIds(r.assets));
    if OutcomePhysical(f, r.assets) && f.kind.VERIFIED_OUTCOME? {
      forall x | x in ids ensures x in byId && byId[x].world.PHYSICAL? {
        var k := UsableAt(r, x);
        UsableIsFound(r, k);
      }
    }
    if k :| 0 <= k < |r.assets| && Usable(r.assets[k]) && r.assets[k].assetId in f.assetIds
            && !r.assets[k].world.PHYSICAL? {
      UsableIsFound(r, k);
      assert r.assets[k].assetId in ids;
    }
  }

  // ---- the detail ----

  lemma LanesAreComplete(l: Lane)
    ensures l in LANES && |LANES| == 10 && Distinct(LANES)
  {
    assert LANES[0] == AGENT && LANES[1] == ALERT && LANES[2] == CHECKPOINT && LANES[3] == COMMAND
        && LANES[4] == CONFIGURATION && LANES[5] == GATE && LANES[6] == OBSERVATION && LANES[7] == Lane.OUTCOME
        && LANES[8] == STATE && LANES[9] == TELEMETRY;
    match l {
      case AGENT => case ALERT => case CHECKPOINT => case COMMAND => case CONFIGURATION =>
      case GATE => case OBSERVATION => case OUTCOME => case STATE => case TELEMETRY =>
    }
  }

  lemma LanesOfAre(events: seq<TimelineEvent>)
    ensures |LanesOf(events)| <= 10 && Distinct(LanesOf(events))
    ensures forall l :: l in LanesOf(events) <==> exists e :: e in events && e.lane == l
  {
    LanesAreComplete(ALERT);
    forall l ensures l in LanesOf(events) <==> exists e :: e in events && e.lane == l {
      LanesAreComplete(l);
      if e :| e in events && e.lane == l {
        var i :| 0 <= i < |events| && events[i] == e;
      }
    }
  }

  lemma SummaryValidExactly(r: Record)
    requires ValidRecord(r)
    ensures ValidSummary(Draft(r).detail) <==> (r.verification == Verification.VERIFIED ==> r.evidenceRefs != [])
  {
    EvidenceIdsEmpty(r.identity.robotId, r.evidenceRefs);
    DetailLimitationsBounded(r);
  }

  lemma ShapeIsValid(r: Record)
    requires ValidRecord(r)
    ensures ShapeValid(Draft(r).detail)
  {
    LanesOfAre(Draft(r).timeline);
  }

  lemma DetailValidExactly(r: Record)
    requires ValidRecord(r)
    ensures ValidDetail(Draft(r).detail) <==>
              && (r.verification == Verification.VERIFIED ==> r.evidenceRefs != [])
              && OutcomesPhysical(r)
  {
    SummaryValidExactly(r);
    ShapeIsValid(r);
    ChildrenAreValid(r);
    FindingsSupportedExactly(r);
    DetailByParts(Draft(r).detail, PublicAssets(r.identity, r.assets),
                  PublicFindings(r.identity, r.findings, UsableIds(r.assets)));
  }

  lemma ChildrenAreValid(r: Record)
    requires ValidRecord(r)
    ensures ChildrenValid(Draft(r).detail)
  {
    AssetsAreValid(r);
    FindingsAreValid(r.identity, r.findings, UsableIds(r.assets));
  }

  lemma DetailByParts(d: Detail, assets: seq<AssetSummary>, findings: seq<FindingSummary>)
    requires d.assets == assets && d.findings == findings && ChildrenValid(d) && ShapeValid(d)
    ensures ValidDetail(d) <==> ValidSummary(d) && FindingsSupported(findings, ById(assets, SummaryKey))
  {
  }

  lemma DetailLimitationsBounded(r: Record)
    requires ValidRecord(r)
    ensures |Draft(r).detail.limitations| <= MAX_LIMITATIONS
    ensures SafeTexts(Draft(r).detail.limitations) <==> SafeTexts(r.limitations)
  {
    LimitationsBounded(r, SortBy(r.events, EventSequence), UsableIds(r.assets));
  }

  function ClockNotes(r: Record): seq<string> {
    if WorstSynchronization(r).SYNCED? then [] else [CLOCK_NOTE]
  }

  lemma LimitationsBounded(r: Record, sorted: seq<ProducerEvent>, usable: set<string>)
    requires FieldRules(r) && forall e :: e in sorted ==> e in r.events
    ensures |UniqueLimitations(Limitations(r, sorted, usable))| <= MAX_LIMITATIONS
    ensures SafeTexts(UniqueLimitations(Limitations(r, sorted, usable))) <==> SafeTexts(r.limitations)
  {
    hide SafeText, AssetNotes, EventNotes, FindingNotes;
    var added := AssetNotes(r.assets) + EventNotes(sorted, usable) + FindingNotes(r.findings, usable) + ClockNotes(r);
    assert Limitations(r, sorted, usable) == r.limitations + added;
    OwnLimitationsSurvive(r.limitations, added);
    AddedNotesAreSafe(r, sorted, usable);
  }

  lemma AddedNotesAreSafe(r: Record, sorted: seq<ProducerEvent>, usable: set<string>)
    requires FieldRules(r) && forall e :: e in sorted ==> e in r.events
    ensures SafeTexts(AssetNotes(r.assets) + EventNotes(sorted, usable) + FindingNotes(r.findings, usable) + ClockNotes(r))
  {
    AssetNotesAreSafe(r.assets);
    EventNotesAreSafe(sorted, usable);
    FindingNotesAreSafe(r.findings, usable);
    ClockNoteIsSafe();
  }

  lemma {:induction false} AssetNotesAreSafe(assets: seq<ProducerAsset>)
    requires forall a :: a in assets ==> ValidAsset(a)
    ensures SafeTexts(AssetNotes(assets))
  {
    if assets != [] {
      AssetNotesAreSafe(assets[..|assets| - 1]);
      assert ValidAsset(assets[|assets| - 1]);
      NotesAreSafe(assets[|assets| - 1].assetId);
    }
  }

  lemma {:induction false} EventNotesAreSafe(events: seq<ProducerEvent>, usable: set<string>)
    requires forall e :: e in events ==> ValidEvent(e)
    ensures SafeTexts(EventNotes(events, usable))
  {
    if events != [] {
      EventNotesAreSafe(events[..|events| - 1], usable);
      assert ValidEvent(events[|events| - 1]);
      NotesAreSafe(events[|events| - 1].eventId);
    }
  }

  lemma {:induction false} FindingNotesAreSafe(findings: seq<ProducerFinding>, usable: set<string>)
    requires forall f :: f in findings ==> ValidFinding(f)
    ensures SafeTexts(FindingNotes(findings, usable))
  {
    if findings != [] {
      FindingNotesAreSafe(findings[..|findings| - 1], usable);
      assert ValidFinding(findings[|findings| - 1]);
      NotesAreSafe(findings[|findings| - 1].findingId);
    }
  }

  lemma AssetsAreValid(r: Record)
    requires ValidRecord(r)
    ensures forall a :: a in PublicAssets(r.identity, r.assets) ==> ValidAssetSummary(a) && a.identity == r.identity
  {
    var public := PublicAssets(r.identity, r.assets);
    forall a | a in public ensures ValidAssetSummary(a) && a.identity == r.identity {
      var i :| 0 <= i < |public| && public[i] == a;
      PublicAssetIsValid(r.identity, r.assets[i]);
    }
  }

  lemma FindingsAreValid(id: Identity, findings: seq<ProducerFinding>, usable: set<string>)
    requires forall f :: f in findings ==> ValidFinding(f)
    ensures forall f :: f in PublicFindings(id, findings, usable) ==> ValidFindingSummary(f) && f.identity == id
  {
    PublicFindingsAre(id, findings, usable);
    forall f | f in PublicFindings(id, findings, usable) ensures ValidFindingSummary(f) && f.identity == id {
      var i :| 0 <= i < |findings| && Kept(findings[i], usable) && f == PublicFinding(id, findings[i], usable);
      PublicFindingIsValid(id, findings[i], usable);
    }
  }

  lemma FindingsSupportedExactly(r: Record)
    requires ValidRecord(r)
    ensures FindingsSupported(PublicFindings(r.identity, r.findings, UsableIds(r.assets)),
                              ById(PublicAssets(r.identity, r.assets), SummaryKey))
            <==> OutcomesPhysical(r)
  {
    var usable := UsableIds(r.assets);
    var findings := PublicFindings(r.identity, r.findings, usable);
    var byId := ById(PublicAssets(r.identity, r.assets), SummaryKey);
    PublicFindingsAre(r.identity, r.findings, usable);
    if FindingsSupported(findings, byId) {
      forall i | 0 <= i < |r.findings| ensures OutcomePhysical(r.findings[i], r.assets) {
        if Kept(r.findings[i], usable) {
          assert PublicFinding(r.identity, r.findings[i], usable) in findings;
          FindingIsSupported(r, i);
        } else {
          UnkeptIsPhysical(r, i);
        }
      }
    }
    if OutcomesPhysical(r) {
      forall f | f in findings ensures FindingSupported(f, byId) {
        var i :| 0 <= i < |r.findings| && Kept(r.findings[i], usable) && f == PublicFinding(r.identity, r.findings[i], usable);
        FindingIsSupported(r, i);
      }
    }
  }

  lemma UnkeptIsPhysical(r: Record, i: nat)
    requires i < |r.findings| && !Kept(r.findings[i], UsableIds(r.assets))
    ensures OutcomePhysical(r.findings[i], r.assets)
  {
    forall k | 0 <= k < |r.assets| && Usable(r.assets[k]) ensures r.assets[k].assetId !in r.findings[i].assetIds {
      assert r.assets[k].assetId in UsableIds(r.assets);
    }
  }

  // ---- the timeline ----

  /** Position `k` of the timeline comes from some event of the record. */
  lemma EventBehind(events: seq<ProducerEvent>, k: nat) returns (i: nat)
    requires k < |SortBy(events, EventSequence)|
    ensures i < |events| && events[i] == SortBy(events, EventSequence)[k]
  {
    assert SortBy(events, EventSequence)[k] in events;
    i :| 0 <= i < |events| && events[i] == SortBy(events, EventSequence)[k];
  }

  /** Every event of the record has its place in the timeline. */
  lemma PlaceOf(events: seq<ProducerEvent>, i: nat) returns (k: nat)
    requires i < |events|
    ensures k < |SortBy(events, EventSequence)| && SortBy(events, EventSequence)[k] == events[i]
  {
    assert events[i] in SortBy(events, EventSequence);
    k :| 0 <= k < |SortBy(events, EventSequence)| && SortBy(events, EventSequence)[k] == events[i];
  }

  /** The timeline of a record, without the rest of its draft. */
  function Timeline(id: Identity, events: seq<ProducerEvent>, usable: set<string>): seq<TimelineEvent> {
    PublicEvents(id, SortBy(events, EventSequence), usable)
  }

  lemma TimelineEventsValidExactly(id: Identity, events: seq<ProducerEvent>, usable: set<string>)
    requires forall e :: e in events ==> ValidEvent(e)
    ensures (forall e :: e in Timeline(id, events, usable) ==> ValidTimelineEvent(e)) <==>
            forall i :: 0 <= i < |events| && !Withheld(events[i], usable) ==> MetricsValid(events[i].metrics)
  {
    var timeline := Timeline(id, events, usable);
    if forall e :: e in timeline ==> ValidTimelineEvent(e) {
      forall i | 0 <= i < |events| && !Withheld(events[i], usable) ensures MetricsValid(events[i].metrics) {
        var k := PlaceOf(events, i);
        assert timeline[k] in timeline;
        PublicEventIsValid(id, events[i], usable);
      }
    }
    if forall i :: 0 <= i < |events| && !Withheld(events[i], usable) ==> MetricsValid(events[i].metrics) {
      forall e | e in timeline ensures ValidTimelineEvent(e) {
        var k :| 0 <= k < |timeline| && timeline[k] == e;
        var i := EventBehind(events, k);
        PublicEventIsValid(id, events[i], usable);
      }
    }
  }

  lemma TimelineAt(id: Identity, events: seq<ProducerEvent>, usable: set<string>, k: nat)
    requires k < |SortBy(events, EventSequence)|
    ensures var e, p := SortBy(events, EventSequence)[k], Timeline(id, events, usable)[k];
            p.eventId == e.eventId && p.sequence == e.sequence && p.offsetMs == e.offsetMs
  {
  }

  lemma TimelineKeepsOrder(id: Identity, events: seq<ProducerEvent>, usable: set<string>)
    requires AllInOrder(events, EventSequence, EventOffset)
    ensures AllInOrder(Timeline(id, events, usable), TimelineSequence, TimelineOffset)
  {
    var sorted := SortBy(events, EventSequence);
    var timeline := Timeline(id, events, usable);
    SortKeepsOrderRule(events, EventSequence, EventOffset);
    forall i, j | 0 <= i < j < |timeline|
      ensures InOrder(timeline[i], timeline[j], TimelineSequence, TimelineOffset)
    {
      hide SortBy, PublicEvents, PublicEvent;
      TimelineAt(id, events, usable, i);
      TimelineAt(id, events, usable, j);
      assert InOrder(sorted[i], sorted[j], EventSequence, EventOffset);
    }
  }

  lemma TimelineKeepsKeys(id: Identity, events: seq<ProducerEvent>, usable: set<string>)
    requires AllInOrder(events, EventSequence, EventOffset) && DistinctKeys(events, EventKey)
    ensures DistinctKeys(Timeline(id, events, usable), TimelineKey)
  {
    var sorted := SortBy(events, EventSequence);
    var timeline := Timeline(id, events, usable);
    SortKeepsOrderRule(events, EventSequence, EventOffset);
    forall i, j | 0 <= i < j < |timeline| ensures TimelineKey(timeline[i]) != TimelineKey(timeline[j]) {
      hide SortBy, PublicEvents, PublicEvent;
      assert InOrder(sorted[i], sorted[j], EventSequence, EventOffset);
      TimelineAt(id, events, usable, i);
      TimelineAt(id, events, usable, j);
      var k := EventBehind(events, i);
      var l := EventBehind(events, j);
      OtherPositionOtherKey(events, k, l);
    }
  }

  lemma OtherPositionOtherKey(events: seq<ProducerEvent>, k: nat, l: nat)
    requires DistinctKeys(events, EventKey) && k < |events| && l < |events| && events[k] != events[l]
    ensures events[k].eventId != events[l].eventId
  {
    assert if k < l then EventKey(events[k]) != EventKey(events[l]) else EventKey(events[l]) != EventKey(events[k]);
  }

  lemma TimelineCoversKeys(id: Identity, events: seq<ProducerEvent>, usable: set<string>, x: string)
    requires x in Keys(events, EventKey)
    ensures x in Keys(Timeline(id, events, usable), TimelineKey)
  {
    var i :| 0 <= i < |events| && EventKey(events[i]) == x;
    var k := PlaceOf(events, i);
    assert TimelineKey(Timeline(id, events, usable)[k]) == x;
  }

  lemma AssetsCoverKeys(id: Identity, assets: seq<ProducerAsset>)
    ensures Keys(PublicAssets(id, assets), SummaryKey) == Keys(assets, AssetKey)
  {
    var public := PublicAssets(id, assets);
    forall x | x in Keys(assets, AssetKey) ensures x in Keys(public, SummaryKey) {
      var i :| 0 <= i < |assets| && AssetKey(assets[i]) == x;
      assert SummaryKey(public[i]) == x;
    }
    forall x | x in Keys(public, SummaryKey) ensures x in Keys(assets, AssetKey) {
      var i :| 0 <= i < |public| && SummaryKey(public[i]) == x;
      assert AssetKey(assets[i]) == x;
    }
  }

  lemma TimelineCopiesReferences(id: Identity, events: seq<ProducerEvent>, usable: set<string>, e: TimelineEvent)
    requires e in Timeline(id, events, usable)
    ensures e.identity == id
    ensures exists s :: s in events && e.assetIds == s.assetIds && e.relatedEventIds == s.relatedEventIds
  {
    var timeline := Timeline(id, events, usable);
    var k :| 0 <= k < |timeline| && timeline[k] == e;
    var i := EventBehind(events, k);
    assert events[i] in events;
  }

  lemma TimelineReferencesKnown(r: Record)
    requires ValidRecord(r)
    ensures var timeline := Timeline(r.identity, r.events, UsableIds(r.assets));
            ReferencesKnown(timeline, Keys(PublicAssets(r.identity, r.assets), SummaryKey), Keys(timeline, TimelineKey))
  {
    var usable := UsableIds(r.assets);
    var timeline := Timeline(r.identity, r.events, usable);
    AssetsCoverKeys(r.identity, r.assets);
    forall e | e in timeline
      ensures forall x :: x in e.assetIds ==> x in Keys(r.assets, AssetKey)
      ensures forall x :: x in e.relatedEventIds ==> x in Keys(timeline, TimelineKey)
    {
      TimelineCopiesReferences(r.identity, r.events, usable, e);
      forall x | x in e.relatedEventIds ensures x in Keys(timeline, TimelineKey) {
        TimelineCoversKeys(r.identity, r.events, usable, x);
      }
    }
  }

  predicate RetainedMetricsValid(r: Record) {
    forall i :: 0 <= i < |r.events| && !Withheld(r.events[i], UsableIds(r.assets)) ==> MetricsValid(r.events[i].metrics)
  }

  lemma TimelineOrderIsValid(r: Record)
    requires ValidRecord(r)
    ensures var timeline := Timeline(r.identity, r.events, UsableIds(r.assets));
            && DistinctKeys(timeline, TimelineKey)
            && AllInOrder(timeline, TimelineSequence, TimelineOffset)
            && LanesMatch(timeline, LanesOf(timeline))
  {
    var usable := UsableIds(r.assets);
    TimelineKeepsOrder(r.identity, r.events, usable);
    TimelineKeepsKeys(r.identity, r.events, usable);
    LanesOfAre(Timeline(r.identity, r.events, usable));
  }

  lemma EventsValidExactly(r: Record)
    requires ValidRecord(r)
    ensures EventsValid(Timeline(r.identity, r.events, UsableIds(r.assets)), r.identity) <==> RetainedMetricsValid(r)
  {
    var usable := UsableIds(r.assets);
    TimelineEventsValidExactly(r.identity, r.events, usable);
    forall e | e in Timeline(r.identity, r.events, usable) ensures e.identity == r.identity {
      TimelineCopiesReferences(r.identity, r.events, usable, e);
    }
  }

  lemma TimelineByParts(p: Projection, timeline: seq<TimelineEvent>, assets: seq<AssetSummary>)
    requires p.timeline == timeline && p.detail.assets == assets && |timeline| == p.detail.eventCount
    requires DistinctKeys(timeline, TimelineKey) && AllInOrder(timeline, TimelineSequence, TimelineOffset)
    requires LanesMatch(timeline, p.detail.availableLanes)
    requires ReferencesKnown(timeline, Keys(assets, SummaryKey), Keys(timeline, TimelineKey))
    ensures ValidTimeline(p) <==> EventsValid(timeline, p.detail.identity)
  {
  }

  lemma TimelineValidExactly(r: Record)
    requires ValidRecord(r)
    ensures ValidTimeline(Draft(r)) <==> RetainedMetricsValid(r)
  {
    EventsValidExactly(r);
    TimelineOrderIsValid(r);
    TimelineReferencesKnown(r);
    TimelineByParts(Draft(r), Timeline(r.identity, r.events, UsableIds(r.assets)), PublicAssets(r.identity, r.assets));
  }

  // ---- safe text ----

  lemma SafeAssetsExactly(id: Identity, assets: seq<ProducerAsset>)
    requires forall a :: a in assets ==> ValidAsset(a)
    ensures (forall a :: a in PublicAssets(id, assets) ==> SafeText(a.sourceLabel) && SafeTexts(a.limitations)) <==>
            forall i :: 0 <= i < |assets| ==> SafeText(assets[i].sourceLabel) && SafeTexts(assets[i].limitations)
  {
    var public := PublicAssets(id, assets);
    forall i | 0 <= i < |assets|
      ensures public[i] in public && SafeText(public[i].sourceLabel) == SafeText(assets[i].sourceLabel)
      ensures SafeTexts(public[i].limitations) <==> SafeTexts(assets[i].limitations)
    {
      PublicAssetIsValid(id, assets[i]);
    }
    if forall i :: 0 <= i < |assets| ==> SafeText(assets[i].sourceLabel) && SafeTexts(assets[i].limitations) {
      forall a | a in public ensures SafeText(a.sourceLabel) && SafeTexts(a.limitations) {
        var i :| 0 <= i < |public| && public[i] == a;
      }
    }
  }

  predicate EventPublic(e: ProducerEvent, usable: set<string>) {
    && EventTextSafe(e, usable)
    && (!Withheld(e, usable) ==> forall name :: name in e.metrics ==> PublicKey(name))
  }

  lemma SafeTimelineExactly(id: Identity, events: seq<ProducerEvent>, usable: set<string>)
    requires forall e :: e in events ==> ValidEvent(e)
    ensures (forall e :: e in Timeline(id, events, usable) ==> EventSafe(e)) <==>
            forall i :: 0 <= i < |events| ==> EventPublic(events[i], usable)
  {
    var timeline := Timeline(id, events, usable);
    if forall e :: e in timeline ==> EventSafe(e) {
      forall i | 0 <= i < |events| ensures EventPublic(events[i], usable) {
        var k := PlaceOf(events, i);
        assert timeline[k] in timeline;
        PublicEventIsSafe(id, events[i], usable);
      }
    }
    if forall i :: 0 <= i < |events| ==> EventPublic(events[i], usable) {
      forall e | e in timeline ensures EventSafe(e) {
        var k :| 0 <= k < |timeline| && timeline[k] == e;
        var i := EventBehind(events, k);
        PublicEventIsSafe(id, events[i], usable);
      }
    }
  }

  lemma SafeFindingsExactly(id: Identity, findings: seq<ProducerFinding>, usable: set<string>)
    ensures (forall f :: f in PublicFindings(id, findings, usable) ==>
               SafeText(f.title) && SafeText(f.summary) && SafeTexts(f.limitations)) <==>
            forall i :: 0 <= i < |findings| ==> FindingTextSafe(findings[i], usable)
  {
    var public := PublicFindings(id, findings, usable);
    PublicFindingsAre(id, findings, usable);
    if forall f :: f in public ==> SafeText(f.title) && SafeText(f.summary) && SafeTexts(f.limitations) {
      forall i | 0 <= i < |findings| && Kept(findings[i], usable) ensures FindingTextSafe(findings[i], usable) {
        assert PublicFinding(id, findings[i], usable) in public;
      }
    }
    if forall i :: 0 <= i < |findings| ==> FindingTextSafe(findings[i], usable) {
      forall f | f in public ensures SafeText(f.title) && SafeText(f.summary) && SafeTexts(f.limitations) {
        var i :| 0 <= i < |findings| && Kept(findings[i], usable) && f == PublicFinding(id, findings[i], usable);
        assert FindingTextSafe(findings[i], usable);
      }
    }
  }

  lemma SafeExactly(r: Record)
    requires ValidRecord(r)
    ensures SafeProjection(Draft(r)) && RetainedMetricsValid(r) <==> RecordTextSafe(r) && EventsMeasured(r)
  {
    hide SafeTexts, SafeText, SafeOptional, SortBy, UsableIds, PublicAssets, PublicEvents, PublicFindings,
      EvidenceIds, UniqueLimitations, WorstSynchronization, LanesOf;
    var usable := UsableIds(r.assets);
    assert Draft(r).timeline == Timeline(r.identity, r.events, usable);
    DetailLimitationsBounded(r);
    SafeAssetsExactly(r.identity, r.assets);
    SafeTimelineExactly(r.identity, r.events, usable);
    SafeFindingsExactly(r.identity, r.findings, usable);
    EventConditionsTogether(r);
    SafeProjectionByParts(Draft(r));
  }

  lemma SafeProjectionByParts(p: Projection)
    ensures SafeProjection(p) <==>
              && SafeText(p.detail.taskLabel) && SafeTexts(p.detail.limitations)
              && SafeOptional(p.detail.expectedBehavior) && SafeOptional(p.detail.observedBehavior)
              && (forall a :: a in p.detail.assets ==> SafeText(a.sourceLabel) && SafeTexts(a.limitations))
              && (forall f :: f in p.detail.findings ==> SafeText(f.title) && SafeText(f.summary) && SafeTexts(f.limitations))
              && (forall e :: e in p.timeline ==> EventSafe(e))
  {
  }

  lemma EventConditionsTogether(r: Record)
    ensures (forall i :: 0 <= i < |r.events| ==> EventPublic(r.events[i], UsableIds(r.assets))) && RetainedMetricsValid(r)
            <==> (forall i :: 0 <= i < |r.events| ==> EventTextSafe(r.events[i], UsableIds(r.assets))) && EventsMeasured(r)
  {
    var usable := UsableIds(r.assets);
    if (forall i :: 0 <= i < |r.events| ==> EventTextSafe(r.events[i], usable)) && EventsMeasured(r) {
      forall i | 0 <= i < |r.events| ensures EventPublic(r.events[i], usable) {
        assert EventTextSafe(r.events[i], usable);
      }
    }
    if (forall i :: 0 <= i < |r.events| ==> EventPublic(r.events[i], usable)) && RetainedMetricsValid(r) {
      forall i | 0 <= i < |r.events| ensures EventTextSafe(r.events[i], usable) {
        assert EventPublic(r.events[i], usable);
      }
      forall i | 0 <= i < |r.events| && !Withheld(r.events[i], usable) ensures MetricsPublic(r.events[i].metrics) {
        assert EventPublic(r.events[i], usable);
      }
    }
  }

  // ---- main results ----

  /** A valid record is projected exactly when it is projectable; no validator refuses it for any other reason. */
  lemma ProjectionSucceedsExactly(r: Record)
    requires ValidRecord(r)
    ensures Project(r).Some? <==> Projectable(r)
  {
    DetailValidExactly(r);
    TimelineValidExactly(r);
    SafeExactly(r);
  }

  /** The asset of that id is shown as available and is not SECRET. */
  ghost predicate ShownAvailable(p: Projection, x: string) {
    exists a :: a in p.detail.assets && a.assetId == x && a.availability.AVAILABLE? && !a.classification.SECRET?
  }

  lemma UsableIsShown(r: Record, x: string)
    requires x in UsableIds(r.assets)
    ensures ShownAvailable(Draft(r), x)
  {
    var i := UsableAt(r, x);
    assert PublicAssets(r.identity, r.assets)[i] in Draft(r).detail.assets;
  }

  lemma PublicEventNeverOverclaims(id: Identity, e: ProducerEvent, usable: set<string>)
    ensures var p := PublicEvent(id, e, usable);
            && (p.authority.DECLARED? || p.evidenceIds != [] || exists x :: x in p.assetIds && x in usable)
            && (p.authority == e.authority || p.authority.DECLARED?)
            && p.eventId == e.eventId
  {
    EvidenceIdsEmpty(id.robotId, e.evidenceRefs);
  }

  /** Every event is there; each claims its own authority with evidence to show, or is only declared. */
  lemma EventsNeverOverclaim(r: Record, e: TimelineEvent)
    requires e in Draft(r).timeline
    ensures |Draft(r).timeline| == |r.events|
    ensures e.authority.DECLARED? || e.evidenceIds != [] || exists x :: x in e.assetIds && ShownAvailable(Draft(r), x)
    ensures exists s :: s in r.events && s.eventId == e.eventId && (e.authority == s.authority || e.authority.DECLARED?)
  {
    var usable := UsableIds(r.assets);
    var timeline := Timeline(r.identity, r.events, usable);
    var k :| 0 <= k < |timeline| && timeline[k] == e;
    var i := EventBehind(r.events, k);
    assert r.events[i] in r.events;
    PublicEventNeverOverclaims(r.identity, r.events[i], usable);
    if x :| x in e.assetIds && x in usable {
      UsableIsShown(r, x);
    }
  }

  /** Every finding shown has evidence or an available non-SECRET asset, and lists no other asset. */
  lemma FindingsNeverOverclaim(r: Record, f: FindingSummary)
    requires f in Draft(r).detail.findings
    ensures forall x :: x in f.supportingAssetIds ==> ShownAvailable(Draft(r), x)
    ensures f.supportingEvidenceIds != [] || f.supportingAssetIds != []
    ensures f.authority == AuthorityFor(f.kind)
  {
    var usable := UsableIds(r.assets);
    PublicFindingsAre(r.identity, r.findings, usable);
    var i :| 0 <= i < |r.findings| && Kept(r.findings[i], usable) && f == PublicFinding(r.identity, r.findings[i], usable);
    EvidenceIdsEmpty(r.identity.robotId, r.findings[i].evidenceRefs);
    forall x | x in f.supportingAssetIds ensures ShownAvailable(Draft(r), x) {
      UsableIsShown(r, x);
    }
    if r.findings[i].evidenceRefs == [] {
      var x :| x in r.findings[i].assetIds && x in usable;
      assert x in f.supportingAssetIds;
    }
  }

  // ---- what the projection does not depend on ----

  function RedactAsset(a: ProducerAsset): ProducerAsset {
    if a.classification.SECRET? then a.(digest := None, artifactRef := None) else a
  }

  function RedactEvent(e: ProducerEvent, usable: set<string>): ProducerEvent {
    var blank := e.(rawPayload := "");
    if Withheld(e, usable)
    then blank.(title := "", summary := "", lane := STATE, severity := INFO, authority := OBSERVED, metrics := map[])
    else blank
  }

  function RedactFinding(f: ProducerFinding, usable: set<string>): ProducerFinding {
    var blank := f.(rawAnalysis := "");
    if Kept(f, usable) then blank
    else ProducerFinding(f.findingId, OBSERVED_FACT, "", "", 0, 0, f.evidenceRefs, f.assetIds, [], None, UNVERIFIED, "", [])
  }

  function RedactAssets(assets: seq<ProducerAsset>): (s: seq<ProducerAsset>)
    ensures |s| == |assets| && forall i :: 0 <= i < |s| ==> s[i] == RedactAsset(assets[i])
  {
    seq(|assets|, i requires 0 <= i < |assets| => RedactAsset(assets[i]))
  }

  function RedactEvents(events: seq<ProducerEvent>, usable: set<string>): (s: seq<ProducerEvent>)
    ensures |s| == |events| && forall i :: 0 <= i < |s| ==> s[i] == RedactEvent(events[i], usable)
  {
    seq(|events|, i requires 0 <= i < |events| => RedactEvent(events[i], usable))
  }

  function RedactFindings(findings: seq<ProducerFinding>, usable: set<string>): (s: seq<ProducerFinding>)
    ensures |s| == |findings| && forall i :: 0 <= i < |s| ==> s[i] == RedactFinding(findings[i], usable)
  {
    seq(|findings|, i requires 0 <= i < |findings| => RedactFinding(findings[i], usable))
  }

  /**
   * The record without what must stay private: digests and locations of SECRET assets, raw
   * payloads and analyses, and all that a withheld event or finding claimed.
   */
  function Redact(r: Record): Record {
    var usable := UsableIds(r.assets);
    r.(commitId := "", producer := "", parentRevision := None,
       assets := RedactAssets(r.assets), events := RedactEvents(r.events, usable),
       findings := RedactFindings(r.findings, usable))
  }

  lemma {:induction false} SortingCommutesWithRedaction(events: seq<ProducerEvent>, usable: set<string>)
    ensures SortBy(RedactEvents(events, usable), EventSequence) == RedactEvents(SortBy(events, EventSequence), usable)
  {
    if events == [] {
      assert RedactEvents(events, usable) == [];
    } else {
      var init, last := events[..|events| - 1], events[|events| - 1];
      SortingCommutesWithRedaction(init, usable);
      var redacted := RedactEvents(events, usable);
      assert redacted[..|redacted| - 1] == RedactEvents(init, usable);
      InsertingCommutesWithRedaction(SortBy(init, EventSequence), last, usable);
    }
  }

  lemma RedactedStaySorted(s: seq<ProducerEvent>, usable: set<string>)
    requires SortedBy(s, EventSequence)
    ensures SortedBy(RedactEvents(s, usable), EventSequence)
  {
    forall i | 0 <= i < |s| ensures EventSequence(RedactEvents(s, usable)[i]) == EventSequence(s[i]) {
    }
  }

  lemma RedactEventsAppend(s: seq<ProducerEvent>, e: ProducerEvent, usable: set<string>)
    ensures RedactEvents(s + [e], usable) == RedactEvents(s, usable) + [RedactEvent(e, usable)]
  {
  }

  lemma {:induction false} InsertingCommutesWithRedaction(s: seq<ProducerEvent>, e: ProducerEvent, usable: set<string>)
    requires SortedBy(s, EventSequence)
    ensures SortedBy(RedactEvents(s, usable), EventSequence)
    ensures InsertBy(RedactEvents(s, usable), RedactEvent(e, usable), EventSequence)
            == RedactEvents(InsertBy(s, e, EventSequence), usable)
  {
    RedactedStaySorted(s, usable);
    if s == [] || s[|s| - 1].sequence <= e.sequence {
      RedactEventsAppend(s, e, usable);
    } else {
      var init, last := s[..|s| - 1], s[|s| - 1];
      InsertingCommutesWithRedaction(init, e, usable);
      RedactEventsAppend(init, last, usable);
      assert s == init + [last];
      var redacted := RedactEvents(s, usable);
      assert redacted[..|redacted| - 1] == RedactEvents(init, usable);
      RedactEventsAppend(InsertBy(init, e, EventSequence), last, usable);
      assert InsertBy(s, e, EventSequence) == InsertBy(init, e, EventSequence) + [last];
      assert EventSequence(RedactEvent(last, usable)) == last.sequence && EventSequence(RedactEvent(e, usable)) == e.sequence;
      hide RedactEvent, RedactEvents;
    }
  }

  lemma RedactedAssetsLookTheSame(id: Identity, assets: seq<ProducerAsset>)
    ensures UsableIds(RedactAssets(assets)) == UsableIds(assets)
    ensures PublicAssets(id, RedactAssets(assets)) == PublicAssets(id, assets)
  {
    var redacted := RedactAssets(assets);
    forall i | 0 <= i < |assets| ensures PublicAsset(id, redacted[i]) == PublicAsset(id, assets[i]) {
    }
    forall x ensures x in UsableIds(redacted) <==> x in UsableIds(assets) {
      if x in UsableIds(redacted) {
        var i :| 0 <= i < |redacted| && Usable(redacted[i]) && redacted[i].assetId == x;
        assert Usable(assets[i]);
      }
      if x in UsableIds(assets) {
        var i :| 0 <= i < |assets| && Usable(assets[i]) && assets[i].assetId == x;
        assert Usable(redacted[i]);
      }
    }
  }

  lemma {:induction false} RedactedAssetNotes(assets: seq<ProducerAsset>)
    ensures AssetNotes(RedactAssets(assets)) == AssetNotes(assets)
  {
    if assets != [] {
      var redacted := RedactAssets(assets);
      RedactedAssetNotes(assets[..|assets| - 1]);
      assert redacted[..|redacted| - 1] == RedactAssets(assets[..|assets| - 1]);
    }
  }

  lemma RedactedEventsLookTheSame(id: Identity, sorted: seq<ProducerEvent>, usable: set<string>)
    ensures PublicEvents(id, RedactEvents(sorted, usable), usable) == PublicEvents(id, sorted, usable)
  {
    forall i | 0 <= i < |sorted|
      ensures PublicEvent(id, RedactEvent(sorted[i], usable), usable) == PublicEvent(id, sorted[i], usable)
    {
    }
  }

  lemma {:induction false} RedactedEventNotes(events: seq<ProducerEvent>, usable: set<string>)
    ensures EventNotes(RedactEvents(events, usable), usable) == EventNotes(events, usable)
  {
    if events != [] {
      var redacted := RedactEvents(events, usable);
      RedactedEventNotes(events[..|events| - 1], usable);
      assert redacted[..|redacted| - 1] == RedactEvents(events[..|events| - 1], usable);
    }
  }

  lemma {:induction false} RedactedFindingsLookTheSame(id: Identity, findings: seq<ProducerFinding>, usable: set<string>)
    ensures PublicFindings(id, RedactFindings(findings, usable), usable) == PublicFindings(id, findings, usable)
    ensures FindingNotes(RedactFindings(findings, usable), usable) == FindingNotes(findings, usable)
  {
    if findings != [] {
      var redacted := RedactFindings(findings, usable);
      RedactedFindingsLookTheSame(id, findings[..|findings| - 1], usable);
      assert redacted[..|redacted| - 1] == RedactFindings(findings[..|findings| - 1], usable);
    }
  }

  lemma RedactedClockLooksTheSame(r: Record)
    ensures WorstSynchronization(Redact(r)) == WorstSynchronization(r)
  {
    var q := Redact(r);
    assert seq(|q.events|, i requires 0 <= i < |q.events| => q.events[i].synchronization)
        == seq(|r.events|, i requires 0 <= i < |r.events| => r.events[i].synchronization);
    assert seq(|q.assets|, i requires 0 <= i < |q.assets| => q.assets[i].synchronization)
        == seq(|r.assets|, i requires 0 <= i < |r.assets| => r.assets[i].synchronization);
  }

  lemma RedactedCoverageIsTheSame(r: Record, n: nat)
    ensures ProjectedCoverage(Redact(r), n) == ProjectedCoverage(r, n)
  {
    RedactedClockLooksTheSame(r);
    assert forall i :: 0 <= i < |r.assets| ==>
      (Redact(r).assets[i].availability.AVAILABLE? <==> r.assets[i].availability.AVAILABLE?);
  }

  lemma RedactedLimitationsAreTheSame(r: Record)
    ensures var usable := UsableIds(r.assets);
            Limitations(Redact(r), SortBy(Redact(r).events, EventSequence), usable)
            == Limitations(r, SortBy(r.events, EventSequence), usable)
  {
    var usable := UsableIds(r.assets);
    SortingCommutesWithRedaction(r.events, usable);
    RedactedAssetNotes(r.assets);
    RedactedEventNotes(SortBy(r.events, EventSequence), usable);
    RedactedFindingsLookTheSame(r.identity, r.findings, usable);
    RedactedClockLooksTheSame(r);
  }

  /** The projection is a function of the redacted record: nothing private has any influence on it. */
  lemma ProjectionSeesOnlyTheRedactedRecord(r: Record)
    ensures Draft(Redact(r)) == Draft(r) && Project(Redact(r)) == Project(r)
  {
    var usable := UsableIds(r.assets);
    var sorted := SortBy(r.events, EventSequence);
    RedactedAssetsLookTheSame(r.identity, r.assets);
    SortingCommutesWithRedaction(r.events, usable);
    RedactedEventsLookTheSame(r.identity, sorted, usable);
    RedactedFindingsLookTheSame(r.identity, r.findings, usable);
    RedactedClockLooksTheSame(r);
    RedactedCoverageIsTheSame(r, |PublicFindings(r.identity, r.findings, usable)|);
    RedactedLimitationsAreTheSame(r);
  }

  /** Two records that differ only in private content have the same projection. */
  lemma PrivateContentDoesNotShow(r: Record, s: Record)
    requires Redact(r) == Redact(s)
    ensures Project(r) == Project(s)
  {
    ProjectionSeesOnlyTheRedactedRecord(r);
    ProjectionSeesOnlyTheRedactedRecord(s);
  }

  // ---- a record that projects ----

  /** A bare record: nothing in it but what the rules demand. */
  function Bare(v: nat): Record
    requires v >= 1
  {
    Record(Identity("r", "e", v), if v == 1 then None else Some(v - 1), "c", 0, "p", "t", State.COMPLETED,
           EpisodeTypes.Outcome.SUCCEEDED, Verification.UNVERIFIED, Coverage.COMPLETE, 0, Some(0), true,
           Links(None, None, None, None), "c", Sync.SYNCED, None, None, [], [], [], [], [])
  }

  lemma BareIsPublishable(v: nat)
    requires v >= 1
    ensures ValidRecord(Bare(v)) && Project(Bare(v)).Some?
  {
    PlainTextIsSafe("t");
    assert Projectable(Bare(v));
    ProjectionSucceedsExactly(Bare(v));
  }
}
