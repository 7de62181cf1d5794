/** `project_episode_record`: from a producer record to the public projection. */
module EpisodeProjection {
  import opened Lookup
  import opened Optional
  import opened PublicText
  import opened Sequencing
  import opened EpisodeTypes
  import opened EpisodeValidation

  // ---- the parts ----

  /** Observation evidence that may be shown: available and not SECRET. */
  predicate Usable(a: ProducerAsset) {
    !a.classification.SECRET? && a.availability.AVAILABLE?
  }

  function UsableIds(assets: seq<ProducerAsset>): set<string> {
    set i | 0 <= i < |assets| && Usable(assets[i]) :: assets[i].assetId
  }

  function EvidenceIds(robotId: string, refs: seq<string>): seq<EvidenceId> {
    Dedup(seq(|refs|, i requires 0 <= i < |refs| => EvidenceId(robotId, refs[i])))
  }

  function AssetLimit(a: ProducerAsset): seq<string> {
    if a.classification.SECRET? then [SECRET_NOTE]
    else if a.availability.AVAILABLE? then []
    else [UNAVAILABLE_NOTE]
  }

  function PublicAsset(id: Identity, a: ProducerAsset): AssetSummary {
    var secret := a.classification.SECRET?;
    AssetSummary(
      id, a.assetId, a.sourceLabel, a.capture, a.world, a.synchronization,
      if secret then None else a.digest,
      a.classification,
      if secret || a.artifactRef.None? then None else Some(EvidenceId(id.robotId, a.artifactRef.value)),
      if secret then REDACTED else a.availability,
      UniqueLimitations(a.limitations + AssetLimit(a)))
  }

  function PublicAssets(id: Identity, assets: seq<ProducerAsset>): (s: seq<AssetSummary>)
    ensures |s| == |assets| && forall i :: 0 <= i < |s| ==> s[i] == PublicAsset(id, assets[i])
  {
    seq(|assets|, i requires 0 <= i < |assets| => PublicAsset(id, assets[i]))
  }

  /** A non-declared event none of whose evidence can be shown. */
  predicate Withheld(e: ProducerEvent, usable: set<string>) {
    !e.authority.DECLARED? && e.evidenceRefs == [] && forall x :: x in e.assetIds ==> x !in usable
  }

  function PublicEvent(id: Identity, e: ProducerEvent, usable: set<string>): TimelineEvent {
    var evidence := EvidenceIds(id.robotId, e.evidenceRefs);
    if Withheld(e, usable) then
      TimelineEvent(id, e.eventId, e.sequence, e.offsetMs, e.moment, e.synchronization,
                    ALERT, WITHHELD_TITLE, WITHHELD_SUMMARY, WARNING, DECLARED,
                    evidence, e.assetIds, e.relatedEventIds, map[],
                    UniqueLimitations(e.limitations + [WITHHELD_NOTE]))
    else
      TimelineEvent(id, e.eventId, e.sequence, e.offsetMs, e.moment, e.synchronization,
                    e.lane, e.title, e.summary, e.severity, e.authority,
                    evidence, e.assetIds, e.relatedEventIds, e.metrics,
                    UniqueLimitations(e.limitations))
  }

  function PublicEvents(id: Identity, sorted: seq<ProducerEvent>, usable: set<string>): (s: seq<TimelineEvent>)
    ensures |s| == |sorted| && forall i :: 0 <= i < |s| ==> s[i] == PublicEvent(id, sorted[i], usable)
  {
    seq(|sorted|, i requires 0 <= i < |sorted| => PublicEvent(id, sorted[i], usable))
  }

  /** A finding with something to show for it. */
  predicate Kept(f: ProducerFinding, usable: set<string>) {
    f.evidenceRefs != [] || exists x :: x in f.assetIds && x in usable
  }

  function OnlyUsable(ids: seq<string>, usable: set<string>): (s: seq<string>)
    ensures forall x :: x in s <==> x in ids && x in usable
  {
    if ids == [] then []
    else
      var init, last := ids[..|ids| - 1], ids[|ids| - 1];
      assert ids == init + [last];
      OnlyUsable(init, usable) + if last in usable then [last] else []
  }

  function PublicFinding(id: Identity, f: ProducerFinding, usable: set<string>): FindingSummary {
    FindingSummary(
      id, f.findingId, f.kind, AuthorityFor(f.kind), f.title, f.summary, f.startMs, f.endMs,
      EvidenceIds(id.robotId, f.evidenceRefs), OnlyUsable(f.assetIds, usable),
      EvidenceIds(id.robotId, f.contradictingRefs), f.confidence, f.verification, f.limitations)
  }

  function PublicFindings(id: Identity, findings: seq<ProducerFinding>, usable: set<string>): seq<FindingSummary> {
    if findings == [] then []
    else
      var init, last := findings[..|findings| - 1], findings[|findings| - 1];
      PublicFindings(id, init, usable) + if Kept(last, usable) then [PublicFinding(id, last, usable)] else []
  }

  // ---- the notes collected on the way ----

  function AssetNotes(assets: seq<ProducerAsset>): seq<string> {
    if assets == [] then []
    else
      var a := assets[|assets| - 1];
      AssetNotes(assets[..|assets| - 1])
      + if a.classification.SECRET? || a.availability.AVAILABLE? then [] else [AssetNote(a.assetId)]
  }

  function EventNotes(events: seq<ProducerEvent>, usable: set<string>): seq<string> {
    if events == [] then []
    else
      var e := events[|events| - 1];
      EventNotes(events[..|events| - 1], usable) + if Withheld(e, usable) then [EventNote(e.eventId)] else []
  }

  function FindingNotes(findings: seq<ProducerFinding>, usable: set<string>): seq<string> {
    if findings == [] then []
    else
      var f := findings[|findings| - 1];
      FindingNotes(findings[..|findings| - 1], usable) + if Kept(f, usable) then [] else [FindingNote(f.findingId)]
  }

  function Rank(s: Sync): nat {
    match s case SYNCED => 0 case UNKNOWN => 1 case DEGRADED => 2 case UNSYNCED => 3
  }

  /** `max(values, key=rank)`. */
  function Worst(values: seq<Sync>): (w: Sync)
    requires values != []
    ensures w in values && forall v :: v in values ==> Rank(v) <= Rank(w)
  {
    if |values| == 1 then values[0]
    else
      var init, last := values[..|values| - 1], values[|values| - 1];
      assert values == init + [last];
      var w := Worst(init);
      if Rank(last) > Rank(w) then last else w
  }

  function WorstSynchronization(r: Record): Sync {
    Worst([r.synchronization]
          + seq(|r.events|, i requires 0 <= i < |r.events| => r.events[i].synchronization)
          + seq(|r.assets|, i requires 0 <= i < |r.assets| => r.assets[i].synchronization))
  }

  const LANES := [AGENT, ALERT, CHECKPOINT, COMMAND, CONFIGURATION, GATE, OBSERVATION, Lane.OUTCOME, STATE, TELEMETRY]

  function KeepLanes(lanes: seq<Lane>, used: set<Lane>): (s: seq<Lane>)
    ensures forall l :: l in s <==> l in lanes && l in used
    ensures |s| <= |lanes|
    ensures Distinct(lanes) ==> Distinct(s)
  {
    if lanes == [] then []
    else
      var init, last := lanes[..|lanes| - 1], lanes[|lanes| - 1];
      assert lanes == init + [last];
      var kept := KeepLanes(init, used);
      assert forall i :: 0 <= i < |kept| ==> kept[i] in kept;
      assert forall i :: 0 <= i < |init| ==> init[i] == lanes[i];
      if last in used then kept + [last] else kept
  }

  /** `sorted({event.lane for event in public_events})`: lane names in alphabetical order. */
  function LanesOf(events: seq<TimelineEvent>): seq<Lane> {
    KeepLanes(LANES, set i | 0 <= i < |events| :: events[i].lane)
  }

  // ---- the whole, before validation ----

  function Limitations(r: Record, sorted: seq<ProducerEvent>, usable: set<string>): seq<string> {
    r.limitations + AssetNotes(r.assets) + EventNotes(sorted, usable) + FindingNotes(r.findings, usable)
    + if WorstSynchronization(r).SYNCED? then [] else [CLOCK_NOTE]
  }

  function ProjectedCoverage(r: Record, findingCount: nat): Coverage {
    if !r.coverage.METADATA_ONLY?
       && (!WorstSynchronization(r).SYNCED? || findingCount != |r.findings|
           || exists i :: 0 <= i < |r.assets| && !r.assets[i].availability.AVAILABLE?)
    then Coverage.PARTIAL else r.coverage
  }

  function Draft(r: Record): Projection {
    var usable := UsableIds(r.assets);
    var sorted := SortBy(r.events, EventSequence);
    var assets := PublicAssets(r.identity, r.assets);
    var events := PublicEvents(r.identity, sorted, usable);
    var findings := PublicFindings(r.identity, r.findings, usable);
    Projection(
      Detail(r.identity, r.taskLabel, r.state, r.outcome, r.verification, ProjectedCoverage(r, |findings|),
             r.startedAt, r.endedAt, r.links, |events|, |assets|, |findings|,
             EvidenceIds(r.identity.robotId, r.evidenceRefs),
             UniqueLimitations(Limitations(r, sorted, usable)),
             r.committedAt, r.isImmutable, r.clockDomain, WorstSynchronization(r), LanesOf(events),
             r.expectedBehavior, r.observedBehavior, assets, findings),
      events)
  }

  /** The projection of a record, or the refusal of one of the public validators. */
  function Project(r: Record): Option<Projection> {
    if Publishable(Draft(r)) then Some(Draft(r)) else None
  }

  // ---- the loops ----

  /** The body of the asset loop: the summary, and whether the asset may support anything. */
  method ProjectAsset(id: Identity, asset: ProducerAsset)
    returns (public: AssetSummary, usable: bool, notes: seq<string>)
    ensures public == PublicAsset(id, asset)
    ensures usable == Usable(asset)
    ensures notes == if asset.classification.SECRET? || usable then [] else [AssetNote(asset.assetId)]
  {
    var availability, digest := asset.availability, asset.digest;
    var evidenceId := if asset.artifactRef.Some?
                      then Some(EvidenceId(id.robotId, asset.artifactRef.value)) else None;
    var assetLimitations := asset.limitations;
    usable, notes := false, [];
    if asset.classification.SECRET? {
      availability, digest, evidenceId := REDACTED, None, None;
      assetLimitations := assetLimitations + [SECRET_NOTE];
    } else if availability.AVAILABLE? {
      usable := true;
      assert assetLimitations + AssetLimit(asset) == assetLimitations;
    } else {
      assetLimitations := assetLimitations + [UNAVAILABLE_NOTE];
      notes := [AssetNote(asset.assetId)];
    }
    public := AssetSummary(id, asset.assetId, asset.sourceLabel, asset.capture, asset.world,
                           asset.synchronization, digest, asset.classification, evidenceId, availability,
                           UniqueLimitations(assetLimitations));
  }

  predicate AllAssetsValid(assets: seq<AssetSummary>) {
    forall i :: 0 <= i < |assets| ==> ValidAssetSummary(assets[i])
  }

  /** What the asset loop has built after `i` assets. */
  ghost predicate AssetsSoFar(id: Identity, assets: seq<ProducerAsset>, i: nat,
                              public: seq<AssetSummary>, usable: set<string>, notes: seq<string>)
    requires i <= |assets|
  {
    && public == PublicAssets(id, assets[..i])
    && usable == UsableIds(assets[..i])
    && notes == AssetNotes(assets[..i])
  }

  lemma NextAsset(id: Identity, assets: seq<ProducerAsset>, i: nat,
                  public: seq<AssetSummary>, usable: set<string>, notes: seq<string>)
    requires i < |assets| && AssetsSoFar(id, assets, i, public, usable, notes)
    ensures AssetsSoFar(id, assets, i + 1, public + [PublicAsset(id, assets[i])],
                        if Usable(assets[i]) then usable + {assets[i].assetId} else usable,
                        notes + if assets[i].classification.SECRET? || assets[i].availability.AVAILABLE? then []
                                else [AssetNote(assets[i].assetId)])
  {
    assert assets[..i + 1] == assets[..i] + [assets[i]];
    PublicAssetsAppend(id, assets[..i], assets[i]);
    UsableIdsAppend(assets[..i], assets[i]);
    AssetNotesAppend(assets[..i], assets[i]);
    hide PublicAsset, PublicAssets, Usable, UsableIds, AssetNotes;
  }

  lemma PublicAssetsAppend(id: Identity, init: seq<ProducerAsset>, a: ProducerAsset)
    ensures PublicAssets(id, init + [a]) == PublicAssets(id, init) + [PublicAsset(id, a)]
  {
    hide PublicAsset;
  }

  lemma UsableIdsAppend(init: seq<ProducerAsset>, a: ProducerAsset)
    ensures UsableIds(init + [a]) == if Usable(a) then UsableIds(init) + {a.assetId} else UsableIds(init)
  {
    hide Usable;
    var all := init + [a];
    forall x | x in UsableIds(init) ensures x in UsableIds(all) {
      var k :| 0 <= k < |init| && Usable(init[k]) && init[k].assetId == x;
      assert all[k] == init[k];
    }
    forall x | x in UsableIds(all) ensures x in UsableIds(init) || (Usable(a) && x == a.assetId) {
      var k :| 0 <= k < |all| && Usable(all[k]) && all[k].assetId == x;
      assert k < |init| ==> all[k] == init[k];
    }
    assert all[|init|] == a;
  }

  lemma AssetNotesAppend(init: seq<ProducerAsset>, a: ProducerAsset)
    ensures AssetNotes(init + [a])
            == AssetNotes(init)
               + if a.classification.SECRET? || a.availability.AVAILABLE? then [] else [AssetNote(a.assetId)]
  {
    assert (init + [a])[..|init|] == init;
  }

  method ProjectAssets(id: Identity, assets: seq<ProducerAsset>)
    returns (ok: bool, public: seq<AssetSummary>, usable: set<string>, notes: seq<string>)
    ensures ok ==> public == PublicAssets(id, assets) && usable == UsableIds(assets) && notes == AssetNotes(assets)
    ensures ok <==> AllAssetsValid(PublicAssets(id, assets))
  {
    public, usable, notes := [], {}, [];
    assert AssetsSoFar(id, assets, 0, public, usable, notes);
    hide AssetsSoFar, PublicAsset, ValidAssetSummary, Usable;
    for i := 0 to |assets|
      invariant AssetsSoFar(id, assets, i, public, usable, notes)
      invariant AllAssetsValid(public)
    {
      NextAsset(id, assets, i, public, usable, notes);
      var one, isUsable, note := ProjectAsset(id, assets[i]);
      if !ValidAssetSummary(one) {
        assert PublicAssets(id, assets)[i] == one;
        return false, public, usable, notes;
      }
      public, notes := public + [one], notes + note;
      if isUsable {
        usable := usable + {assets[i].assetId};
      }
    }
    AllAssetsDone(id, assets, public, usable, notes);
    ok := true;
  }

  lemma AllAssetsDone(id: Identity, assets: seq<ProducerAsset>, public: seq<AssetSummary>, usable: set<string>,
                      notes: seq<string>)
    requires AssetsSoFar(id, assets, |assets|, public, usable, notes)
    ensures public == PublicAssets(id, assets) && usable == UsableIds(assets) && notes == AssetNotes(assets)
  {
    assert assets[..|assets|] == assets;
  }

  /** The body of the event loop. */
  method ProjectEvent(id: Identity, event: ProducerEvent, usable: set<string>)
    returns (public: TimelineEvent, notes: seq<string>)
    ensures public == PublicEvent(id, event, usable)
    ensures notes == if Withheld(event, usable) then [EventNote(event.eventId)] else []
  {
    var evidenceIds := EvidenceIds(id.robotId, event.evidenceRefs);
    EvidenceIdsEmpty(id.robotId, event.evidenceRefs);
    var lane, authority, title, summary, severity, metrics, eventLimitations :=
      event.lane, event.authority, event.title, event.summary, event.severity, event.metrics, event.limitations;
    notes := [];
    if !authority.DECLARED? && evidenceIds == [] && !exists x | x in event.assetIds :: x in usable {
      lane, authority := ALERT, DECLARED;
      title, summary := WITHHELD_TITLE, WITHHELD_SUMMARY;
      severity, metrics := WARNING, map[];
      eventLimitations := eventLimitations + [WITHHELD_NOTE];
      notes := [EventNote(event.eventId)];
    }
    public := TimelineEvent(id, event.eventId, event.sequence, event.offsetMs, event.moment,
                            event.synchronization, lane, title, summary, severity, authority,
                            evidenceIds, event.assetIds, event.relatedEventIds, metrics,
                            UniqueLimitations(eventLimitations));
  }

  predicate AllEventsValid(events: seq<TimelineEvent>) {
    forall i :: 0 <= i < |events| ==> ValidTimelineEvent(events[i])
  }

  /** What the loop has after `i` events, none of them refused. */
  ghost predicate EventsSoFar(id: Identity, sorted: seq<ProducerEvent>, usable: set<string>, i: nat,
                              events: seq<TimelineEvent>, notes: seq<string>)
    requires i <= |sorted|
  {
    && events == PublicEvents(id, sorted, usable)[..i]
    && notes == EventNotes(sorted[..i], usable)
    && AllEventsValid(events)
  }

  lemma EventNotesGrow(events: seq<ProducerEvent>, usable: set<string>, i: nat)
    requires i < |events|
    ensures EventNotes(events[..i + 1], usable)
            == EventNotes(events[..i], usable) + if Withheld(events[i], usable) then [EventNote(events[i].eventId)] else []
  {
    assert events[..i + 1][..i] == events[..i];
  }

  lemma NextEvent(id: Identity, sorted: seq<ProducerEvent>, usable: set<string>, i: nat,
                  events: seq<TimelineEvent>, notes: seq<string>)
    requires i < |sorted| && EventsSoFar(id, sorted, usable, i, events, notes)
    requires ValidTimelineEvent(PublicEvent(id, sorted[i], usable))
    ensures EventsSoFar(id, sorted, usable, i + 1, events + [PublicEvent(id, sorted[i], usable)],
                        notes + if Withheld(sorted[i], usable) then [EventNote(sorted[i].eventId)] else [])
  {
    hide PublicEvent, ValidTimelineEvent, Withheld;
    EventNotesGrow(sorted, usable, i);
  }

  lemma AllEventsDone(id: Identity, sorted: seq<ProducerEvent>, usable: set<string>,
                      events: seq<TimelineEvent>, notes: seq<string>)
    requires EventsSoFar(id, sorted, usable, |sorted|, events, notes)
    ensures events == PublicEvents(id, sorted, usable) && notes == EventNotes(sorted, usable)
    ensures AllEventsValid(PublicEvents(id, sorted, usable))
  {
    assert sorted[..|sorted|] == sorted;
  }

  lemma RefusedEventRefusesAll(id: Identity, sorted: seq<ProducerEvent>, usable: set<string>, i: nat)
    requires i < |sorted| && !ValidTimelineEvent(PublicEvent(id, sorted[i], usable))
    ensures !AllEventsValid(PublicEvents(id, sorted, usable))
  {
    hide PublicEvent, ValidTimelineEvent;
    assert !ValidTimelineEvent(PublicEvents(id, sorted, usable)[i]);
  }

  method ProjectEvents(id: Identity, sorted: seq<ProducerEvent>, usable: set<string>)
    returns (ok: bool, events: seq<TimelineEvent>, notes: seq<string>)
    ensures ok ==> events == PublicEvents(id, sorted, usable) && notes == EventNotes(sorted, usable)
    ensures ok <==> AllEventsValid(PublicEvents(id, sorted, usable))
  {
    assert EventsSoFar(id, sorted, usable, 0, [], []);
    hide *;
    events, notes := [], [];
    for i := 0 to |sorted|
      invariant EventsSoFar(id, sorted, usable, i, events, notes)
    {
      var public, note := ProjectEvent(id, sorted[i], usable);
      if !ValidTimelineEvent(public) {
        RefusedEventRefusesAll(id, sorted, usable, i);
        return false, events, notes;
      }
      NextEvent(id, sorted, usable, i, events, notes);
      events, notes := events + [public], notes + note;
    }
    AllEventsDone(id, sorted, usable, events, notes);
    ok := true;
  }

  lemma EvidenceIdsEmpty(robotId: string, refs: seq<string>)
    ensures EvidenceIds(robotId, refs) == [] <==> refs == []
  {
    var ids := seq(|refs|, i requires 0 <= i < |refs| => EvidenceId(robotId, refs[i]));
    if refs != [] {
      assert ids[0] in Dedup(ids);
    }
  }

  /** The body of the finding loop: nothing for a finding that is withheld. */
  method ProjectFinding(id: Identity, finding: ProducerFinding, usable: set<string>)
    returns (public: Option<FindingSummary>)
    ensures public == if Kept(finding, usable) then Some(PublicFinding(id, finding, usable)) else None
  {
    var evidenceIds := EvidenceIds(id.robotId, finding.evidenceRefs);
    EvidenceIdsEmpty(id.robotId, finding.evidenceRefs);
    var usableAssets := OnlyUsable(finding.assetIds, usable);
    assert usableAssets != [] ==> usableAssets[0] in usableAssets;
    if evidenceIds == [] && usableAssets == [] {
      return None;
    }
    public := Some(FindingSummary(
      id, finding.findingId, finding.kind, AuthorityFor(finding.kind), finding.title, finding.summary,
      finding.startMs, finding.endMs, evidenceIds, usableAssets, EvidenceIds(id.robotId, finding.contradictingRefs),
      finding.confidence, finding.verification, finding.limitations));
  }

  method ProjectFindings(id: Identity, all: seq<ProducerFinding>, usable: set<string>)
    returns (ok: bool, findings: seq<FindingSummary>, notes: seq<string>)
    ensures ok ==> findings == PublicFindings(id, all, usable) && notes == FindingNotes(all, usable)
    ensures ok <==> forall f :: f in PublicFindings(id, all, usable) ==> ValidFindingSummary(f)
  {
    findings, notes := [], [];
    assert PublicFindings(id, [], usable) == [] && FindingNotes([], usable) == [];
    hide PublicFinding, Kept, ValidFindingSummary;
    for i := 0 to |all|
      invariant findings == PublicFindings(id, all[..i], usable)
      invariant notes == FindingNotes(all[..i], usable)
      invariant forall f :: f in findings ==> ValidFindingSummary(f)
    {
      assert all[..i + 1][..i] == all[..i];
      var public := ProjectFinding(id, all[i], usable);
      if public.None? {
        notes := notes + [FindingNote(all[i].findingId)];
        continue;
      }
      if !ValidFindingSummary(public.value) {
        PublicFindingIsListed(id, all, usable, i);
        return false, findings, notes;
      }
      findings := findings + [public.value];
    }
    assert all[..|all|] == all;
    ok := true;
  }

  lemma {:induction false} PublicFindingIsListed(id: Identity, findings: seq<ProducerFinding>, usable: set<string>,
                                                 i: nat)
    requires i < |findings| && Kept(findings[i], usable)
    ensures PublicFinding(id, findings[i], usable) in PublicFindings(id, findings, usable)
  {
    if i < |findings| - 1 {
      PublicFindingIsListed(id, findings[..|findings| - 1], usable, i);
    }
  }

  /** Any part that its own validator refuses makes the whole unpublishable. */
  lemma RefusedPartRefusesAll(r: Record)
    requires
      || !AllAssetsValid(PublicAssets(r.identity, r.assets))
      || !AllEventsValid(PublicEvents(r.identity, SortBy(r.events, EventSequence), UsableIds(r.assets)))
      || exists f :: f in PublicFindings(r.identity, r.findings, UsableIds(r.assets)) && !ValidFindingSummary(f)
    ensures Project(r) == None
  {
    hide ValidAssetSummary, ValidTimelineEvent, ValidFindingSummary, PublicAsset, PublicEvent, PublicFinding;
    var d := Draft(r);
    assert forall i :: 0 <= i < |d.detail.assets| ==> d.detail.assets[i] in d.detail.assets;
    if !AllEventsValid(d.timeline) {
      var i :| 0 <= i < |d.timeline| && !ValidTimelineEvent(d.timeline[i]);
      assert d.timeline[i] in d.timeline;
    }
  }

  /** The detail and the timeline, before they are validated as a whole. */
  method DraftProjection(r: Record, sorted: seq<ProducerEvent>, assets: seq<AssetSummary>, events: seq<TimelineEvent>,
                         findings: seq<FindingSummary>, notes: seq<string>) returns (projection: Projection)
    requires sorted == SortBy(r.events, EventSequence) && assets == PublicAssets(r.identity, r.assets)
    requires events == PublicEvents(r.identity, sorted, UsableIds(r.assets))
    requires findings == PublicFindings(r.identity, r.findings, UsableIds(r.assets))
    requires notes == AssetNotes(r.assets) + EventNotes(sorted, UsableIds(r.assets)) + FindingNotes(r.findings, UsableIds(r.assets))
    ensures projection == Draft(r)
  {
    hide PublicAssets, PublicEvents, PublicFindings, SortBy, UsableIds, AssetNotes, EventNotes, FindingNotes, EvidenceIds,
      UniqueLimitations, LanesOf, WorstSynchronization;
    var limitations := r.limitations + notes;
    var synchronization := WorstSynchronization(r);
    if !synchronization.SYNCED? {
      limitations := limitations + [CLOCK_NOTE];
    }
    var coverage := r.coverage;
    if !coverage.METADATA_ONLY?
       && (!synchronization.SYNCED? || |findings| != |r.findings|
           || exists i :: 0 <= i < |r.assets| && !r.assets[i].availability.AVAILABLE?) {
      coverage := Coverage.PARTIAL;
    }
    var detail := Detail(
      r.identity, r.taskLabel, r.state, r.outcome, r.verification, coverage, r.startedAt, r.endedAt, r.links,
      |events|, |assets|, |findings|, EvidenceIds(r.identity.robotId, r.evidenceRefs),
      UniqueLimitations(limitations), r.committedAt, r.isImmutable, r.clockDomain, synchronization, LanesOf(events),
      r.expectedBehavior, r.observedBehavior, assets, findings);
    assert limitations == Limitations(r, sorted, UsableIds(r.assets));
    projection := Projection(detail, events);
  }

  /** `project_episode_record`. */
  method ProjectEpisodeRecord(r: Record) returns (p: Option<Projection>)
    ensures p == Project(r)
  {
    hide ValidDetail, ValidTimeline, SafeProjection, PublicAssets, PublicEvents, PublicFindings, SortBy, UsableIds, Draft,
      AssetNotes, EventNotes, FindingNotes, AllAssetsValid, AllEventsValid, ValidFindingSummary;
    var assetsOk, assets, usable, assetNotes := ProjectAssets(r.identity, r.assets);
    if !assetsOk {
      RefusedPartRefusesAll(r);
      return None;
    }
    var sorted := SortBy(r.events, EventSequence);
    var eventsOk, events, eventNotes := ProjectEvents(r.identity, sorted, usable);
    if !eventsOk {
      RefusedPartRefusesAll(r);
      return None;
    }
    var findingsOk, findings, findingNotes := ProjectFindings(r.identity, r.findings, usable);
    if !findingsOk {
      RefusedPartRefusesAll(r);
      return None;
    }
    var projection := DraftProjection(r, sorted, assets, events, findings, assetNotes + eventNotes + findingNotes);
    if !ValidDetail(projection.detail) {
      return None;
    }
    var timelineOk := ValidateTimeline(projection);
    if !timelineOk || !SafeProjection(projection) {
      return None;
    }
    p := Some(projection);
  }
}
