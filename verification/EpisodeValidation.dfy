/**
 * The rules a producer record must keep and, separately, the rules a public projection must
 * keep.  Each accumulating loop is proved against a statement about all pairs of events.
 */
module EpisodeValidation {
  import opened Lookup
  import opened Optional
  import opened Sequencing
  import opened PublicText
  import opened EpisodeTypes

  // ---- producer records ----

  predicate ValidAsset(a: ProducerAsset) {
    && IsIdentifier(a.assetId) && |a.limitations| <= MAX_LIMITATIONS
    && if a.availability.AVAILABLE? then a.artifactRef.Some? && a.digest.Some? else a.artifactRef.None?
  }

  predicate ValidFinding(f: ProducerFinding) {
    && IsIdentifier(f.findingId) && |f.limitations| <= MAX_LIMITATIONS
    && f.startMs <= f.endMs
    && (f.kind.CANDIDATE_CAUSE? ==> !f.verification.VERIFIED?)
    && (f.kind.VERIFIED_OUTCOME? ==> f.verification.VERIFIED?)
  }

  predicate ValidEvent(e: ProducerEvent) {
    IsIdentifier(e.eventId) && |e.limitations| <= MAX_LIMITATIONS
  }

  /** The field rules of the record and its parts. */
  predicate FieldRules(r: Record) {
    && r.identity.revision >= 1 && |r.limitations| <= MAX_LIMITATIONS
    && (forall a :: a in r.assets ==> ValidAsset(a))
    && (forall f :: f in r.findings ==> ValidFinding(f))
    && (forall e :: e in r.events ==> ValidEvent(e))
  }

  predicate LifecycleRules(r: Record) {
    && r.parentRevision == (if r.identity.revision == 1 then None else Some(r.identity.revision - 1))
    && (r.endedAt.Some? ==> r.startedAt <= r.endedAt.value)
    && (r.state.RUNNING? ==> !r.isImmutable && r.endedAt.None? && r.outcome == Outcome.UNKNOWN)
    && (!r.state.RUNNING? ==> r.endedAt.Some? && r.isImmutable)
    && r.startedAt <= r.committedAt
  }

  function EventKey(e: ProducerEvent): string { e.eventId }
  function AssetKey(a: ProducerAsset): string { a.assetId }
  function FindingKey(f: ProducerFinding): string { f.findingId }
  function EventSequence(e: ProducerEvent): int { e.sequence }
  function EventOffset(e: ProducerEvent): int { e.offsetMs }

  predicate KnownReferences(r: Record) {
    && (forall e :: e in r.events ==>
          && (forall x :: x in e.assetIds ==> x in Keys(r.assets, AssetKey))
          && (forall x :: x in e.relatedEventIds ==> x in Keys(r.events, EventKey)))
    && forall f :: f in r.findings ==> forall x :: x in f.assetIds ==> x in Keys(r.assets, AssetKey)
  }

  predicate ValidRecord(r: Record) {
    && FieldRules(r) && LifecycleRules(r)
    && DistinctKeys(r.events, EventKey) && DistinctKeys(r.assets, AssetKey) && DistinctKeys(r.findings, FindingKey)
    && AllInOrder(r.events, EventSequence, EventOffset)
    && KnownReferences(r)
  }

  /** `validate_record`, after the field rules. */
  method ValidateRecord(r: Record) returns (ok: bool)
    ensures ok <==> ValidRecord(r)
  {
    if !FieldRules(r) || !LifecycleRules(r) {
      return false;
    }
    var eventIds, assetIds, findingIds :=
      Keys(r.events, EventKey), Keys(r.assets, AssetKey), Keys(r.findings, FindingKey);
    DistinctKeysByCount(r.events, EventKey);
    DistinctKeysByCount(r.assets, AssetKey);
    DistinctKeysByCount(r.findings, FindingKey);
    if |eventIds| != |r.events| || |assetIds| != |r.assets| || |findingIds| != |r.findings| {
      return false;
    }
    var ordered := CheckOrder(r.events, EventSequence, EventOffset);
    if !ordered {
      return false;
    }
    for i := 0 to |r.events|
      invariant forall e :: e in r.events[..i] ==>
        && (forall x :: x in e.assetIds ==> x in assetIds)
        && (forall x :: x in e.relatedEventIds ==> x in eventIds)
    {
      var e := r.events[i];
      if (exists x | x in e.assetIds :: x !in assetIds) || exists x | x in e.relatedEventIds :: x !in eventIds {
        return false;
      }
    }
    assert r.events[..|r.events|] == r.events;
    for i := 0 to |r.findings|
      invariant forall f :: f in r.findings[..i] ==> forall x :: x in f.assetIds ==> x in assetIds
    {
      if exists x | x in r.findings[i].assetIds :: x !in assetIds {
        return false;
      }
    }
    assert r.findings[..|r.findings|] == r.findings;
    return true;
  }

  // ---- public projections ----

  predicate ValidSummary(d: Detail) {
    && d.identity.revision >= 1 && |d.limitations| <= MAX_LIMITATIONS
    && (d.endedAt.Some? ==> d.startedAt <= d.endedAt.value)
    && (d.state.RUNNING? ==> d.endedAt.None? && d.outcome == Outcome.UNKNOWN)
    && (!d.state.RUNNING? ==> d.endedAt.Some?)
    && (d.verification == Verification.VERIFIED ==> d.evidenceIds != [])
  }

  predicate ValidAssetSummary(a: AssetSummary) {
    && |a.limitations| <= MAX_LIMITATIONS
    && (a.classification.SECRET? ==> a.availability.REDACTED? && a.digest.None?)
    && (a.availability.AVAILABLE? ==> a.digest.Some?)
  }

  /** The one authority a finding of each kind may claim. */
  function AuthorityFor(kind: FindingKind): Authority {
    match kind
    case OBSERVED_FACT => OBSERVED
    case CANDIDATE_CAUSE => INFERRED
    case HUMAN_CONFIRMATION => HUMAN_CONFIRMED
    case VERIFIED_OUTCOME => Authority.VERIFIED
  }

  predicate ValidFindingSummary(f: FindingSummary) {
    && |f.limitations| <= MAX_LIMITATIONS
    && f.startMs <= f.endMs
    && (f.supportingEvidenceIds != [] || f.supportingAssetIds != [])
    && f.authority == AuthorityFor(f.kind)
    && (f.kind.CANDIDATE_CAUSE? ==> f.verification != Verification.VERIFIED)
    && (f.kind.VERIFIED_OUTCOME? ==> f.verification == Verification.VERIFIED)
  }

  predicate MetricsValid(metrics: map<string, Metric>) {
    forall name :: name in metrics ==> IsMetricName(name) && metrics[name].Finite?
  }

  predicate ValidTimelineEvent(e: TimelineEvent) {
    && |e.limitations| <= MAX_LIMITATIONS
    && MetricsValid(e.metrics)
    && (e.authority.DECLARED? || e.evidenceIds != [] || e.assetIds != [])
  }

  function SummaryKey(a: AssetSummary): string { a.assetId }

  /** What `validate_detail` asks of one finding. */
  predicate FindingSupported(f: FindingSummary, byId: map<string, AssetSummary>) {
    && (forall x :: x in f.supportingAssetIds ==> x in byId)
    && (f.supportingEvidenceIds != [] || exists x :: x in f.supportingAssetIds && byId[x].availability.AVAILABLE?)
    && (f.kind.VERIFIED_OUTCOME? ==> forall x :: x in f.supportingAssetIds ==> byId[x].world.PHYSICAL?)
  }

  predicate ChildrenValid(d: Detail) {
    && (forall a :: a in d.assets ==> ValidAssetSummary(a) && a.identity == d.identity)
    && (forall f :: f in d.findings ==> ValidFindingSummary(f) && f.identity == d.identity)
  }

  predicate FindingsSupported(findings: seq<FindingSummary>, byId: map<string, AssetSummary>) {
    forall f :: f in findings ==> FindingSupported(f, byId)
  }

  predicate ShapeValid(d: Detail) {
    && !(d.state.RUNNING? && d.isImmutable)
    && |d.assets| == d.assetCount && |d.findings| == d.findingCount
    && |d.availableLanes| <= 10 && Distinct(d.availableLanes)
    && d.startedAt <= d.asOf
  }

  /** `validate_detail`, on top of the summary rules and the children's own. */
  predicate ValidDetail(d: Detail) {
    ValidSummary(d) && ChildrenValid(d) && ShapeValid(d) && FindingsSupported(d.findings, ById(d.assets, SummaryKey))
  }

  function TimelineKey(e: TimelineEvent): string { e.eventId }
  function TimelineSequence(e: TimelineEvent): int { e.sequence }
  function TimelineOffset(e: TimelineEvent): int { e.offsetMs }

  predicate EventsValid(timeline: seq<TimelineEvent>, id: Identity) {
    forall e :: e in timeline ==> ValidTimelineEvent(e) && e.identity == id
  }

  predicate ReferencesKnown(timeline: seq<TimelineEvent>, assetIds: set<string>, eventIds: set<string>) {
    forall e :: e in timeline ==>
      && (forall x :: x in e.assetIds ==> x in assetIds)
      && (forall x :: x in e.relatedEventIds ==> x in eventIds)
  }

  predicate LanesMatch(timeline: seq<TimelineEvent>, lanes: seq<Lane>) {
    forall l :: l in lanes <==> exists e :: e in timeline && e.lane == l
  }

  predicate ValidTimeline(p: Projection) {
    && |p.timeline| == p.detail.eventCount
    && EventsValid(p.timeline, p.detail.identity)
    && DistinctKeys(p.timeline, TimelineKey)
    && AllInOrder(p.timeline, TimelineSequence, TimelineOffset)
    && ReferencesKnown(p.timeline, Keys(p.detail.assets, SummaryKey), Keys(p.timeline, TimelineKey))
    && LanesMatch(p.timeline, p.detail.availableLanes)
  }

  predicate ValidProjection(p: Projection) {
    ValidDetail(p.detail) && ValidTimeline(p)
  }

  /** `validate_projection`: one pass over the timeline that also collects its lanes. */
  method ValidateTimeline(p: Projection) returns (ok: bool)
    ensures ok <==> ValidTimeline(p)
  {
    if |p.timeline| != p.detail.eventCount {
      return false;
    }
    var assetIds, eventIds := Keys(p.detail.assets, SummaryKey), Keys(p.timeline, TimelineKey);
    DistinctKeysByCount(p.timeline, TimelineKey);
    if |eventIds| != |p.timeline| {
      return false;
    }
    var ordered := CheckOrder(p.timeline, TimelineSequence, TimelineOffset);
    if !ordered {
      return false;
    }
    var lanes: set<Lane> := {};
    for i := 0 to |p.timeline|
      invariant EventsValid(p.timeline[..i], p.detail.identity)
      invariant ReferencesKnown(p.timeline[..i], assetIds, eventIds)
      invariant forall l :: l in lanes <==> exists e :: e in p.timeline[..i] && e.lane == l
    {
      var e := p.timeline[i];
      assert p.timeline[..i + 1] == p.timeline[..i] + [e];
      if !ValidTimelineEvent(e) || e.identity != p.detail.identity {
        return false;
      }
      if (exists x | x in e.assetIds :: x !in assetIds) || exists x | x in e.relatedEventIds :: x !in eventIds {
        return false;
      }
      lanes := lanes + {e.lane};
    }
    assert p.timeline[..|p.timeline|] == p.timeline;
    assert (lanes == set l | l in p.detail.availableLanes) <==>
           (forall l :: l in lanes <==> l in p.detail.availableLanes);
    return lanes == set l | l in p.detail.availableLanes;
  }

  // ---- the unsafe-content scan ----

  predicate SafeTexts(texts: seq<string>) {
    forall x :: x in texts ==> SafeText(x)
  }

  predicate SafeOptional(text: Option<string>) {
    text.Some? ==> SafeText(text.value)
  }

  /** Free text and metric names; every other key and value is fixed by the schema or by a pattern. */
  predicate SafeProjection(p: Projection) {
    var d := p.detail;
    && SafeText(d.taskLabel) && SafeTexts(d.limitations)
    && SafeOptional(d.expectedBehavior) && SafeOptional(d.observedBehavior)
    && (forall a :: a in d.assets ==> SafeText(a.sourceLabel) && SafeTexts(a.limitations))
    && (forall f :: f in d.findings ==> SafeText(f.title) && SafeText(f.summary) && SafeTexts(f.limitations))
    && forall e :: e in p.timeline ==>
         && SafeText(e.title) && SafeText(e.summary) && SafeTexts(e.limitations)
         && forall name :: name in e.metrics ==> PublicKey(name)
  }

  /** A document that can be stored and loaded as a publication. */
  predicate Publishable(p: Projection) {
    ValidProjection(p) && SafeProjection(p)
  }
}
