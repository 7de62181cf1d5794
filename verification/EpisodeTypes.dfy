/** Producer records and public projections of episodes. */
module EpisodeTypes {
  import opened Optional

  datatype State = RUNNING | COMPLETED | FAILED | CANCELLED | PARTIAL
  datatype Outcome = SUCCEEDED | FAILED | CANCELLED | UNKNOWN
  datatype Verification = VERIFIED | UNVERIFIED | NOT_AVAILABLE
  datatype Coverage = METADATA_ONLY | PARTIAL | COMPLETE
  datatype Lane = COMMAND | STATE | TELEMETRY | OBSERVATION | ALERT | AGENT | CONFIGURATION | CHECKPOINT | GATE | OUTCOME
  datatype Authority = DECLARED | OBSERVED | INFERRED | HUMAN_CONFIRMED | VERIFIED
  datatype Sync = SYNCED | DEGRADED | UNSYNCED | UNKNOWN
  datatype World = PHYSICAL | SIMULATED | REPLAYED
  datatype EvidenceKind = RAW | NORMALIZED | RENDERED | GUI_SCREENSHOT
  datatype FindingKind = OBSERVED_FACT | CANDIDATE_CAUSE | HUMAN_CONFIRMATION | VERIFIED_OUTCOME
  datatype Severity = INFO | WARNING | ERROR | CRITICAL
  datatype Availability = AVAILABLE | MISSING | REDACTED
  datatype Classification = PUBLIC | INTERNAL | SENSITIVE | SECRET

  /** A float that may be NaN or infinite. */
  datatype Metric = Finite(value: real) | NonFinite

  /** `evidence_id_for_reference(robot_id, reference)`: a digest, taken as injective. */
  datatype EvidenceId = EvidenceId(robotId: string, reference: string)

  datatype Identity = Identity(robotId: string, episodeId: string, revision: nat)

  /** Facts about when an event or an asset was seen that the projection copies unread. */
  datatype Moment = Moment(occurredAt: int, durationMs: Option<nat>, clockDomain: string)
  datatype Capture = Capture(
    modality: string, capturedAt: int, offsetMs: nat, evidenceKind: EvidenceKind, frame: Option<string>,
    clockDomain: string, mediaType: string, byteCount: Option<nat>)
  datatype Links = Links(
    executionId: Option<string>, testCaseId: Option<string>, lifecycleRunId: Option<string>, operation: Option<string>)

  // ---- the producer's side ----

  datatype ProducerEvent = ProducerEvent(
    eventId: string, sequence: nat, offsetMs: nat, moment: Moment, synchronization: Sync, lane: Lane,
    title: string, summary: string, severity: Severity, authority: Authority,
    evidenceRefs: seq<string>, assetIds: seq<string>, relatedEventIds: seq<string>,
    metrics: map<string, Metric>, rawPayload: string, limitations: seq<string>)

  datatype ProducerAsset = ProducerAsset(
    assetId: string, sourceLabel: string, capture: Capture, world: World, synchronization: Sync,
    digest: Option<string>, classification: Classification, availability: Availability,
    artifactRef: Option<string>, limitations: seq<string>)

  datatype ProducerFinding = ProducerFinding(
    findingId: string, kind: FindingKind, title: string, summary: string, startMs: nat, endMs: nat,
    evidenceRefs: seq<string>, assetIds: seq<string>, contradictingRefs: seq<string>,
    confidence: Option<real>, verification: Verification, rawAnalysis: string, limitations: seq<string>)

  datatype Record = Record(
    identity: Identity, parentRevision: Option<nat>, commitId: string, committedAt: int, producer: string,
    taskLabel: string, state: State, outcome: Outcome, verification: Verification, coverage: Coverage,
    startedAt: int, endedAt: Option<int>, isImmutable: bool, links: Links, clockDomain: string,
    synchronization: Sync, expectedBehavior: Option<string>, observedBehavior: Option<string>,
    evidenceRefs: seq<string>, events: seq<ProducerEvent>, assets: seq<ProducerAsset>,
    findings: seq<ProducerFinding>, limitations: seq<string>)

  // ---- the public side ----

  datatype AssetSummary = AssetSummary(
    identity: Identity, assetId: string, sourceLabel: string, capture: Capture, world: World, synchronization: Sync,
    digest: Option<string>, classification: Classification, evidenceId: Option<EvidenceId>,
    availability: Availability, limitations: seq<string>)

  datatype TimelineEvent = TimelineEvent(
    identity: Identity, eventId: string, sequence: nat, offsetMs: nat, moment: Moment, synchronization: Sync,
    lane: Lane, title: string, summary: string, severity: Severity, authority: Authority,
    evidenceIds: seq<EvidenceId>, assetIds: seq<string>, relatedEventIds: seq<string>,
    metrics: map<string, Metric>, limitations: seq<string>)

  datatype FindingSummary = FindingSummary(
    identity: Identity, findingId: string, kind: FindingKind, authority: Authority, title: string, summary: string,
    startMs: nat, endMs: nat, supportingEvidenceIds: seq<EvidenceId>, supportingAssetIds: seq<string>,
    contradictingEvidenceIds: seq<EvidenceId>, confidence: Option<real>, verification: Verification,
    limitations: seq<string>)

  datatype Detail = Detail(
    identity: Identity, taskLabel: string, state: State, outcome: Outcome, verification: Verification,
    coverage: Coverage, startedAt: int, endedAt: Option<int>, links: Links,
    eventCount: nat, assetCount: nat, findingCount: nat, evidenceIds: seq<EvidenceId>, limitations: seq<string>,
    asOf: int, isImmutable: bool, clockDomain: string, synchronization: Sync, availableLanes: seq<Lane>,
    expectedBehavior: Option<string>, observedBehavior: Option<string>,
    assets: seq<AssetSummary>, findings: seq<FindingSummary>)

  datatype Projection = Projection(detail: Detail, timeline: seq<TimelineEvent>)
}
