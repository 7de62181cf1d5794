/** The rules of producer records and of public projections, item by item. */
module EpisodeRules {
  import opened Lookup
  import opened Optional
  import opened PublicText
  import opened Sequencing
  import opened EpisodeTypes
  import opened EpisodeValidation

  // ---- producer records ----

  predicate SomeEvent(r: Record, id: string) {
    exists e :: e in r.events && e.eventId == id
  }

  predicate SomeAsset(r: Record, id: string) {
    exists a :: a in r.assets && a.assetId == id
  }

  /** An available asset has a reference and a digest, any other no reference. */
  lemma ValidAssetExactly(a: ProducerAsset)
    ensures ValidAsset(a) <==>
              && IsIdentifier(a.assetId) && |a.limitations| <= 32
              && (a.availability == AVAILABLE ==> a.artifactRef != None && a.digest != None)
              && (a.availability != AVAILABLE ==> a.artifactRef == None)
  {
  }

  /** A finding's interval is not reversed; a candidate cause is not verified, a verified outcome is. */
  lemma ValidFindingExactly(f: ProducerFinding)
    ensures ValidFinding(f) <==>
              && IsIdentifier(f.findingId) && |f.limitations| <= 32 && f.startMs <= f.endMs
              && (f.kind == CANDIDATE_CAUSE ==> f.verification != Verification.VERIFIED)
              && (f.kind == VERIFIED_OUTCOME ==> f.verification == Verification.VERIFIED)
  {
  }

  /**
   * A valid record names its parent exactly after revision 1, ends no earlier than it starts, is
   * committed no earlier, and is open, mutable and without outcome exactly while it is running; its
   * events, assets and findings have distinct ids; no two events share a sequence, and offsets never
   * fall with it; and everything referred to is there.
   */
  lemma ValidRecordExactly(r: Record)
    ensures ValidRecord(r) <==>
              && r.identity.revision >= 1 && |r.limitations| <= 32
              && (r.identity.revision == 1 ==> r.parentRevision == None)
              && (r.identity.revision > 1 ==> r.parentRevision == Some(r.identity.revision - 1))
              && (r.endedAt.Some? ==> r.startedAt <= r.endedAt.value) && r.startedAt <= r.committedAt
              && (if r.state == RUNNING then !r.isImmutable && r.endedAt == None && r.outcome == Outcome.UNKNOWN
                  else r.isImmutable && r.endedAt != None)
              && (forall a :: a in r.assets ==> ValidAsset(a)) && (forall f :: f in r.findings ==> ValidFinding(f))
              && (forall e :: e in r.events ==> IsIdentifier(e.eventId) && |e.limitations| <= 32)
              && (forall i, j :: 0 <= i < j < |r.events| ==> r.events[i].eventId != r.events[j].eventId)
              && (forall i, j :: 0 <= i < j < |r.assets| ==> r.assets[i].assetId != r.assets[j].assetId)
              && (forall i, j :: 0 <= i < j < |r.findings| ==> r.findings[i].findingId != r.findings[j].findingId)
              && EventsInOrder(r.events) && ReferencesThere(r)
  {
    OrderedExactly(r.events);
    ReferencesExactly(r);
    assert (forall e :: e in r.events ==> ValidEvent(e)) <==> forall e :: e in r.events ==> IsIdentifier(e.eventId) && |e.limitations| <= 32;
    hide ValidAsset, ValidFinding, ValidEvent, IsIdentifier, AllInOrder, KnownReferences, EventsInOrder, ReferencesThere;
    DistinctExactly(r);
    hide DistinctKeys;
  }

  ghost predicate EventsInOrder(events: seq<ProducerEvent>) {
    forall i, j :: 0 <= i < |events| && 0 <= j < |events| && i != j ==>
      && events[i].sequence != events[j].sequence
      && (events[i].sequence < events[j].sequence ==> events[i].offsetMs <= events[j].offsetMs)
  }

  ghost predicate ReferencesThere(r: Record) {
    && (forall e, x :: e in r.events && x in e.assetIds ==> SomeAsset(r, x))
    && (forall e, x :: e in r.events && x in e.relatedEventIds ==> SomeEvent(r, x))
    && (forall f, x :: f in r.findings && x in f.assetIds ==> SomeAsset(r, x))
  }

  lemma OrderedExactly(events: seq<ProducerEvent>)
    ensures AllInOrder(events, EventSequence, EventOffset) <==> EventsInOrder(events)
  {
    if AllInOrder(events, EventSequence, EventOffset) {
      forall i, j | 0 <= i < |events| && 0 <= j < |events| && i != j
        ensures events[i].sequence != events[j].sequence
        ensures events[i].sequence < events[j].sequence ==> events[i].offsetMs <= events[j].offsetMs
      {
        if i < j {
          assert InOrder(events[i], events[j], EventSequence, EventOffset);
        } else {
          assert InOrder(events[j], events[i], EventSequence, EventOffset);
        }
      }
    }
  }

  lemma KeysAre(r: Record, x: string)
    ensures x in Keys(r.assets, AssetKey) <==> SomeAsset(r, x)
    ensures x in Keys(r.events, EventKey) <==> SomeEvent(r, x)
  {
    if a :| a in r.assets && a.assetId == x {
      var i :| 0 <= i < |r.assets| && r.assets[i] == a;
      assert AssetKey(r.assets[i]) == x;
    }
    if e :| e in r.events && e.eventId == x {
      var i :| 0 <= i < |r.events| && r.events[i] == e;
      assert EventKey(r.events[i]) == x;
    }
  }

  lemma ReferencesExactly(r: Record)
    ensures KnownReferences(r) <==> ReferencesThere(r)
  {
    forall x ensures (x in Keys(r.assets, AssetKey) <==> SomeAsset(r, x)) && (x in Keys(r.events, EventKey) <==> SomeEvent(r, x)) {
      KeysAre(r, x);
    }
    hide Keys, SomeAsset, SomeEvent;
  }

  lemma DistinctExactly(r: Record)
    ensures DistinctKeys(r.events, EventKey) <==> forall i, j :: 0 <= i < j < |r.events| ==> r.events[i].eventId != r.events[j].eventId
    ensures DistinctKeys(r.assets, AssetKey) <==> forall i, j :: 0 <= i < j < |r.assets| ==> r.assets[i].assetId != r.assets[j].assetId
    ensures DistinctKeys(r.findings, FindingKey)
            <==> forall i, j :: 0 <= i < j < |r.findings| ==> r.findings[i].findingId != r.findings[j].findingId
  {
  }

  // ---- public projections ----

  /** The rules of a detail that concern itself and its own lists. */
  lemma ValidDetailGives(d: Detail)
    requires ValidDetail(d)
    ensures d.identity.revision >= 1 && |d.limitations| <= 32 && d.startedAt <= d.asOf
    ensures d.endedAt.Some? ==> d.startedAt <= d.endedAt.value
    ensures d.state == RUNNING ==> !d.isImmutable && d.endedAt == None && d.outcome == Outcome.UNKNOWN
    ensures d.state != RUNNING ==> d.endedAt != None
    ensures d.verification == Verification.VERIFIED ==> d.evidenceIds != []
    ensures |d.assets| == d.assetCount && |d.findings| == d.findingCount
    ensures forall a :: a in d.assets ==>
              && a.identity == d.identity && |a.limitations| <= 32
              && (a.classification == SECRET ==> a.availability == REDACTED && a.digest == None)
              && (a.availability == AVAILABLE ==> a.digest != None)
    ensures forall f :: f in d.findings ==>
              && f.identity == d.identity && |f.limitations| <= 32 && f.startMs <= f.endMs
              && (f.supportingEvidenceIds != [] || f.supportingAssetIds != [])
              && (f.kind == OBSERVED_FACT ==> f.authority == OBSERVED) && (f.kind == CANDIDATE_CAUSE ==> f.authority == INFERRED)
              && (f.kind == HUMAN_CONFIRMATION ==> f.authority == HUMAN_CONFIRMED)
              && (f.kind == VERIFIED_OUTCOME ==> f.authority == Authority.VERIFIED && f.verification == Verification.VERIFIED)
              && (f.kind == CANDIDATE_CAUSE ==> f.verification != Verification.VERIFIED)
  {
    hide FindingsSupported, ById;
  }

  /** The support of the findings: shown assets, one of them available unless there is evidence, all physical for an outcome. */
  lemma ValidDetailSupports(d: Detail, f: FindingSummary, x: string)
    requires ValidDetail(d) && f in d.findings && x in f.supportingAssetIds
    ensures exists a :: a in d.assets && a.assetId == x && (f.kind == VERIFIED_OUTCOME ==> a.world == PHYSICAL)
  {
    var byId := ById(d.assets, SummaryKey);
    assert FindingSupported(f, byId) && x in byId;
    assert byId[x] in d.assets && SummaryKey(byId[x]) == x;
  }

  /**
   * The rules of a timeline: as many events as counted, all of this revision, with distinct ids and
   * sequences and offsets that never fall; finite public metrics; evidence or assets for whatever
   * claims more than DECLARED; references that are there; and exactly the lanes listed.
   */
  lemma ValidTimelineGives(p: Projection)
    requires ValidTimeline(p)
    ensures |p.timeline| == p.detail.eventCount
    ensures forall e :: e in p.timeline ==>
              && e.identity == p.detail.identity && |e.limitations| <= 32
              && (e.authority != DECLARED ==> e.evidenceIds != [] || e.assetIds != [])
              && forall name :: name in e.metrics ==> IsMetricName(name) && e.metrics[name].Finite?
    ensures forall i, j :: 0 <= i < j < |p.timeline| ==>
              p.timeline[i].eventId != p.timeline[j].eventId && p.timeline[i].sequence != p.timeline[j].sequence
    ensures forall i, j :: 0 <= i < |p.timeline| && 0 <= j < |p.timeline| && p.timeline[i].sequence < p.timeline[j].sequence ==>
              p.timeline[i].offsetMs <= p.timeline[j].offsetMs
    ensures forall e, x :: e in p.timeline && x in e.assetIds ==> exists a :: a in p.detail.assets && a.assetId == x
    ensures forall e, x :: e in p.timeline && x in e.relatedEventIds ==> exists t :: t in p.timeline && t.eventId == x
    ensures forall l :: l in p.detail.availableLanes <==> exists e :: e in p.timeline && e.lane == l
  {
    forall i, j | 0 <= i < j < |p.timeline|
      ensures p.timeline[i].eventId != p.timeline[j].eventId && p.timeline[i].sequence != p.timeline[j].sequence
      ensures p.timeline[i].sequence < p.timeline[j].sequence ==> p.timeline[i].offsetMs <= p.timeline[j].offsetMs
      ensures p.timeline[j].sequence < p.timeline[i].sequence ==> p.timeline[j].offsetMs <= p.timeline[i].offsetMs
    {
      assert TimelineKey(p.timeline[i]) != TimelineKey(p.timeline[j]);
      assert InOrder(p.timeline[i], p.timeline[j], TimelineSequence, TimelineOffset);
    }
    TimelineReferences(p);
    hide AllInOrder, DistinctKeys, ReferencesKnown, Keys;
  }

  lemma TimelineReferences(p: Projection)
    requires ValidTimeline(p)
    ensures forall e, x :: e in p.timeline && x in e.assetIds ==> exists a :: a in p.detail.assets && a.assetId == x
    ensures forall e, x :: e in p.timeline && x in e.relatedEventIds ==> exists t :: t in p.timeline && t.eventId == x
  {
    hide AllInOrder, DistinctKeys, EventsValid, LanesMatch;
    forall e, x | e in p.timeline && x in e.assetIds ensures exists a :: a in p.detail.assets && a.assetId == x {
      var i :| 0 <= i < |p.detail.assets| && SummaryKey(p.detail.assets[i]) == x;
      assert p.detail.assets[i] in p.detail.assets;
    }
    forall e, x | e in p.timeline && x in e.relatedEventIds ensures exists t :: t in p.timeline && t.eventId == x {
      var i :| 0 <= i < |p.timeline| && TimelineKey(p.timeline[i]) == x;
      assert p.timeline[i] in p.timeline;
    }
  }
}
