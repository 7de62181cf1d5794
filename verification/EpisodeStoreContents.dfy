/** What publishing and reading an episode look at and leave, in any store, whatever it holds. */
module EpisodeStoreContents {
  import opened Optional
  import opened EpisodeTypes
  import opened EpisodeValidation
  import opened EpisodeProjection
  import opened EpisodeStore
  import opened EpisodeListing

  /** The publication file of an episode holds a valid projection of it. */
  predicate HoldsPublication(s: Store, key: Key) {
    key in s.publications && Publishable(s.publications[key])
    && s.publications[key].detail.identity.robotId == key.robotId && s.publications[key].detail.identity.episodeId == key.episodeId
  }

  /** The record file of a revision holds a valid record of it. */
  predicate HoldsRecord(s: Store, id: Identity) {
    id in s.records && ValidRecord(s.records[id]) && s.records[id].identity == id
  }

  lemma LoadingExactly(s: Store, key: Key, id: Identity)
    ensures LoadPublication(s, key) == if key !in s.publications then Missing
                                       else if HoldsPublication(s, key) then Found(s.publications[key]) else Invalid
    ensures LoadRecord(s, id) == if id !in s.records then Missing else if HoldsRecord(s, id) then Found(s.records[id]) else Invalid
  {
    hide Publishable, ValidRecord;
  }

  /**
   * A record is published if and only if it projects; its episode has no publication, or a valid one
   * that is this very projection, or one of the revision before whose record is there and valid; and
   * no other record holds its place.  Then record and projection are stored and answered, or as much
   * of that as a crash lets through; otherwise nothing is touched.
   */
  lemma PublishExactly(s: Store, r: Record, crash: Crash)
    requires ValidRecord(r)
    ensures var (t, o) := Publish(s, r, crash);
            var key := Key(r.identity.robotId, r.identity.episodeId);
            var accepted :=
              && Project(r).Some?
              && (key in s.publications ==>
                    && HoldsPublication(s, key)
                    && var current := s.publications[key].detail.identity.revision;
                       || (current == r.identity.revision && s.publications[key] == Project(r).value)
                       || (current + 1 == r.identity.revision && HoldsRecord(s, Identity(key.robotId, key.episodeId, current))))
              && (r.identity in s.records ==> s.records[r.identity] == r);
            && (!accepted ==> t == s && o == Refused)
            && (accepted && crash == BeforeRecord ==> t == s && o == Crashed)
            && (accepted && crash == AfterRecord ==>
                  t.records == s.records[r.identity := r] && t.publications == s.publications && o == Crashed)
            && (accepted && crash == NoCrash ==>
                  t.records == s.records[r.identity := r] && t.publications == s.publications[key := Project(r).value]
                  && o == Published(Project(r).value))
  {
    var key := Key(r.identity.robotId, r.identity.episodeId);
    LoadingExactly(s, key, r.identity);
    if key in s.publications {
      LoadingExactly(s, key, Identity(key.robotId, key.episodeId, s.publications[key].detail.identity.revision));
    }
    hide Publishable, ValidRecord, Project, LoadPublication, LoadRecord, HoldsPublication;
    AcceptedExactly(s, r, key);
    hide Accepts;
  }

  lemma AcceptedExactly(s: Store, r: Record, key: Key)
    requires ValidRecord(r) && key == Key(r.identity.robotId, r.identity.episodeId)
    ensures Accepts(s, r) <==>
              && Project(r).Some?
              && (key in s.publications ==>
                    && HoldsPublication(s, key)
                    && var current := s.publications[key].detail.identity.revision;
                       || (current == r.identity.revision && s.publications[key] == Project(r).value)
                       || (current + 1 == r.identity.revision && HoldsRecord(s, Identity(key.robotId, key.episodeId, current))))
              && (r.identity in s.records ==> s.records[r.identity] == r)
  {
    LoadingExactly(s, key, r.identity);
    if key in s.publications {
      LoadingExactly(s, key, Identity(key.robotId, key.episodeId, s.publications[key].detail.identity.revision));
    }
    hide Publishable, ValidRecord, Project, LoadPublication, LoadRecord, HoldsPublication;
  }

  /**
   * Reading a revision gives the publication if it is the current one, nothing if it is beyond, and
   * otherwise the projection of its record; an invalid file on the way is an error, a missing one is
   * no revision.
   */
  lemma ReadExactly(s: Store, key: Key, v: nat)
    ensures var read := ReadRevision(s, key, Some(v));
            if key !in s.publications then read == Missing
            else if !HoldsPublication(s, key) then read == Invalid
            else
              var current := s.publications[key].detail.identity.revision;
              var id := Identity(key.robotId, key.episodeId, v);
              if v == current then read == Found(s.publications[key])
              else if v > current || id !in s.records then read == Missing
              else if !HoldsRecord(s, id) || Project(s.records[id]).None? then read == Invalid
              else read == Found(Project(s.records[id]).value)
    ensures ReadRevision(s, key, None)
            == if key !in s.publications then Missing else if HoldsPublication(s, key) then Found(s.publications[key]) else Invalid
  {
    LoadingExactly(s, key, Identity(key.robotId, key.episodeId, v));
    hide Publishable, ValidRecord, Project, LoadPublication, LoadRecord, HoldsPublication, HoldsRecord;
  }

  /** The single entry of an episode that is listed without its records shows its publication. */
  lemma IndependentItemShows(d: Detail)
    ensures var item := IndependentItem(d);
            item.revision == d.identity.revision && item.parentRevision == None && item.committedAt == d.asOf
            && item.detail == d && item.isCurrent && !item.fromRecord
  {
  }
}
