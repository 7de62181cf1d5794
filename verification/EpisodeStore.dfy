/** The episode artifact store: write-once revision records, one moving publication, historical reads. */
module EpisodeStore {
  import opened Optional
  import opened EpisodeTypes
  import opened EpisodeValidation
  import opened EpisodeProjection

  /** The bound on the number of record files a listing will read. */
  const MAX_REVISIONS := 1000

  datatype Key = Key(robotId: string, episodeId: string)

  function KeyOf(id: Identity): Key {
    Key(id.robotId, id.episodeId)
  }

  function At(key: Key, revision: nat): Identity {
    Identity(key.robotId, key.episodeId, revision)
  }

  datatype Store = Store(records: map<Identity, Record>, publications: map<Key, Projection>)

  // ---- loading ----

  datatype Loaded<+T> = Missing | Invalid | Found(value: T)

  /** `_load_projection`: the validators and the location check, again. */
  function LoadPublication(s: Store, key: Key): Loaded<Projection> {
    if key !in s.publications then Missing
    else
      var p := s.publications[key];
      if !Publishable(p) || KeyOf(p.detail.identity) != key then Invalid else Found(p)
  }

  /** `load_committed_episode_record`. */
  function LoadRecord(s: Store, id: Identity): Loaded<Record> {
    if id !in s.records then Missing
    else
      var r := s.records[id];
      if !ValidRecord(r) || r.identity != id then Invalid else Found(r)
  }

  /** `_projection_for_revision`: `Missing` is an unpublished episode or an unavailable revision. */
  function ReadRevision(s: Store, key: Key, revision: Option<nat>): Loaded<Projection> {
    match LoadPublication(s, key)
    case Missing => Missing
    case Invalid => Invalid
    case Found(current) =>
      if revision.None? || revision.value == current.detail.identity.revision then Found(current)
      else if revision.value > current.detail.identity.revision then Missing
      else
        match LoadRecord(s, At(key, revision.value))
        case Missing => Missing
        case Invalid => Invalid
        case Found(r) => match Project(r) case None => Invalid case Some(p) => Found(p)
  }

  // ---- publishing, declaratively ----

  datatype Crash = NoCrash | BeforeRecord | AfterRecord

  datatype Outcome = Refused | Crashed | Published(projection: Projection)

  /** The current publication lets revision `r` in: none yet, the same one again, or its successor. */
  predicate MayFollow(s: Store, r: Record, p: Projection) {
    match LoadPublication(s, KeyOf(r.identity))
    case Missing => true
    case Invalid => false
    case Found(current) =>
      var v := current.detail.identity.revision;
      || (v == r.identity.revision && current == p)
      || (v + 1 == r.identity.revision && LoadRecord(s, At(KeyOf(r.identity), v)).Found?)
  }

  /** No other content is committed where `r` belongs. */
  predicate RecordFree(s: Store, r: Record) {
    r.identity in s.records ==> LoadRecord(s, r.identity) == Found(r)
  }

  predicate Accepts(s: Store, r: Record) {
    Project(r).Some? && MayFollow(s, r, Project(r).value) && RecordFree(s, r)
  }

  function Committed(s: Store, r: Record): Store {
    s.(records := s.records[r.identity := r])
  }

  /** The store after one call of `publish_episode_record`, and its answer. */
  function Publish(s: Store, r: Record, crash: Crash): (Store, Outcome) {
    if !Accepts(s, r) then (s, Refused)
    else match crash
      case BeforeRecord => (s, Crashed)
      case AfterRecord => (Committed(s, r), Crashed)
      case NoCrash =>
        var p := Project(r).value;
        (Committed(s, r).(publications := s.publications[KeyOf(r.identity) := p]), Published(p))
  }

  // ---- the code ----

  class EpisodeArtifacts {
    var records: map<Identity, Record>
    var publications: map<Key, Projection>

    ghost function Contents(): Store
      reads this
    {
      Store(records, publications)
    }

    constructor ()
      ensures Contents() == Store(map[], map[])
    {
      records, publications := map[], map[];
    }

    /** `write_committed_episode_record`: create the record file, or find the same content in it. */
    method WriteCommittedRecord(r: Record) returns (ok: bool)
      modifies this`records
      ensures ok == old(RecordFree(Contents(), r))
      ensures records == if ok then old(records)[r.identity := r] else old(records)
    {
      if r.identity in records {
        var existing := LoadRecord(Store(records, publications), r.identity);
        return existing == Found(r);
      }
      records := records[r.identity := r];
      ok := true;
    }

    /** The revision checks against the current publication. */
    method CheckRevision(r: Record, p: Projection) returns (ok: bool, current: Loaded<Projection>)
      ensures current == LoadPublication(Contents(), KeyOf(r.identity))
      ensures ok == MayFollow(Contents(), r, p)
    {
      var key := KeyOf(r.identity);
      current := LoadPublication(Store(records, publications), key);
      match current {
        case Missing => ok := true;
        case Invalid => ok := false;
        case Found(c) =>
          var published := c.detail.identity.revision;
          if published > r.identity.revision {
            return false, current;
          }
          if published == r.identity.revision && c != p {
            return false, current;
          }
          if published < r.identity.revision {
            if r.identity.revision != published + 1 {
              return false, current;
            }
            var parent := LoadRecord(Store(records, publications), At(key, published));
            if !parent.Found? {
              return false, current;
            }
          }
          ok := true;
      }
    }

    /** `publish_episode_record`. */
    method PublishRecord(r: Record, crash: Crash) returns (o: Outcome)
      requires ValidRecord(r)
      modifies this
      ensures (Contents(), o) == Publish(old(Contents()), r, crash)
    {
      hide Draft, ValidRecord, Publishable;
      var projected := ProjectEpisodeRecord(r);
      if projected.None? {
        return Refused;
      }
      var p := projected.value;
      var allowed, current := CheckRevision(r, p);
      if !allowed {
        return Refused;
      }
      if crash.BeforeRecord? {
        return if RecordFree(Store(records, publications), r) then Crashed else Refused;
      }
      var written := WriteCommittedRecord(r);
      if !written {
        return Refused;
      }
      if crash.AfterRecord? {
        return Crashed;
      }
      if current.Found? && current.value.detail.identity.revision == r.identity.revision {
        assert old(publications)[KeyOf(r.identity)] == p;
        assert publications == publications[KeyOf(r.identity) := p];
        return Published(current.value);
      }
      publications := publications[KeyOf(r.identity) := p];
      o := Published(p);
    }
  }
}
