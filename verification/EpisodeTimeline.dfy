/** Timeline pages of one revision, and the walk that follows their cursors. */
module EpisodeTimeline {
  import opened Optional
  import opened Sequencing
  import opened EpisodeTypes
  import opened EpisodeValidation
  import opened EpisodeProjection
  import opened EpisodeStore
  import EpisodeHistory

  /** A digest of where the page starts, taken as injective, or any other string a caller sends. */
  datatype Cursor = Issued(key: Key, revision: nat, offset: nat) | Foreign(text: string)

  datatype Page = Page(items: seq<TimelineEvent>, cursor: Option<Cursor>, nextCursor: Option<Cursor>)

  /** `Rejected` is a stored document or a page that a validator refuses. */
  datatype Answer = NoRevision | Rejected | BadCursor | PageOf(page: Page)

  const MAX_LIMIT := 200

  // ---- what a page is ----

  function Events(p: Projection): seq<TimelineEvent> {
    SortBy(p.timeline, TimelineSequence)
  }

  /** Where a cursor points; only cursors of this very revision count. */
  function Start(cursor: Option<Cursor>, key: Key, v: nat, total: nat): (start: Option<nat>)
    ensures start.Some? ==> start.value <= total
  {
    match cursor
    case None => Some(0)
    case Some(Foreign(_)) => None
    case Some(Issued(k, r, o)) => if k == key && r == v && 1 <= o <= total then Some(o) else None
  }

  function PageFrom(events: seq<TimelineEvent>, start: nat, limit: nat, cursor: Option<Cursor>, key: Key, v: nat): Page
    requires start <= |events|
  {
    var end := if start + limit < |events| then start + limit else |events|;
    Page(events[start..end], cursor, if end < |events| then Some(Issued(key, v, end)) else None)
  }

  /** The answer to one request. */
  function TimelinePage(s: Store, key: Key, v: nat, limit: int, cursor: Option<Cursor>): Answer {
    match ReadRevision(s, key, Some(v))
    case Missing => NoRevision
    case Invalid => Rejected
    case Found(p) =>
      var start := Start(cursor, key, v, |Events(p)|);
      if start.None? then BadCursor
      else if !(1 <= limit <= MAX_LIMIT) then Rejected
      else PageOf(PageFrom(Events(p), start.value, limit, cursor, key, v))
  }

  // ---- the page validator never fires on what the store gives out ----

  /** What a read returns carries the identity it was asked for and passed the public validators. */
  lemma ReadIsValid(s: Store, key: Key, v: nat)
    requires ReadRevision(s, key, Some(v)).Found?
    ensures var p := ReadRevision(s, key, Some(v)).value; p.detail.identity == At(key, v) && ValidTimeline(p)
  {
    hide ValidRecord, Draft;
    if key in s.publications && s.publications[key].detail.identity.revision != v {
      EpisodeHistory.ProjectionKeepsIdentity(s.records[At(key, v)]);
    }
  }

  predicate StrictlyOrdered(items: seq<TimelineEvent>, id: Identity) {
    && (forall i :: 0 <= i < |items| ==> items[i].identity == id)
    && forall i, j :: 0 <= i < j < |items| ==> items[i].sequence < items[j].sequence
  }

  lemma SortedMeansStrictlyOrdered(events: seq<TimelineEvent>, id: Identity)
    requires SortedBy(events, TimelineSequence) && AllInOrder(events, TimelineSequence, TimelineOffset)
    requires forall i :: 0 <= i < |events| ==> events[i].identity == id
    ensures StrictlyOrdered(events, id)
  {
    forall i, j | 0 <= i < j < |events| ensures events[i].sequence < events[j].sequence {
      assert TimelineSequence(events[i]) <= TimelineSequence(events[j]);
      assert InOrder(events[i], events[j], TimelineSequence, TimelineOffset);
    }
  }

  /** The sorted timeline is the timeline, each event once, in strictly growing sequence. */
  lemma EventsAreOrdered(p: Projection)
    requires ValidTimeline(p)
    ensures StrictlyOrdered(Events(p), p.detail.identity) && multiset(Events(p)) == multiset(p.timeline)
  {
    assert EventsValid(p.timeline, p.detail.identity) && AllInOrder(p.timeline, TimelineSequence, TimelineOffset);
    hide ValidTimeline, ValidTimelineEvent, StrictlyOrdered, AllInOrder, SortedBy;
    SortKeepsOrderRule(p.timeline, TimelineSequence, TimelineOffset);
    var events := SortBy(p.timeline, TimelineSequence);
    hide SortBy;
    forall i | 0 <= i < |events| ensures events[i].identity == p.detail.identity {
      assert events[i] in p.timeline;
    }
    SortedMeansStrictlyOrdered(events, p.detail.identity);
  }

  /** `validate_page`: one pass with the previous sequence. */
  method ValidatePage(items: seq<TimelineEvent>, id: Identity) returns (ok: bool)
    ensures ok <==> StrictlyOrdered(items, id)
  {
    var previous: int := -1;
    for i := 0 to |items|
      invariant StrictlyOrdered(items[..i], id)
      invariant previous == if i == 0 then -1 else items[i - 1].sequence
    {
      if items[i].identity != id || items[i].sequence <= previous {
        assert items[i].sequence <= previous ==> i > 0 && items[i - 1].sequence >= items[i].sequence;
        return false;
      }
      previous := items[i].sequence;
    }
    assert items[..|items|] == items;
    return true;
  }

  /** The search for the offset whose cursor was sent. */
  method FindStart(cursor: Option<Cursor>, key: Key, v: nat, total: nat) returns (start: Option<nat>)
    ensures start == Start(cursor, key, v, total)
  {
    if cursor.None? {
      return Some(0);
    }
    var candidate := 1;
    while candidate <= total
      invariant 1 <= candidate <= total + 1
      invariant forall o :: 1 <= o < candidate ==> cursor.value != Issued(key, v, o)
    {
      if cursor.value == Issued(key, v, candidate) {
        return Some(candidate);
      }
      candidate := candidate + 1;
    }
    if cursor.value.Issued? && cursor.value.offset >= 1 {
      assert cursor.value != Issued(key, v, cursor.value.offset) || cursor.value.offset > total;
    }
    return None;
  }

  lemma PageIsOrdered(events: seq<TimelineEvent>, id: Identity, start: nat, end: nat)
    requires StrictlyOrdered(events, id) && start <= end <= |events|
    ensures StrictlyOrdered(events[start..end], id)
  {
  }

  /** `build_episode_timeline_page`. */
  method BuildTimelinePage(s: Store, key: Key, v: nat, limit: int, cursor: Option<Cursor>) returns (a: Answer)
    ensures a == TimelinePage(s, key, v, limit, cursor)
  {
    hide ReadRevision, Start, ValidTimeline, StrictlyOrdered, SortBy;
    var read := ReadRevision(s, key, Some(v));
    if !read.Found? {
      return if read.Missing? then NoRevision else Rejected;
    }
    ReadIsValid(s, key, v);
    var events := SortBy(read.value.timeline, TimelineSequence);
    EventsAreOrdered(read.value);
    var start := FindStart(cursor, key, v, |events|);
    if start.None? {
      return BadCursor;
    }
    if !(1 <= limit <= MAX_LIMIT) {
      return Rejected;
    }
    var end := if start.value + limit < |events| then start.value + limit else |events|;
    PageIsOrdered(events, At(key, v), start.value, end);
    var ok := ValidatePage(events[start.value..end], At(key, v));
    if !ok {
      return Rejected;
    }
    return PageOf(Page(events[start.value..end], cursor, if end < |events| then Some(Issued(key, v, end)) else None));
  }

  // ---- the walk ----

  /** How much is left to read from a cursor. */
  function Left(s: Store, key: Key, v: nat, cursor: Option<Cursor>): nat {
    var read := ReadRevision(s, key, Some(v));
    if !read.Found? then 0
    else
      var total := |Events(read.value)|;
      match Start(cursor, key, v, total) case None => 0 case Some(start) => total - start
  }

  /** Ask for a page, then for the page its cursor names, until there is none. */
  function Walk(s: Store, key: Key, v: nat, limit: int, cursor: Option<Cursor>): seq<Page>
    decreases Left(s, key, v, cursor)
  {
    match TimelinePage(s, key, v, limit, cursor)
    case NoRevision => []
    case Rejected => []
    case BadCursor => []
    case PageOf(page) => if page.nextCursor.None? then [page] else [page] + Walk(s, key, v, limit, page.nextCursor)
  }

  function Concatenated(pages: seq<Page>): seq<TimelineEvent> {
    if pages == [] then [] else pages[0].items + Concatenated(pages[1..])
  }

  lemma {:induction false} WalkFromGivesRest(s: Store, key: Key, v: nat, limit: int, cursor: Option<Cursor>)
    requires ReadRevision(s, key, Some(v)).Found? && 1 <= limit <= MAX_LIMIT
    requires var events := Events(ReadRevision(s, key, Some(v)).value); Start(cursor, key, v, |events|).Some?
    ensures var events := Events(ReadRevision(s, key, Some(v)).value);
            var start := Start(cursor, key, v, |events|).value;
            Concatenated(Walk(s, key, v, limit, cursor)) == events[start..]
    decreases Left(s, key, v, cursor)
  {
    hide ReadRevision, Events;
    var events := Events(ReadRevision(s, key, Some(v)).value);
    var start := Start(cursor, key, v, |events|).value;
    var page := PageFrom(events, start, limit, cursor, key, v);
    if page.nextCursor.Some? {
      WalkFromGivesRest(s, key, v, limit, page.nextCursor);
      var rest := Walk(s, key, v, limit, page.nextCursor);
      assert ([page] + rest)[1..] == rest;
      assert events[start..] == page.items + events[start + limit..];
    } else {
      assert [page][1..] == [];
      assert events[start..] == page.items;
    }
  }

  /**
   * Following the cursors from the first page ends, and gives every event of the timeline exactly
   * once in strictly growing sequence, whatever the page size.
   */
  lemma WalkIsComplete(s: Store, key: Key, v: nat, limit: int)
    requires ReadRevision(s, key, Some(v)).Found? && 1 <= limit <= MAX_LIMIT
    ensures var seen := Concatenated(Walk(s, key, v, limit, None));
            && seen == Events(ReadRevision(s, key, Some(v)).value)
            && multiset(seen) == multiset(ReadRevision(s, key, Some(v)).value.timeline)
            && StrictlyOrdered(seen, At(key, v))
  {
    WalkFromGivesRest(s, key, v, limit, None);
    ReadIsValid(s, key, v);
    EventsAreOrdered(ReadRevision(s, key, Some(v)).value);
  }

  /** Pages may be asked for across any later publishing, with crashes: each is what it would have been. */
  lemma PagesSurvivePublishing(before: seq<EpisodeHistory.Call>, later: seq<EpisodeHistory.Call>, key: Key, v: nat,
                               limit: int, cursor: Option<Cursor>)
    requires EpisodeHistory.ValidCalls(before) && EpisodeHistory.ValidCalls(later)
    requires ReadRevision(EpisodeHistory.After(EpisodeHistory.EMPTY, before), key, Some(v)).Found?
    ensures var s := EpisodeHistory.After(EpisodeHistory.EMPTY, before);
            TimelinePage(EpisodeHistory.After(s, later), key, v, limit, cursor) == TimelinePage(s, key, v, limit, cursor)
  {
    hide ReadRevision, EpisodeHistory.After;
    EpisodeHistory.HistoryIsStable(before, later, key, v);
  }

  /**
   * One answer, item by item: no revision, or a document that is refused; a cursor that is not of
   * this revision or points past its end; a limit outside 1 to 200; otherwise the events from there
   * on, as many as the limit allows, and a cursor to the next exactly if there are more.
   */
  lemma PageExactly(s: Store, key: Key, v: nat, limit: int, cursor: Option<Cursor>)
    ensures var read, answer := ReadRevision(s, key, Some(v)), TimelinePage(s, key, v, limit, cursor);
            match read
            case Missing => answer == NoRevision
            case Invalid => answer == Rejected
            case Found(p) =>
              var total := |p.timeline|;
              if cursor.Some? && !(exists o :: 1 <= o <= total && cursor.value == Issued(key, v, o)) then answer == BadCursor
              else if limit < 1 || limit > 200 then answer == Rejected
              else
                var start := if cursor.None? then 0 else cursor.value.offset;
                var count := if total - start <= limit then total - start else limit;
                && answer.PageOf? && |answer.page.items| == count && answer.page.cursor == cursor
                && (forall i :: 0 <= i < count ==> answer.page.items[i] == Events(p)[start + i])
                && answer.page.nextCursor == (if start + count < total then Some(Issued(key, v, start + count)) else None)
  {
    hide ReadRevision, SortBy;
  }
}
