/** Release ids that are the staging name of another: the run in which they meet, and that nothing else goes wrong. */
module AdapterNaming {
  import opened Optional
  import opened AdapterRelease
  import opened AdapterPublication
  import opened AdapterSafety
  import opened AdapterSample
  import opened AdapterRuns

  const ORDER: seq<Path> := [BUNDLE, CATALOG, GRAPH, CONFORMANCE, GATE, PACKAGE]

  lemma OrderEnumerates(key: Key)
    ensures Enumerates(ORDER, PlainRequest(key))
  {
    PlainPlan(key);
    hide FullPlan, Declared;
    assert BUNDLE[0] == "adapter" && CATALOG[0] == "tool-catalog.json" && GRAPH[0] == "state-graph.json";
    assert CONFORMANCE[0] == "conformance-report.json" && GATE[0] == "gate-report.json" && PACKAGE[0] == "adapter";
    assert "adapter"[0] == 'a' && CATALOG[0][0] == 't' && GRAPH[0][0] == 's' && CONFORMANCE[0][0] == 'c' && GATE[0][0] == 'g';
    assert PACKAGE[1] != BUNDLE[1] by { assert PACKAGE[1][7] != BUNDLE[1][7]; }
    assert Done(ORDER) == {BUNDLE, CATALOG, GRAPH, CONFORMANCE, GATE, PACKAGE};
  }

  /** Publisher 1 stages the release named after the staging directory of `key`, while publisher 0 has looked for `key`. */
  function Prelude(key: Key): seq<Step> {
    [Check(0, PlainRequest(key)), Check(1, PlainRequest(Staging(key))), Claim(1)]
  }

  function StagedSteps(key: Key): seq<Step> {
    CopiesOf(1, ORDER, PlainSources(Staging(key), [], [])) + [Write(1)]
  }

  /** Publisher 0 makes its staging directory, publisher 1 renames its tree onto it, and the release is activated. */
  function Meeting(key: Key): seq<Step> {
    [Claim(0), Rename(1), Activation(Staging(key), None, Some("fingerprint-1"))]
  }

  function Collision(key: Key): seq<Step> {
    Prelude(key) + StagedSteps(key) + Meeting(key)
  }

  /** Publisher 0 goes on, finds a source missing and removes what it takes for its staging directory. */
  const LAST: Step := Copy(0, BUNDLE, map[])

  lemma StagingIsSafe(key: Key)
    requires SafeKey(key)
    ensures SafeKey(Staging(key))
  {
  }

  function Looked(key: Key): World {
    World(State(map[Staging(Staging(key)) := map[]], map[]),
          map[0 := Publisher(Checked, PlainRequest(key)),
              1 := Publisher(Copying(FullPlan(PlainRequest(Staging(key))).Keys), PlainRequest(Staging(key)))])
  }

  lemma PreludeRuns(key: Key)
    requires SafeKey(key)
    ensures After(START, Prelude(key)) == Looked(key)
  {
    StagingIsSafe(key);
    hide Staging, SafeKey, FullPlan;
    var a, b, c := Check(0, PlainRequest(key)), Check(1, PlainRequest(Staging(key))), Claim(1);
    assert Prelude(key) == [a] + [b] + [c];
    AfterJoined(START, [a] + [b], [c]);
    AfterJoined(START, [a], [b]);
    AfterOne(START, a);
    AfterOne(Next(START, a), b);
    AfterOne(Next(Next(START, a), b), c);
    hide After;
    var one: map<nat, Publisher> := map[0 := Publisher(Checked, PlainRequest(key))];
    assert Next(START, a) == World(State(map[], map[]), one);
    assert Next(Next(START, a), b) == World(State(map[], map[]), one[1 := Publisher(Checked, PlainRequest(Staging(key)))]);
    assert Looked(key).publishers == one[1 := Looked(key).publishers[1]];
  }

  function Waiting(key: Key, files: Files): World {
    World(State(map[Staging(Staging(key)) := files], map[]),
          map[0 := Publisher(Checked, PlainRequest(key)), 1 := Publisher(Written, PlainRequest(Staging(key)))])
  }

  lemma LookedStarts(key: Key)
    ensures Starts(Looked(key), 1, PlainRequest(Staging(key)))
    ensures forall files :: Waiting(key, files)
              == World(Looked(key).state.(dirs := Looked(key).state.dirs[Staging(Staging(key)) := files]),
                       Looked(key).publishers[1 := Publisher(Written, PlainRequest(Staging(key)))])
  {
    hide Staging, FullPlan;
    var q := PlainRequest(Staging(key));
    var one: map<nat, Publisher> := map[0 := Publisher(Checked, PlainRequest(key))];
    Overwrites(one, 1, Publisher(Copying(FullPlan(q).Keys), q), Publisher(Written, q));
    assert Looked(key).publishers == one[1 := Publisher(Copying(FullPlan(q).Keys), q)];
    forall files ensures Waiting(key, files).publishers == Looked(key).publishers[1 := Publisher(Written, q)] {
      assert Waiting(key, files).publishers == one[1 := Publisher(Written, q)];
    }
  }

  lemma StagedRuns(key: Key, files: Files)
    requires Assemble(PlainRequest(Staging(key)), PlainSources(Staging(key), [], [])) == Some(files)
    ensures After(Looked(key), StagedSteps(key)) == Waiting(key, files)
  {
    LookedStarts(key);
    OrderEnumerates(Staging(key));
    assert PlainRequest(Staging(key)).key == Staging(key);
    hide Staging, Assemble, After, PlainSources, PlainRequest, Starts, Enumerates, CopiesOf, Looked, Waiting;
    StagedRun(Looked(key), 1, PlainRequest(Staging(key)), PlainSources(Staging(key), [], []), ORDER);
  }

  /** Both publishers have met in the one directory, which is by now an active release. */
  function Met(key: Key, files: Files): World
    requires MANIFEST in files
  {
    var other := Staging(key);
    World(State(map[other := files],
                map[key.robotId := Index(key.robotId, other.releaseId, MANIFEST, Sha(files[MANIFEST]))]),
          map[0 := Publisher(Copying(FullPlan(PlainRequest(key)).Keys), PlainRequest(key))])
  }

  predicate Loadable(key: Key, files: Files) {
    && MANIFEST in files && files[MANIFEST].ManifestFile? && files[MANIFEST].manifest.fingerprint == "fingerprint-1"
    && files[MANIFEST].manifest.releaseId == key.releaseId
    && VerifiedRelease(files, key.robotId, key.releaseId, MANIFEST, None).Some?
    && VerifiedRelease(files, key.robotId, key.releaseId, MANIFEST, None).value.manifest == files[MANIFEST].manifest
  }

  lemma MeetingRuns(key: Key, files: Files)
    requires SafeKey(key) && Loadable(Staging(key), files)
    ensures After(Waiting(key, files), Meeting(key)) == Met(key, files)
  {
    hide Staging, FullPlan, After, VerifiedRelease, Waiting, SafeKey, Met, Loadable, Next;
    var w := Waiting(key, files);
    var a, b, c := Claim(0), Rename(1), Activation(Staging(key), None, Some("fingerprint-1"));
    assert Meeting(key) == [a] + [b] + [c];
    AfterJoined(w, [a] + [b], [c]);
    AfterJoined(w, [a], [b]);
    AfterOne(w, a);
    AfterOne(Next(w, a), b);
    AfterOne(Next(Next(w, a), b), c);
    Renamed(key, files);
    ActivatedThen(key, files);
  }

  function Published(key: Key, files: Files): World {
    World(State(map[Staging(key) := files], map[]),
          map[0 := Publisher(Copying(FullPlan(PlainRequest(key)).Keys), PlainRequest(key))])
  }

  /** The rename succeeds: the directory in its place is empty. */
  lemma Renamed(key: Key, files: Files)
    ensures Next(Next(Waiting(key, files), Claim(0)), Rename(1)) == Published(key, files)
  {
    hide Staging, FullPlan;
    var w, other := Waiting(key, files), Staging(key);
    var claimed := Next(w, Claim(0));
    assert claimed.state.dirs == map[Staging(other) := files, other := map[]];
    assert claimed.publishers == map[0 := Publisher(Copying(FullPlan(PlainRequest(key)).Keys), PlainRequest(key)), 1 := w.publishers[1]];
    assert (claimed.state.dirs - {Staging(other)})[other := files] == map[other := files];
    assert claimed.publishers - {1} == Published(key, files).publishers;
  }

  lemma ActivatedThen(key: Key, files: Files)
    requires SafeKey(key) && Loadable(Staging(key), files)
    ensures MANIFEST in files
    ensures Next(Published(key, files), Activation(Staging(key), None, Some("fingerprint-1"))) == Met(key, files)
  {
    StagingIsSafe(key);
    hide VerifiedRelease, FullPlan, SafeKey;
  }

  lemma CollisionRuns(key: Key) returns (files: Files)
    requires SafeKey(key)
    ensures Loadable(Staging(key), files) && After(START, Collision(key)) == Met(key, files)
  {
    var other := Staging(key);
    PlainVerifies(other, [], []);
    files := Assemble(PlainRequest(other), PlainSources(other, [], [])).value;
    hide SafeKey, Staging, After, Assemble, Prelude, StagedSteps, Meeting, Looked, Waiting, Met, VerifiedRelease, PlainSources;
    PreludeRuns(key);
    StagedRuns(key, files);
    MeetingRuns(key, files);
    AfterJoined(START, Prelude(key) + StagedSteps(key), Meeting(key));
    AfterJoined(START, Prelude(key), StagedSteps(key));
  }

  /**
   * Two releases, one named after the staging directory of the other: the second is published,
   * activated and loads; then the publisher of the first removes it, and nothing loads any more.
   */
  lemma StagingNameCollides(key: Key)
    requires SafeKey(key)
    ensures var w := After(START, Collision(key));
            var t := After(START, Collision(key) + [LAST]);
            var other := Staging(key);
            && LoadForActivation(w.state, other).Some? && LoadCurrent(w.state, key.robotId, Some("fingerprint-1")).Current?
            && other !in t.state.dirs && LoadForActivation(t.state, other).None?
            && key.robotId in t.state.current && forall latest :: LoadCurrent(t.state, key.robotId, latest).Failed?
  {
    var files := CollisionRuns(key);
    StagingIsSafe(key);
    var w := Met(key, files);
    hide Collision, After, Loadable;
    AfterJoined(START, Collision(key), [LAST]);
    AfterOne(w, LAST);
    LastRemoves(key, files);
    MetLoads(key, files);
  }

  lemma LastRemoves(key: Key, files: Files)
    requires MANIFEST in files
    ensures Next(Met(key, files), LAST) == World(State(map[], Met(key, files).state.current), map[])
  {
    PlainPlan(key);
    hide FullPlan, Declared, Staging, OneEntrypoint, AllSafe;
    var w := Met(key, files);
    assert w.state.dirs - {Staging(key)} == map[];
    assert w.publishers - {0} == map[];
  }

  lemma MetLoads(key: Key, files: Files)
    requires SafeKey(key) && Loadable(Staging(key), files)
    ensures var w := Met(key, files);
            LoadForActivation(w.state, Staging(key)).Some? && LoadCurrent(w.state, key.robotId, Some("fingerprint-1")).Current?
  {
    StagingIsSafe(key);
    VerifiedHasManifest(files, Staging(key));
    ExpectedDigestHolds(files, key.robotId, Staging(key).releaseId);
    hide VerifiedRelease, FileAt, FullPlan;
  }

  // ---- exactly ----

  /** Whatever has been activated loads, be it stale. */
  ghost predicate CurrentLoads(s: State) {
    forall robotId, latest :: robotId in s.current ==>
      var l := LoadCurrent(s, robotId, latest); l.Current? || l.Stale?
  }

  ghost predicate AlwaysLoads(names: iset<Key>) {
    forall steps :: Over(names, steps) ==> CurrentLoads(After(START, steps).state)
  }

  ghost predicate AlwaysStays(names: iset<Key>) {
    forall steps, later :: Over(names, steps) && Over(names, later) ==>
      VerifiedStay(After(START, steps), After(After(START, steps), later))
  }

  /**
   * Releases stay as they are, and what is current loads, over all interleavings of publications of
   * these releases, if and only if none of them is named after the staging directory of another.
   */
  lemma NamesDecideSafety(names: iset<Key>)
    ensures AlwaysLoads(names) <==> NoStagingNames(names)
    ensures AlwaysStays(names) <==> NoStagingNames(names)
  {
    if NoStagingNames(names) {
      NamesSuffice(names);
    } else {
      var key :| key in names && SafeKey(key) && Staging(key) in names;
      hide AlwaysLoads, AlwaysStays, NoStagingNames, SafeKey, Staging;
      NamesAreNeeded(names, key);
    }
  }

  lemma NamesSuffice(names: iset<Key>)
    requires NoStagingNames(names)
    ensures AlwaysLoads(names) && AlwaysStays(names)
  {
    hide NoStagingNames, VerifiedStay, After, LoadCurrent, Over;
    forall steps | Over(names, steps) ensures CurrentLoads(After(START, steps).state) {
      forall robotId, latest | robotId in After(START, steps).state.current
        ensures var l := LoadCurrent(After(START, steps).state, robotId, latest); l.Current? || l.Stale?
      {
        CurrentAlwaysLoads(names, steps, robotId, latest);
      }
    }
    forall steps, later | Over(names, steps) && Over(names, later)
      ensures VerifiedStay(After(START, steps), After(After(START, steps), later))
    {
      VerifiedIsForever(names, steps, later);
    }
  }

  lemma NamesAreNeeded(names: iset<Key>, key: Key)
    requires key in names && SafeKey(key) && Staging(key) in names
    ensures !AlwaysLoads(names) && !AlwaysStays(names)
  {
    hide SafeKey, Staging, LoadCurrent, LoadForActivation, After;
    StagingNameCollides(key);
    CollisionIsOver(names, key);
    var steps := Collision(key);
    AfterJoined(START, steps, [LAST]);
    hide Over, Collision;
    var t := After(START, steps + [LAST]);
    assert LoadCurrent(t.state, key.robotId, None).Failed?;
    assert !CurrentLoads(t.state);
    assert !VerifiedStay(After(START, steps), After(After(START, steps), [LAST]));
  }

  lemma CollisionIsOver(names: iset<Key>, key: Key)
    requires key in names && Staging(key) in names
    ensures Over(names, Collision(key)) && Over(names, [LAST]) && Over(names, Collision(key) + [LAST])
  {
    hide Staging, PlainSources;
  }
}
