/** What holds of adapter releases in every reachable state, with publishers interleaved and crashing. */
module AdapterSafety {
  import opened Optional
  import opened Lookup
  import opened AdapterRelease
  import opened AdapterPublication

  // ---- one publication ----

  /** Everything the written manifest pins is there, byte for byte. */
  lemma PublishedHashesHold(q: Request, copied: Files)
    requires Covers(q, copied)
    ensures FullyCopied(q, copied)
    ensures var files := Sealed(q, copied);
            && FileAt(files, MANIFEST) == Some(files[MANIFEST]) && files[MANIFEST].ManifestFile?
            && HashesHold(files, files[MANIFEST].manifest)
            && files[MANIFEST].manifest.fingerprint == q.fingerprint
            && files[MANIFEST].manifest.releaseId == q.key.releaseId && files[MANIFEST].manifest.robotId == q.key.robotId
  {
    CopiesAreComplete(q, copied);
    var files := Sealed(q, copied);
    var m := ManifestOf(q, copied);
    EntrypointIsDeclared(q);
    hide Copied, FullyCopied, Declared, Target, FullPlan;
    assert forall path :: path in copied && ".." !in path ==> HashMatches(files, path, Sha(copied[path]));
    TargetsAreInside(q);
    FixedPathsAreInside();
    forall i | 0 <= i < |Pins(m)| ensures HashMatches(files, Pins(m)[i].path, Pins(m)[i].digest) {
    }
    forall i | 0 <= i < |m.adapterFiles| ensures HashMatches(files, m.adapterFiles[i].path, m.adapterFiles[i].digest) {
      assert m.adapterFiles[i] == PublishedFiles(q, copied)[i];
    }
  }

  lemma TargetsAreInside(q: Request)
    requires AllSafe(q)
    ensures forall i :: 0 <= i < |Declared(q)| ==> ".." !in Target(Declared(q)[i])
  {
    forall i | 0 <= i < |Declared(q)| ensures ".." !in Target(Declared(q)[i]) {
      assert SafePath(Declared(q)[i].relative);
      assert "adapter"[0] != ".."[0];
    }
  }

  lemma FixedPathsAreInside()
    ensures ".." !in MANIFEST && ".." !in BUNDLE && ".." !in CATALOG && ".." !in GRAPH && ".." !in CONFORMANCE && ".." !in GATE
  {
    assert "adapter"[0] != ".."[0] && "manifest.json"[0] != ".."[0] && "adapter-manifest.json"[0] != ".."[0];
    assert "tool-catalog.json"[0] != ".."[0] && "state-graph.json"[0] != ".."[0];
    assert "conformance-report.json"[0] != ".."[0] && "gate-report.json"[0] != ".."[0];
  }

  /** The documents that were copied belong together: what no digest can tell. */
  predicate Coherent(q: Request, copied: Files)
    requires FullyCopied(q, copied)
  {
    var m := ManifestOf(q, copied);
    && copied[BUNDLE].BundleFile? && copied[CATALOG].CatalogFile?
    && Belongs(q, copied[BUNDLE].bundle, copied[CATALOG].catalog)
    && copied[GRAPH] == GraphFile(q.key.robotId, q.discoveryId)
    && copied[CONFORMANCE] == ConformanceFile(q.key.robotId, q.discoveryId)
    && copied[GATE] == GateFile(Gate(q.key.releaseId, q.key.robotId, q.discoveryId, true))
    && copied[BUNDLE].bundle.packageDigest == m.package.digest
    && FilesAgree(m, copied[BUNDLE].bundle)
    && CatalogBinds(copied[BUNDLE].bundle, copied[CATALOG].catalog)
  }

  predicate Belongs(q: Request, b: Bundle, c: Catalog) {
    && BundleValid(b) && b.robotId == q.key.robotId && b.discoveryId == q.discoveryId
    && c.robotId == q.key.robotId && c.discoveryId == q.discoveryId
  }

  /**
   * Loading right after publishing: the identity and hash checks never fail, so a published release
   * verifies exactly when the documents handed in belong together.
   */
  lemma PublishedVerifiesExactly(q: Request, copied: Files)
    requires Covers(q, copied)
    ensures FullyCopied(q, copied)
    ensures var files := Sealed(q, copied);
            var verified := VerifiedRelease(files, q.key.robotId, q.key.releaseId, MANIFEST, None);
            && (verified.Some? <==> Coherent(q, copied))
            && (verified.Some? ==>
                  verified.value == Release(files[MANIFEST].manifest, copied[BUNDLE].bundle, copied[CATALOG].catalog))
  {
    PublishedHashesHold(q, copied);
    CopiesAreComplete(q, copied);
    FixedPathsAreInside();
    var files := Sealed(q, copied);
    var m := ManifestOf(q, copied);
    assert FileAt(files, BUNDLE) == Some(copied[BUNDLE]) && FileAt(files, CATALOG) == Some(copied[CATALOG]);
    assert FileAt(files, GRAPH) == Some(copied[GRAPH]) && FileAt(files, GATE) == Some(copied[GATE]);
    assert FileAt(files, CONFORMANCE) == Some(copied[CONFORMANCE]);
    hide FileAt, FullyCopied, Declared, Target, HashesHold, FilesAgree, CatalogBinds, BundleValid, Sealed,
      PublishedFiles, FullPlan;
    assert ManifestAt(files, MANIFEST, None) == Some(m);
    assert DocumentsBelong(files, q.key.robotId, q.key.releaseId, m)
           <==> copied[BUNDLE].BundleFile? && copied[CATALOG].CatalogFile?
                && Belongs(q, copied[BUNDLE].bundle, copied[CATALOG].catalog)
                && copied[GRAPH] == GraphFile(q.key.robotId, q.discoveryId)
                && copied[CONFORMANCE] == ConformanceFile(q.key.robotId, q.discoveryId)
                && copied[GATE] == GateFile(Gate(q.key.releaseId, q.key.robotId, q.discoveryId, true));
  }

  /** No bundle manifest holds its own digest. */
  lemma NoBundleDeclaresItself(b: Bundle)
    ensures forall f :: f in DeclaredFiles(b) ==> f.digest != Sha(BundleFile(b))
  {
    forall i | 0 <= i < |b.files| ensures b.files[i].digest != Sha(BundleFile(b)) {
    }
  }

  /**
   * An adapter file may be declared where the bundle manifest goes, and then takes its place.  Such
   * a release is published like any other and never verifies.
   */
  lemma ReplacedBundleNeverVerifies(q: Request, copied: Files, i: nat)
    requires Covers(q, copied) && i < |Declared(q)| && Target(Declared(q)[i]) == BUNDLE
    ensures FullyCopied(q, copied) && !Coherent(q, copied)
  {
    CopiesAreComplete(q, copied);
    var m := ManifestOf(q, copied);
    assert m.adapterFiles[i].path == BUNDLE && PublishedPath(m.adapterFiles[i]) == BUNDLE[1..];
    if copied[BUNDLE].BundleFile? {
      NoBundleDeclaresItself(copied[BUNDLE].bundle);
    }
    hide FullPlan, CatalogBinds, BundleValid, DeclaredFiles;
  }

  // ---- any interleaving of publishers and activations ----

  /** Where a publisher stands between the existence checks and the rename. */
  datatype Stage = Checked | Copying(todo: set<Path>) | Written

  datatype Publisher = Publisher(stage: Stage, request: Request)

  datatype World = World(state: State, publishers: map<nat, Publisher>)

  /**
   * What a publisher does one after another: look, make the staging directory, copy file by file
   * from sources that may change meanwhile, write the manifest, rename.  `Crash` abandons a
   * publisher where it stands; its staging directory stays.
   */
  datatype Step =
    | Check(who: nat, request: Request) | Claim(who: nat) | Copy(who: nat, path: Path, sources: Sources)
    | Write(who: nat) | Rename(who: nat)
    | Crash(who: nat) | Activation(key: Key, expected: Option<string>, latest: Option<string>)

  function Leave(w: World, who: nat): World {
    w.(publishers := w.publishers - {who})
  }

  /** The staging directory is removed, whatever is in it, and the publisher gone. */
  function GiveUp(w: World, who: nat, key: Key): World {
    Leave(w.(state := w.state.(dirs := w.state.dirs - {Staging(key)})), who)
  }

  predicate At(w: World, who: nat, stage: Stage) {
    who in w.publishers && w.publishers[who].stage == stage
  }

  predicate Copies(w: World, who: nat) {
    who in w.publishers && w.publishers[who].stage.Copying?
  }

  /** The publisher has made its staging directory. */
  predicate Claims(w: World, who: nat) {
    who in w.publishers && !w.publishers[who].stage.Checked?
  }

  function AfterCheck(w: World, who: nat, q: Request): World {
    if who in w.publishers || !SafeKey(q.key) || q.key in w.state.dirs || Staging(q.key) in w.state.dirs then w
    else w.(publishers := w.publishers[who := Publisher(Checked, q)])
  }

  function AfterClaim(w: World, who: nat): World {
    if !At(w, who, Checked) then w
    else
      var q := w.publishers[who].request;
      if Staging(q.key) in w.state.dirs then Leave(w, who)
      else
        World(w.state.(dirs := w.state.dirs[Staging(q.key) := map[]]),
              w.publishers[who := Publisher(Copying(FullPlan(q).Keys), q)])
  }

  /** A missing directory is made again. */
  function Put(dirs: map<Key, Files>, key: Key, path: Path, content: Content): map<Key, Files> {
    dirs[key := (if key in dirs then dirs[key] else map[])[path := content]]
  }

  function AfterCopy(w: World, who: nat, path: Path, sources: Sources): World {
    if !Copies(w, who) || path !in w.publishers[who].stage.todo || path !in FullPlan(w.publishers[who].request) then w
    else
      var q := w.publishers[who].request;
      if !OneEntrypoint(q) || !AllSafe(q) || FullPlan(q)[path] !in sources then GiveUp(w, who, q.key)
      else
        World(w.state.(dirs := Put(w.state.dirs, Staging(q.key), path, sources[FullPlan(q)[path]])),
              w.publishers[who := Publisher(Copying(w.publishers[who].stage.todo - {path}), q)])
  }

  function AfterWrite(w: World, who: nat): World {
    if !At(w, who, Copying({})) then w
    else
      var q := w.publishers[who].request;
      var staging := Staging(q.key);
      if staging !in w.state.dirs || !FullyCopied(q, w.state.dirs[staging]) then GiveUp(w, who, q.key)
      else
        World(w.state.(dirs := w.state.dirs[staging := Sealed(q, w.state.dirs[staging])]),
              w.publishers[who := Publisher(Written, q)])
  }

  /** A directory may take the place of an empty one, and of no other. */
  function AfterRename(w: World, who: nat): World {
    if !At(w, who, Written) then w
    else
      var q := w.publishers[who].request;
      var staging := Staging(q.key);
      if staging !in w.state.dirs || (q.key in w.state.dirs && w.state.dirs[q.key] != map[]) then GiveUp(w, who, q.key)
      else Leave(w.(state := w.state.(dirs := (w.state.dirs - {staging})[q.key := w.state.dirs[staging]])), who)
  }

  function Next(w: World, step: Step): World {
    match step
    case Check(who, q) => AfterCheck(w, who, q)
    case Claim(who) => AfterClaim(w, who)
    case Copy(who, path, sources) => AfterCopy(w, who, path, sources)
    case Write(who) => AfterWrite(w, who)
    case Rename(who) => AfterRename(w, who)
    case Crash(who) => Leave(w, who)
    case Activation(key, expected, latest) => w.(state := Activate(w.state, key, expected, latest).0)
  }

  const START := World(State(map[], map[]), map[])

  function After(w: World, steps: seq<Step>): World {
    if steps == [] then w else Next(After(w, steps[..|steps| - 1]), steps[|steps| - 1])
  }

  lemma {:induction false} AfterJoined(w: World, a: seq<Step>, b: seq<Step>)
    ensures After(w, a + b) == After(After(w, a), b)
  {
    hide Next;
    if b == [] {
      assert a + b == a;
    } else {
      AfterJoined(w, a, b[..|b| - 1]);
      assert (a + b)[..|a + b| - 1] == a + b[..|b| - 1];
    }
  }

  lemma AfterOne(w: World, step: Step)
    ensures After(w, [step]) == Next(w, step)
  {
    hide Next;
    assert [step][..0] == [];
  }

  // ---- the names in use ----

  /** All releases published in the run are among these. */
  predicate Over(names: iset<Key>, steps: seq<Step>) {
    forall i :: 0 <= i < |steps| && steps[i].Check? ==> steps[i].request.key in names
  }

  /** No release bears the name of the staging directory of another. */
  ghost predicate NoStagingNames(names: iset<Key>) {
    forall key :: key in names && SafeKey(key) ==> Staging(key) !in names
  }

  // ---- the invariant ----

  /** The tree is what some request staged, completely. */
  ghost predicate Complete(key: Key, files: Files) {
    exists q: Request, copied: Files :: q.key == key && Covers(q, copied) && FullyCopied(q, copied) && files == Sealed(q, copied)
  }

  /** Nothing that could pass as the release of that name. */
  predicate Harmless(key: Key, files: Files) {
    MANIFEST in files ==> files[MANIFEST].ManifestFile? && files[MANIFEST].manifest.releaseId != key.releaseId
  }

  ghost predicate DirSound(names: iset<Key>, key: Key, files: Files) {
    if key in names then Complete(key, files) else Harmless(key, files)
  }

  /** The pointer of a robot names a release that passes every check, by its own digest. */
  ghost predicate PointerSound(names: iset<Key>, s: State, robotId: string)
    requires robotId in s.current
  {
    var index := s.current[robotId];
    var key := Key(robotId, index.releaseId);
    && index.robotId == robotId && SafeKey(key) && index.manifest == MANIFEST && key in s.dirs && key in names
    && FileAt(s.dirs[key], MANIFEST).Some? && index.digest == Sha(s.dirs[key][MANIFEST])
    && VerifiedRelease(s.dirs[key], robotId, index.releaseId, MANIFEST, None).Some?
  }

  /** What a publisher past its claim has in its staging directory. */
  ghost predicate Staged(p: Publisher, files: Files) {
    match p.stage
    case Checked => true
    case Copying(todo) =>
      && todo <= FullPlan(p.request).Keys && files.Keys == FullPlan(p.request).Keys - todo
      && (files != map[] ==> OneEntrypoint(p.request) && AllSafe(p.request))
    case Written => Complete(p.request.key, files)
  }

  ghost predicate PublisherSound(names: iset<Key>, w: World, who: nat)
    requires who in w.publishers
  {
    var p := w.publishers[who];
    && p.request.key in names && SafeKey(p.request.key)
    && (Claims(w, who) ==> Staging(p.request.key) in w.state.dirs && Staged(p, w.state.dirs[Staging(p.request.key)]))
  }

  /** No two publishers hold the same staging directory. */
  ghost predicate Apart(w: World) {
    forall a: nat, b: nat :: Claims(w, a) && Claims(w, b) && a != b ==> w.publishers[a].request.key != w.publishers[b].request.key
  }

  ghost predicate Sound(names: iset<Key>, w: World) {
    && (forall key :: key in w.state.dirs ==> DirSound(names, key, w.state.dirs[key]))
    && (forall robotId :: robotId in w.state.current ==> PointerSound(names, w.state, robotId))
    && (forall who :: who in w.publishers ==> PublisherSound(names, w, who))
    && Apart(w)
  }

  /** Released trees are never touched again. */
  predicate Grows(names: iset<Key>, s: State, t: State) {
    forall key :: key in s.dirs && key in names ==> key in t.dirs && t.dirs[key] == s.dirs[key]
  }

  // ---- every step keeps it ----

  /** Only one directory outside the names changes: that keeps everything but the publishers' own part. */
  lemma OtherDirKeepsPointers(names: iset<Key>, s: State, t: State)
    requires Grows(names, s, t) && t.current == s.current
    requires forall r :: r in s.current ==> PointerSound(names, s, r)
    ensures forall r :: r in t.current ==> PointerSound(names, t, r)
  {
    hide VerifiedRelease, FileAt, SafeKey;
    forall r | r in t.current ensures PointerSound(names, t, r) {
      assert PointerSound(names, s, r);
    }
  }

  lemma LeaveKeepsSound(names: iset<Key>, w: World, who: nat)
    requires Sound(names, w)
    ensures Sound(names, Leave(w, who))
  {
    hide DirSound, PointerSound, Staged, SafeKey, Staging;
    var t := Leave(w, who);
    forall x | x in t.publishers ensures PublisherSound(names, t, x) {
      assert PublisherSound(names, w, x);
    }
    assert forall x :: Claims(t, x) ==> Claims(w, x);
  }

  lemma StagingIsInjective(a: Key, b: Key)
    ensures Staging(a) == Staging(b) ==> a == b
  {
    if Staging(a) == Staging(b) {
      var x, y := a.releaseId + ".staging", b.releaseId + ".staging";
      assert x[..|a.releaseId|] == a.releaseId && y[..|b.releaseId|] == b.releaseId;
    }
  }

  /** The staging directories of two publishers are different. */
  lemma OwnDirIsOwn(names: iset<Key>, w: World, who: nat)
    requires Sound(names, w) && who in w.publishers
    ensures var key := w.publishers[who].request.key;
            && (NoStagingNames(names) ==> Staging(key) !in names)
            && forall x :: Claims(w, x) && x != who && Claims(w, who) ==> Staging(w.publishers[x].request.key) != Staging(key)
  {
    hide DirSound, PointerSound, Staged, SafeKey, Staging;
    assert PublisherSound(names, w, who);
    var key := w.publishers[who].request.key;
    forall x | Claims(w, x) && x != who && Claims(w, who) ensures Staging(w.publishers[x].request.key) != Staging(key) {
      StagingIsInjective(w.publishers[x].request.key, key);
    }
  }

  /** A step of one publisher that changes, makes or removes its own staging directory and nothing else. */
  ghost predicate OwnStep(names: iset<Key>, w: World, who: nat, t: World)
    requires who in w.publishers
  {
    var staging := Staging(w.publishers[who].request.key);
    && t.state.dirs - {staging} == w.state.dirs - {staging} && t.state.current == w.state.current
    && (staging in t.state.dirs ==> Harmless(staging, t.state.dirs[staging]))
    && t.publishers - {who} == w.publishers - {who}
    && (who in t.publishers ==> PublisherSound(names, t, who) && t.publishers[who].request == w.publishers[who].request)
    && (Claims(w, who) || staging !in w.state.dirs)
  }

  lemma OwnStepDirs(names: iset<Key>, w: World, who: nat, t: World)
    requires Sound(names, w) && NoStagingNames(names) && who in w.publishers && OwnStep(names, w, who, t)
    ensures forall key :: key in t.state.dirs ==> DirSound(names, key, t.state.dirs[key])
    ensures Grows(names, w.state, t.state)
  {
    OwnDirIsOwn(names, w, who);
    hide Complete, Harmless, Staged, SafeKey, NoStagingNames, Staging, PointerSound, PublisherSound, Apart, Claims;
    var staging := Staging(w.publishers[who].request.key);
    BesideAreTheSame(w.state.dirs, t.state.dirs, staging);
    forall key | key in t.state.dirs ensures DirSound(names, key, t.state.dirs[key]) {
      assert key != staging ==> DirSound(names, key, w.state.dirs[key]);
    }
  }

  lemma OwnStepPublishers(names: iset<Key>, w: World, who: nat, t: World)
    requires Sound(names, w) && NoStagingNames(names) && who in w.publishers && OwnStep(names, w, who, t)
    ensures forall x :: x in t.publishers ==> PublisherSound(names, t, x)
    ensures forall x :: x in t.publishers ==> x in w.publishers && t.publishers[x].request == w.publishers[x].request
  {
    OwnDirIsOwn(names, w, who);
    OthersAreTheSame(w, who, t);
    hide Staged, SafeKey, NoStagingNames, Staging, PointerSound, DirSound, Harmless, Apart;
    var staging := Staging(w.publishers[who].request.key);
    BesideAreTheSame(w.state.dirs, t.state.dirs, staging);
    forall x | x in t.publishers ensures PublisherSound(names, t, x) {
      if x != who {
        assert PublisherSound(names, w, x);
        if Claims(w, x) {
          assert Staging(w.publishers[x].request.key) != staging;
        }
      }
    }
  }

  lemma OwnStepApart(names: iset<Key>, w: World, who: nat, t: World)
    requires Sound(names, w) && who in w.publishers && OwnStep(names, w, who, t)
    ensures Apart(t)
  {
    OthersAreTheSame(w, who, t);
    hide Staged, SafeKey, Staging, PointerSound, DirSound, Harmless;
    forall a: nat, b: nat | Claims(t, a) && Claims(t, b) && a != b
      ensures t.publishers[a].request.key != t.publishers[b].request.key {
      assert PublisherSound(names, w, if a != who then a else b);
      assert a == who || b == who || (Claims(w, a) && Claims(w, b));
    }
  }

  lemma OwnStepKeepsSound(names: iset<Key>, w: World, who: nat, t: World)
    requires Sound(names, w) && NoStagingNames(names) && who in w.publishers && OwnStep(names, w, who, t)
    ensures Sound(names, t) && Grows(names, w.state, t.state)
  {
    OwnStepDirs(names, w, who, t);
    OwnStepPublishers(names, w, who, t);
    OwnStepApart(names, w, who, t);
    assert t.state.current == w.state.current;
    hide OwnStep, PublisherSound, PointerSound, DirSound, Apart, NoStagingNames, Grows;
    OtherDirKeepsPointers(names, w.state, t.state);
  }

  lemma BesideAreTheSame<K, V>(a: map<K, V>, b: map<K, V>, key: K)
    requires a - {key} == b - {key}
    ensures forall x :: x != key ==> (x in a <==> x in b)
    ensures forall x :: x != key && x in a ==> a[x] == b[x]
  {
    forall x | x != key ensures (x in a <==> x in b) && (x in a ==> a[x] == b[x]) {
      assert x in a - {key} <==> x in b - {key};
      if x in a {
        assert (a - {key})[x] == (b - {key})[x];
      }
    }
  }

  lemma OthersAreTheSame(w: World, who: nat, t: World)
    requires t.publishers - {who} == w.publishers - {who}
    ensures forall x :: x != who ==> (x in t.publishers <==> x in w.publishers) && (Claims(t, x) <==> Claims(w, x))
    ensures forall x :: x != who && x in t.publishers ==> t.publishers[x] == w.publishers[x]
  {
    BesideAreTheSame(w.publishers, t.publishers, who);
  }

  lemma CheckKeepsSound(names: iset<Key>, w: World, who: nat, q: Request)
    requires Sound(names, w) && q.key in names
    ensures Sound(names, AfterCheck(w, who, q))
  {
    hide DirSound, PointerSound, Staged, Staging;
    var t := AfterCheck(w, who, q);
    forall x | x in t.publishers ensures PublisherSound(names, t, x) {
      assert x in w.publishers ==> PublisherSound(names, w, x);
    }
    assert forall x: nat :: Claims(t, x) ==> Claims(w, x) && t.publishers[x] == w.publishers[x];
  }

  lemma GiveUpKeepsSound(names: iset<Key>, w: World, who: nat)
    requires Sound(names, w) && NoStagingNames(names) && Claims(w, who)
    ensures var t := GiveUp(w, who, w.publishers[who].request.key); Sound(names, t) && Grows(names, w.state, t.state)
  {
    hide Sound, NoStagingNames, OwnStep, GiveUp, Grows;
    GivingUpIsOwnStep(names, w, who);
    OwnStepKeepsSound(names, w, who, GiveUp(w, who, w.publishers[who].request.key));
  }

  lemma GivingUpIsOwnStep(names: iset<Key>, w: World, who: nat)
    requires Claims(w, who)
    ensures OwnStep(names, w, who, GiveUp(w, who, w.publishers[who].request.key))
  {
    hide Harmless, Staging, PublisherSound;
  }

  lemma ClaimKeepsSound(names: iset<Key>, w: World, who: nat)
    requires Sound(names, w) && NoStagingNames(names)
    ensures Sound(names, AfterClaim(w, who)) && Grows(names, w.state, AfterClaim(w, who).state)
  {
    if At(w, who, Checked) {
      assert PublisherSound(names, w, who);
      LeaveKeepsSound(names, w, who);
      hide Sound, NoStagingNames, Staging, PublisherSound, OwnStep;
      if Staging(w.publishers[who].request.key) !in w.state.dirs {
        ClaimIsOwnStep(names, w, who);
        OwnStepKeepsSound(names, w, who, AfterClaim(w, who));
      }
    }
  }

  lemma ClaimIsOwnStep(names: iset<Key>, w: World, who: nat)
    requires At(w, who, Checked) && PublisherSound(names, w, who)
    requires Staging(w.publishers[who].request.key) !in w.state.dirs
    ensures OwnStep(names, w, who, AfterClaim(w, who))
  {
    hide Staging, FullPlan, SafeKey;
    var t, key := AfterClaim(w, who), w.publishers[who].request.key;
    assert t.state.dirs - {Staging(key)} == w.state.dirs - {Staging(key)};
    assert t.publishers - {who} == w.publishers - {who};
  }

  lemma CopyKeepsSound(names: iset<Key>, w: World, who: nat, path: Path, sources: Sources)
    requires Sound(names, w) && NoStagingNames(names)
    ensures var t := AfterCopy(w, who, path, sources); Sound(names, t) && Grows(names, w.state, t.state)
  {
    if Copies(w, who) {
      GiveUpKeepsSound(names, w, who);
      var q := w.publishers[who].request;
      if path in w.publishers[who].stage.todo && OneEntrypoint(q) && AllSafe(q)
         && path in FullPlan(q) && FullPlan(q)[path] in sources {
        hide Sound, NoStagingNames, OwnStep, Grows;
        CopyIsOwnStep(names, w, who, path, sources);
        OwnStepKeepsSound(names, w, who, AfterCopy(w, who, path, sources));
      }
    }
  }

  lemma CopyIsOwnStep(names: iset<Key>, w: World, who: nat, path: Path, sources: Sources)
    requires Sound(names, w) && Copies(w, who)
    requires path in w.publishers[who].stage.todo && path in FullPlan(w.publishers[who].request)
    requires OneEntrypoint(w.publishers[who].request) && AllSafe(w.publishers[who].request)
    requires FullPlan(w.publishers[who].request)[path] in sources
    ensures OwnStep(names, w, who, AfterCopy(w, who, path, sources))
  {
    SoundPublisher(names, w, who);
    PlanKeeps(w.publishers[who].request, |Declared(w.publishers[who].request)|);
    hide Sound, OneEntrypoint, AllSafe, PublisherSound, Staged, OwnStep, AfterCopy, FullPlan, Staging;
    CopyIsStaged(names, w, who, path, sources);
  }

  lemma CopyIsStaged(names: iset<Key>, w: World, who: nat, path: Path, sources: Sources)
    requires Copies(w, who) && PublisherSound(names, w, who) && MANIFEST !in FullPlan(w.publishers[who].request)
    requires path in w.publishers[who].stage.todo && path in FullPlan(w.publishers[who].request)
    requires OneEntrypoint(w.publishers[who].request) && AllSafe(w.publishers[who].request)
    requires FullPlan(w.publishers[who].request)[path] in sources
    ensures OwnStep(names, w, who, AfterCopy(w, who, path, sources))
  {
    hide Staging, FullPlan, SafeKey, OneEntrypoint, AllSafe;
    var t := AfterCopy(w, who, path, sources);
    var p, staging := w.publishers[who], Staging(w.publishers[who].request.key);
    assert t.state.dirs[staging] == w.state.dirs[staging][path := sources[FullPlan(p.request)[path]]];
    assert t.state.dirs - {staging} == w.state.dirs - {staging};
    assert t.publishers - {who} == w.publishers - {who};
  }

  lemma WriteKeepsSound(names: iset<Key>, w: World, who: nat)
    requires Sound(names, w) && NoStagingNames(names)
    ensures Sound(names, AfterWrite(w, who)) && Grows(names, w.state, AfterWrite(w, who).state)
  {
    if At(w, who, Copying({})) {
      GiveUpKeepsSound(names, w, who);
      WriteIsComplete(names, w, who);
      hide Sound, NoStagingNames, OwnStep, Grows;
      OwnStepKeepsSound(names, w, who, AfterWrite(w, who));
    }
  }

  /** When every file has been copied the manifest can be written, and the tree is then complete. */
  lemma WriteIsComplete(names: iset<Key>, w: World, who: nat)
    requires Sound(names, w) && At(w, who, Copying({}))
    ensures OwnStep(names, w, who, AfterWrite(w, who))
  {
    SoundPublisher(names, w, who);
    var p := w.publishers[who];
    hide Sound, PublisherSound, Staging, AfterWrite, OwnStep, Staged;
    CopiedAll(p, w.state.dirs[Staging(p.request.key)]);
    SealedIsComplete(p.request, w.state.dirs[Staging(p.request.key)]);
    WriteIsOwnStep(names, w, who);
  }

  lemma SoundPublisher(names: iset<Key>, w: World, who: nat)
    requires Sound(names, w) && Claims(w, who)
    ensures PublisherSound(names, w, who)
    ensures Staging(w.publishers[who].request.key) in w.state.dirs
    ensures Staged(w.publishers[who], w.state.dirs[Staging(w.publishers[who].request.key)])
  {
    assert PublisherSound(names, w, who);
    hide DirSound, PointerSound, Staged, SafeKey, Staging;
  }

  lemma WriteIsOwnStep(names: iset<Key>, w: World, who: nat)
    requires At(w, who, Copying({})) && PublisherSound(names, w, who)
    requires var q := w.publishers[who].request;
             var copied := w.state.dirs[Staging(q.key)];
             FullyCopied(q, copied) && Complete(q.key, Sealed(q, copied)) && Harmless(Staging(q.key), Sealed(q, copied))
    ensures OwnStep(names, w, who, AfterWrite(w, who))
  {
    hide Staging, SafeKey, FullyCopied, Complete, Sealed, Harmless, FullPlan;
    var t := AfterWrite(w, who);
    var staging := Staging(w.publishers[who].request.key);
    assert t.state.dirs - {staging} == w.state.dirs - {staging};
    assert t.publishers - {who} == w.publishers - {who};
  }

  lemma CopiedAll(p: Publisher, files: Files)
    requires p.stage == Copying({}) && Staged(p, files)
    ensures Covers(p.request, files)
  {
    PlanKeeps(p.request, |Declared(p.request)|);
    hide OneEntrypoint, AllSafe;
    assert FullPlan(p.request).Keys - {} == FullPlan(p.request).Keys && BUNDLE in FullPlan(p.request);
  }

  lemma SealedIsComplete(q: Request, copied: Files)
    requires Covers(q, copied)
    ensures FullyCopied(q, copied) && Complete(q.key, Sealed(q, copied)) && Harmless(Staging(q.key), Sealed(q, copied))
  {
    PublishedHashesHold(q, copied);
    StagingIsLonger(q.key);
    hide Covers, FullyCopied, Sealed, HashesHold, Staging;
  }

  lemma StagingIsLonger(key: Key)
    ensures Staging(key).releaseId != key.releaseId
  {
    assert |Staging(key).releaseId| == |key.releaseId| + 8;
  }

  lemma CompleteIsNotEmpty(key: Key, files: Files)
    requires Complete(key, files)
    ensures files != map[] && !Harmless(key, files)
  {
    var q: Request, copied: Files :| q.key == key && Covers(q, copied) && FullyCopied(q, copied) && files == Sealed(q, copied);
    PublishedHashesHold(q, copied);
    hide Covers, FullyCopied, HashesHold;
    assert MANIFEST in files;
  }

  /** The rename puts a complete tree where none was. */
  lemma RenameKeepsSound(names: iset<Key>, w: World, who: nat)
    requires Sound(names, w) && NoStagingNames(names)
    ensures Sound(names, AfterRename(w, who)) && Grows(names, w.state, AfterRename(w, who).state)
  {
    if At(w, who, Written) {
      GiveUpKeepsSound(names, w, who);
      assert PublisherSound(names, w, who);
      var key := w.publishers[who].request.key;
      if key in w.state.dirs {
        assert DirSound(names, key, w.state.dirs[key]);
        CompleteIsNotEmpty(key, w.state.dirs[key]);
      } else {
        var gone := GiveUp(w, who, key);
        var t := AfterRename(w, who);
        assert t == gone.(state := gone.state.(dirs := gone.state.dirs[key := w.state.dirs[Staging(key)]]));
        hide Sound, NoStagingNames, Complete, Staging, SafeKey;
        NewReleaseKeepsSound(names, gone, key, w.state.dirs[Staging(key)]);
      }
    }
  }

  lemma NewReleaseKeepsSound(names: iset<Key>, w: World, key: Key, files: Files)
    requires Sound(names, w) && NoStagingNames(names) && key in names && key !in w.state.dirs && Complete(key, files)
    ensures var t := w.(state := w.state.(dirs := w.state.dirs[key := files]));
            Sound(names, t) && Grows(names, w.state, t.state)
  {
    var t := w.(state := w.state.(dirs := w.state.dirs[key := files]));
    hide Complete, Harmless, SafeKey, NoStagingNames, Staging;
    OtherDirKeepsPointers(names, w.state, t.state);
    hide PointerSound, Staged;
    forall x | x in t.publishers ensures PublisherSound(names, t, x) {
      assert PublisherSound(names, w, x);
      OwnDirIsOwn(names, w, x);
    }
    forall x | x in t.state.dirs ensures DirSound(names, x, t.state.dirs[x]) {
      assert x != key ==> DirSound(names, x, w.state.dirs[x]);
    }
    assert forall x: nat :: Claims(t, x) ==> Claims(w, x);
  }

  /** Only a release can be loaded under its name. */
  lemma LoadableIsRelease(names: iset<Key>, w: World, key: Key)
    requires Sound(names, w) && LoadForActivation(w.state, key).Some?
    ensures key in names && key in w.state.dirs && FileAt(w.state.dirs[key], MANIFEST).Some?
  {
    assert DirSound(names, key, w.state.dirs[key]);
    VerifiedHasManifest(w.state.dirs[key], key);
    hide VerifiedRelease, Complete, Sound;
  }

  lemma VerifiedHasManifest(files: Files, key: Key)
    requires VerifiedRelease(files, key.robotId, key.releaseId, MANIFEST, None).Some?
    ensures FileAt(files, MANIFEST).Some? && !Harmless(key, files)
  {
    hide HashesHold, DocumentsBelong, FilesAgree, CatalogBinds;
  }

  /** What an activation does to the pointers. */
  lemma ActivatedPointer(names: iset<Key>, s: State, key: Key, expected: Option<string>, latest: Option<string>)
    requires LoadForActivation(s, key).Some? ==> key in names
    ensures var (t, ok) := Activate(s, key, expected, latest);
            && t.dirs == s.dirs && (!ok ==> t == s)
            && (ok ==> key.robotId in t.current && PointerSound(names, t, key.robotId)
                       && t.current[key.robotId].releaseId == key.releaseId)
            && forall r :: r != key.robotId ==>
                 (r in t.current <==> r in s.current) && (r in t.current ==> t.current[r] == s.current[r])
  {
    hide VerifiedRelease, SafeSegment;
    if LoadForActivation(s, key).Some? {
      VerifiedHasManifest(s.dirs[key], key);
    }
  }

  lemma ActivationKeepsSound(names: iset<Key>, w: World, key: Key, expected: Option<string>, latest: Option<string>)
    requires Sound(names, w)
    ensures Sound(names, Next(w, Activation(key, expected, latest)))
  {
    var t := Activate(w.state, key, expected, latest).0;
    if LoadForActivation(w.state, key).Some? {
      LoadableIsRelease(names, w, key);
    }
    hide Activate, LoadForActivation, Sound, PointerSound;
    ActivatedPointer(names, w.state, key, expected, latest);
    PointersMoved(names, w, t, key.robotId);
  }

  lemma PointersMoved(names: iset<Key>, w: World, t: State, robotId: string)
    requires Sound(names, w) && t.dirs == w.state.dirs
    requires t == w.state || (robotId in t.current && PointerSound(names, t, robotId))
    requires forall r :: r != robotId ==> (r in t.current ==> r in w.state.current && t.current[r] == w.state.current[r])
    ensures Sound(names, w.(state := t))
  {
    var u := w.(state := t);
    hide VerifiedRelease, FileAt, SafeKey, DirSound, Staged, Staging;
    forall r | r in t.current ensures PointerSound(names, t, r) {
      if r != robotId || t == w.state {
        assert PointerSound(names, w.state, r);
      }
    }
    hide PointerSound;
    forall x | x in u.publishers ensures PublisherSound(names, u, x) {
      assert PublisherSound(names, w, x);
    }
    assert forall x: nat :: Claims(u, x) <==> Claims(w, x);
  }

  lemma StepKeepsSound(names: iset<Key>, w: World, step: Step)
    requires Sound(names, w) && NoStagingNames(names)
    requires step.Check? ==> step.request.key in names
    ensures Sound(names, Next(w, step)) && Grows(names, w.state, Next(w, step).state)
  {
    hide Sound, NoStagingNames, AfterClaim, AfterCopy, AfterWrite, AfterRename, LoadForActivation, Fresh, SafeKey;
    match step {
      case Check(who, q) => CheckKeepsSound(names, w, who, q);
      case Claim(who) => ClaimKeepsSound(names, w, who);
      case Copy(who, path, sources) => CopyKeepsSound(names, w, who, path, sources);
      case Write(who) => WriteKeepsSound(names, w, who);
      case Rename(who) => RenameKeepsSound(names, w, who);
      case Crash(who) => LeaveKeepsSound(names, w, who);
      case Activation(key, expected, latest) => ActivationKeepsSound(names, w, key, expected, latest);
    }
  }

  lemma {:induction false} RunKeepsSound(names: iset<Key>, w: World, steps: seq<Step>)
    requires Sound(names, w) && NoStagingNames(names) && Over(names, steps)
    ensures Sound(names, After(w, steps)) && Grows(names, w.state, After(w, steps).state)
  {
    if steps != [] {
      hide Sound, Next, NoStagingNames;
      var init := steps[..|steps| - 1];
      RunKeepsSound(names, w, init);
      StepKeepsSound(names, After(w, init), steps[|steps| - 1]);
    }
  }

  // ---- the guarantees ----

  /**
   * However publishers interleave and crash, and whatever is activated: loading the current release
   * of a robot passes every check and can only turn out stale.
   */
  lemma CurrentAlwaysLoads(names: iset<Key>, steps: seq<Step>, robotId: string, latest: Option<string>)
    requires NoStagingNames(names) && Over(names, steps)
    requires robotId in After(START, steps).state.current
    ensures var s := After(START, steps).state;
            var loaded := LoadCurrent(s, robotId, latest);
            && (loaded.Current? || loaded.Stale?)
            && (loaded.Current? <==> Fresh(loaded.release, latest))
            && loaded.release.manifest.releaseId == s.current[robotId].releaseId
  {
    StartIsSound(names);
    hide *;
    RunKeepsSound(names, START, steps);
    SoundWorldLoads(names, After(START, steps), robotId, latest);
  }

  lemma StartIsSound(names: iset<Key>)
    ensures Sound(names, START)
  {
    hide DirSound, PointerSound, PublisherSound;
  }

  lemma SoundWorldLoads(names: iset<Key>, w: World, robotId: string, latest: Option<string>)
    requires Sound(names, w) && robotId in w.state.current
    ensures var loaded := LoadCurrent(w.state, robotId, latest);
            && (loaded.Current? || loaded.Stale?)
            && (loaded.Current? <==> Fresh(loaded.release, latest))
            && loaded.release.manifest.releaseId == w.state.current[robotId].releaseId
  {
    assert PointerSound(names, w.state, robotId);
    hide *;
    SoundPointerLoads(names, w.state, robotId, latest);
  }

  lemma SoundPointerLoads(names: iset<Key>, s: State, robotId: string, latest: Option<string>)
    requires robotId in s.current && PointerSound(names, s, robotId)
    ensures var loaded := LoadCurrent(s, robotId, latest);
            && (loaded.Current? || loaded.Stale?)
            && (loaded.Current? <==> Fresh(loaded.release, latest))
            && loaded.release.manifest.releaseId == s.current[robotId].releaseId
  {
    ExpectedDigestHolds(s.dirs[Key(robotId, s.current[robotId].releaseId)], robotId, s.current[robotId].releaseId);
    hide VerifiedRelease, SafeSegment, FileAt;
  }

  /** Checking the digest of the manifest as well changes nothing when it is the file's own. */
  lemma ExpectedDigestHolds(files: Files, robotId: string, releaseId: string)
    requires FileAt(files, MANIFEST).Some?
    ensures VerifiedRelease(files, robotId, releaseId, MANIFEST, Some(Sha(files[MANIFEST])))
            == VerifiedRelease(files, robotId, releaseId, MANIFEST, None)
    ensures var v := VerifiedRelease(files, robotId, releaseId, MANIFEST, None);
            v.Some? ==> v.value.manifest.releaseId == releaseId && v.value.manifest.robotId == robotId
  {
    hide HashesHold, DocumentsBelong, FilesAgree, CatalogBinds;
  }

  /** A release directory is complete the moment it exists, is never changed, and all its hashes hold. */
  lemma ReleasesAreCompleteAndImmutable(names: iset<Key>, steps: seq<Step>, later: seq<Step>, key: Key)
    requires NoStagingNames(names) && Over(names, steps) && Over(names, later)
    requires key in names && key in After(START, steps).state.dirs
    ensures var files := After(START, steps).state.dirs[key];
            && key in After(After(START, steps), later).state.dirs
            && After(After(START, steps), later).state.dirs[key] == files
            && MANIFEST in files && files[MANIFEST].ManifestFile?
            && files[MANIFEST].manifest.releaseId == key.releaseId && files[MANIFEST].manifest.robotId == key.robotId
            && HashesHold(files, files[MANIFEST].manifest)
  {
    RunKeepsSound(names, START, steps);
    RunKeepsSound(names, After(START, steps), later);
    var files := After(START, steps).state.dirs[key];
    assert DirSound(names, key, files);
    hide After, HashesHold, PointerSound, PublisherSound, NoStagingNames;
    CompleteHashesHold(key, files);
  }

  lemma CompleteHashesHold(key: Key, files: Files)
    requires Complete(key, files)
    ensures MANIFEST in files && files[MANIFEST].ManifestFile?
    ensures files[MANIFEST].manifest.releaseId == key.releaseId && files[MANIFEST].manifest.robotId == key.robotId
    ensures HashesHold(files, files[MANIFEST].manifest)
  {
    var q: Request, copied: Files :| q.key == key && Covers(q, copied) && FullyCopied(q, copied) && files == Sealed(q, copied);
    PublishedHashesHold(q, copied);
    hide Covers, FullyCopied, HashesHold;
  }

  /** What verifies in `w` under some name verifies in `t`, as the same release. */
  ghost predicate VerifiedStay(w: World, t: World) {
    forall key :: LoadForActivation(w.state, key).Some? ==> LoadForActivation(t.state, key) == LoadForActivation(w.state, key)
  }

  /** Staging directories never verify, whoever names them; what verifies once is a release and stays. */
  lemma VerifiedIsForever(names: iset<Key>, steps: seq<Step>, later: seq<Step>)
    requires NoStagingNames(names) && Over(names, steps) && Over(names, later)
    ensures VerifiedStay(After(START, steps), After(After(START, steps), later))
  {
    RunKeepsSound(names, START, steps);
    var w := After(START, steps);
    RunKeepsSound(names, w, later);
    var t := After(w, later);
    hide Sound, After, NoStagingNames;
    forall key | LoadForActivation(w.state, key).Some?
      ensures LoadForActivation(t.state, key) == LoadForActivation(w.state, key)
    {
      LoadableIsRelease(names, w, key);
    }
  }

  /** An activation moves the pointer exactly when it is allowed to, the release verifies, and it is fresh. */
  lemma ActivationSucceedsExactly(s: State, key: Key, expected: Option<string>, latest: Option<string>)
    ensures var (t, ok) := Activate(s, key, expected, latest);
            && (ok <==> && SafeKey(key) && LoadForActivation(s, key).Some?
                        && latest == Some(LoadForActivation(s, key).value.manifest.fingerprint)
                        && (expected.Some? ==> key.robotId in s.current && s.current[key.robotId].releaseId == expected.value))
            && (ok ==> LoadCurrent(t, key.robotId, latest) == Current(LoadForActivation(s, key).value))
            && (!ok ==> t == s)
  {
    hide VerifiedRelease;
    if LoadForActivation(s, key).Some? {
      VerifiedHasManifest(s.dirs[key], key);
      ExpectedDigestHolds(s.dirs[key], key.robotId, key.releaseId);
    }
  }

  /**
   * Of two activations that expect the same current release, whatever publishers do in between: the
   * second finds its expectation met if and only if the first activated that very release again,
   * and fails otherwise.
   */
  lemma ExpectationIsUsedUp(w: World, a: Key, b: Key, expected: string, latest: Option<string>, other: Option<string>,
                            between: seq<Step>)
    requires a.robotId == b.robotId
    requires Activate(w.state, a, Some(expected), latest).1
    requires forall i :: 0 <= i < |between| ==> !between[i].Activation?
    ensures var t := After(Next(w, Activation(a, Some(expected), latest)), between);
            && (AsExpected(t.state, b.robotId, Some(expected)) <==> a.releaseId == expected)
            && (a.releaseId != expected ==> !Activate(t.state, b, Some(expected), other).1)
  {
    hide *;
    var t := Next(w, Activation(a, Some(expected), latest));
    ActivationStep(w, a, Some(expected), latest);
    PublishersLeavePointers(t, between);
    ExpectationMet(After(t, between).state, b, expected, other);
  }

  lemma ActivationStep(w: World, key: Key, expected: Option<string>, latest: Option<string>)
    requires Activate(w.state, key, expected, latest).1
    ensures var t := Next(w, Activation(key, expected, latest)).state;
            key.robotId in t.current && t.current[key.robotId].releaseId == key.releaseId
  {
    ActivatedPointer(iset{key}, w.state, key, expected, latest);
    hide Activate, PointerSound;
  }

  lemma ExpectationMet(s: State, key: Key, expected: string, latest: Option<string>)
    requires key.robotId in s.current
    ensures AsExpected(s, key.robotId, Some(expected)) <==> s.current[key.robotId].releaseId == expected
    ensures s.current[key.robotId].releaseId != expected ==> !Activate(s, key, Some(expected), latest).1
  {
    hide SafeKey, LoadForActivation;
  }

  lemma {:induction false} PublishersLeavePointers(w: World, steps: seq<Step>)
    requires forall i :: 0 <= i < |steps| ==> !steps[i].Activation?
    ensures After(w, steps).state.current == w.state.current
  {
    if steps != [] {
      PublishersLeavePointers(w, steps[..|steps| - 1]);
      hide SafeKey, Staging, FullyCopied, FullPlan;
    }
  }
}
