/** Publishing a release through a staging directory, and moving the current pointer to it. */
module AdapterPublication {
  import opened Optional
  import opened AdapterRelease

  datatype Key = Key(robotId: string, releaseId: string)

  /** `AdapterReleaseIndex`. */
  datatype Index = Index(robotId: string, releaseId: string, manifest: Path, digest: Digest)

  /** A path as a caller gives it. */
  datatype Relative = Relative(absolute: bool, parts: seq<string>)

  datatype Supplied = Supplied(relative: Relative, source: string, role: Role)

  /** The arguments of `publish_release`; sources are names of files outside the output root. */
  datatype Request = Request(
    key: Key, discoveryId: string, fingerprint: string, bundle: string, package: string, packageName: string,
    adapterFiles: seq<Supplied>, catalog: string, graph: string, conformance: string, gate: string)

  type Sources = map<string, Content>

  const MANIFEST: Path := ["manifest.json"]
  const BUNDLE: Path := ["adapter", "adapter-manifest.json"]
  const CATALOG: Path := ["tool-catalog.json"]
  const GRAPH: Path := ["state-graph.json"]
  const CONFORMANCE: Path := ["conformance-report.json"]
  const GATE: Path := ["gate-report.json"]

  // ---- what is staged ----

  /** The adapter files, or the package alone. */
  function Declared(q: Request): seq<Supplied> {
    if q.adapterFiles != [] then q.adapterFiles
    else [Supplied(Relative(false, [q.packageName]), q.package, ENTRYPOINT)]
  }

  /** Exactly one entry point, and it is the package. */
  predicate OneEntrypoint(q: Request) {
    exists i :: 0 <= i < |Declared(q)| && IsTheEntrypoint(q, i)
  }

  predicate IsTheEntrypoint(q: Request, i: nat)
    requires i < |Declared(q)|
  {
    && Declared(q)[i].role.ENTRYPOINT? && Declared(q)[i].source == q.package
    && forall j :: 0 <= j < |Declared(q)| && Declared(q)[j].role.ENTRYPOINT? ==> j == i
  }

  predicate SafePath(r: Relative) {
    !r.absolute && ".." !in r.parts && r.parts != []
  }

  predicate AllSafe(q: Request) {
    forall i :: 0 <= i < |Declared(q)| ==> SafePath(Declared(q)[i].relative)
  }

  function Target(f: Supplied): Path {
    ["adapter"] + f.relative.parts
  }

  /** Which source goes to which path; an adapter file may take the place of the bundle manifest. */
  function Plan(q: Request, n: nat): map<Path, string>
    requires n <= |Declared(q)|
  {
    if n == 0 then map[BUNDLE := q.bundle, CATALOG := q.catalog, GRAPH := q.graph, CONFORMANCE := q.conformance, GATE := q.gate]
    else Plan(q, n - 1)[Target(Declared(q)[n - 1]) := Declared(q)[n - 1].source]
  }

  function FullPlan(q: Request): map<Path, string> {
    Plan(q, |Declared(q)|)
  }

  predicate SourcesThere(q: Request, sources: Sources) {
    forall path :: path in FullPlan(q) ==> FullPlan(q)[path] in sources
  }

  /** What the plan copies when no source changes meanwhile. */
  function Copied(q: Request, sources: Sources): (copied: Files)
    requires SourcesThere(q, sources)
    ensures copied.Keys == FullPlan(q).Keys
  {
    map path | path in FullPlan(q) :: sources[FullPlan(q)[path]]
  }

  lemma {:induction false} PlanCovers(q: Request, n: nat, i: nat)
    requires n <= |Declared(q)| && i < n
    ensures Target(Declared(q)[i]) in Plan(q, n)
  {
    if i < n - 1 {
      PlanCovers(q, n - 1, i);
    }
  }

  lemma {:induction false} PlanKeeps(q: Request, n: nat)
    requires n <= |Declared(q)|
    ensures {BUNDLE, CATALOG, GRAPH, CONFORMANCE, GATE} <= Plan(q, n).Keys && MANIFEST !in Plan(q, n)
    ensures Plan(q, n)[CATALOG] == q.catalog && Plan(q, n)[GRAPH] == q.graph
    ensures Plan(q, n)[CONFORMANCE] == q.conformance && Plan(q, n)[GATE] == q.gate
    ensures forall path :: path in Plan(q, n) ==>
              path in {BUNDLE, CATALOG, GRAPH, CONFORMANCE, GATE} || exists i :: 0 <= i < n && path == Target(Declared(q)[i])
  {
    if n > 0 {
      PlanKeeps(q, n - 1);
      assert Target(Declared(q)[n - 1])[0] == "adapter";
      assert CATALOG[0] != "adapter" && GRAPH[0] != "adapter" && CONFORMANCE[0] != "adapter" && GATE[0] != "adapter";
      assert MANIFEST[0] != "adapter";
    }
  }

  /** The published list: every declared file with the digest of its staged copy. */
  function PublishedFiles(q: Request, copied: Files): (s: seq<AdapterFile>)
    requires forall i :: 0 <= i < |Declared(q)| ==> Target(Declared(q)[i]) in copied
    ensures |s| == |Declared(q)|
    ensures forall i :: 0 <= i < |s| ==>
              s[i] == AdapterFile(Target(Declared(q)[i]), Sha(copied[Target(Declared(q)[i])]), Declared(q)[i].role)
  {
    seq(|Declared(q)|, i requires 0 <= i < |Declared(q)| =>
      AdapterFile(Target(Declared(q)[i]), Sha(copied[Target(Declared(q)[i])]), Declared(q)[i].role))
  }

  /** `next(item for item in published if item.role == "ENTRYPOINT")`. */
  function FirstEntrypoint(fs: seq<Supplied>, from: nat): (i: nat)
    requires from <= |fs|
    ensures from <= i <= |fs| && (i < |fs| ==> fs[i].role.ENTRYPOINT?)
    ensures forall j :: from <= j < i ==> !fs[j].role.ENTRYPOINT?
    decreases |fs| - from
  {
    if from == |fs| || fs[from].role.ENTRYPOINT? then from else FirstEntrypoint(fs, from + 1)
  }

  predicate FullyCopied(q: Request, copied: Files) {
    && {BUNDLE, CATALOG, GRAPH, CONFORMANCE, GATE} <= copied.Keys
    && (forall i :: 0 <= i < |Declared(q)| ==> Target(Declared(q)[i]) in copied)
    && FirstEntrypoint(Declared(q), 0) < |Declared(q)|
  }

  /** The release manifest, with the digests of the staged copies. */
  function ManifestOf(q: Request, copied: Files): Manifest
    requires FullyCopied(q, copied)
  {
    var entry := Target(Declared(q)[FirstEntrypoint(Declared(q), 0)]);
    Manifest(q.key.releaseId, q.key.robotId, q.discoveryId, q.fingerprint,
             Pin(BUNDLE, Sha(copied[BUNDLE])), Pin(entry, Sha(copied[entry])), PublishedFiles(q, copied),
             Pin(CATALOG, Sha(copied[CATALOG])), Pin(GRAPH, Sha(copied[GRAPH])),
             Pin(CONFORMANCE, Sha(copied[CONFORMANCE])), Pin(GATE, Sha(copied[GATE])))
  }

  /** An acceptable request of which every file has been copied. */
  predicate Covers(q: Request, copied: Files) {
    OneEntrypoint(q) && AllSafe(q) && copied.Keys == FullPlan(q).Keys
  }

  lemma EntrypointIsDeclared(q: Request)
    requires OneEntrypoint(q)
    ensures FirstEntrypoint(Declared(q), 0) < |Declared(q)|
  {
  }

  lemma CopiesAreComplete(q: Request, copied: Files)
    requires Covers(q, copied)
    ensures FullyCopied(q, copied) && MANIFEST !in copied
  {
    EntrypointIsDeclared(q);
    PlanKeeps(q, |Declared(q)|);
    forall i | 0 <= i < |Declared(q)| ensures Target(Declared(q)[i]) in copied {
      PlanCovers(q, |Declared(q)|, i);
    }
    hide Plan, Target, OneEntrypoint, FirstEntrypoint;
  }

  /** The copied files with their manifest. */
  function Sealed(q: Request, copied: Files): Files
    requires FullyCopied(q, copied)
  {
    copied[MANIFEST := ManifestFile(ManifestOf(q, copied))]
  }

  /** The complete tree of the release, or nothing when staging fails. */
  function Assemble(q: Request, sources: Sources): Option<Files> {
    if !OneEntrypoint(q) || !AllSafe(q) || !SourcesThere(q, sources) then None
    else
      CopiesAreComplete(q, Copied(q, sources));
      Some(Sealed(q, Copied(q, sources)))
  }

  // ---- staging, as the code does it ----

  method CheckEntrypoint(q: Request) returns (ok: bool)
    ensures ok <==> OneEntrypoint(q)
  {
    var declared := Declared(q);
    var entrypoints: seq<nat> := [];
    for i := 0 to |declared|
      invariant forall k :: 0 <= k < |entrypoints| ==> entrypoints[k] < i && declared[entrypoints[k]].role.ENTRYPOINT?
      invariant forall j :: 0 <= j < i && declared[j].role.ENTRYPOINT? ==> j in entrypoints
      invariant forall k, l :: 0 <= k < l < |entrypoints| ==> entrypoints[k] < entrypoints[l]
    {
      if declared[i].role.ENTRYPOINT? {
        entrypoints := entrypoints + [i];
      }
    }
    if |entrypoints| != 1 {
      forall i | 0 <= i < |declared| ensures !IsTheEntrypoint(q, i) {
        assert |entrypoints| >= 2 ==> entrypoints[0] != entrypoints[1];
      }
      return false;
    }
    if declared[entrypoints[0]].source == q.package {
      assert IsTheEntrypoint(q, entrypoints[0]);
    }
    return declared[entrypoints[0]].source == q.package;
  }

  method PlanFiles(q: Request) returns (plan: Option<map<Path, string>>)
    ensures plan == if AllSafe(q) then Some(FullPlan(q)) else None
  {
    var declared := Declared(q);
    var files: map<Path, string> :=
      map[BUNDLE := q.bundle, CATALOG := q.catalog, GRAPH := q.graph, CONFORMANCE := q.conformance, GATE := q.gate];
    for i := 0 to |declared|
      invariant files == Plan(q, i)
      invariant forall j :: 0 <= j < i ==> SafePath(declared[j].relative)
    {
      if !SafePath(declared[i].relative) {
        return None;
      }
      files := files[Target(declared[i]) := declared[i].source];
    }
    return Some(files);
  }

  // ---- the output root ----

  /** The directories side by side under `releases`, each release and each staging directory by its name. */
  datatype State = State(dirs: map<Key, Files>, current: map<string, Index>)

  /** The staging directory of a release lies beside it and is named after it. */
  function Staging(key: Key): (staging: Key)
    ensures staging != key
  {
    assert |key.releaseId + ".staging"| == |key.releaseId| + 8;
    Key(key.robotId, key.releaseId + ".staging")
  }

  predicate SafeSegment(s: string) {
    s != "" && forall i :: 0 <= i < |s| ==>
      'a' <= s[i] <= 'z' || 'A' <= s[i] <= 'Z' || '0' <= s[i] <= '9' || s[i] == '.' || s[i] == '_' || s[i] == '-'
  }

  predicate SafeKey(key: Key) {
    SafeSegment(key.robotId) && SafeSegment(key.releaseId)
  }

  /** `publish_release` run through, or cut short by a crash that leaves the staging directory behind. */
  function Publish(s: State, q: Request, sources: Sources, crash: bool): (State, Option<Manifest>) {
    if !SafeKey(q.key) || q.key in s.dirs || Staging(q.key) in s.dirs then (s, None)
    else if crash then (s.(dirs := s.dirs[Staging(q.key) := map[]]), None)
    else match Assemble(q, sources)
      case None => (s, None)
      case Some(files) => (s.(dirs := s.dirs[q.key := files]), Some(files[MANIFEST].manifest))
  }

  /** The pinned current release is the expected one, if one is expected. */
  predicate AsExpected(s: State, robotId: string, expected: Option<string>) {
    expected.Some? ==> robotId in s.current && s.current[robotId].releaseId == expected.value
  }

  function LoadForActivation(s: State, key: Key): Option<Release> {
    if key in s.dirs then VerifiedRelease(s.dirs[key], key.robotId, key.releaseId, MANIFEST, None) else None
  }

  /** `_verify_release_freshness` does not raise. */
  predicate Fresh(r: Release, latest: Option<string>) {
    latest == Some(r.manifest.fingerprint)
  }

  /** `activate_release`, all under its lock; `latest` is the fingerprint of the latest target evidence, if it has one. */
  function Activate(s: State, key: Key, expected: Option<string>, latest: Option<string>): (State, bool) {
    if !SafeKey(key) || !AsExpected(s, key.robotId, expected) || LoadForActivation(s, key).None?
       || !Fresh(LoadForActivation(s, key).value, latest)
    then (s, false)
    else
      var index := Index(key.robotId, key.releaseId, MANIFEST, Sha(s.dirs[key][MANIFEST]));
      (s.(current := s.current[key.robotId := index]), true)
  }

  datatype Loaded = NoCurrent | Failed | Stale(release: Release) | Current(release: Release)

  /** `load_current_release`. */
  function LoadCurrent(s: State, robotId: string, latest: Option<string>): Loaded {
    if !SafeSegment(robotId) || robotId !in s.current then NoCurrent
    else
      var index := s.current[robotId];
      var key := Key(robotId, index.releaseId);
      if index.robotId != robotId || !SafeKey(key) || key !in s.dirs then Failed
      else match VerifiedRelease(s.dirs[key], robotId, index.releaseId, index.manifest, Some(index.digest))
        case None => Failed
        case Some(release) => if Fresh(release, latest) then Current(release) else Stale(release)
  }

  class AdapterOutputs {
    var dirs: map<Key, Files>
    var current: map<string, Index>

    ghost function Contents(): State
      reads this
    {
      State(dirs, current)
    }

    constructor ()
      ensures Contents() == State(map[], map[])
    {
      dirs, current := map[], map[];
    }

    /** Copies the planned files into a directory, one after another, until a source is missing. */
    method CopyFiles(plan: map<Path, string>, sources: Sources, staging: Key) returns (ok: bool)
      requires staging in dirs && dirs[staging] == map[]
      modifies this`dirs
      ensures staging in dirs && dirs - {staging} == old(dirs) - {staging}
      ensures ok <==> forall path :: path in plan ==> plan[path] in sources
      ensures ok ==> dirs[staging] == map path | path in plan :: sources[plan[path]]
    {
      var todo := plan.Keys;
      while todo != {}
        invariant todo <= plan.Keys
        invariant staging in dirs && dirs[staging].Keys == plan.Keys - todo && dirs - {staging} == old(dirs) - {staging}
        invariant forall path :: path in dirs[staging] ==> plan[path] in sources && dirs[staging][path] == sources[plan[path]]
      {
        var path :| path in todo;
        if plan[path] !in sources {
          return false;
        }
        dirs := dirs[staging := dirs[staging][path := sources[plan[path]]]];
        todo := todo - {path};
      }
      return true;
    }

    /** The body of the `try` of `publish_release` up to the rename: a complete tree, or an exception. */
    method Stage(q: Request, sources: Sources, staging: Key) returns (ok: bool)
      requires staging in dirs && dirs[staging] == map[]
      modifies this`dirs
      ensures staging in dirs && dirs - {staging} == old(dirs) - {staging}
      ensures ok <==> Assemble(q, sources).Some?
      ensures ok ==> dirs[staging] == Assemble(q, sources).value
    {
      var one := CheckEntrypoint(q);
      if !one {
        return false;
      }
      var plan := PlanFiles(q);
      if plan.None? {
        return false;
      }
      ok := CopyFiles(plan.value, sources, staging);
      hide OneEntrypoint, AllSafe, FullPlan;
      if ok {
        assert dirs[staging] == Copied(q, sources);
        CopiesAreComplete(q, dirs[staging]);
        hide FullyCopied, Copied, ManifestOf;
        dirs := dirs[staging := dirs[staging][MANIFEST := ManifestFile(ManifestOf(q, dirs[staging]))]];
      }
    }

    method PublishRelease(q: Request, sources: Sources, crash: bool) returns (manifest: Option<Manifest>)
      modifies this`dirs
      ensures (Contents(), manifest) == Publish(old(Contents()), q, sources, crash)
    {
      var staging := Staging(q.key);
      if !SafeKey(q.key) || q.key in dirs || staging in dirs {
        return None;
      }
      dirs := dirs[staging := map[]];
      if crash {
        return None;
      }
      var ok := Stage(q, sources, staging);
      hide SafeKey, Assemble, Staging;
      ghost var others := dirs - {staging};
      assert others == old(dirs);
      if !ok {
        dirs := dirs - {staging};
        return None;
      }
      var files := dirs[staging];
      dirs := (dirs - {staging})[q.key := files];
      return Some(files[MANIFEST].manifest);
    }

    method ActivateRelease(key: Key, expected: Option<string>, latest: Option<string>) returns (ok: bool)
      modifies this`current
      ensures (Contents(), ok) == Activate(old(Contents()), key, expected, latest)
    {
      if !SafeKey(key) {
        return false;
      }
      if expected.Some? {
        if key.robotId !in current || current[key.robotId].releaseId != expected.value {
          return false;
        }
      }
      if key !in dirs {
        return false;
      }
      var release := LoadVerifiedRelease(dirs[key], key.robotId, key.releaseId, MANIFEST, None);
      if release.None? || !Fresh(release.value, latest) {
        return false;
      }
      current := current[key.robotId := Index(key.robotId, key.releaseId, MANIFEST, Sha(dirs[key][MANIFEST]))];
      return true;
    }

    method LoadCurrentRelease(robotId: string, latest: Option<string>) returns (l: Loaded)
      ensures l == LoadCurrent(Contents(), robotId, latest)
    {
      if !SafeSegment(robotId) || robotId !in current {
        return NoCurrent;
      }
      var index := current[robotId];
      var key := Key(robotId, index.releaseId);
      if index.robotId != robotId || !SafeKey(key) || key !in dirs {
        return Failed;
      }
      var release := LoadVerifiedRelease(dirs[key], robotId, index.releaseId, index.manifest, Some(index.digest));
      if release.None? {
        return Failed;
      }
      return if Fresh(release.value, latest) then Current(release.value) else Stale(release.value);
    }
  }
}
