/** What a release has to hold to be loaded, and what a published one holds, item by item. */
module AdapterContents {
  import opened Optional
  import opened Lookup
  import opened AdapterRelease
  import opened AdapterPublication

  // ---- the checks of a release ----

  /** The file is there, inside the release, and has that digest. */
  lemma HashMatchesExactly(files: Files, path: Path, digest: Digest)
    ensures HashMatches(files, path, digest) <==> ".." !in path && path in files && digest == Sha(files[path])
  {
  }

  lemma ByIdUnfolds<T, K>(items: seq<T>, key: T -> K)
    ensures items == [] ==> ById(items, key) == map[]
    ensures items != [] ==>
              var last := items[|items| - 1]; ById(items, key) == ById(items[..|items| - 1], key)[key(last) := last]
  {
  }

  /** A later item with the same key replaces an earlier one. */
  lemma {:induction false} ByIdIsLast<T, K>(items: seq<T>, key: T -> K, i: nat)
    requires i < |items| && forall j :: i < j < |items| ==> key(items[j]) != key(items[i])
    ensures key(items[i]) in ById(items, key) && ById(items, key)[key(items[i])] == items[i]
  {
    hide ById;
    ByIdUnfolds(items, key);
    var last := |items| - 1;
    if i < last {
      var init := items[..last];
      assert forall j :: i < j < |init| ==> key(items[j]) != key(items[i]) && init[j] == items[j];
      ByIdIsLast(init, key, i);
    }
  }

  lemma {:induction false} LastOf<T, K>(items: seq<T>, key: T -> K, k: K) returns (i: nat)
    requires k in ById(items, key)
    ensures i < |items| && key(items[i]) == k && (forall j :: i < j < |items| ==> key(items[j]) != k) && ById(items, key)[k] == items[i]
  {
    hide ById;
    ByIdUnfolds(items, key);
    var last := |items| - 1;
    if key(items[last]) == k {
      i := last;
    } else {
      i := LastOf(items[..last], key, k);
      assert forall j :: i < j < last ==> items[..last][j] == items[j];
    }
  }

  /** The tool that the catalog lists last under its operation. */
  predicate LastTool(c: Catalog, i: nat) {
    i < |c.tools| && forall j :: i < j < |c.tools| ==> c.tools[j].operation != c.tools[i].operation
  }

  /**
   * Bundle and catalog bind each other: each operation of the bundle is listed as verified, under
   * the same contract, by the adapter of that bundle and entry point; and no other is verified.
   */
  lemma CatalogBindsExactly(b: Bundle, c: Catalog)
    ensures CatalogBinds(b, c) <==>
              && (forall e :: e in b.operations ==>
                    exists i: nat :: LastTool(c, i)
                      && c.tools[i].operation == e.operation && c.tools[i].availability == "VERIFIED"
                      && c.tools[i].contractVersion == Some(e.contractVersion) && c.tools[i].contractDigest == Some(e.contractDigest)
                      && c.tools[i].adapter == "bundle:" + b.bundleId + "#" + e.entrypoint)
              && (forall t :: t in c.tools && t.availability == "VERIFIED" ==> exists e :: e in b.operations && e.operation == t.operation)
  {
    forall e | e in b.operations
      ensures EntryBound(b, c, e) <==>
                exists i: nat :: LastTool(c, i)
                  && c.tools[i].operation == e.operation && c.tools[i].availability == "VERIFIED"
                  && c.tools[i].contractVersion == Some(e.contractVersion) && c.tools[i].contractDigest == Some(e.contractDigest)
                  && c.tools[i].adapter == "bundle:" + b.bundleId + "#" + e.entrypoint
    {
      EntryBoundExactly(b, c, e);
    }
    forall t | t in c.tools ensures Bundled(b, t.operation) <==> exists e :: e in b.operations && e.operation == t.operation {
    }
    hide EntryBound, Bundled, LastTool;
  }

  lemma EntryBoundExactly(b: Bundle, c: Catalog, e: Entry)
    ensures EntryBound(b, c, e) <==>
              exists i: nat :: LastTool(c, i)
                && c.tools[i].operation == e.operation && c.tools[i].availability == "VERIFIED"
                && c.tools[i].contractVersion == Some(e.contractVersion) && c.tools[i].contractDigest == Some(e.contractDigest)
                && c.tools[i].adapter == "bundle:" + b.bundleId + "#" + e.entrypoint
  {
    if e.operation in ById(c.tools, OperationOf) {
      var i := LastOf(c.tools, OperationOf, e.operation);
      assert LastTool(c, i);
    }
    forall i: nat | LastTool(c, i) && c.tools[i].operation == e.operation
      ensures e.operation in ById(c.tools, OperationOf) && ById(c.tools, OperationOf)[e.operation] == c.tools[i]
    {
      ByIdIsLast(c.tools, OperationOf, i);
    }
    hide ById;
  }

  /** The file that the manifest lists last under its path. */
  predicate LastFile(files: seq<AdapterFile>, i: nat) {
    i < |files| && forall j :: i < j < |files| ==> files[j].path != files[i].path
  }

  /**
   * The adapter files of a manifest all lie under `adapter`, and, if there are any, are those that
   * the bundle declares, each with the declared digest and role.
   */
  lemma FilesAgreeExactly(m: Manifest, b: Bundle)
    ensures FilesAgree(m, b) <==>
              && (forall f :: f in m.adapterFiles ==> f.path != [] && f.path[0] == "adapter")
              && (m.adapterFiles != [] ==>
                    && (forall f :: f in m.adapterFiles ==> exists g :: g in DeclaredFiles(b) && f.path == ["adapter"] + g.path)
                    && (forall k: nat :: LastFile(DeclaredFiles(b), k) ==>
                          exists i: nat :: LastFile(m.adapterFiles, i)
                            && m.adapterFiles[i].path == ["adapter"] + DeclaredFiles(b)[k].path
                            && m.adapterFiles[i].digest == DeclaredFiles(b)[k].digest
                            && m.adapterFiles[i].role == DeclaredFiles(b)[k].role))
  {
    if (forall f :: f in m.adapterFiles ==> UnderAdapter(f)) && m.adapterFiles != [] {
      if FilesAgree(m, b) {
        AgreeingFilesMatch(m, b);
      }
      if AllDeclared(m, b) && AllPublished(m, b) {
        MatchingFilesAgree(m, b);
      }
    }
    hide DeclaredFiles, LastFile;
  }

  ghost predicate AllDeclared(m: Manifest, b: Bundle) {
    forall f :: f in m.adapterFiles ==> exists g :: g in DeclaredFiles(b) && f.path == ["adapter"] + g.path
  }

  ghost predicate AllPublished(m: Manifest, b: Bundle) {
    forall k: nat :: LastFile(DeclaredFiles(b), k) ==>
      exists i: nat :: LastFile(m.adapterFiles, i)
        && m.adapterFiles[i].path == ["adapter"] + DeclaredFiles(b)[k].path
        && m.adapterFiles[i].digest == DeclaredFiles(b)[k].digest
        && m.adapterFiles[i].role == DeclaredFiles(b)[k].role
  }

  lemma UnderAdapterPath(f: AdapterFile, p: Path)
    requires UnderAdapter(f)
    ensures f.path == ["adapter"] + p <==> PublishedPath(f) == p
  {
    assert f.path == [f.path[0]] + f.path[1..];
  }

  /** Under `adapter`, the last file of a path is the last of its path inside. */
  lemma LastUnderAdapter(m: Manifest, i: nat)
    requires forall f :: f in m.adapterFiles ==> UnderAdapter(f)
    requires i < |m.adapterFiles|
    ensures LastFile(m.adapterFiles, i) <==>
              forall j :: i < j < |m.adapterFiles| ==> PublishedPath(m.adapterFiles[j]) != PublishedPath(m.adapterFiles[i])
  {
    UnderAdapterPath(m.adapterFiles[i], PublishedPath(m.adapterFiles[i]));
    forall j | i < j < |m.adapterFiles|
      ensures PublishedPath(m.adapterFiles[j]) != PublishedPath(m.adapterFiles[i]) <==> m.adapterFiles[j].path != m.adapterFiles[i].path
    {
      UnderAdapterPath(m.adapterFiles[j], PublishedPath(m.adapterFiles[i]));
    }
    hide UnderAdapter, PublishedPath;
  }

  lemma AgreeingFilesMatch(m: Manifest, b: Bundle)
    requires FilesAgree(m, b) && m.adapterFiles != []
    ensures AllDeclared(m, b) && AllPublished(m, b)
  {
    var published, declared := PublishedByPath(m), ById(DeclaredFiles(b), PathOf);
    hide DeclaredFiles, UnderAdapter, PublishedPath;
    forall f | f in m.adapterFiles ensures exists g :: g in DeclaredFiles(b) && f.path == ["adapter"] + g.path {
      var i :| 0 <= i < |m.adapterFiles| && m.adapterFiles[i] == f;
      UnderAdapterPath(f, PublishedPath(f));
      assert PublishedPath(m.adapterFiles[i]) in declared;
    }
    forall k: nat | LastFile(DeclaredFiles(b), k)
      ensures exists i: nat :: LastFile(m.adapterFiles, i)
                && m.adapterFiles[i].path == ["adapter"] + DeclaredFiles(b)[k].path
                && m.adapterFiles[i].digest == DeclaredFiles(b)[k].digest
                && m.adapterFiles[i].role == DeclaredFiles(b)[k].role
    {
      var p := DeclaredFiles(b)[k].path;
      ByIdIsLast(DeclaredFiles(b), PathOf, k);
      var i := LastOf(m.adapterFiles, PublishedPath, p);
      LastUnderAdapter(m, i);
      UnderAdapterPath(m.adapterFiles[i], p);
    }
  }

  lemma MatchingFilesAgree(m: Manifest, b: Bundle)
    requires forall f :: f in m.adapterFiles ==> UnderAdapter(f)
    requires AllDeclared(m, b) && AllPublished(m, b)
    ensures FilesAgree(m, b)
  {
    var published, declared := PublishedByPath(m), ById(DeclaredFiles(b), PathOf);
    hide DeclaredFiles, UnderAdapter, PublishedPath, AllDeclared, AllPublished;
    forall p | p in published ensures p in declared {
      PublishedIsDeclared(m, b, p);
    }
    forall p | p in declared
      ensures p in published && published[p].digest == declared[p].digest && published[p].role == declared[p].role
    {
      DeclaredIsPublished(m, b, p);
    }
    hide ById;
  }

  lemma PublishedIsDeclared(m: Manifest, b: Bundle, p: Path)
    requires forall f :: f in m.adapterFiles ==> UnderAdapter(f)
    requires AllDeclared(m, b) && p in PublishedByPath(m)
    ensures p in ById(DeclaredFiles(b), PathOf)
  {
    hide DeclaredFiles, UnderAdapter, PublishedPath;
    var i := LastOf(m.adapterFiles, PublishedPath, p);
    var g :| g in DeclaredFiles(b) && m.adapterFiles[i].path == ["adapter"] + g.path;
    UnderAdapterPath(m.adapterFiles[i], g.path);
    var k :| 0 <= k < |DeclaredFiles(b)| && DeclaredFiles(b)[k] == g;
    assert PathOf(DeclaredFiles(b)[k]) in ById(DeclaredFiles(b), PathOf);
  }

  lemma DeclaredIsPublished(m: Manifest, b: Bundle, p: Path)
    requires forall f :: f in m.adapterFiles ==> UnderAdapter(f)
    requires AllPublished(m, b) && p in ById(DeclaredFiles(b), PathOf)
    ensures var published, declared := PublishedByPath(m), ById(DeclaredFiles(b), PathOf);
            p in published && published[p].digest == declared[p].digest && published[p].role == declared[p].role
  {
    hide DeclaredFiles, UnderAdapter, PublishedPath;
    var k := LastOf(DeclaredFiles(b), PathOf, p);
    assert LastFile(DeclaredFiles(b), k);
    var i: nat :| LastFile(m.adapterFiles, i)
      && m.adapterFiles[i].path == ["adapter"] + DeclaredFiles(b)[k].path
      && m.adapterFiles[i].digest == DeclaredFiles(b)[k].digest
      && m.adapterFiles[i].role == DeclaredFiles(b)[k].role;
    hide AllPublished;
    LastUnderAdapter(m, i);
    UnderAdapterPath(m.adapterFiles[i], p);
    ByIdIsLast(m.adapterFiles, PublishedPath, i);
  }

  /** A bundle manifest of the first kind lists no files; any other lists each path once, and one entry point, its package. */
  lemma BundleValidExactly(b: Bundle)
    ensures BundleValid(b) <==>
              && (b.files == [] ==> b.isV1)
              && (forall i, j :: 0 <= i < j < |b.files| ==> b.files[i].path != b.files[j].path)
              && (b.files != [] ==>
                    exists i :: 0 <= i < |b.files|
                      && b.files[i].path == b.packageFile && b.files[i].digest == b.packageDigest && b.files[i].role == ENTRYPOINT
                      && forall j :: 0 <= j < |b.files| && j != i ==> b.files[j].role != ENTRYPOINT)
  {
  }

  lemma DeclaredFilesAre(b: Bundle)
    ensures b.files != [] ==> DeclaredFiles(b) == b.files
    ensures b.files == [] ==> DeclaredFiles(b) == [AdapterFile(b.packageFile, b.packageDigest, ENTRYPOINT)]
  {
  }

  ghost predicate IsPinned(files: Files, p: Pin) {
    ".." !in p.path && p.path in files && Sha(files[p.path]) == p.digest
  }

  /**
   * A release loads if and only if its manifest is there, with the expected digest, and is about
   * this robot and release; every file it pins or lists is there with that digest; the documents it
   * names parse and are about the same robot and discovery, the gate about this very run and
   * passed; and bundle, manifest and catalog agree.  What is loaded is these documents.
   */
  lemma VerifiedExactly(files: Files, robotId: string, releaseId: string, path: Path, expected: Option<Digest>)
    ensures var v := VerifiedRelease(files, robotId, releaseId, path, expected);
            && (v.Some? <==>
                  && ".." !in path && path in files && files[path].ManifestFile?
                  && (expected.Some? ==> expected.value == Sha(files[path]))
                  && var m := files[path].manifest;
                     && m.robotId == robotId && m.releaseId == releaseId
                     && IsPinned(files, m.bundle) && IsPinned(files, m.package) && IsPinned(files, m.catalog)
                     && IsPinned(files, m.graph) && IsPinned(files, m.conformance) && IsPinned(files, m.gate)
                     && (forall f :: f in m.adapterFiles ==> IsPinned(files, Pin(f.path, f.digest)))
                     && files[m.bundle.path].BundleFile? && files[m.catalog.path].CatalogFile?
                     && files[m.graph.path] == GraphFile(robotId, m.discoveryId)
                     && files[m.conformance.path] == ConformanceFile(robotId, m.discoveryId)
                     && files[m.gate.path] == GateFile(Gate(releaseId, robotId, m.discoveryId, true))
                     && var b, c := files[m.bundle.path].bundle, files[m.catalog.path].catalog;
                        && b.robotId == robotId && b.discoveryId == m.discoveryId
                        && c.robotId == robotId && c.discoveryId == m.discoveryId
                        && b.packageDigest == m.package.digest
                        && BundleValid(b) && FilesAgree(m, b) && CatalogBinds(b, c))
            && (v.Some? ==>
                  && v.value.manifest == files[path].manifest
                  && v.value.bundle == files[files[path].manifest.bundle.path].bundle
                  && v.value.catalog == files[files[path].manifest.catalog.path].catalog)
  {
    ManifestAtExactly(files, path, expected);
    hide HashesHold, FilesAgree, CatalogBinds, BundleValid, ManifestAt, DocumentsBelong, FileAt, IsPinned;
    if ManifestAt(files, path, expected).Some? {
      var m := ManifestAt(files, path, expected).value;
      HashesHoldExactly(files, m);
      if HashesHold(files, m) {
        DocumentsBelongExactly(files, robotId, releaseId, m);
      }
    }
  }

  lemma ManifestAtExactly(files: Files, path: Path, expected: Option<Digest>)
    ensures var m := ManifestAt(files, path, expected);
            && (m.Some? <==>
                  && ".." !in path && path in files && files[path].ManifestFile?
                  && (expected.Some? ==> expected.value == Sha(files[path])))
            && (m.Some? ==> m.value == files[path].manifest)
  {
  }

  lemma DocumentsBelongExactly(files: Files, robotId: string, releaseId: string, m: Manifest)
    requires IsPinned(files, m.bundle) && IsPinned(files, m.catalog) && IsPinned(files, m.graph)
    requires IsPinned(files, m.conformance) && IsPinned(files, m.gate)
    ensures DocumentsBelong(files, robotId, releaseId, m) <==>
              && files[m.bundle.path].BundleFile? && files[m.catalog.path].CatalogFile?
              && files[m.graph.path] == GraphFile(robotId, m.discoveryId)
              && files[m.conformance.path] == ConformanceFile(robotId, m.discoveryId)
              && files[m.gate.path] == GateFile(Gate(releaseId, robotId, m.discoveryId, true))
              && var b, c := files[m.bundle.path].bundle, files[m.catalog.path].catalog;
                 && b.robotId == robotId && b.discoveryId == m.discoveryId
                 && c.robotId == robotId && c.discoveryId == m.discoveryId && BundleValid(b)
    ensures FileAt(files, m.bundle.path) == Some(files[m.bundle.path]) && FileAt(files, m.catalog.path) == Some(files[m.catalog.path])
  {
    hide BundleValid;
  }

  lemma HashesHoldExactly(files: Files, m: Manifest)
    ensures HashesHold(files, m) <==>
              && IsPinned(files, m.bundle) && IsPinned(files, m.package) && IsPinned(files, m.catalog)
              && IsPinned(files, m.graph) && IsPinned(files, m.conformance) && IsPinned(files, m.gate)
              && (forall f :: f in m.adapterFiles ==> IsPinned(files, Pin(f.path, f.digest)))
  {
    var pins := Pins(m);
    assert pins == [m.bundle, m.package, m.catalog, m.graph, m.conformance, m.gate];
    forall i | 0 <= i < |pins| ensures HashMatches(files, pins[i].path, pins[i].digest) <==> IsPinned(files, pins[i]) {
    }
    forall f | f in m.adapterFiles ensures HashMatches(files, f.path, f.digest) <==> IsPinned(files, Pin(f.path, f.digest)) {
    }
    hide HashMatches, IsPinned;
    assert (forall i :: 0 <= i < |pins| ==> HashMatches(files, pins[i].path, pins[i].digest)) <==>
             HashMatches(files, pins[0].path, pins[0].digest) && HashMatches(files, pins[1].path, pins[1].digest)
             && HashMatches(files, pins[2].path, pins[2].digest) && HashMatches(files, pins[3].path, pins[3].digest)
             && HashMatches(files, pins[4].path, pins[4].digest) && HashMatches(files, pins[5].path, pins[5].digest);
  }

  // ---- the current release ----

  /** Letters, digits, dot, underscore and hyphen, and at least one of them. */
  lemma SafeSegmentExactly(s: string)
    ensures SafeSegment(s) <==>
              s != "" && forall c :: c in s ==>
                c in "abcdefghijklmnopqrstuvwxyz" || c in "ABCDEFGHIJKLMNOPQRSTUVWXYZ" || c in "0123456789" || c in "._-"
  {
    forall c: char
      ensures 'a' <= c <= 'z' || 'A' <= c <= 'Z' || '0' <= c <= '9' || c == '.' || c == '_' || c == '-'
              <==> c in "abcdefghijklmnopqrstuvwxyz" || c in "ABCDEFGHIJKLMNOPQRSTUVWXYZ" || c in "0123456789" || c in "._-"
    {
      LowerCase(c);
      UpperCase(c);
      Digits(c);
    }
    forall c | c in s && SafeSegment(s)
      ensures c in "abcdefghijklmnopqrstuvwxyz" || c in "ABCDEFGHIJKLMNOPQRSTUVWXYZ" || c in "0123456789" || c in "._-"
    {
      var i :| 0 <= i < |s| && s[i] == c;
    }
    forall i | 0 <= i < |s|
      ensures s[i] in s
    {
    }
  }

  lemma LowerCase(c: char)
    ensures 'a' <= c <= 'z' <==> c in "abcdefghijklmnopqrstuvwxyz"
  {
    var s := "abcdefghijklmnopqrstuvwxyz";
    assert forall i :: 0 <= i < 26 ==> s[i] as int == 'a' as int + i;
    if 'a' <= c <= 'z' {
      assert s[c as int - 'a' as int] == c;
    }
  }

  lemma UpperCase(c: char)
    ensures 'A' <= c <= 'Z' <==> c in "ABCDEFGHIJKLMNOPQRSTUVWXYZ"
  {
    var s := "ABCDEFGHIJKLMNOPQRSTUVWXYZ";
    assert forall i :: 0 <= i < 26 ==> s[i] as int == 'A' as int + i;
    if 'A' <= c <= 'Z' {
      assert s[c as int - 'A' as int] == c;
    }
  }

  lemma Digits(c: char)
    ensures '0' <= c <= '9' <==> c in "0123456789"
  {
    var s := "0123456789";
    assert forall i :: 0 <= i < 10 ==> s[i] as int == '0' as int + i;
    if '0' <= c <= '9' {
      assert s[c as int - '0' as int] == c;
    }
  }

  /**
   * Loading the current release of a robot: there has to be an index, about that robot; it has to
   * name a directory in which that release verifies, by the manifest path and digest that the index
   * gives; then it is current exactly when the latest fingerprint is the manifest's, otherwise stale.
   */
  lemma LoadCurrentExactly(s: State, robotId: string, latest: Option<string>)
    ensures var loaded := LoadCurrent(s, robotId, latest);
            && (loaded.NoCurrent? <==> !SafeSegment(robotId) || robotId !in s.current)
            && (!loaded.NoCurrent? ==>
                  var index := s.current[robotId];
                  var key := Key(robotId, index.releaseId);
                  if index.robotId != robotId || !SafeSegment(index.releaseId) || key !in s.dirs then loaded == Failed
                  else
                    var v := VerifiedRelease(s.dirs[key], robotId, index.releaseId, index.manifest, Some(index.digest));
                    if v.None? then loaded == Failed
                    else if latest == Some(v.value.manifest.fingerprint) then loaded == Current(v.value)
                    else loaded == Stale(v.value))
  {
    hide VerifiedRelease, SafeSegment;
  }

  // ---- what is published ----

  /** The adapter files of a request, or its package alone, under its own name as entry point. */
  lemma DeclaredAre(q: Request)
    ensures q.adapterFiles != [] ==> Declared(q) == q.adapterFiles
    ensures q.adapterFiles == [] ==> Declared(q) == [Supplied(Relative(false, [q.packageName]), q.package, ENTRYPOINT)]
  {
  }

  /** No later file goes to the same place. */
  predicate LastDeclared(q: Request, i: nat) {
    i < |Declared(q)| && forall j :: i < j < |Declared(q)| ==> Declared(q)[j].relative.parts != Declared(q)[i].relative.parts
  }

  lemma {:induction false} PlanAt(q: Request, n: nat, i: nat)
    requires i < n <= |Declared(q)| && forall j :: i < j < n ==> Declared(q)[j].relative.parts != Declared(q)[i].relative.parts
    ensures Target(Declared(q)[i]) in Plan(q, n) && Plan(q, n)[Target(Declared(q)[i])] == Declared(q)[i].source
  {
    hide Declared;
    if i < n - 1 {
      var other := Target(Declared(q)[n - 1]);
      assert other[1..] == Declared(q)[n - 1].relative.parts && Target(Declared(q)[i])[1..] == Declared(q)[i].relative.parts;
      PlanAt(q, n - 1, i);
    }
  }

  lemma {:induction false} PlanElsewhere(q: Request, n: nat, path: Path)
    requires n <= |Declared(q)| && forall j :: 0 <= j < n ==> path != ["adapter"] + Declared(q)[j].relative.parts
    ensures path in Plan(q, n) <==> path in Plan(q, 0)
    ensures path in Plan(q, 0) ==> Plan(q, n)[path] == Plan(q, 0)[path]
  {
    if n > 0 {
      PlanElsewhere(q, n - 1, path);
    }
    hide Declared;
  }

  /**
   * Where each source goes: the adapter files under `adapter`, each to its own path, the last one
   * of a path winning; the bundle manifest beside them, unless one of them takes its place; the four
   * documents at the top.  Nothing else is copied.
   */
  lemma PlanExactly(q: Request)
    ensures var plan := FullPlan(q);
            && {["adapter", "adapter-manifest.json"], ["tool-catalog.json"], ["state-graph.json"],
                ["conformance-report.json"], ["gate-report.json"]} <= plan.Keys
            && plan[["tool-catalog.json"]] == q.catalog && plan[["state-graph.json"]] == q.graph
            && plan[["conformance-report.json"]] == q.conformance && plan[["gate-report.json"]] == q.gate
            && (forall i: nat :: LastDeclared(q, i) ==>
                  var path := ["adapter"] + Declared(q)[i].relative.parts;
                  path in plan && plan[path] == Declared(q)[i].source)
            && ((forall i :: 0 <= i < |Declared(q)| ==> Declared(q)[i].relative.parts != ["adapter-manifest.json"]) ==>
                  plan[["adapter", "adapter-manifest.json"]] == q.bundle)
            && (forall path :: path in plan ==>
                  || path in {["adapter", "adapter-manifest.json"], ["tool-catalog.json"], ["state-graph.json"],
                              ["conformance-report.json"], ["gate-report.json"]}
                  || exists i :: 0 <= i < |Declared(q)| && path == ["adapter"] + Declared(q)[i].relative.parts)
  {
    var n := |Declared(q)|;
    PlanKeeps(q, n);
    forall i: nat | LastDeclared(q, i)
      ensures var path := ["adapter"] + Declared(q)[i].relative.parts; path in FullPlan(q) && FullPlan(q)[path] == Declared(q)[i].source
    {
      PlanAt(q, n, i);
    }
    if forall i :: 0 <= i < n ==> Declared(q)[i].relative.parts != ["adapter-manifest.json"] {
      forall j | 0 <= j < n ensures BUNDLE != ["adapter"] + Declared(q)[j].relative.parts {
        assert (["adapter"] + Declared(q)[j].relative.parts)[1..] == Declared(q)[j].relative.parts;
        assert BUNDLE[1..] == ["adapter-manifest.json"];
      }
      PlanElsewhere(q, n, BUNDLE);
      FirstPlan(q);
    }
    hide Declared, Plan, LastDeclared;
  }

  lemma FirstPlan(q: Request)
    ensures BUNDLE in Plan(q, 0) && Plan(q, 0)[BUNDLE] == q.bundle
  {
    assert |BUNDLE| == 2 && |CATALOG| == 1 && |GRAPH| == 1 && |CONFORMANCE| == 1 && |GATE| == 1;
  }

  /**
   * Staging succeeds if and only if there is exactly one entry point and its source is the package,
   * every path is relative, goes nowhere upwards and is not empty, and every source is there.  The
   * tree then holds the copies and a manifest, which says what the request says, and pins every
   * document and every declared file by path and digest of its copy.
   */
  lemma AssembleExactly(q: Request, sources: Sources)
    ensures var tree := Assemble(q, sources);
            && (tree.Some? <==>
                  && (exists i :: 0 <= i < |Declared(q)| && Declared(q)[i].role == ENTRYPOINT && Declared(q)[i].source == q.package
                        && forall j :: 0 <= j < |Declared(q)| && j != i ==> Declared(q)[j].role != ENTRYPOINT)
                  && (forall f :: f in Declared(q) ==> !f.relative.absolute && ".." !in f.relative.parts && f.relative.parts != [])
                  && forall path :: path in FullPlan(q) ==> FullPlan(q)[path] in sources)
            && (tree.Some? ==>
                  && tree.value.Keys == FullPlan(q).Keys + {["manifest.json"]}
                  && (forall path :: path in FullPlan(q) ==> tree.value[path] == sources[FullPlan(q)[path]])
                  && tree.value[["manifest.json"]].ManifestFile?)
  {
    EntrypointExactly(q);
    SafeExactly(q);
    if Assemble(q, sources).Some? {
      PlanKeeps(q, |Declared(q)|);
      CopiesAreComplete(q, Copied(q, sources));
    }
    hide OneEntrypoint, AllSafe, FullPlan, Declared, ManifestOf, FullyCopied;
  }

  lemma EntrypointExactly(q: Request)
    ensures OneEntrypoint(q) <==>
              exists i :: 0 <= i < |Declared(q)| && Declared(q)[i].role == ENTRYPOINT && Declared(q)[i].source == q.package
                && forall j :: 0 <= j < |Declared(q)| && j != i ==> Declared(q)[j].role != ENTRYPOINT
  {
    hide Declared;
    if i :| 0 <= i < |Declared(q)| && Declared(q)[i].role == ENTRYPOINT && Declared(q)[i].source == q.package
            && forall j :: 0 <= j < |Declared(q)| && j != i ==> Declared(q)[j].role != ENTRYPOINT {
      assert IsTheEntrypoint(q, i);
    }
  }

  lemma SafeExactly(q: Request)
    ensures AllSafe(q) <==>
              forall f :: f in Declared(q) ==> !f.relative.absolute && ".." !in f.relative.parts && f.relative.parts != []
  {
    hide Declared;
    if AllSafe(q) {
      forall f | f in Declared(q) ensures !f.relative.absolute && ".." !in f.relative.parts && f.relative.parts != [] {
        var i :| 0 <= i < |Declared(q)| && Declared(q)[i] == f;
        assert SafePath(Declared(q)[i].relative);
      }
    }
  }

  /** What the manifest of a complete tree says. */
  lemma ManifestExactly(q: Request, sources: Sources)
    requires Assemble(q, sources).Some?
    ensures var tree := Assemble(q, sources).value;
            && {["adapter", "adapter-manifest.json"], ["tool-catalog.json"], ["state-graph.json"],
                ["conformance-report.json"], ["gate-report.json"]} <= tree.Keys
            && ["manifest.json"] in tree && tree[["manifest.json"]].ManifestFile?
            && var m := tree[["manifest.json"]].manifest;
            && m.releaseId == q.key.releaseId && m.robotId == q.key.robotId && m.discoveryId == q.discoveryId
            && m.fingerprint == q.fingerprint
            && m.bundle == Pin(["adapter", "adapter-manifest.json"], Sha(tree[["adapter", "adapter-manifest.json"]]))
            && m.catalog == Pin(["tool-catalog.json"], Sha(tree[["tool-catalog.json"]]))
            && m.graph == Pin(["state-graph.json"], Sha(tree[["state-graph.json"]]))
            && m.conformance == Pin(["conformance-report.json"], Sha(tree[["conformance-report.json"]]))
            && m.gate == Pin(["gate-report.json"], Sha(tree[["gate-report.json"]]))
            && |m.adapterFiles| == |Declared(q)|
            && (forall i :: 0 <= i < |Declared(q)| ==>
                  var path := ["adapter"] + Declared(q)[i].relative.parts;
                  m.adapterFiles[i].path == path && m.adapterFiles[i].role == Declared(q)[i].role
                  && path in tree && m.adapterFiles[i].digest == Sha(tree[path]))
            && exists i :: 0 <= i < |Declared(q)| && Declared(q)[i].role == ENTRYPOINT
                 && m.package == Pin(m.adapterFiles[i].path, m.adapterFiles[i].digest)
  {
    var copied := Copied(q, sources);
    CopiesAreComplete(q, copied);
    PlanKeeps(q, |Declared(q)|);
    EntrypointIsDeclared(q);
    var tree := Assemble(q, sources).value;
    var m := ManifestOf(q, copied);
    assert tree == copied[MANIFEST := ManifestFile(m)];
    hide Declared, FullPlan, OneEntrypoint, AllSafe, Copied, Assemble;
    forall i | 0 <= i < |Declared(q)|
      ensures var path := ["adapter"] + Declared(q)[i].relative.parts;
              m.adapterFiles[i] == AdapterFile(path, Sha(copied[path]), Declared(q)[i].role) && path in copied
    {
      assert m.adapterFiles[i] == PublishedFiles(q, copied)[i];
    }
    assert Declared(q)[FirstEntrypoint(Declared(q), 0)].role == ENTRYPOINT;
  }

  /** One call of publish: refused if the id is unsafe or either directory is there, else the whole tree or nothing. */
  lemma PublishExactly(s: State, q: Request, sources: Sources)
    ensures var (t, manifest) := Publish(s, q, sources, false);
            var staging := Key(q.key.robotId, q.key.releaseId + ".staging");
            if SafeSegment(q.key.robotId) && SafeSegment(q.key.releaseId) && q.key !in s.dirs && staging !in s.dirs
               && Assemble(q, sources).Some?
            then
              && t.dirs == s.dirs[q.key := Assemble(q, sources).value] && t.current == s.current
              && manifest.Some? && Assemble(q, sources).value[["manifest.json"]] == ManifestFile(manifest.value)
            else t == s && manifest == None
  {
    if Assemble(q, sources).Some? {
      AssembleExactly(q, sources);
    }
    hide Assemble, SafeSegment;
  }
}
