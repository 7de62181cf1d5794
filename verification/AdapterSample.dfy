/** A small release that verifies, to show that nothing proved of releases is empty. */
module AdapterSample {
  import opened Optional
  import opened Lookup
  import opened AdapterRelease
  import opened AdapterPublication
  import opened AdapterSafety

  const PACKAGE: Path := ["adapter", "adapter.py"]

  /** One package, no further adapter files. */
  function PlainRequest(key: Key): Request {
    Request(key, "discovery-1", "fingerprint-1", "bundle", "package", "adapter.py", [], "catalog", "graph", "conformance", "gate")
  }

  function PlainBundle(key: Key, operations: seq<Entry>): Bundle {
    Bundle("bundle-1", key.robotId, "discovery-1", true, ["adapter.py"], Sha(OtherFile("code")), [], operations)
  }

  function PlainCatalog(key: Key, tools: seq<Tool>): Catalog {
    Catalog(key.robotId, "discovery-1", tools)
  }

  function PlainSources(key: Key, operations: seq<Entry>, tools: seq<Tool>): Sources {
    map["bundle" := BundleFile(PlainBundle(key, operations)), "package" := OtherFile("code"),
        "catalog" := CatalogFile(PlainCatalog(key, tools)), "graph" := GraphFile(key.robotId, "discovery-1"),
        "conformance" := ConformanceFile(key.robotId, "discovery-1"),
        "gate" := GateFile(Gate(key.releaseId, key.robotId, "discovery-1", true))]
  }

  lemma PlainPlan(key: Key)
    ensures var q := PlainRequest(key);
            && Declared(q) == [Supplied(Relative(false, ["adapter.py"]), "package", ENTRYPOINT)]
            && Target(Declared(q)[0]) == PACKAGE
            && FullPlan(q) == map[BUNDLE := "bundle", CATALOG := "catalog", GRAPH := "graph", CONFORMANCE := "conformance",
                                  GATE := "gate", PACKAGE := "package"]
            && OneEntrypoint(q) && AllSafe(q)
  {
    var q := PlainRequest(key);
    assert IsTheEntrypoint(q, 0);
    assert "adapter.py"[0] != ".."[0];
    assert SafePath(Declared(q)[0].relative);
    assert PACKAGE[1] != BUNDLE[1] by { assert PACKAGE[1][7] != BUNDLE[1][7]; }
    assert Plan(q, 0)
           == map[BUNDLE := "bundle", CATALOG := "catalog", GRAPH := "graph", CONFORMANCE := "conformance", GATE := "gate"];
    assert Target(Declared(q)[0]) == PACKAGE;
    assert |Declared(q)| == 1 && Plan(q, 1) == Plan(q, 0)[Target(Declared(q)[0]) := Declared(q)[0].source];
  }

  /** The release is published, and verifies if its operations are bound in its catalog. */
  lemma PlainVerifies(key: Key, operations: seq<Entry>, tools: seq<Tool>)
    requires CatalogBinds(PlainBundle(key, operations), PlainCatalog(key, tools))
    ensures var q, sources := PlainRequest(key), PlainSources(key, operations, tools);
            && Assemble(q, sources).Some?
            && var files := Assemble(q, sources).value;
               && MANIFEST in files && files[MANIFEST].ManifestFile?
               && files[MANIFEST].manifest.fingerprint == "fingerprint-1" && files[MANIFEST].manifest.releaseId == key.releaseId
               && VerifiedRelease(files, key.robotId, key.releaseId, MANIFEST, None)
                  == Some(Release(files[MANIFEST].manifest, PlainBundle(key, operations), PlainCatalog(key, tools)))
  {
    var q, sources := PlainRequest(key), PlainSources(key, operations, tools);
    PlainPlan(key);
    hide FullPlan, Declared, CatalogBinds;
    assert SourcesThere(q, sources);
    var copied := Copied(q, sources);
    assert copied[BUNDLE] == BundleFile(PlainBundle(key, operations)) && copied[CATALOG] == CatalogFile(PlainCatalog(key, tools));
    assert copied[GRAPH] == sources["graph"] && copied[CONFORMANCE] == sources["conformance"] && copied[GATE] == sources["gate"];
    assert copied[PACKAGE] == OtherFile("code");
    hide PlainSources, Copied, SourcesThere, OneEntrypoint, AllSafe;
    CopiesAreComplete(q, copied);
    PlainCoherent(key, copied, operations, tools);
    hide Coherent, FullyCopied, VerifiedRelease, Sealed, HashesHold;
    PublishedHashesHold(q, copied);
    PublishedVerifiesExactly(q, copied);
  }

  lemma PlainCoherent(key: Key, copied: Files, operations: seq<Entry>, tools: seq<Tool>)
    requires var q := PlainRequest(key); Covers(q, copied) && FullyCopied(q, copied)
    requires copied[BUNDLE] == BundleFile(PlainBundle(key, operations)) && copied[CATALOG] == CatalogFile(PlainCatalog(key, tools))
    requires copied[GRAPH] == GraphFile(key.robotId, "discovery-1") && copied[CONFORMANCE] == ConformanceFile(key.robotId, "discovery-1")
    requires copied[GATE] == GateFile(Gate(key.releaseId, key.robotId, "discovery-1", true))
    requires PACKAGE in copied && copied[PACKAGE] == OtherFile("code")
    requires CatalogBinds(PlainBundle(key, operations), PlainCatalog(key, tools))
    ensures Coherent(PlainRequest(key), copied)
  {
    var q := PlainRequest(key);
    PlainPlan(key);
    var m := ManifestOf(q, copied);
    hide FullPlan, CatalogBinds, Covers, FullyCopied;
    assert FirstEntrypoint(Declared(q), 0) == 0;
    var file := AdapterFile(PACKAGE, Sha(OtherFile("code")), ENTRYPOINT);
    assert m.adapterFiles == [file] && m.package.digest == file.digest;
    PlainFilesAgree(m, PlainBundle(key, operations));
  }

  lemma PlainFilesAgree(m: Manifest, b: Bundle)
    requires m.adapterFiles == [AdapterFile(PACKAGE, Sha(OtherFile("code")), ENTRYPOINT)]
    requires b.files == [] && b.packageFile == ["adapter.py"] && b.packageDigest == Sha(OtherFile("code"))
    ensures FilesAgree(m, b)
  {
    var file := m.adapterFiles[0];
    assert PublishedPath(file) == ["adapter.py"];
    var declared := DeclaredFiles(b);
    assert declared[0].path == ["adapter.py"];
    var published, listed := ById(m.adapterFiles, PublishedPath), ById(declared, PathOf);
    assert published.Keys == {["adapter.py"]} == listed.Keys;
  }

  /** Published into an empty output root and activated, it loads as the current release. */
  lemma PlainIsCurrent(key: Key, operations: seq<Entry>, tools: seq<Tool>)
    requires SafeKey(key) && CatalogBinds(PlainBundle(key, operations), PlainCatalog(key, tools))
    ensures var s := Publish(State(map[], map[]), PlainRequest(key), PlainSources(key, operations, tools), false).0;
            var loaded := LoadCurrent(Activate(s, key, None, Some("fingerprint-1")).0, key.robotId, Some("fingerprint-1"));
            && loaded.Current? && loaded.release.bundle == PlainBundle(key, operations)
            && loaded.release.catalog == PlainCatalog(key, tools)
  {
    PlainVerifies(key, operations, tools);
    var s := Publish(State(map[], map[]), PlainRequest(key), PlainSources(key, operations, tools), false).0;
    hide Assemble, PlainSources, VerifiedRelease, CatalogBinds, Staging, SafeKey;
    assert LoadForActivation(s, key).Some?;
    hide LoadForActivation, Publish, Activate, LoadCurrent;
    ActivationSucceedsExactly(s, key, None, Some("fingerprint-1"));
  }
}
