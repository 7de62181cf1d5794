/** Published adapter releases: trees of files, and the checks a release passes before it is used. */
module AdapterRelease {
  import opened Lookup
  import opened Optional
  import opened SchemaSubset

  // ---- files ----

  /** A normalised relative path. */
  type Path = seq<string>

  datatype Role = ENTRYPOINT | SUPPORT

  datatype AdapterFile = AdapterFile(path: Path, digest: Digest, role: Role)

  datatype Entry = Entry(operation: string, entrypoint: string, contractVersion: string, contractDigest: string)

  datatype Bundle = Bundle(
    bundleId: string, robotId: string, discoveryId: string, isV1: bool, packageFile: Path, packageDigest: Digest,
    files: seq<AdapterFile>, operations: seq<Entry>)

  datatype Tool = Tool(
    operation: string, contractVersion: Option<string>, contractDigest: Option<string>, availability: string, adapter: string,
    inputSchema: Json, outputSchema: Json)

  datatype Catalog = Catalog(robotId: string, discoveryId: string, tools: seq<Tool>)

  datatype Gate = Gate(runId: string, robotId: string, discoveryId: string, passed: bool)

  datatype Pin = Pin(path: Path, digest: Digest)

  datatype Manifest = Manifest(
    releaseId: string, robotId: string, discoveryId: string, fingerprint: string, bundle: Pin, package: Pin,
    adapterFiles: seq<AdapterFile>, catalog: Pin, graph: Pin, conformance: Pin, gate: Pin)

  /** What a file holds, parsed; anything that is none of these documents is `OtherFile`. */
  datatype Content =
    | BundleFile(bundle: Bundle)
    | CatalogFile(catalog: Catalog)
    | GraphFile(robotId: string, discoveryId: string)
    | ConformanceFile(robotId: string, discoveryId: string)
    | GateFile(gate: Gate)
    | ManifestFile(manifest: Manifest)
    | OtherFile(bytes: string)

  /** The SHA-256 of a content, taken as injective, or sixty-four digits that belong to none. */
  datatype Digest = Sha(of: Content) | Unmatched(hex: string)

  type Files = map<Path, Content>

  /** `_relative_file`: the file of that path, if the path stays inside. */
  function FileAt(files: Files, path: Path): Option<Content> {
    if ".." !in path && path in files then Some(files[path]) else None
  }

  predicate HashMatches(files: Files, path: Path, digest: Digest) {
    FileAt(files, path).Some? && Sha(FileAt(files, path).value) == digest
  }

  // ---- documents ----

  function PathOf(f: AdapterFile): Path { f.path }
  function OperationOf(t: Tool): string { t.operation }

  /** The rules of a bundle manifest. */
  predicate BundleValid(b: Bundle) {
    if b.files == [] then b.isV1
    else
      && DistinctKeys(b.files, PathOf)
      && exists i :: 0 <= i < |b.files|
           && b.files[i] == AdapterFile(b.packageFile, b.packageDigest, ENTRYPOINT)
           && forall j :: 0 <= j < |b.files| && j != i ==> b.files[j].role != ENTRYPOINT
  }

  /** `declared_files`. */
  function DeclaredFiles(b: Bundle): seq<AdapterFile> {
    if b.files != [] then b.files else [AdapterFile(b.packageFile, b.packageDigest, ENTRYPOINT)]
  }

  function AdapterName(b: Bundle, e: Entry): string {
    "bundle:" + b.bundleId + "#" + e.entrypoint
  }

  function Pins(m: Manifest): seq<Pin> {
    [m.bundle, m.package, m.catalog, m.graph, m.conformance, m.gate]
  }

  // ---- a verified release, declaratively ----

  datatype Release = Release(manifest: Manifest, bundle: Bundle, catalog: Catalog)

  /** All files the manifest pins are there with the pinned content. */
  predicate HashesHold(files: Files, m: Manifest) {
    && (forall i :: 0 <= i < |Pins(m)| ==> HashMatches(files, Pins(m)[i].path, Pins(m)[i].digest))
    && forall i :: 0 <= i < |m.adapterFiles| ==> HashMatches(files, m.adapterFiles[i].path, m.adapterFiles[i].digest)
  }

  predicate UnderAdapter(f: AdapterFile) {
    f.path != [] && f.path[0] == "adapter"
  }

  /** The path inside the adapter directory. */
  function PublishedPath(f: AdapterFile): Path {
    if f.path != [] then f.path[1..] else []
  }

  /** The published adapter files by path inside the adapter directory; a later file replaces an earlier one. */
  function PublishedByPath(m: Manifest): map<Path, AdapterFile>
    requires forall f :: f in m.adapterFiles ==> UnderAdapter(f)
  {
    ById(m.adapterFiles, PublishedPath)
  }

  /** The published adapter files are exactly the declared ones, if any are listed. */
  predicate FilesAgree(m: Manifest, b: Bundle) {
    && (forall f :: f in m.adapterFiles ==> UnderAdapter(f))
    && (m.adapterFiles != [] ==>
          var published, declared := PublishedByPath(m), ById(DeclaredFiles(b), PathOf);
          && published.Keys == declared.Keys
          && forall path :: path in declared ==>
               published[path].digest == declared[path].digest && published[path].role == declared[path].role)
  }

  /** The catalog lists the operation of the entry as verified, under the same contract and bound to it. */
  predicate EntryBound(b: Bundle, c: Catalog, e: Entry) {
    var tools := ById(c.tools, OperationOf);
    && e.operation in tools
    && tools[e.operation].contractVersion == Some(e.contractVersion)
    && tools[e.operation].contractDigest == Some(e.contractDigest)
    && tools[e.operation].availability == "VERIFIED"
    && tools[e.operation].adapter == AdapterName(b, e)
  }

  predicate Bundled(b: Bundle, operation: string) {
    exists i :: 0 <= i < |b.operations| && b.operations[i].operation == operation
  }

  predicate CatalogBinds(b: Bundle, c: Catalog) {
    && (forall i :: 0 <= i < |b.operations| ==> EntryBound(b, c, b.operations[i]))
    && forall i :: 0 <= i < |c.tools| && c.tools[i].availability == "VERIFIED" ==> Bundled(b, c.tools[i].operation)
  }

  /** The documents the manifest names parse, and belong to this robot, this discovery and this run. */
  predicate DocumentsBelong(files: Files, robotId: string, releaseId: string, m: Manifest) {
    && FileAt(files, m.bundle.path).Some? && FileAt(files, m.bundle.path).value.BundleFile?
    && FileAt(files, m.catalog.path).Some? && FileAt(files, m.catalog.path).value.CatalogFile?
    && var b, c := FileAt(files, m.bundle.path).value.bundle, FileAt(files, m.catalog.path).value.catalog;
       && BundleValid(b)
       && b.robotId == robotId && b.discoveryId == m.discoveryId
       && c.robotId == robotId && c.discoveryId == m.discoveryId
       && FileAt(files, m.graph.path) == Some(GraphFile(robotId, m.discoveryId))
       && FileAt(files, m.conformance.path) == Some(ConformanceFile(robotId, m.discoveryId))
       && FileAt(files, m.gate.path) == Some(GateFile(Gate(releaseId, robotId, m.discoveryId, true)))
  }

  /** The manifest file, if it is one and has the expected digest. */
  function ManifestAt(files: Files, path: Path, expected: Option<Digest>): Option<Manifest> {
    match FileAt(files, path)
    case None => None
    case Some(content) =>
      if (expected.Some? && expected.value != Sha(content)) || !content.ManifestFile? then None
      else Some(content.manifest)
  }

  /** What loading a release gives, or nothing when any of its checks fails. */
  function VerifiedRelease(files: Files, robotId: string, releaseId: string, path: Path,
                           expected: Option<Digest>): Option<Release>
  {
    match ManifestAt(files, path, expected)
    case None => None
    case Some(m) =>
      if !(m.robotId == robotId && m.releaseId == releaseId && HashesHold(files, m)
           && DocumentsBelong(files, robotId, releaseId, m)) then None
      else
        var b, c := FileAt(files, m.bundle.path).value.bundle, FileAt(files, m.catalog.path).value.catalog;
        if b.packageDigest == m.package.digest && FilesAgree(m, b) && CatalogBinds(b, c) then Some(Release(m, b, c)) else None
  }

  // ---- the checks ----

  method CheckHashes(files: Files, m: Manifest) returns (ok: bool)
    ensures ok <==> HashesHold(files, m)
  {
    var pins := Pins(m);
    for i := 0 to |pins|
      invariant forall j :: 0 <= j < i ==> HashMatches(files, pins[j].path, pins[j].digest)
    {
      if !HashMatches(files, pins[i].path, pins[i].digest) {
        return false;
      }
    }
    for i := 0 to |m.adapterFiles|
      invariant forall j :: 0 <= j < i ==> HashMatches(files, m.adapterFiles[j].path, m.adapterFiles[j].digest)
    {
      if !HashMatches(files, m.adapterFiles[i].path, m.adapterFiles[i].digest) {
        return false;
      }
    }
    return true;
  }

  method CheckFileBinding(m: Manifest, b: Bundle) returns (ok: bool)
    ensures ok <==> FilesAgree(m, b)
  {
    if exists f | f in m.adapterFiles :: !UnderAdapter(f) {
      return false;
    }
    var published := PublishedByPath(m);
    if m.adapterFiles == [] {
      return true;
    }
    var declared := ById(DeclaredFiles(b), PathOf);
    if published.Keys != declared.Keys {
      return false;
    }
    var todo := declared.Keys;
    while todo != {}
      invariant todo <= declared.Keys
      invariant forall path :: path in declared && path !in todo ==>
        published[path].digest == declared[path].digest && published[path].role == declared[path].role
    {
      var path :| path in todo;
      if published[path].digest != declared[path].digest || published[path].role != declared[path].role {
        return false;
      }
      todo := todo - {path};
    }
    return true;
  }

  method CheckCatalogBinding(b: Bundle, c: Catalog) returns (ok: bool)
    ensures ok <==> CatalogBinds(b, c)
  {
    var descriptors := ById(c.tools, OperationOf);
    for i := 0 to |b.operations|
      invariant forall j :: 0 <= j < i ==> EntryBound(b, c, b.operations[j])
    {
      var entry := b.operations[i];
      if entry.operation !in descriptors {
        return false;
      }
      var descriptor := descriptors[entry.operation];
      if descriptor.contractVersion != Some(entry.contractVersion)
         || descriptor.contractDigest != Some(entry.contractDigest) {
        return false;
      }
      if descriptor.availability != "VERIFIED" || descriptor.adapter != AdapterName(b, entry) {
        return false;
      }
    }
    var bundled := set i | 0 <= i < |b.operations| :: b.operations[i].operation;
    return forall i :: 0 <= i < |c.tools| ==> c.tools[i].availability == "VERIFIED" ==> c.tools[i].operation in bundled;
  }

  /** `_load_verified_release`. */
  method LoadVerifiedRelease(files: Files, robotId: string, releaseId: string, path: Path, expected: Option<Digest>)
    returns (r: Option<Release>)
    ensures r == VerifiedRelease(files, robotId, releaseId, path, expected)
  {
    var manifest := FileAt(files, path);
    if manifest.None? || (expected.Some? && Sha(manifest.value) != expected.value) || !manifest.value.ManifestFile? {
      return None;
    }
    var m := manifest.value.manifest;
    if m.robotId != robotId || m.releaseId != releaseId {
      return None;
    }
    var hashed := CheckHashes(files, m);
    if !hashed || !DocumentsBelong(files, robotId, releaseId, m) {
      return None;
    }
    var b, c := FileAt(files, m.bundle.path).value.bundle, FileAt(files, m.catalog.path).value.catalog;
    if b.packageDigest != m.package.digest {
      return None;
    }
    var agreed := CheckFileBinding(m, b);
    if !agreed {
      return None;
    }
    var bound := CheckCatalogBinding(b, c);
    return if bound then Some(Release(m, b, c)) else None;
  }
}
