/** `build_topology_diff`: the changes between two snapshots, and the patch they amount to. */
module TopologyDiff {
  import opened Ordering
  import opened Lookup
  import opened Topology
  import opened Optional

  const MAX_CHANGES := 500

  datatype ChangeKind = ADDED | REMOVED | CHANGED

  /** A dumped field value. */
  datatype Field = Text(text: string) | Number(number: real) | Texts(texts: seq<string>)
                 | Mapping(entries: map<string, Attribute>)
                 | StateField(state: State) | IntegrityField(integrity: Integrity)

  type Dump = map<string, Field>

  datatype Change<+T> = Change(
    id: string,
    kind: ChangeKind,
    changedFields: seq<string>,
    before: Option<T>,
    after: Option<T>)

  datatype Summary = Summary(snapshotId: string, releaseId: string, publishedAt: int)

  datatype Snapshot = Snapshot(summary: Summary, topology: RobotTopology)

  datatype Diff = Diff(
    fromSnapshot: Summary,
    toSnapshot: Summary,
    addedNodes: nat, removedNodes: nat, changedNodes: nat,
    addedEdges: nat, removedEdges: nat, changedEdges: nat,
    nodeChanges: seq<Change<Node>>,
    edgeChanges: seq<Change<Edge>>,
    observedAt: int,
    truncationNoted: bool)

  // ---- model_dump and _changed_fields ----

  function NodeKey(n: Node): string { n.nodeId }

  function EdgeKey(e: Edge): string { e.edgeId }

  function DumpNode(n: Node): Dump {
    map[
      "schema_version" := Text("rolo-topology-node/v1"), "node_id" := Text(n.nodeId), "kind" := Text(n.kind),
      "label" := Text(n.caption), "subtitle" := Text(n.subtitle), "layer" := Text(n.layer),
      "state" := StateField(n.state), "confidence" := Number(n.confidence),
      "integrity_status" := IntegrityField(n.integrity), "evidence_ids" := Texts(n.evidenceIds),
      "attributes" := Mapping(n.attributes)]
  }

  function DumpEdge(e: Edge): Dump {
    map[
      "schema_version" := Text("rolo-topology-edge/v1"), "edge_id" := Text(e.edgeId),
      "source" := Text(e.source), "target" := Text(e.target), "relation" := Text(e.relation),
      "state" := StateField(e.state), "confidence" := Number(e.confidence),
      "integrity_status" := IntegrityField(e.integrity), "evidence_ids" := Texts(e.evidenceIds)]
  }

  /** `==` on attribute values: a whole number, its float and a boolean can be equal. */
  predicate SameValue(a: Attribute, b: Attribute) {
    match (a, b)
    case (Word(s), Word(t)) => s == t
    case (Word(_), _) => false
    case (_, Word(_)) => false
    case _ => AsReal(a) == AsReal(b)
  }

  function AsReal(a: Attribute): real
    requires !a.Word?
  {
    match a
    case Int(i) => i as real
    case Float(x) => x
    case Bool(on) => if on then 1.0 else 0.0
  }

  predicate SameEntries(a: map<string, Attribute>, b: map<string, Attribute>) {
    a.Keys == b.Keys && forall k :: k in a ==> SameValue(a[k], b[k])
  }

  /** `==` on dumped fields. */
  predicate SameField(a: Option<Field>, b: Option<Field>) {
    if a.Some? && b.Some? && a.value.Mapping? && b.value.Mapping? then SameEntries(a.value.entries, b.value.entries) else a == b
  }

  /** All that a comparison of two nodes of one id looks at. */
  predicate SameNode(m: Node, n: Node) {
    m == n.(attributes := m.attributes) && SameEntries(m.attributes, n.attributes)
  }

  predicate SameEdge(e: Edge, f: Edge) {
    e == f
  }

  /** How items of one type are dumped, which field names them, and when two of one id count as the same. */
  datatype Rules<!T> = Rules(dump: T -> Dump, identity: string, same: (T, T) -> bool)

  const NODES: Rules<Node> := Rules(DumpNode, "node_id", SameNode)
  const EDGES: Rules<Edge> := Rules(DumpEdge, "edge_id", SameEdge)

  function Get(d: Dump, key: string): Option<Field> {
    if key in d then Some(d[key]) else None
  }

  function ChangedFields(before: Dump, after: Dump, identity: string): seq<string> {
    Sorted(set k | k in before.Keys + after.Keys
                 && k != "schema_version" && k != identity && !SameField(Get(before, k), Get(after, k)))
  }

  lemma ChangedFieldsIgnoreDirection(before: Dump, after: Dump, identity: string)
    ensures ChangedFields(before, after, identity) == ChangedFields(after, before, identity)
  {
    assert (set k | k in before.Keys + after.Keys
                  && k != "schema_version" && k != identity && !SameField(Get(before, k), Get(after, k)))
        == (set k | k in after.Keys + before.Keys
                  && k != "schema_version" && k != identity && !SameField(Get(after, k), Get(before, k)));
  }

  lemma UnchangedField(before: Dump, after: Dump, identity: string, key: string)
    requires ChangedFields(before, after, identity) == []
    requires key != "schema_version" && key != identity && key in before && key in after
    ensures SameField(Some(before[key]), Some(after[key]))
  {
    assert key !in ChangedFields(before, after, identity);
  }

  /** No changed field: everything is equal but for the way a number among the attributes is written. */
  lemma UnchangedNodesAreSame(m: Node, n: Node)
    requires m.nodeId == n.nodeId
    ensures ChangedFields(DumpNode(m), DumpNode(n), "node_id") == [] <==> SameNode(m, n)
  {
    if ChangedFields(DumpNode(m), DumpNode(n), "node_id") == [] {
      NodeFieldsAreSame(m, n);
    } else {
      hide SameEntries;
      var k := ChangedFields(DumpNode(m), DumpNode(n), "node_id")[0];
      assert k in ChangedFields(DumpNode(m), DumpNode(n), "node_id");
    }
  }

  lemma NodeFieldsAreSame(m: Node, n: Node)
    requires m.nodeId == n.nodeId && ChangedFields(DumpNode(m), DumpNode(n), "node_id") == []
    ensures SameNode(m, n)
  {
    hide SameEntries, ChangedFields;
    var a, b := DumpNode(m), DumpNode(n);
    UnchangedField(a, b, "node_id", "kind");
    UnchangedField(a, b, "node_id", "label");
    UnchangedField(a, b, "node_id", "subtitle");
    UnchangedField(a, b, "node_id", "layer");
    UnchangedField(a, b, "node_id", "state");
    UnchangedField(a, b, "node_id", "confidence");
    UnchangedField(a, b, "node_id", "integrity_status");
    UnchangedField(a, b, "node_id", "evidence_ids");
    UnchangedField(a, b, "node_id", "attributes");
  }

  lemma UnchangedEdgesAreEqual(e: Edge, f: Edge)
    requires e.edgeId == f.edgeId
    ensures ChangedFields(DumpEdge(e), DumpEdge(f), "edge_id") == [] <==> e == f
  {
    var a, b := DumpEdge(e), DumpEdge(f);
    if ChangedFields(a, b, "edge_id") == [] {
      UnchangedField(a, b, "edge_id", "source");
      UnchangedField(a, b, "edge_id", "target");
      UnchangedField(a, b, "edge_id", "relation");
      UnchangedField(a, b, "edge_id", "state");
      UnchangedField(a, b, "edge_id", "confidence");
      UnchangedField(a, b, "edge_id", "integrity_status");
      UnchangedField(a, b, "edge_id", "evidence_ids");
    }
  }

  /** Sameness is an equivalence. */
  ghost predicate Lawful<T(!new)>(rules: Rules<T>) {
    && (forall x :: rules.same(x, x))
    && (forall x, y :: rules.same(x, y) ==> rules.same(y, x))
    && forall x, y, z :: rules.same(x, y) && rules.same(y, z) ==> rules.same(x, z)
  }

  lemma RulesAreLawful()
    ensures Lawful(NODES) && Lawful(EDGES)
  {
    assert forall m, n, o :: SameNode(m, n) && SameNode(n, o) ==> SameNode(m, o);
  }

  // ---- the changes ----

  predicate Differ<T>(before: map<string, T>, after: map<string, T>, rules: Rules<T>, k: string) {
    if k in before && k in after then !rules.same(before[k], after[k]) else k in before || k in after
  }

  /** What a change about item `k` must say. */
  predicate Reports<T(==)>(c: Change<T>, before: map<string, T>, after: map<string, T>,
                           rules: Rules<T>)
  {
    && Differ(before, after, rules, c.id)
    && c.before == (if c.id in before then Some(before[c.id]) else None)
    && c.after == (if c.id in after then Some(after[c.id]) else None)
    && c.kind == (if c.id !in before then ADDED else if c.id !in after then REMOVED else CHANGED)
    && c.changedFields == (if c.kind == CHANGED
                           then ChangedFields(rules.dump(before[c.id]), rules.dump(after[c.id]), rules.identity) else [])
  }

  predicate AscendingIds<T>(changes: seq<Change<T>>) {
    forall i, j :: 0 <= i < j < |changes| ==> Below(changes[i].id, changes[j].id)
  }

  predicate Mentions<T>(changes: seq<Change<T>>, k: string) {
    exists i :: 0 <= i < |changes| && changes[i].id == k
  }

  /** `changes` is exactly the difference: one true report per differing item, in id order. */
  predicate IsDiff<T(==)>(changes: seq<Change<T>>, before: map<string, T>, after: map<string, T>,
                          rules: Rules<T>)
  {
    && AscendingIds(changes)
    && (forall i :: 0 <= i < |changes| ==> Reports(changes[i], before, after, rules))
    && forall k :: k in before.Keys + after.Keys && Differ(before, after, rules, k) ==> Mentions(changes, k)
  }

  /** The dump separates items with the same id. */
  ghost predicate DumpSeparates<T>(before: map<string, T>, after: map<string, T>,
                                         rules: Rules<T>)
  {
    forall k :: k in before && k in after ==>
      (ChangedFields(rules.dump(before[k]), rules.dump(after[k]), rules.identity) == [] <==> rules.same(before[k], after[k]))
  }

  /** `changes` is the difference as far as the first `n` keys go. */
  ghost predicate DiffSoFar<T>(changes: seq<Change<T>>, keys: seq<string>, n: nat,
                               before: map<string, T>, after: map<string, T>, rules: Rules<T>)
    requires n <= |keys|
  {
    && AscendingIds(changes)
    && (forall i :: 0 <= i < |changes| ==> Reports(changes[i], before, after, rules))
    && (forall i :: 0 <= i < |changes| ==> changes[i].id in keys[..n])
    && forall m :: 0 <= m < n && Differ(before, after, rules, keys[m]) ==> Mentions(changes, keys[m])
  }

  lemma ReportNext<T>(changes: seq<Change<T>>, keys: seq<string>, n: nat, c: Change<T>,
                      before: map<string, T>, after: map<string, T>, rules: Rules<T>)
    requires Ascending(keys) && n < |keys| && DiffSoFar(changes, keys, n, before, after, rules)
    requires c.id == keys[n] && Reports(c, before, after, rules)
    ensures DiffSoFar(changes + [c], keys, n + 1, before, after, rules)
  {
    var all := changes + [c];
    assert keys[..n + 1] == keys[..n] + [keys[n]];
    forall i | 0 <= i < |changes| ensures Below(all[i].id, c.id) {
      var m :| 0 <= m < n && keys[m] == changes[i].id;
    }
    forall m | 0 <= m < n + 1 && Differ(before, after, rules, keys[m]) ensures Mentions(all, keys[m]) {
      if m < n {
        var i :| 0 <= i < |changes| && changes[i].id == keys[m];
        assert all[i] == changes[i];
      } else {
        assert all[|changes|] == c;
      }
    }
  }

  lemma SkipNext<T>(changes: seq<Change<T>>, keys: seq<string>, n: nat,
                    before: map<string, T>, after: map<string, T>, rules: Rules<T>)
    requires n < |keys| && DiffSoFar(changes, keys, n, before, after, rules)
    requires !Differ(before, after, rules, keys[n])
    ensures DiffSoFar(changes, keys, n + 1, before, after, rules)
  {
    assert keys[..n + 1] == keys[..n] + [keys[n]];
  }

  /** The report about an item that differs. */
  function ChangeAt<T(==)>(k: string, before: map<string, T>, after: map<string, T>, rules: Rules<T>): Change<T>
    requires k in before || k in after
  {
    if k !in before then Change(k, ADDED, [], None, Some(after[k]))
    else if k !in after then Change(k, REMOVED, [], Some(before[k]), None)
    else Change(k, CHANGED, ChangedFields(rules.dump(before[k]), rules.dump(after[k]), rules.identity), Some(before[k]), Some(after[k]))
  }

  /** One round of the loop. */
  lemma NextKey<T>(changes: seq<Change<T>>, keys: seq<string>, n: nat,
                   before: map<string, T>, after: map<string, T>, rules: Rules<T>)
    requires Ascending(keys) && n < |keys| && DiffSoFar(changes, keys, n, before, after, rules)
    requires keys[n] in before || keys[n] in after
    ensures DiffSoFar(if Differ(before, after, rules, keys[n])
                      then changes + [ChangeAt(keys[n], before, after, rules)] else changes,
                      keys, n + 1, before, after, rules)
  {
    if Differ(before, after, rules, keys[n]) {
      ReportNext(changes, keys, n, ChangeAt(keys[n], before, after, rules), before, after, rules);
    } else {
      SkipNext(changes, keys, n, before, after, rules);
    }
  }

  lemma AllKeysDone<T>(changes: seq<Change<T>>, keys: seq<string>,
                       before: map<string, T>, after: map<string, T>, rules: Rules<T>)
    requires DiffSoFar(changes, keys, |keys|, before, after, rules)
    requires forall k :: k in before.Keys + after.Keys ==> k in keys
    ensures IsDiff(changes, before, after, rules)
  {
    forall k | k in before.Keys + after.Keys && Differ(before, after, rules, k) ensures Mentions(changes, k) {
      assert k in keys;
      var m :| 0 <= m < |keys| && keys[m] == k;
    }
  }

  /** One round of the loop: the change to append, if any. */
  method CompareItem<T(==)>(k: string, before: map<string, T>, after: map<string, T>, rules: Rules<T>)
    returns (change: Option<Change<T>>)
    requires (k in before || k in after) && DumpSeparates(before, after, rules)
    ensures change == if Differ(before, after, rules, k) then Some(ChangeAt(k, before, after, rules)) else None
  {
    hide ChangedFields;
    if k !in before {
      return Some(Change(k, ADDED, [], None, Some(after[k])));
    }
    if k !in after {
      return Some(Change(k, REMOVED, [], Some(before[k]), None));
    }
    var fields := ChangedFields(rules.dump(before[k]), rules.dump(after[k]), rules.identity);
    if fields != [] {
      return Some(Change(k, CHANGED, fields, Some(before[k]), Some(after[k])));
    }
    return None;
  }

  method CollectChanges<T(==)>(before: map<string, T>, after: map<string, T>, rules: Rules<T>)
    returns (changes: seq<Change<T>>)
    requires DumpSeparates(before, after, rules)
    ensures IsDiff(changes, before, after, rules)
  {
    changes := [];
    var keys := Sorted(before.Keys + after.Keys);
    assert DiffSoFar(changes, keys, 0, before, after, rules);
    hide *;
    for n := 0 to |keys|
      invariant DiffSoFar(changes, keys, n, before, after, rules)
    {
      assert keys[n] in keys;
      NextKey(changes, keys, n, before, after, rules);
      var change := CompareItem(keys[n], before, after, rules);
      if change.Some? {
        changes := changes + [change.value];
      }
    }
    AllKeysDone(changes, keys, before, after, rules);
  }

  function Count<T>(changes: seq<Change<T>>, kind: ChangeKind): nat {
    if changes == [] then 0
    else Count(changes[..|changes| - 1], kind) + if changes[|changes| - 1].kind == kind then 1 else 0
  }

  function Take<T>(changes: seq<T>, n: nat): seq<T> {
    if |changes| <= n then changes else changes[..n]
  }

  /** The last snapshot listed under an id, as the `by_id` comprehension keeps it. */
  function SnapshotKey(s: Snapshot): string { s.summary.snapshotId }

  method BuildTopologyDiff(snapshots: seq<Snapshot>, fromId: string, toId: string)
    returns (r: Option<Diff>, ghost nodeChanges: seq<Change<Node>>, ghost edgeChanges: seq<Change<Edge>>)
    ensures r.None? <==> fromId !in ById(snapshots, SnapshotKey) || toId !in ById(snapshots, SnapshotKey)
    ensures r.Some? ==>
              var d, before, after := r.value, ById(snapshots, SnapshotKey)[fromId], ById(snapshots, SnapshotKey)[toId];
              && IsDiff(nodeChanges, ById(before.topology.nodes, NodeKey), ById(after.topology.nodes, NodeKey),
                        NODES)
              && IsDiff(edgeChanges, ById(before.topology.edges, EdgeKey), ById(after.topology.edges, EdgeKey),
                        EDGES)
              && d.nodeChanges == Take(nodeChanges, MAX_CHANGES) && d.edgeChanges == Take(edgeChanges, MAX_CHANGES)
              && d.addedNodes == Count(nodeChanges, ADDED) && d.removedNodes == Count(nodeChanges, REMOVED)
              && d.changedNodes == Count(nodeChanges, CHANGED) && d.addedEdges == Count(edgeChanges, ADDED)
              && d.removedEdges == Count(edgeChanges, REMOVED) && d.changedEdges == Count(edgeChanges, CHANGED)
              && d.fromSnapshot == before.summary && d.toSnapshot == after.summary
              && d.observedAt >= before.summary.publishedAt && d.observedAt >= after.summary.publishedAt
              && d.observedAt in {before.summary.publishedAt, after.summary.publishedAt}
              && (d.truncationNoted <==> d.nodeChanges != nodeChanges || d.edgeChanges != edgeChanges)
  {
    nodeChanges, edgeChanges := [], [];
    var byId := ById(snapshots, SnapshotKey);
    if fromId !in byId || toId !in byId {
      return None, nodeChanges, edgeChanges;
    }
    var before, after := byId[fromId], byId[toId];
    var beforeNodes, afterNodes := ById(before.topology.nodes, NodeKey), ById(after.topology.nodes, NodeKey);
    var beforeEdges, afterEdges := ById(before.topology.edges, EdgeKey), ById(after.topology.edges, EdgeKey);
    DumpsSeparate(beforeNodes, afterNodes, beforeEdges, afterEdges);
    var nodes := CollectChanges(beforeNodes, afterNodes, NODES);
    var edges := CollectChanges(beforeEdges, afterEdges, EDGES);
    nodeChanges, edgeChanges := nodes, edges;
    var first, second := before.summary.publishedAt, after.summary.publishedAt;
    r := Some(Diff(before.summary, after.summary,
                   Count(nodes, ADDED), Count(nodes, REMOVED), Count(nodes, CHANGED),
                   Count(edges, ADDED), Count(edges, REMOVED), Count(edges, CHANGED),
                   Take(nodes, MAX_CHANGES), Take(edges, MAX_CHANGES),
                   if first < second then second else first,
                   |nodes| > MAX_CHANGES || |edges| > MAX_CHANGES));
  }

  lemma DumpsSeparate(beforeNodes: map<string, Node>, afterNodes: map<string, Node>,
                      beforeEdges: map<string, Edge>, afterEdges: map<string, Edge>)
    requires forall k :: k in beforeNodes ==> beforeNodes[k].nodeId == k
    requires forall k :: k in afterNodes ==> afterNodes[k].nodeId == k
    requires forall k :: k in beforeEdges ==> beforeEdges[k].edgeId == k
    requires forall k :: k in afterEdges ==> afterEdges[k].edgeId == k
    ensures DumpSeparates(beforeNodes, afterNodes, NODES)
    ensures DumpSeparates(beforeEdges, afterEdges, EDGES)
  {
    forall k | k in beforeNodes && k in afterNodes
      ensures ChangedFields(DumpNode(beforeNodes[k]), DumpNode(afterNodes[k]), "node_id") == []
              <==> SameNode(beforeNodes[k], afterNodes[k])
    {
      UnchangedNodesAreSame(beforeNodes[k], afterNodes[k]);
    }
    forall k | k in beforeEdges && k in afterEdges
      ensures ChangedFields(DumpEdge(beforeEdges[k]), DumpEdge(afterEdges[k]), "edge_id") == []
              <==> beforeEdges[k] == afterEdges[k]
    {
      UnchangedEdgesAreEqual(beforeEdges[k], afterEdges[k]);
    }
  }

  // ---- which fields a change names ----

  /** Texts are equal as texts; everything else is a number, a boolean being 0 or 1. */
  lemma SameValueExactly(i: int, x: real, on: bool, other: bool, s: string, t: string)
    ensures SameValue(Word(s), Word(t)) <==> s == t
    ensures !SameValue(Word(s), Int(i)) && !SameValue(Word(s), Float(x)) && !SameValue(Word(s), Bool(on))
    ensures SameValue(Int(i), Float(x)) <==> i as real == x
    ensures SameValue(Int(i), Bool(on)) <==> i == if on then 1 else 0
    ensures SameValue(Float(x), Bool(on)) <==> x == if on then 1.0 else 0.0
    ensures SameValue(Bool(on), Bool(other)) <==> on == other
  {
  }

  const NODE_FIELDS: set<string> :=
    {"kind", "label", "subtitle", "layer", "state", "confidence", "integrity_status", "evidence_ids", "attributes"}

  const EDGE_FIELDS: set<string> := {"source", "target", "relation", "state", "confidence", "integrity_status", "evidence_ids"}

  lemma FieldsAreNamed(before: Dump, after: Dump, identity: string, fields: set<string>)
    requires before.Keys == after.Keys == fields + {"schema_version", identity}
    requires "schema_version" !in fields && identity !in fields
    ensures forall key :: key in fields ==>
              (key in ChangedFields(before, after, identity) <==> !SameField(Some(before[key]), Some(after[key])))
    ensures forall key :: key in ChangedFields(before, after, identity) ==> key in fields
  {
    hide SameField;
  }

  lemma DumpedNode(n: Node)
    ensures var d := DumpNode(n);
            && d.Keys == NODE_FIELDS + {"schema_version", "node_id"}
            && d["kind"] == Text(n.kind)
            && d["label"] == Text(n.caption)
            && d["subtitle"] == Text(n.subtitle)
            && d["layer"] == Text(n.layer)
            && d["state"] == StateField(n.state)
            && d["confidence"] == Number(n.confidence)
            && d["integrity_status"] == IntegrityField(n.integrity)
            && d["evidence_ids"] == Texts(n.evidenceIds)
            && d["attributes"] == Mapping(n.attributes)
    ensures "schema_version" !in NODE_FIELDS && "node_id" !in NODE_FIELDS
  {
  }

  lemma DumpedEdge(e: Edge)
    ensures var d := DumpEdge(e);
            && d.Keys == EDGE_FIELDS + {"schema_version", "edge_id"}
            && d["source"] == Text(e.source)
            && d["target"] == Text(e.target)
            && d["relation"] == Text(e.relation)
            && d["state"] == StateField(e.state)
            && d["confidence"] == Number(e.confidence)
            && d["integrity_status"] == IntegrityField(e.integrity)
            && d["evidence_ids"] == Texts(e.evidenceIds)
    ensures "schema_version" !in EDGE_FIELDS && "edge_id" !in EDGE_FIELDS
  {
  }

  lemma NodeFieldsNamed(m: Node, n: Node, names: seq<string>)
    requires names == ChangedFields(DumpNode(m), DumpNode(n), "node_id")
    ensures && ("kind" in names <==> m.kind != n.kind)
            && ("label" in names <==> m.caption != n.caption)
            && ("subtitle" in names <==> m.subtitle != n.subtitle)
            && ("layer" in names <==> m.layer != n.layer)
            && ("state" in names <==> m.state != n.state)
            && ("confidence" in names <==> m.confidence != n.confidence)
            && ("integrity_status" in names <==> m.integrity != n.integrity)
            && ("evidence_ids" in names <==> m.evidenceIds != n.evidenceIds)
            && ("attributes" in names <==> !SameEntries(m.attributes, n.attributes))
            && forall name :: name in names ==> name in NODE_FIELDS
  {
    DumpedNode(m);
    DumpedNode(n);
    hide ChangedFields, DumpNode, SameEntries;
    FieldsAreNamed(DumpNode(m), DumpNode(n), "node_id", NODE_FIELDS);
  }

  lemma EdgeFieldsNamed(m: Edge, n: Edge, names: seq<string>)
    requires names == ChangedFields(DumpEdge(m), DumpEdge(n), "edge_id")
    ensures && ("source" in names <==> m.source != n.source)
            && ("target" in names <==> m.target != n.target)
            && ("relation" in names <==> m.relation != n.relation)
            && ("state" in names <==> m.state != n.state)
            && ("confidence" in names <==> m.confidence != n.confidence)
            && ("integrity_status" in names <==> m.integrity != n.integrity)
            && ("evidence_ids" in names <==> m.evidenceIds != n.evidenceIds)
            && forall name :: name in names ==> name in EDGE_FIELDS
  {
    DumpedEdge(m);
    DumpedEdge(n);
    hide ChangedFields, DumpEdge;
    FieldsAreNamed(DumpEdge(m), DumpEdge(n), "edge_id", EDGE_FIELDS);
  }

  /** A changed node names each field that differs by its own name, and no other. */
  lemma NodeChangeNames(c: Change<Node>, before: map<string, Node>, after: map<string, Node>)
    requires Reports(c, before, after, NODES) && c.id in before && c.id in after
    ensures var m, n, names := before[c.id], after[c.id], c.changedFields;
            && c.kind == CHANGED && c.before == Some(m) && c.after == Some(n)
            && ("kind" in names <==> m.kind != n.kind)
            && ("label" in names <==> m.caption != n.caption)
            && ("subtitle" in names <==> m.subtitle != n.subtitle)
            && ("layer" in names <==> m.layer != n.layer)
            && ("state" in names <==> m.state != n.state)
            && ("confidence" in names <==> m.confidence != n.confidence)
            && ("integrity_status" in names <==> m.integrity != n.integrity)
            && ("evidence_ids" in names <==> m.evidenceIds != n.evidenceIds)
            && ("attributes" in names <==>
                  !(m.attributes.Keys == n.attributes.Keys
                    && forall k :: k in m.attributes ==> SameValue(m.attributes[k], n.attributes[k])))
            && forall name :: name in names ==> name in NODE_FIELDS
  {
    assert c.changedFields == ChangedFields(DumpNode(before[c.id]), DumpNode(after[c.id]), "node_id");
    hide ChangedFields, DumpNode, SameNode, SameValue, Reports, SameField;
    NodeFieldsNamed(before[c.id], after[c.id], c.changedFields);
  }

  /** A changed edge names each field that differs by its own name, and no other. */
  lemma EdgeChangeNames(c: Change<Edge>, before: map<string, Edge>, after: map<string, Edge>)
    requires Reports(c, before, after, EDGES) && c.id in before && c.id in after
    ensures var m, n, names := before[c.id], after[c.id], c.changedFields;
            && c.kind == CHANGED && c.before == Some(m) && c.after == Some(n)
            && ("source" in names <==> m.source != n.source)
            && ("target" in names <==> m.target != n.target)
            && ("relation" in names <==> m.relation != n.relation)
            && ("state" in names <==> m.state != n.state)
            && ("confidence" in names <==> m.confidence != n.confidence)
            && ("integrity_status" in names <==> m.integrity != n.integrity)
            && ("evidence_ids" in names <==> m.evidenceIds != n.evidenceIds)
            && forall name :: name in names ==> name in EDGE_FIELDS
  {
    assert c.changedFields == ChangedFields(DumpEdge(before[c.id]), DumpEdge(after[c.id]), "edge_id");
    hide ChangedFields, DumpEdge, SameEdge;
    EdgeFieldsNamed(before[c.id], after[c.id], c.changedFields);
  }

  /** Added and removed items come with the item itself and name no field; the names of a change are in order, once each. */
  lemma ChangeShowsItems<T>(c: Change<T>, before: map<string, T>, after: map<string, T>, rules: Rules<T>)
    requires Reports(c, before, after, rules)
    ensures c.id !in before ==> c.id in after && c.kind == ADDED && c.before == None && c.after == Some(after[c.id]) && c.changedFields == []
    ensures c.id !in after ==> c.id in before && c.kind == REMOVED && c.before == Some(before[c.id]) && c.after == None && c.changedFields == []
    ensures forall i, j :: 0 <= i < j < |c.changedFields| ==> Below(c.changedFields[i], c.changedFields[j])
  {
  }

  // ---- the diff as a patch ----

  /** Carry out the changes one after another. */
  function Patch<T>(m: map<string, T>, changes: seq<Change<T>>): map<string, T> {
    if changes == [] then m
    else
      var done := Patch(m, changes[..|changes| - 1]);
      var c := changes[|changes| - 1];
      match c.after
      case Some(x) => done[c.id := x]
      case None => done - {c.id}
  }

  lemma {:induction false} PatchTouchesOnlyMentioned<T>(m: map<string, T>, changes: seq<Change<T>>, k: string)
    requires !Mentions(changes, k)
    ensures k in Patch(m, changes) <==> k in m
    ensures k in m ==> Patch(m, changes)[k] == m[k]
  {
    if changes != [] {
      var last := |changes| - 1;
      assert changes[last].id != k;
      forall i | 0 <= i < last ensures changes[..last][i].id != k {
        assert changes[..last][i] == changes[i];
      }
      PatchTouchesOnlyMentioned(m, changes[..last], k);
    }
  }

  lemma {:induction false} PatchSetsMentioned<T>(m: map<string, T>, changes: seq<Change<T>>, i: nat)
    requires AscendingIds(changes) && i < |changes|
    ensures changes[i].id in Patch(m, changes) <==> changes[i].after.Some?
    ensures changes[i].after.Some? ==> Patch(m, changes)[changes[i].id] == changes[i].after.value
  {
    var last := |changes| - 1;
    if i < last {
      BelowIsAsymmetric(changes[i].id, changes[last].id);
      PatchSetsMentioned(m, changes[..last], i);
    }
  }

  ghost predicate SameItems<T>(a: map<string, T>, b: map<string, T>, rules: Rules<T>) {
    a.Keys == b.Keys && forall k :: k in a ==> rules.same(a[k], b[k])
  }

  /** What the patched items hold: the later item where one is reported, the earlier one elsewhere. */
  lemma PatchedAt<T>(changes: seq<Change<T>>, before: map<string, T>, after: map<string, T>, rules: Rules<T>, k: string)
    requires IsDiff(changes, before, after, rules)
    ensures k in Patch(before, changes) <==> k in after
    ensures k in after ==> Patch(before, changes)[k] == if Differ(before, after, rules, k) then after[k] else before[k]
  {
    if Mentions(changes, k) {
      var i :| 0 <= i < |changes| && changes[i].id == k;
      PatchSetsMentioned(before, changes, i);
      assert Reports(changes[i], before, after, rules);
    } else {
      PatchTouchesOnlyMentioned(before, changes, k);
      assert k in before.Keys + after.Keys ==> !Differ(before, after, rules, k);
    }
  }

  /** Patching the earlier items with the full diff gives items that compare equal to the later ones. */
  lemma DiffIsAPatch<T(!new)>(changes: seq<Change<T>>, before: map<string, T>, after: map<string, T>, rules: Rules<T>)
    requires IsDiff(changes, before, after, rules) && Lawful(rules)
    ensures SameItems(Patch(before, changes), after, rules)
  {
    var p := Patch(before, changes);
    forall k ensures (k in p <==> k in after) && (k in p ==> rules.same(p[k], after[k])) {
      PatchedAt(changes, before, after, rules, k);
    }
  }

  /** It gives the later documents themselves exactly when no two items compare equal and are written differently. */
  lemma DiffPatchesDocumentsExactly<T>(changes: seq<Change<T>>, before: map<string, T>, after: map<string, T>, rules: Rules<T>)
    requires IsDiff(changes, before, after, rules)
    ensures Patch(before, changes) == after
            <==> forall k :: k in before && k in after && rules.same(before[k], after[k]) ==> before[k] == after[k]
  {
    var p := Patch(before, changes);
    forall k ensures (k in p <==> k in after) && (k in p ==> p[k] == if Differ(before, after, rules, k) then after[k] else before[k]) {
      PatchedAt(changes, before, after, rules, k);
    }
  }

  /** A node whose attribute goes from 1 to true is not reported, and the patch keeps the 1. */
  lemma BooleanForNumberIsNotReported(n: Node)
    ensures var m := n.(attributes := map["enabled" := Int(1)]);
            var m' := n.(attributes := map["enabled" := Bool(true)]);
            && IsDiff([], map[n.nodeId := m], map[n.nodeId := m'], NODES)
            && Patch(map[n.nodeId := m], []) != map[n.nodeId := m']
  {
    var m, m' := n.(attributes := map["enabled" := Int(1)]), n.(attributes := map["enabled" := Bool(true)]);
    assert SameNode(m, m');
    assert map[n.nodeId := m][n.nodeId] != map[n.nodeId := m'][n.nodeId] by {
      assert m.attributes["enabled"] != m'.attributes["enabled"];
    }
  }

  /** The change details that are returned still patch exactly when none was cut off. */
  lemma CutDiffPatchesIffComplete<T(!new)>(changes: seq<Change<T>>, before: map<string, T>, after: map<string, T>,
                                           rules: Rules<T>, n: nat)
    requires IsDiff(changes, before, after, rules) && Lawful(rules)
    ensures SameItems(Patch(before, Take(changes, n)), after, rules) <==> |changes| <= n
  {
    DiffIsAPatch(changes, before, after, rules);
    if n < |changes| {
      var k := changes[n].id;
      assert !Mentions(changes[..n], k) by {
        if i :| 0 <= i < n && changes[..n][i].id == k {
          BelowIsAsymmetric(changes[i].id, changes[n].id);
        }
      }
      PatchTouchesOnlyMentioned(before, changes[..n], k);
      assert Reports(changes[n], before, after, rules);
      assert k in Patch(before, changes[..n]) && k in after ==> !rules.same(Patch(before, changes[..n])[k], after[k]);
    }
  }

  // ---- uniqueness, emptiness, mirror ----

  lemma {:induction false} SameReportsSameSequence<T>(c: seq<Change<T>>, d: seq<Change<T>>)
    requires AscendingIds(c) && AscendingIds(d)
    requires forall x :: x in c <==> x in d
    ensures c == d
  {
    if c != [] {
      assert c[0] in c;
    }
    if d != [] {
      assert d[0] in d;
    }
    if c != [] && d != [] {
      assert c[0] in d && d[0] in c;
      var i :| 0 <= i < |d| && d[i] == c[0];
      var j :| 0 <= j < |c| && c[j] == d[0];
      if i > 0 && j > 0 {
        BelowIsAsymmetric(d[0].id, d[i].id);
      }
      forall x ensures x in c[1..] <==> x in d[1..] {
        TailDropsHead(c, x);
        TailDropsHead(d, x);
      }
      SameReportsSameSequence(c[1..], d[1..]);
      assert c == [c[0]] + c[1..] && d == [d[0]] + d[1..];
    }
  }

  lemma TailDropsHead<T>(c: seq<Change<T>>, x: Change<T>)
    requires AscendingIds(c) && c != []
    ensures x in c[1..] <==> x in c && x != c[0]
  {
    if x in c[1..] {
      var i :| 0 <= i < |c[1..]| && c[1..][i] == x;
      BelowIsAsymmetric(c[0].id, c[i + 1].id);
    }
    if x in c && x != c[0] {
      var i :| 0 <= i < |c| && c[i] == x;
      assert c[1..][i - 1] == x;
    }
  }

  /** There is one diff between two sets of items. */
  lemma DiffIsUnique<T>(c: seq<Change<T>>, d: seq<Change<T>>, before: map<string, T>, after: map<string, T>,
                        rules: Rules<T>)
    requires IsDiff(c, before, after, rules) && IsDiff(d, before, after, rules)
    ensures c == d
  {
    forall x | x in c ensures x in d {
      SharedReport(c, d, before, after, rules, x);
    }
    forall x | x in d ensures x in c {
      SharedReport(d, c, before, after, rules, x);
    }
    SameReportsSameSequence(c, d);
  }

  lemma SharedReport<T>(c: seq<Change<T>>, d: seq<Change<T>>, before: map<string, T>, after: map<string, T>,
                        rules: Rules<T>, x: Change<T>)
    requires IsDiff(c, before, after, rules) && IsDiff(d, before, after, rules) && x in c
    ensures x in d
  {
    var i :| 0 <= i < |c| && c[i] == x;
    assert Reports(c[i], before, after, rules);
    assert Mentions(d, x.id);
    var j :| 0 <= j < |d| && d[j].id == x.id;
    assert Reports(d[j], before, after, rules);
  }

  /** Nothing is reported exactly when all items compare equal. */
  lemma DiffIsEmptyExactly<T>(changes: seq<Change<T>>, before: map<string, T>, after: map<string, T>, rules: Rules<T>)
    requires IsDiff(changes, before, after, rules)
    ensures changes == [] <==> SameItems(before, after, rules)
  {
    if changes != [] {
      assert Reports(changes[0], before, after, rules);
    } else {
      forall k ensures (k in before <==> k in after) && (k in before && k in after ==> rules.same(before[k], after[k])) {
        assert k in before.Keys + after.Keys ==> !Differ(before, after, rules, k);
      }
    }
  }

  function MirrorChange<T>(c: Change<T>): Change<T> {
    Change(c.id, match c.kind case ADDED => REMOVED case REMOVED => ADDED case CHANGED => CHANGED,
           c.changedFields, c.after, c.before)
  }

  function Mirror<T>(changes: seq<Change<T>>): (m: seq<Change<T>>)
    ensures |m| == |changes| && forall i :: 0 <= i < |m| ==> m[i] == MirrorChange(changes[i])
  {
    seq(|changes|, i requires 0 <= i < |changes| => MirrorChange(changes[i]))
  }

  /** Swapping the snapshots swaps added with removed and before with after, and undoes the patch. */
  lemma SwappingSnapshotsMirrors<T(!new)>(forward: seq<Change<T>>, backward: seq<Change<T>>,
                                          before: map<string, T>, after: map<string, T>, rules: Rules<T>)
    requires IsDiff(forward, before, after, rules) && IsDiff(backward, after, before, rules) && Lawful(rules)
    ensures backward == Mirror(forward)
    ensures Patch(Patch(before, forward), Mirror(forward)) == before
  {
    MirrorIsDiff(forward, before, after, rules);
    DiffIsUnique(backward, Mirror(forward), after, before, rules);
    MirrorUndoes(forward, before, after, rules);
  }

  lemma MirrorIsDiff<T(!new)>(forward: seq<Change<T>>, before: map<string, T>, after: map<string, T>, rules: Rules<T>)
    requires IsDiff(forward, before, after, rules) && Lawful(rules)
    ensures IsDiff(Mirror(forward), after, before, rules)
  {
    var m := Mirror(forward);
    forall i | 0 <= i < |m| ensures Reports(m[i], after, before, rules) {
      assert Reports(forward[i], before, after, rules);
      var k := forward[i].id;
      if k in before && k in after {
        ChangedFieldsIgnoreDirection(rules.dump(before[k]), rules.dump(after[k]), rules.identity);
      }
    }
    forall k | k in after.Keys + before.Keys && Differ(after, before, rules, k) ensures Mentions(m, k) {
      assert Differ(before, after, rules, k) && k in before.Keys + after.Keys;
      assert Mentions(forward, k);
      var i :| 0 <= i < |forward| && forward[i].id == k;
      assert m[i].id == k;
    }
  }

  lemma MirrorUndoes<T>(forward: seq<Change<T>>, before: map<string, T>, after: map<string, T>, rules: Rules<T>)
    requires IsDiff(forward, before, after, rules)
    ensures Patch(Patch(before, forward), Mirror(forward)) == before
  {
    var m, p := Mirror(forward), Patch(before, forward);
    var back := Patch(p, m);
    forall k ensures (k in back <==> k in before) && (k in back ==> back[k] == before[k]) {
      if Mentions(forward, k) {
        var i :| 0 <= i < |forward| && forward[i].id == k;
        assert Reports(forward[i], before, after, rules);
        PatchSetsMentioned(p, m, i);
      } else {
        assert !Mentions(m, k);
        PatchTouchesOnlyMentioned(before, forward, k);
        PatchTouchesOnlyMentioned(p, m, k);
      }
    }
  }

  // ---- counts ----

  function IdsOfKind<T>(changes: seq<Change<T>>, kind: ChangeKind): set<string> {
    set i | 0 <= i < |changes| && changes[i].kind == kind :: changes[i].id
  }

  lemma IdsOfKindGrow<T>(init: seq<Change<T>>, c: Change<T>, kind: ChangeKind)
    ensures IdsOfKind(init + [c], kind) == IdsOfKind(init, kind) + if c.kind == kind then {c.id} else {}
  {
    var all := init + [c];
    forall x | x in IdsOfKind(init, kind) ensures x in IdsOfKind(all, kind) {
      var i :| 0 <= i < |init| && init[i].kind == kind && init[i].id == x;
      assert all[i] == init[i];
    }
    assert all[|init|] == c;
  }

  lemma LastIdIsNew<T>(changes: seq<Change<T>>, kind: ChangeKind)
    requires changes != [] && AscendingIds(changes)
    ensures changes[|changes| - 1].id !in IdsOfKind(changes[..|changes| - 1], kind)
  {
    forall i | 0 <= i < |changes| - 1 ensures changes[i].id != changes[|changes| - 1].id {
      BelowIsAsymmetric(changes[i].id, changes[|changes| - 1].id);
    }
  }

  lemma {:induction false} CountIsSizeOfIds<T>(changes: seq<Change<T>>, kind: ChangeKind)
    requires AscendingIds(changes)
    ensures Count(changes, kind) == |IdsOfKind(changes, kind)|
  {
    if changes != [] {
      var last := |changes| - 1;
      var init, c := changes[..last], changes[last];
      LastIdIsNew(changes, kind);
      assert AscendingIds(init);
      assert changes == init + [c];
      hide IdsOfKind, AscendingIds;
      CountIsSizeOfIds(init, kind);
      IdsOfKindGrow(init, c, kind);
    }
  }

  /** The counts are those of the full diff: they balance the sizes of the two snapshots. */
  lemma CountsBalance<T>(changes: seq<Change<T>>, before: map<string, T>, after: map<string, T>,
                         rules: Rules<T>)
    requires IsDiff(changes, before, after, rules)
    ensures Count(changes, ADDED) == |after.Keys - before.Keys|
    ensures Count(changes, REMOVED) == |before.Keys - after.Keys|
    ensures Count(changes, CHANGED) == |set k | k in before && k in after && !rules.same(before[k], after[k])|
    ensures Count(changes, ADDED) - Count(changes, REMOVED) == |after| - |before|
  {
    CountIsSizeOfIds(changes, ADDED);
    CountIsSizeOfIds(changes, REMOVED);
    CountIsSizeOfIds(changes, CHANGED);
    IdsAre(changes, ADDED, after.Keys - before.Keys, before, after, rules);
    IdsAre(changes, REMOVED, before.Keys - after.Keys, before, after, rules);
    IdsAre(changes, CHANGED, (set k | k in before && k in after && !rules.same(before[k], after[k])),
           before, after, rules);
    DifferencesBalance(before.Keys, after.Keys);
  }

  lemma DifferencesBalance(a: set<string>, b: set<string>)
    ensures |b - a| - |a - b| == |b| - |a|
  {
    assert b == (b - a) + (a * b);
    assert a == (a - b) + (a * b);
  }

  lemma IdsAre<T>(changes: seq<Change<T>>, kind: ChangeKind, ids: set<string>,
                  before: map<string, T>, after: map<string, T>, rules: Rules<T>)
    requires IsDiff(changes, before, after, rules)
    requires forall k :: k in ids <==>
               && k in before.Keys + after.Keys && Differ(before, after, rules, k)
               && kind == (if k !in before then ADDED else if k !in after then REMOVED else CHANGED)
    ensures IdsOfKind(changes, kind) == ids
  {
    forall k ensures k in IdsOfKind(changes, kind) <==> k in ids {
      if k in IdsOfKind(changes, kind) {
        var i :| 0 <= i < |changes| && changes[i].kind == kind && changes[i].id == k;
        assert Reports(changes[i], before, after, rules);
      }
      if k in ids {
        assert Mentions(changes, k);
        var i :| 0 <= i < |changes| && changes[i].id == k;
        assert Reports(changes[i], before, after, rules);
      }
    }
  }
}
