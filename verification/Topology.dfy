/** The topology values that the path search and the diff read. */
module Topology {

  datatype State = DECLARED | OBSERVED | GATED | PARTIAL | FAILED

  datatype Integrity = VALIDATED | VERIFIED

  /** A value of an attribute. */
  datatype Attribute = Word(text: string) | Int(i: int) | Float(x: real) | Bool(on: bool)

  datatype Node = Node(
    nodeId: string,
    kind: string,
    caption: string,
    subtitle: string,
    layer: string,
    state: State,
    confidence: real,
    integrity: Integrity,
    evidenceIds: seq<string>,
    attributes: map<string, Attribute>)

  datatype Edge = Edge(
    edgeId: string,
    source: string,
    target: string,
    relation: string,
    state: State,
    confidence: real,
    integrity: Integrity,
    evidenceIds: seq<string>)

  datatype RobotTopology = RobotTopology(
    robotId: string,
    snapshotId: string,
    nodes: seq<Node>,
    edges: seq<Edge>,
    observedAt: int,
    confidence: real,
    integrity: Integrity)
}
