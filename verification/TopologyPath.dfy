/** `explain_topology_path`: the search, the walk back along parent pointers, and the answer. */
module TopologyPath {
  import opened Lookup
  import opened Topology
  import opened TopologyWalks
  import opened PathSearch

  /** `TopologyPathExplanation.steps` is declared with this bound. */
  const MAX_STEPS := 12

  datatype Step = Step(
    index: nat,
    fromNode: string,
    toNode: string,
    edgeId: string,
    relation: string,
    direction: Direction,
    state: State,
    confidence: real,
    integrity: Integrity,
    evidenceIds: seq<string>)

  datatype Explanation = Explanation(
    robotId: string,
    snapshotId: string,
    fromNode: string,
    toNode: string,
    found: bool,
    hopCount: nat,
    nodes: seq<Node>,
    steps: seq<Step>,
    observedAt: int,
    confidence: real,
    integrity: Integrity)

  /** What the call does: return, raise KeyError, or fail the bounds of the result model. */
  datatype Outcome = Explained(explanation: Explanation) | KeyError | ValidationError

  function NodeKey(n: Node): string {
    n.nodeId
  }

  function StepOf(from: string, hops: seq<Hop>, i: nat): Step
    requires i < |hops|
  {
    var e := hops[i].edge;
    Step(i, NodeAt(from, hops, i), hops[i].to, e.edgeId, e.relation, hops[i].direction,
         e.state, e.confidence, e.integrity, e.evidenceIds)
  }

  /** `c` is the smallest confidence on the path. */
  ghost predicate IsWeakest(c: real, nodes: seq<Node>, steps: seq<Step>) {
    && (forall n :: n in nodes ==> c <= n.confidence)
    && (forall s :: s in steps ==> c <= s.confidence)
    && ((exists n :: n in nodes && n.confidence == c) || exists s :: s in steps && s.confidence == c)
  }

  /** The explanation tells exactly the walk `hops`. */
  ghost predicate Describes(e: Explanation, t: RobotTopology, nodes: map<string, Node>,
                            from: string, to: string, hops: seq<Hop>)
  {
    && e.found && e.hopCount == |hops|
    && e.robotId == t.robotId && e.snapshotId == t.snapshotId && e.observedAt == t.observedAt
    && e.fromNode == from && e.toNode == to
    && |e.steps| == |hops| && |e.nodes| == |hops| + 1
    && (forall i :: 0 <= i < |hops| ==> e.steps[i] == StepOf(from, hops, i))
    && (forall i :: 0 <= i <= |hops| ==>
          NodeAt(from, hops, i) in nodes && e.nodes[i] == nodes[NodeAt(from, hops, i)])
    && IsWeakest(e.confidence, e.nodes, e.steps)
    && (e.integrity.VERIFIED? <==>
          && (forall n :: n in e.nodes ==> n.integrity.VERIFIED?)
          && (forall s :: s in e.steps ==> s.integrity.VERIFIED?))
  }

  function ZeroHop(t: RobotTopology, node: Node): Explanation {
    Explanation(t.robotId, t.snapshotId, node.nodeId, node.nodeId, true, 0, [node], [],
                t.observedAt, node.confidence, node.integrity)
  }

  function NotFound(t: RobotTopology, from: string, to: string): Explanation {
    Explanation(t.robotId, t.snapshotId, from, to, false, 0, [], [],
                t.observedAt, t.confidence, t.integrity)
  }

  /** The undirected distance is at most `n`. */
  ghost predicate Within(edges: seq<Edge>, from: string, to: string, n: int) {
    exists w :: IsWalk(edges, from, w, to) && |w| <= n
  }

  /** What the call answers, said without the search: by distance, and by the least walk. */
  ghost predicate IsAnswer(t: RobotTopology, from: string, to: string, maxHops: int, r: Outcome) {
    var nodes := ById(t.nodes, NodeKey);
    if from !in nodes || to !in nodes then r == KeyError
    else if from == to then r == Explained(ZeroHop(t, nodes[from]))
    else if !EndpointsKnown(nodes, t.edges) then r == KeyError
    else if !Within(t.edges, from, to, maxHops) then r == Explained(NotFound(t, from, to))
    else if !Within(t.edges, from, to, MAX_STEPS) then r == ValidationError
    else
      && r.Explained?
      && exists hops :: IsLeastWalk(t.edges, from, hops, to) && Describes(r.explanation, t, nodes, from, to, hops)
  }

  function Reversed(s: seq<Hop>): (r: seq<Hop>)
    ensures |r| == |s|
  {
    if s == [] then [] else Reversed(s[1..]) + [s[0]]
  }

  lemma {:induction false} ReversedAppend(s: seq<Hop>, h: Hop)
    ensures Reversed(s + [h]) == [h] + Reversed(s)
  {
    if s != [] {
      ReversedAppend(s[1..], h);
      assert (s + [h])[1..] == s[1..] + [h];
    }
  }

  lemma StepBack(walk: seq<Hop>, before: seq<Hop>, h: Hop, reversed: seq<Hop>)
    requires walk == before + [h]
    ensures walk + Reversed(reversed) == before + Reversed(reversed + [h])
  {
    ReversedAppend(reversed, h);
    assert walk + Reversed(reversed) == before + ([h] + Reversed(reversed));
  }

  /** The parent walk from the target back to the source. */
  method WalkBack(previous: map<string, Parent>, ghost tree: map<string, seq<Hop>>, from: string, to: string)
    returns (hops: seq<Hop>)
    requires Threads(from, previous, tree) && to in tree
    ensures hops == tree[to]
  {
    var reversed: seq<Hop> := [];
    var current := to;
    hide Reversed;
    assert tree[to] == tree[to] + Reversed([]) by {
      EmptyReversed();
    }
    while current != from
      invariant current in tree
      invariant tree[to] == tree[current] + Reversed(reversed)
      decreases |tree[current]|
    {
      var p := previous[current];
      StepBack(tree[current], tree[p.node], p.hop, reversed);
      reversed := reversed + [p.hop];
      current := p.node;
    }
    hops := Reversed(reversed);
  }

  lemma EmptyReversed()
    ensures Reversed([]) == []
  {
  }

  method Weakest(nodes: seq<Node>, steps: seq<Step>) returns (c: real)
    requires nodes != []
    ensures IsWeakest(c, nodes, steps)
  {
    c := nodes[0].confidence;
    for i := 0 to |nodes|
      invariant forall n :: n in nodes[..i] ==> c <= n.confidence
      invariant exists n :: n in nodes && n.confidence == c
    {
      if nodes[i].confidence < c {
        c := nodes[i].confidence;
      }
    }
    assert nodes[..|nodes|] == nodes;
    for i := 0 to |steps|
      invariant forall n :: n in nodes ==> c <= n.confidence
      invariant forall s :: s in steps[..i] ==> c <= s.confidence
      invariant (exists n :: n in nodes && n.confidence == c) || exists s :: s in steps && s.confidence == c
    {
      if steps[i].confidence < c {
        c := steps[i].confidence;
      }
    }
    assert steps[..|steps|] == steps;
  }

  lemma WalkStaysKnown(nodes: map<string, Node>, edges: seq<Edge>, from: string, hops: seq<Hop>, to: string)
    requires EndpointsKnown(nodes, edges) && from in nodes && IsWalk(edges, from, hops, to)
    ensures forall i :: 0 <= i <= |hops| ==> NodeAt(from, hops, i) in nodes
  {
    forall i | 0 <= i <= |hops| ensures NodeAt(from, hops, i) in nodes {
      assert i > 0 ==> Leaves(edges, from, hops, i - 1);
    }
  }

  method Explain(t: RobotTopology, nodes: map<string, Node>, from: string, to: string, hops: seq<Hop>)
    returns (e: Explanation)
    requires EndpointsKnown(nodes, t.edges) && from in nodes && IsWalk(t.edges, from, hops, to)
    ensures Describes(e, t, nodes, from, to, hops)
  {
    WalkStaysKnown(nodes, t.edges, from, hops, to);
    var steps := seq(|hops|, i requires 0 <= i < |hops| => StepOf(from, hops, i));
    var pathNodes := seq(|hops| + 1, i requires 0 <= i <= |hops| => nodes[NodeAt(from, hops, i)]);
    var confidence := Weakest(pathNodes, steps);
    var integrity :=
      if (forall n | n in pathNodes :: n.integrity.VERIFIED?) && (forall s | s in steps :: s.integrity.VERIFIED?)
      then VERIFIED else VALIDATED;
    e := Explanation(t.robotId, t.snapshotId, from, to, true, |steps|, pathNodes, steps,
                     t.observedAt, confidence, integrity);
  }

  /** The search stage of a well-formed question between two nodes. */
  ghost predicate IsQuestion(t: RobotTopology, nodes: map<string, Node>, from: string, to: string) {
    nodes == ById(t.nodes, NodeKey) && from in nodes && to in nodes && from != to && EndpointsKnown(nodes, t.edges)
  }

  lemma NothingWithinBound(t: RobotTopology, nodes: map<string, Node>, from: string, to: string, maxHops: int)
    requires IsQuestion(t, nodes, from, to)
    requires forall w :: IsWalk(t.edges, from, w, to) ==> |w| > maxHops
    ensures IsAnswer(t, from, to, maxHops, Explained(NotFound(t, from, to)))
  {
  }

  lemma WalkTooLong(t: RobotTopology, nodes: map<string, Node>, from: string, to: string, maxHops: int, hops: seq<Hop>)
    requires IsQuestion(t, nodes, from, to)
    requires IsLeastWalk(t.edges, from, hops, to) && MAX_STEPS < |hops| <= maxHops
    ensures IsAnswer(t, from, to, maxHops, ValidationError)
  {
    LeastWalkIsSimple(t.edges, from, hops, to);
  }

  lemma WalkAnswers(t: RobotTopology, nodes: map<string, Node>, from: string, to: string, maxHops: int,
                    hops: seq<Hop>, e: Explanation)
    requires IsQuestion(t, nodes, from, to)
    requires IsLeastWalk(t.edges, from, hops, to) && |hops| <= maxHops && |hops| <= MAX_STEPS
    requires Describes(e, t, nodes, from, to, hops)
    ensures IsAnswer(t, from, to, maxHops, Explained(e))
  {
  }

  method ExplainTopologyPath(t: RobotTopology, from: string, to: string, maxHops: int := 8)
    returns (r: Outcome)
    ensures IsAnswer(t, from, to, maxHops, r)
  {
    var nodes := ById(t.nodes, NodeKey);
    if from !in nodes || to !in nodes {
      return KeyError;
    }
    if from == to {
      return Explained(ZeroHop(t, nodes[from]));
    }
    var known, adjacency := BuildAdjacency(nodes, t.edges);
    if !known {
      return KeyError;
    }
    hide IsAnswer, Describes, IsWalk, IsLeastWalk, Threads, IsAdjacency, ById;
    var previous, tree := Search(adjacency, t.edges, from, to, maxHops);
    if to !in previous {
      NothingWithinBound(t, nodes, from, to, maxHops);
      return Explained(NotFound(t, from, to));
    }
    TargetIsInTree(t.edges, from, to, previous, tree, maxHops);
    var hops := WalkBack(previous, tree, from, to);
    if |hops| > MAX_STEPS {
      WalkTooLong(t, nodes, from, to, maxHops, hops);
      return ValidationError;
    }
    LeastWalkIsWalk(t.edges, from, hops, to);
    var explanation := Explain(t, nodes, from, to, hops);
    WalkAnswers(t, nodes, from, to, maxHops, hops, explanation);
    return Explained(explanation);
  }

  lemma TargetIsInTree(edges: seq<Edge>, from: string, to: string, previous: map<string, Parent>,
                       tree: map<string, seq<Hop>>, maxHops: int)
    requires Reached(edges, from, to, previous, tree, maxHops)
    ensures to in tree && Threads(from, previous, tree)
    ensures IsLeastWalk(edges, from, tree[to], to) && |tree[to]| <= maxHops
  {
  }

  lemma LeastWalkIsWalk(edges: seq<Edge>, from: string, hops: seq<Hop>, to: string)
    requires IsLeastWalk(edges, from, hops, to)
    ensures IsWalk(edges, from, hops, to)
  {
  }

  // ---- what the answer promises ----

  /** Step `s` goes over a declared edge, in the direction it says, and shows what the edge says. */
  ghost predicate IsRealStep(edges: seq<Edge>, s: Step) {
    exists edge :: edge in edges && edge.edgeId == s.edgeId && edge.relation == s.relation
      && s.state == edge.state && s.confidence == edge.confidence && s.integrity == edge.integrity
      && s.evidenceIds == edge.evidenceIds
      && (if s.direction.FORWARD?
          then edge.source == s.fromNode && edge.target == s.toNode
          else edge.target == s.fromNode && edge.source == s.toNode)
  }

  /** The steps of an explanation chain its nodes over real edges, and no node repeats. */
  ghost predicate IsSimplePath(edges: seq<Edge>, e: Explanation, from: string, to: string) {
    && |e.steps| == e.hopCount && |e.nodes| == e.hopCount + 1
    && e.nodes[0].nodeId == from && e.nodes[e.hopCount].nodeId == to
    && (forall i, j :: 0 <= i < j <= e.hopCount ==> e.nodes[i].nodeId != e.nodes[j].nodeId)
    && (forall i :: 0 <= i < e.hopCount ==>
          && e.steps[i].index == i
          && e.steps[i].fromNode == e.nodes[i].nodeId
          && e.steps[i].toNode == e.nodes[i + 1].nodeId
          && IsRealStep(edges, e.steps[i]))
  }

  /** A path that is found has the undirected distance as its length, within both bounds. */
  lemma FoundPathIsShortestAndSimple(t: RobotTopology, from: string, to: string, maxHops: int, r: Outcome)
    requires IsAnswer(t, from, to, maxHops, r) && r.Explained? && r.explanation.found && from != to
    ensures var e := r.explanation;
            && IsSimplePath(t.edges, e, from, to)
            && e.hopCount <= maxHops && e.hopCount <= MAX_STEPS
            && Within(t.edges, from, to, e.hopCount)
            && forall n :: n < e.hopCount ==> !Within(t.edges, from, to, n)
  {
    var nodes := ById(t.nodes, NodeKey);
    var hops: seq<Hop> :| IsLeastWalk(t.edges, from, hops, to) && Describes(r.explanation, t, nodes, from, to, hops);
    LeastWalkIsSimple(t.edges, from, hops, to);
    WalkIsSimplePath(t, nodes, from, to, hops, r.explanation);
  }

  lemma WalkIsSimplePath(t: RobotTopology, nodes: map<string, Node>, from: string, to: string,
                         hops: seq<Hop>, e: Explanation)
    requires forall n :: n in nodes ==> nodes[n].nodeId == n
    requires IsWalk(t.edges, from, hops, to) && Describes(e, t, nodes, from, to, hops)
    requires forall i, j :: 0 <= i < j <= |hops| ==> NodeAt(from, hops, i) != NodeAt(from, hops, j)
    ensures IsSimplePath(t.edges, e, from, to)
  {
    forall i | 0 <= i <= |hops| ensures e.nodes[i].nodeId == NodeAt(from, hops, i) {
    }
    forall i | 0 <= i < |hops|
      ensures e.steps[i].fromNode == e.nodes[i].nodeId && e.steps[i].toNode == e.nodes[i + 1].nodeId
      ensures IsRealStep(t.edges, e.steps[i])
    {
      assert Leaves(t.edges, from, hops, i);
      assert e.steps[i] == StepOf(from, hops, i);
      assert e.nodes[i + 1].nodeId == NodeAt(from, hops, i + 1);
      assert hops[i].edge in t.edges;
    }
  }

  /** The nodes of a path are nodes of the topology; its confidence is the least on it, and it is verified if all of it is. */
  ghost predicate ShowsPath(t: RobotTopology, from: string, to: string, e: Explanation) {
    && |e.steps| == e.hopCount && |e.nodes| == e.hopCount + 1
    && e.nodes[0].nodeId == from && e.nodes[e.hopCount].nodeId == to && (forall n :: n in e.nodes ==> n in t.nodes)
    && (forall n :: n in e.nodes ==> e.confidence <= n.confidence) && (forall s :: s in e.steps ==> e.confidence <= s.confidence)
    && ((exists n :: n in e.nodes && n.confidence == e.confidence) || exists s :: s in e.steps && s.confidence == e.confidence)
    && (e.integrity == VERIFIED <==>
          (forall n :: n in e.nodes ==> n.integrity == VERIFIED) && forall s :: s in e.steps ==> s.integrity == VERIFIED)
  }

  /** Without a path nothing is shown but the topology's own confidence and integrity. */
  predicate ShowsNoPath(t: RobotTopology, e: Explanation) {
    e.hopCount == 0 && e.nodes == [] && e.steps == [] && e.confidence == t.confidence && e.integrity == t.integrity
  }

  lemma ExplanationIsHonest(t: RobotTopology, from: string, to: string, maxHops: int, r: Outcome)
    requires IsAnswer(t, from, to, maxHops, r) && r.Explained?
    ensures var e := r.explanation;
            && e.robotId == t.robotId && e.snapshotId == t.snapshotId && e.observedAt == t.observedAt
            && e.fromNode == from && e.toNode == to
            && (if e.found then ShowsPath(t, from, to, e) else ShowsNoPath(t, e))
            && (from == to ==> e.found && e.hopCount == 0)
  {
    hide IsAnswer, ShowsPath;
    if from == to {
      ZeroHopIsHonest(t, from, maxHops, r);
    } else if r.explanation.found {
      var hops := DescribedHops(t, from, to, maxHops, r);
      DescriptionIsHonest(t, ById(t.nodes, NodeKey), from, to, hops, r.explanation);
    } else {
      NotFoundIsHonest(t, from, to, maxHops, r);
    }
  }

  lemma ZeroHopIsHonest(t: RobotTopology, from: string, maxHops: int, r: Outcome)
    requires IsAnswer(t, from, from, maxHops, r) && r.Explained?
    ensures var e := r.explanation;
            && e.found && e.hopCount == 0 && ShowsPath(t, from, from, e) && e.fromNode == from && e.toNode == from
            && e.robotId == t.robotId && e.snapshotId == t.snapshotId && e.observedAt == t.observedAt
  {
    hide IsLeastWalk, Describes, Within;
    var node := ById(t.nodes, NodeKey)[from];
    assert node in t.nodes && r.explanation == ZeroHop(t, node) && node in r.explanation.nodes;
  }

  lemma NotFoundIsHonest(t: RobotTopology, from: string, to: string, maxHops: int, r: Outcome)
    requires IsAnswer(t, from, to, maxHops, r) && r.Explained? && !r.explanation.found && from != to
    ensures r.explanation == NotFound(t, from, to)
  {
    hide IsLeastWalk, Within, ById;
  }

  lemma DescribedHops(t: RobotTopology, from: string, to: string, maxHops: int, r: Outcome) returns (hops: seq<Hop>)
    requires IsAnswer(t, from, to, maxHops, r) && r.Explained? && r.explanation.found && from != to
    ensures IsWalk(t.edges, from, hops, to) && Describes(r.explanation, t, ById(t.nodes, NodeKey), from, to, hops)
  {
    hide IsLeastWalk, Describes, Within, ById, IsWalk;
    hops :| IsLeastWalk(t.edges, from, hops, to) && Describes(r.explanation, t, ById(t.nodes, NodeKey), from, to, hops);
    LeastWalkIsWalk(t.edges, from, hops, to);
  }

  lemma DescriptionIsHonest(t: RobotTopology, nodes: map<string, Node>, from: string, to: string, hops: seq<Hop>, e: Explanation)
    requires nodes == ById(t.nodes, NodeKey) && IsWalk(t.edges, from, hops, to) && Describes(e, t, nodes, from, to, hops)
    ensures ShowsPath(t, from, to, e)
    ensures e.robotId == t.robotId && e.snapshotId == t.snapshotId && e.observedAt == t.observedAt
    ensures e.fromNode == from && e.toNode == to
  {
    forall n | n in e.nodes ensures n in t.nodes {
      var i :| 0 <= i < |e.nodes| && e.nodes[i] == n;
      assert NodeAt(from, hops, i) in nodes;
    }
    assert NodeAt(from, hops, 0) == from && NodeAt(from, hops, |hops|) == to;
  }

  /** The call raises KeyError exactly for an end that is no node, or an edge that leads to none. */
  lemma KeyErrorExactly(t: RobotTopology, from: string, to: string, maxHops: int, r: Outcome)
    requires IsAnswer(t, from, to, maxHops, r)
    ensures r.KeyError? <==>
              || (forall n :: n in t.nodes ==> n.nodeId != from) || (forall n :: n in t.nodes ==> n.nodeId != to)
              || (from != to && exists e :: e in t.edges && ((forall n :: n in t.nodes ==> n.nodeId != e.source)
                                                             || forall n :: n in t.nodes ==> n.nodeId != e.target))
  {
    forall x: string ensures x in ById(t.nodes, NodeKey) <==> exists n :: n in t.nodes && n.nodeId == x {
      if n :| n in t.nodes && n.nodeId == x {
        var i :| 0 <= i < |t.nodes| && t.nodes[i] == n;
        assert NodeKey(t.nodes[i]) in ById(t.nodes, NodeKey);
      }
    }
    hide ById, IsLeastWalk, Describes, Within;
  }

  /**
   * The answer is the same for every bound that reaches the distance, and for every order in
   * which the topology lists its nodes and its edges.
   */
  lemma PathIsCanonical(t: RobotTopology, t': RobotTopology, from: string, to: string,
                        maxHops: int, maxHops': int, r: Outcome, r': Outcome)
    requires UniqueEdgeIds(t.edges) && DistinctKeys(t.nodes, NodeKey)
    requires t' == t.(nodes := t'.nodes, edges := t'.edges)
    requires (forall n :: n in t.nodes <==> n in t'.nodes) && forall e :: e in t.edges <==> e in t'.edges
    requires IsAnswer(t, from, to, maxHops, r) && IsAnswer(t', from, to, maxHops', r')
    requires r.Explained? && r.explanation.found && r.explanation.hopCount <= maxHops'
    ensures r' == r
  {
    ReorderedById(t.nodes, t'.nodes, NodeKey);
    if from != to {
      hide ById, DistinctKeys, IsLeastWalk, Describes;
      WalkIsCanonical(t, t', ById(t.nodes, NodeKey), from, to, maxHops, maxHops', r, r');
    }
  }

  lemma WalkIsCanonical(t: RobotTopology, t': RobotTopology, nodes: map<string, Node>, from: string, to: string,
                        maxHops: int, maxHops': int, r: Outcome, r': Outcome)
    requires UniqueEdgeIds(t.edges) && from != to
    requires t' == t.(nodes := t'.nodes, edges := t'.edges) && forall e :: e in t.edges <==> e in t'.edges
    requires nodes == ById(t.nodes, NodeKey) == ById(t'.nodes, NodeKey)
    requires IsAnswer(t, from, to, maxHops, r) && IsAnswer(t', from, to, maxHops', r')
    requires r.Explained? && r.explanation.found && r.explanation.hopCount <= maxHops'
    ensures r' == r
  {
    hide ById, UniqueEdgeIds, IsWalk;
    var p :| IsLeastWalk(t.edges, from, p, to) && Describes(r.explanation, t, nodes, from, to, p);
    SameEdgesSameWalks(t.edges, t'.edges, from, p, to);
    assert Within(t'.edges, from, to, maxHops') && Within(t'.edges, from, to, MAX_STEPS);
    hide IsLeastWalk, Within;
    var q :| IsLeastWalk(t'.edges, from, q, to) && Describes(r'.explanation, t', nodes, from, to, q);
    LeastWalkIsUnique(t.edges, t'.edges, from, p, q, to);
    SameWalkSameExplanation(t, t', nodes, from, to, p, r.explanation, r'.explanation);
  }

  lemma SameWalkSameExplanation(t: RobotTopology, t': RobotTopology, nodes: map<string, Node>, from: string,
                                to: string, p: seq<Hop>, e: Explanation, e': Explanation)
    requires t' == t.(nodes := t'.nodes, edges := t'.edges)
    requires Describes(e, t, nodes, from, to, p) && Describes(e', t', nodes, from, to, p)
    ensures e == e'
  {
    assert e.steps == e'.steps;
    assert e.nodes == e'.nodes;
  }

  /** Asking from the other end finds a path of the same length, or none either. */
  lemma SwappingEndsKeepsDistance(t: RobotTopology, from: string, to: string, maxHops: int, r: Outcome, r': Outcome)
    requires IsAnswer(t, from, to, maxHops, r) && IsAnswer(t, to, from, maxHops, r')
    ensures r.Explained? == r'.Explained? && r.KeyError? == r'.KeyError?
    ensures r.Explained? ==>
              && r.explanation.found == r'.explanation.found
              && r.explanation.hopCount == r'.explanation.hopCount
  {
    WithinIsSymmetric(t.edges, from, to, maxHops);
    WithinIsSymmetric(t.edges, from, to, MAX_STEPS);
    if r.Explained? && r.explanation.found && from != to {
      FoundPathIsShortestAndSimple(t, from, to, maxHops, r);
      FoundPathIsShortestAndSimple(t, to, from, maxHops, r');
      WithinIsSymmetric(t.edges, from, to, r.explanation.hopCount);
      WithinIsSymmetric(t.edges, from, to, r'.explanation.hopCount);
    }
  }

  lemma WithinIsSymmetric(edges: seq<Edge>, a: string, b: string, n: int)
    ensures Within(edges, a, b, n) <==> Within(edges, b, a, n)
  {
    if Within(edges, a, b, n) {
      WithinReversed(edges, a, b, n);
    }
    if Within(edges, b, a, n) {
      WithinReversed(edges, b, a, n);
    }
  }

  lemma WithinReversed(edges: seq<Edge>, a: string, b: string, n: int)
    requires Within(edges, a, b, n)
    ensures Within(edges, b, a, n)
  {
    var w :| IsWalk(edges, a, w, b) && |w| <= n;
    OppositeIsWalk(edges, a, w, b);
  }
}
