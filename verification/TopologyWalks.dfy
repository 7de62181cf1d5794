/**
 * Walks over the undirected reading of a topology, and the order in which the
 * breadth-first search meets them: shorter first, then hop by hop on the key
 * (neighbour id, edge id, direction).
 */
module TopologyWalks {
  import opened Ordering
  import opened Topology

  datatype Direction = FORWARD | REVERSE

  /** One entry of an adjacency list: the node reached, the edge used, and the way it was used. */
  datatype Hop = Hop(to: string, edge: Edge, direction: Direction)

  predicate IsHop(edges: seq<Edge>, from: string, h: Hop) {
    && h.edge in edges
    && (match h.direction
        case FORWARD => h.edge.source == from && h.edge.target == h.to
        case REVERSE => h.edge.target == from && h.edge.source == h.to)
  }

  /** The node where a walk stands after its first `i` hops. */
  function NodeAt(from: string, hops: seq<Hop>, i: nat): string
    requires i <= |hops|
  {
    if i == 0 then from else hops[i - 1].to
  }

  /** Hop `i` leaves the node that the hops before it reach. */
  predicate Leaves(edges: seq<Edge>, from: string, hops: seq<Hop>, i: nat)
    requires i < |hops|
  {
    IsHop(edges, NodeAt(from, hops, i), hops[i])
  }

  predicate IsWalk(edges: seq<Edge>, from: string, hops: seq<Hop>, to: string) {
    && (forall i :: 0 <= i < |hops| ==> Leaves(edges, from, hops, i))
    && NodeAt(from, hops, |hops|) == to
  }

  // ---- the order on hops: the sort key of an adjacency list ----

  predicate SameKey(g: Hop, h: Hop) {
    g.to == h.to && g.edge.edgeId == h.edge.edgeId && g.direction == h.direction
  }

  predicate HopBelow(g: Hop, h: Hop) {
    || Below(g.to, h.to)
    || (g.to == h.to && (
          || Below(g.edge.edgeId, h.edge.edgeId)
          || (g.edge.edgeId == h.edge.edgeId && g.direction.FORWARD? && h.direction.REVERSE?)))
  }

  predicate HopLeq(g: Hop, h: Hop) {
    HopBelow(g, h) || SameKey(g, h)
  }

  lemma HopOrderIsTotal(g: Hop, h: Hop)
    ensures HopLeq(g, h) || HopBelow(h, g)
  {
    BelowIsTotal(g.to, h.to);
    BelowIsTotal(g.edge.edgeId, h.edge.edgeId);
  }

  lemma HopOrderIsAsymmetric(g: Hop, h: Hop)
    requires HopBelow(g, h)
    ensures !HopLeq(h, g)
  {
    forall x, y | Below(x, y) ensures x != y && !Below(y, x) {
      BelowIsAsymmetric(x, y);
    }
  }

  lemma HopOrderIsTransitive(f: Hop, g: Hop, h: Hop)
    requires HopLeq(f, g) && HopLeq(g, h)
    ensures HopLeq(f, h)
    ensures HopBelow(f, g) || HopBelow(g, h) ==> HopBelow(f, h)
  {
    forall x, y, z | Below(x, y) && Below(y, z) ensures Below(x, z) {
      BelowIsTransitive(x, y, z);
    }
  }

  // ---- the order on walks ----

  /** The first `n` keys of two hop sequences agree. */
  predicate Agree(p: seq<Hop>, q: seq<Hop>, n: nat)
    requires n <= |p| && n <= |q|
  {
    forall i :: 0 <= i < n ==> SameKey(p[i], q[i])
  }

  /** `p` and `q` agree before position `i`, and `p` takes the smaller hop there. */
  predicate TurnsBelow(p: seq<Hop>, q: seq<Hop>, i: nat)
    requires i < |p| && i < |q|
  {
    Agree(p, q, i) && HopBelow(p[i], q[i])
  }

  /** Shorter first; between walks of one length, lexicographic on keys. */
  ghost predicate WalkBelow(p: seq<Hop>, q: seq<Hop>) {
    |p| < |q| || (|p| == |q| && exists i :: 0 <= i < |p| && TurnsBelow(p, q, i))
  }

  predicate SameKeys(p: seq<Hop>, q: seq<Hop>) {
    |p| == |q| && Agree(p, q, |p|)
  }

  ghost predicate WalkLeq(p: seq<Hop>, q: seq<Hop>) {
    WalkBelow(p, q) || SameKeys(p, q)
  }

  lemma WalkLeqIsTransitive(p: seq<Hop>, q: seq<Hop>, r: seq<Hop>)
    requires WalkLeq(p, q) && WalkLeq(q, r)
    ensures WalkLeq(p, r)
  {
    if |p| == |q| == |r| && !SameKeys(p, q) && !SameKeys(q, r) {
      var i :| 0 <= i < |p| && TurnsBelow(p, q, i);
      var j :| 0 <= j < |q| && TurnsBelow(q, r, j);
      var k := if i < j then i else j;
      HopOrderIsTransitive(p[k], q[k], r[k]);
      assert TurnsBelow(p, r, k);
    } else if |p| == |q| == |r| && !SameKeys(p, q) {
      var i :| 0 <= i < |p| && TurnsBelow(p, q, i);
      HopOrderIsTransitive(p[i], q[i], r[i]);
      assert TurnsBelow(p, r, i);
    } else if |p| == |q| == |r| && !SameKeys(q, r) {
      var i :| 0 <= i < |p| && TurnsBelow(q, r, i);
      HopOrderIsTransitive(p[i], q[i], r[i]);
      assert TurnsBelow(p, r, i);
    }
  }

  lemma WalkLeqIsAntisymmetric(p: seq<Hop>, q: seq<Hop>)
    requires WalkLeq(p, q) && WalkLeq(q, p)
    ensures SameKeys(p, q)
  {
    if !SameKeys(p, q) {
      var i :| 0 <= i < |p| && TurnsBelow(p, q, i);
      HopOrderIsAsymmetric(p[i], q[i]);
      if !SameKeys(q, p) {
        var j :| 0 <= j < |p| && TurnsBelow(q, p, j);
        HopOrderIsAsymmetric(q[j], p[j]);
      }
    }
  }

  lemma ExtendingBelowStaysBelow(p: seq<Hop>, q: seq<Hop>, g: Hop, h: Hop)
    requires WalkBelow(p, q)
    ensures WalkBelow(p + [g], q + [h])
  {
    if |p| == |q| {
      var i :| 0 <= i < |p| && TurnsBelow(p, q, i);
      assert TurnsBelow(p + [g], q + [h], i);
    }
  }

  lemma ExtendingByOneHopKeepsOrder(p: seq<Hop>, q: seq<Hop>, h: Hop)
    requires WalkLeq(p, q)
    ensures WalkLeq(p + [h], q + [h])
  {
    if WalkBelow(p, q) {
      ExtendingBelowStaysBelow(p, q, h, h);
    }
  }

  lemma SmallerLastHopIsBelow(p: seq<Hop>, g: Hop, h: Hop)
    requires HopLeq(g, h)
    ensures WalkLeq(p + [g], p + [h])
    ensures HopBelow(g, h) ==> WalkBelow(p + [g], p + [h])
  {
    if HopBelow(g, h) {
      assert TurnsBelow(p + [g], p + [h], |p|);
    }
  }

  // ---- walks ----

  lemma PrefixIsWalk(edges: seq<Edge>, from: string, hops: seq<Hop>, to: string, n: nat)
    requires IsWalk(edges, from, hops, to) && n <= |hops|
    ensures IsWalk(edges, from, hops[..n], NodeAt(from, hops, n))
  {
    forall i | 0 <= i < n ensures Leaves(edges, from, hops[..n], i) {
      assert Leaves(edges, from, hops, i);
    }
  }

  lemma ExtendWalk(edges: seq<Edge>, from: string, hops: seq<Hop>, mid: string, h: Hop)
    requires IsWalk(edges, from, hops, mid) && IsHop(edges, mid, h)
    ensures IsWalk(edges, from, hops + [h], h.to)
  {
    forall i | 0 <= i <= |hops| ensures Leaves(edges, from, hops + [h], i) {
      assert i < |hops| ==> Leaves(edges, from, hops, i);
    }
  }

  /** Cutting a cycle out of a walk leaves a walk between the same ends. */
  lemma CutCycle(edges: seq<Edge>, from: string, hops: seq<Hop>, to: string, i: nat, j: nat)
    requires IsWalk(edges, from, hops, to)
    requires i < j <= |hops| && NodeAt(from, hops, i) == NodeAt(from, hops, j)
    ensures IsWalk(edges, from, hops[..i] + hops[j..], to)
  {
    var cut := hops[..i] + hops[j..];
    forall k | 0 <= k < |cut| ensures Leaves(edges, from, cut, k) {
      assert Leaves(edges, from, hops, if k < i then k else k + j - i);
    }
  }

  /** The same hops taken the other way round. */
  function Opposite(from: string, hops: seq<Hop>): (r: seq<Hop>)
    ensures |r| == |hops|
  {
    seq(|hops|, i requires 0 <= i < |hops| =>
      var k := |hops| - 1 - i;
      Hop(NodeAt(from, hops, k), hops[k].edge, if hops[k].direction.FORWARD? then REVERSE else FORWARD))
  }

  lemma OppositeIsWalk(edges: seq<Edge>, from: string, hops: seq<Hop>, to: string)
    requires IsWalk(edges, from, hops, to)
    ensures IsWalk(edges, to, Opposite(from, hops), from)
  {
    var r := Opposite(from, hops);
    forall i | 0 <= i <= |r| ensures NodeAt(to, r, i) == NodeAt(from, hops, |hops| - i) {
      assert i > 0 ==> r[i - 1].to == NodeAt(from, hops, |hops| - i);
    }
    forall i | 0 <= i < |r| ensures Leaves(edges, to, r, i) {
      assert Leaves(edges, from, hops, |hops| - 1 - i);
    }
  }

  // ---- least walks ----

  /** `hops` is the first walk from `from` to `to` in the order above. */
  ghost predicate IsLeastWalk(edges: seq<Edge>, from: string, hops: seq<Hop>, to: string) {
    && IsWalk(edges, from, hops, to)
    && forall w :: IsWalk(edges, from, w, to) ==> WalkLeq(hops, w)
  }

  /** A least walk is as short as any, and visits no node twice. */
  lemma LeastWalkIsSimple(edges: seq<Edge>, from: string, hops: seq<Hop>, to: string)
    requires IsLeastWalk(edges, from, hops, to)
    ensures forall w :: IsWalk(edges, from, w, to) ==> |hops| <= |w|
    ensures forall i, j :: 0 <= i < j <= |hops| ==> NodeAt(from, hops, i) != NodeAt(from, hops, j)
  {
    forall i, j | 0 <= i < j <= |hops| ensures NodeAt(from, hops, i) != NodeAt(from, hops, j) {
      if NodeAt(from, hops, i) == NodeAt(from, hops, j) {
        CutCycle(edges, from, hops, to, i, j);
        assert false;
      }
    }
  }

  predicate UniqueEdgeIds(edges: seq<Edge>) {
    forall e, f :: e in edges && f in edges && e.edgeId == f.edgeId ==> e == f
  }

  lemma SameEdgesSameWalks(edges: seq<Edge>, edges': seq<Edge>, from: string, p: seq<Hop>, to: string)
    requires forall e :: e in edges <==> e in edges'
    ensures IsWalk(edges, from, p, to) <==> IsWalk(edges', from, p, to)
  {
    forall i | 0 <= i < |p| ensures Leaves(edges, from, p, i) <==> Leaves(edges', from, p, i) {
    }
  }

  /** With unique edge ids the least walk depends only on the set of edges, not on their order. */
  lemma LeastWalkIsUnique(edges: seq<Edge>, edges': seq<Edge>, from: string, p: seq<Hop>, q: seq<Hop>, to: string)
    requires UniqueEdgeIds(edges)
    requires forall e :: e in edges <==> e in edges'
    requires IsLeastWalk(edges, from, p, to) && IsLeastWalk(edges', from, q, to)
    ensures p == q
  {
    SameEdgesSameWalks(edges, edges', from, p, to);
    SameEdgesSameWalks(edges, edges', from, q, to);
    WalkLeqIsAntisymmetric(p, q);
    forall i | 0 <= i < |p| ensures p[i] == q[i] {
      assert SameKey(p[i], q[i]);
      assert Leaves(edges, from, p, i) && Leaves(edges, from, q, i);
    }
  }
}
