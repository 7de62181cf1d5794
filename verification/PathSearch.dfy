/**
 * The bounded breadth-first search of `explain_topology_path`.  The ghost `order`
 * lists the discovered nodes as they were met and `tree` gives each of them the
 * walk that its parent pointers spell.
 */
module PathSearch {
  import opened Ordering
  import opened Topology
  import opened TopologyWalks

  // ---- adjacency lists ----

  predicate HopsSorted(hops: seq<Hop>) {
    forall i, j :: 0 <= i < j < |hops| ==> HopLeq(hops[i], hops[j])
  }

  /** Every edge endpoint is a known node; building the lists raises KeyError otherwise. */
  predicate EndpointsKnown(nodes: map<string, Node>, edges: seq<Edge>) {
    forall e :: e in edges ==> e.source in nodes && e.target in nodes
  }

  /** The hops that the edges offer at a node, edge by edge: forward from its source, in reverse from its target. */
  function HopsAt(edges: seq<Edge>, n: string): seq<Hop> {
    if edges == [] then []
    else
      var e := edges[|edges| - 1];
      HopsAt(edges[..|edges| - 1], n)
      + (if e.source == n then [Hop(e.target, e, FORWARD)] else [])
      + (if e.target == n then [Hop(e.source, e, REVERSE)] else [])
  }

  lemma {:induction false} HopsAtAreHops(edges: seq<Edge>, n: string, h: Hop)
    ensures h in HopsAt(edges, n) <==> IsHop(edges, n, h)
  {
    if edges != [] {
      var init, e := edges[..|edges| - 1], edges[|edges| - 1];
      HopsAtAreHops(init, n, h);
      assert edges == init + [e];
    }
  }

  lemma HopsAtAppend(edges: seq<Edge>, e: Edge, n: string)
    ensures HopsAt(edges + [e], n)
            == HopsAt(edges, n) + (if e.source == n then [Hop(e.target, e, FORWARD)] else [])
               + (if e.target == n then [Hop(e.source, e, REVERSE)] else [])
  {
    assert (edges + [e])[..|edges|] == edges;
  }

  /** Each list holds every hop at its node, as often as the edges offer it, in order. */
  ghost predicate IsAdjacency(adjacency: map<string, seq<Hop>>, edges: seq<Edge>) {
    forall n :: n in adjacency ==>
      && HopsSorted(adjacency[n]) && (forall h :: h in adjacency[n] <==> IsHop(edges, n, h))
      && multiset(adjacency[n]) == multiset(HopsAt(edges, n))
  }

  /** `neighbors.sort(key=...)` on one list. */
  function SortHops(hops: seq<Hop>): (s: seq<Hop>)
    ensures HopsSorted(s) && multiset(s) == multiset(hops)
    ensures forall h :: h in s <==> h in hops
  {
    if hops == [] then []
    else
      assert hops == hops[..|hops| - 1] + [hops[|hops| - 1]];
      InsertHop(SortHops(hops[..|hops| - 1]), hops[|hops| - 1])
  }

  /** Behind all hops that are not greater. */
  function InsertHop(s: seq<Hop>, h: Hop): (r: seq<Hop>)
    requires HopsSorted(s)
    ensures HopsSorted(r) && multiset(r) == multiset(s) + multiset{h}
    ensures forall g :: g in r <==> g in s || g == h
  {
    var k := Place(s, h, |s|);
    InsertedHop(s, h, k);
    s[..k] + [h] + s[k..]
  }

  function Place(s: seq<Hop>, h: Hop, n: nat): (k: nat)
    requires HopsSorted(s) && n <= |s| && forall i :: n <= i < |s| ==> HopLeq(h, s[i])
    ensures k <= n && forall i :: k <= i < |s| ==> HopLeq(h, s[i])
    ensures forall i :: 0 <= i < k ==> HopLeq(s[i], h)
  {
    if n > 0 && HopBelow(h, s[n - 1]) then Place(s, h, n - 1)
    else
      if n > 0 then
        HopOrderIsTotal(s[n - 1], h);
        AllBelow(s, h, n);
        n
      else n
  }

  lemma AllBelow(s: seq<Hop>, h: Hop, n: nat)
    requires HopsSorted(s) && 0 < n <= |s| && HopLeq(s[n - 1], h)
    ensures forall i :: 0 <= i < n ==> HopLeq(s[i], h)
  {
    forall i | 0 <= i < n ensures HopLeq(s[i], h) {
      if i < n - 1 {
        HopOrderIsTransitive(s[i], s[n - 1], h);
      }
    }
  }

  lemma InsertedHop(s: seq<Hop>, h: Hop, k: nat)
    requires HopsSorted(s) && k <= |s|
    requires (forall i :: k <= i < |s| ==> HopLeq(h, s[i])) && forall i :: 0 <= i < k ==> HopLeq(s[i], h)
    ensures var r := s[..k] + [h] + s[k..];
            HopsSorted(r) && multiset(r) == multiset(s) + multiset{h} && forall g :: g in r <==> g in s || g == h
  {
    var r := s[..k] + [h] + s[k..];
    InsertedIsSorted(s, h, k);
    hide HopLeq, HopsSorted;
    assert s == s[..k] + s[k..];
    assert multiset(r) == multiset(s[..k]) + multiset{h} + multiset(s[k..]);
    forall g ensures g in r <==> g in s || g == h {
      assert g in r <==> g in multiset(r);
      assert g in s <==> g in multiset(s);
    }
  }

  lemma InsertedIsSorted(s: seq<Hop>, h: Hop, k: nat)
    requires HopsSorted(s) && k <= |s|
    requires (forall i :: k <= i < |s| ==> HopLeq(h, s[i])) && forall i :: 0 <= i < k ==> HopLeq(s[i], h)
    ensures HopsSorted(s[..k] + [h] + s[k..])
  {
    hide HopLeq;
    var r := s[..k] + [h] + s[k..];
    forall i, j | 0 <= i < j < |r| ensures HopLeq(r[i], r[j]) {
      assert r[i] == if i < k then s[i] else if i == k then h else s[i - 1];
      assert r[j] == if j < k then s[j] else if j == k then h else s[j - 1];
    }
  }

  /** The lists before sorting. */
  ghost predicate Listed(adjacency: map<string, seq<Hop>>, edges: seq<Edge>) {
    forall n :: n in adjacency ==> adjacency[n] == HopsAt(edges, n)
  }

  /** The lists of which those in `unsorted` are still to be sorted. */
  ghost predicate PartlySorted(adjacency: map<string, seq<Hop>>, edges: seq<Edge>, unsorted: set<string>) {
    forall n :: n in adjacency ==>
      adjacency[n] == if n in unsorted then HopsAt(edges, n) else SortHops(HopsAt(edges, n))
  }

  lemma ListEdge(adjacency: map<string, seq<Hop>>, edges: seq<Edge>, e: Edge)
    requires Listed(adjacency, edges) && e.source in adjacency && e.target in adjacency
    ensures var forward := adjacency[e.source := adjacency[e.source] + [Hop(e.target, e, FORWARD)]];
            Listed(forward[e.target := forward[e.target] + [Hop(e.source, e, REVERSE)]], edges + [e])
  {
    var forward := adjacency[e.source := adjacency[e.source] + [Hop(e.target, e, FORWARD)]];
    var both := forward[e.target := forward[e.target] + [Hop(e.source, e, REVERSE)]];
    hide HopsAt;
    forall n | n in both ensures both[n] == HopsAt(edges + [e], n) {
      assert adjacency[n] == HopsAt(edges, n);
      HopsAtAppend(edges, e, n);
    }
  }

  lemma AllSorted(adjacency: map<string, seq<Hop>>, edges: seq<Edge>)
    requires PartlySorted(adjacency, edges, {})
    ensures IsAdjacency(adjacency, edges)
  {
    forall n | n in adjacency ensures forall h :: h in adjacency[n] <==> IsHop(edges, n, h) {
      forall h ensures h in adjacency[n] <==> IsHop(edges, n, h) {
        HopsAtAreHops(edges, n, h);
      }
    }
    hide HopsAt, SortHops, IsHop, HopsSorted;
  }

  method BuildAdjacency(nodes: map<string, Node>, edges: seq<Edge>)
    returns (known: bool, adjacency: map<string, seq<Hop>>)
    ensures known <==> EndpointsKnown(nodes, edges)
    ensures known ==> adjacency.Keys == nodes.Keys && IsAdjacency(adjacency, edges)
  {
    adjacency := map n | n in nodes :: [];
    assert Listed(adjacency, edges[..0]);
    hide HopsAt, SortHops, IsAdjacency, Listed;
    for k := 0 to |edges|
      invariant EndpointsKnown(nodes, edges[..k])
      invariant adjacency.Keys == nodes.Keys && Listed(adjacency, edges[..k])
    {
      var edge := edges[k];
      if edge.source !in adjacency || edge.target !in adjacency {
        return false, adjacency;
      }
      assert edges[..k + 1] == edges[..k] + [edge];
      ListEdge(adjacency, edges[..k], edge);
      adjacency := adjacency[edge.source := adjacency[edge.source] + [Hop(edge.target, edge, FORWARD)]];
      adjacency := adjacency[edge.target := adjacency[edge.target] + [Hop(edge.source, edge, REVERSE)]];
    }
    assert edges[..|edges|] == edges;
    adjacency := SortAll(adjacency, edges);
    known := true;
  }

  /** `for neighbors in adjacency.values(): neighbors.sort(...)`. */
  method SortAll(listed: map<string, seq<Hop>>, ghost edges: seq<Edge>) returns (adjacency: map<string, seq<Hop>>)
    requires Listed(listed, edges)
    ensures adjacency.Keys == listed.Keys && IsAdjacency(adjacency, edges)
  {
    adjacency := listed;
    hide HopsAt, SortHops, IsAdjacency;
    var unsorted := adjacency.Keys;
    while unsorted != {}
      invariant unsorted <= adjacency.Keys == listed.Keys
      invariant PartlySorted(adjacency, edges, unsorted)
      decreases unsorted
    {
      var n :| n in unsorted;
      adjacency := adjacency[n := SortHops(adjacency[n])];
      unsorted := unsorted - {n};
    }
    AllSorted(adjacency, edges);
  }

  // ---- what the search has learnt ----

  /** An entry of `previous`: the node a node was reached from, and the hop used. */
  datatype Parent = Parent(node: string, hop: Hop)

  ghost predicate Threads(from: string, previous: map<string, Parent>, tree: map<string, seq<Hop>>) {
    && from in tree && tree[from] == []
    && (forall x :: x in tree <==> x == from || x in previous)
    && from !in previous
    && forall x :: x in previous ==>
         && previous[x].node in tree
         && previous[x].hop.to == x
         && tree[x] == tree[previous[x].node] + [previous[x].hop]
  }

  /** The node at position `i` of `order` was met by an earlier walk than the one at `j`. */
  ghost predicate Earlier(order: seq<string>, tree: map<string, seq<Hop>>, i: nat, j: nat)
    requires i < j < |order| && order[i] in tree && order[j] in tree
  {
    WalkBelow(tree[order[i]], tree[order[j]])
  }

  ghost predicate Grown(edges: seq<Edge>, from: string, order: seq<string>, tree: map<string, seq<Hop>>) {
    && (forall x :: x in tree <==> x in order)
    && order != [] && order[0] == from
    && (forall x :: x in tree ==> IsWalk(edges, from, tree[x], x))
    && forall i, j :: 0 <= i < j < |order| ==> Earlier(order, tree, i, j)
  }

  /** Hop `h` out of `u` leads to a node whose own walk is no later than going through `u`. */
  ghost predicate Settled(tree: map<string, seq<Hop>>, u: string, h: Hop)
    requires u in tree
  {
    h.to in tree && WalkLeq(tree[h.to], tree[u] + [h])
  }

  ghost predicate Expanded(edges: seq<Edge>, tree: map<string, seq<Hop>>, u: string)
    requires u in tree
  {
    forall h :: IsHop(edges, u, h) ==> Settled(tree, u, h)
  }

  ghost predicate PrefixExpanded(edges: seq<Edge>, order: seq<string>, tree: map<string, seq<Hop>>,
                                 head: nat, maxHops: int)
  {
    && head <= |order|
    && (forall x :: x in order ==> x in tree)
    && forall i :: 0 <= i < head && |tree[order[i]]| < maxHops ==> Expanded(edges, tree, order[i])
  }

  /** When the queue has run dry, every walk within the bound is matched by a tree walk. */
  lemma {:induction false} ExhaustedCovers(edges: seq<Edge>, from: string, order: seq<string>,
                                           tree: map<string, seq<Hop>>, maxHops: int,
                                           w: seq<Hop>, v: string)
    requires Grown(edges, from, order, tree) && from in tree && tree[from] == []
    requires PrefixExpanded(edges, order, tree, |order|, maxHops)
    requires IsWalk(edges, from, w, v) && |w| <= maxHops
    ensures v in tree && WalkLeq(tree[v], w)
    decreases |w|
  {
    if w != [] {
      var last := |w| - 1;
      var u := NodeAt(from, w, last);
      PrefixIsWalk(edges, from, w, v, last);
      ExhaustedCovers(edges, from, order, tree, maxHops, w[..last], u);
      assert Leaves(edges, from, w, last);
      var i :| 0 <= i < |order| && order[i] == u;
      assert Expanded(edges, tree, order[i]);
      assert Settled(tree, u, w[last]);
      ExtendingByOneHopKeepsOrder(tree[u], w[..last], w[last]);
      assert w == w[..last] + [w[last]];
      WalkLeqIsTransitive(tree[v], tree[u] + [w[last]], w);
    }
  }

  /** The state in the middle of expanding `order[head - 1]`: its first `k` hops are settled. */
  ghost predicate Expanding(edges: seq<Edge>, from: string, order: seq<string>, tree: map<string, seq<Hop>>,
                            head: nat, maxHops: int, hops: seq<Hop>, k: nat)
  {
    && Grown(edges, from, order, tree) && from in tree && tree[from] == []
    && 0 < head
    && PrefixExpanded(edges, order, tree, head - 1, maxHops)
    && head <= |order|
    && |tree[order[head - 1]]| < maxHops
    && k <= |hops|
    && HopsSorted(hops)
    && (forall h :: h in hops <==> IsHop(edges, order[head - 1], h))
    && forall j :: 0 <= j < k ==> Settled(tree, order[head - 1], hops[j])
  }

  /**
   * While hop `k` of the node being expanded is next, every walk is either matched by a tree
   * walk or comes no earlier than the walk through that hop.
   */
  lemma {:induction false} ExpandingCovers(edges: seq<Edge>, from: string, order: seq<string>,
                                           tree: map<string, seq<Hop>>, head: nat, maxHops: int,
                                           hops: seq<Hop>, k: nat, w: seq<Hop>, v: string)
    requires Expanding(edges, from, order, tree, head, maxHops, hops, k) && k < |hops|
    requires IsWalk(edges, from, w, v)
    ensures (v in tree && WalkLeq(tree[v], w)) || WalkLeq(tree[order[head - 1]] + [hops[k]], w)
    decreases |w|
  {
    if w != [] {
      var last := |w| - 1;
      var x := NodeAt(from, w, last);
      var frontier := tree[order[head - 1]] + [hops[k]];
      PrefixIsWalk(edges, from, w, v, last);
      ExpandingCovers(edges, from, order, tree, head, maxHops, hops, k, w[..last], x);
      assert w == w[..last] + [w[last]];
      if WalkLeq(frontier, w[..last]) {
        WalkLeqIsTransitive(frontier, w[..last], w);
      } else {
        assert Leaves(edges, from, w, last);
        ExtendingByOneHopKeepsOrder(tree[x], w[..last], w[last]);
        ExpandingCoversStep(edges, from, order, tree, head, maxHops, hops, k, x, w[last]);
        if Settled(tree, x, w[last]) {
          WalkLeqIsTransitive(tree[v], tree[x] + [w[last]], w);
        } else {
          WalkLeqIsTransitive(frontier, tree[x] + [w[last]], w);
        }
      }
    }
  }

  lemma ExpandingCoversStep(edges: seq<Edge>, from: string, order: seq<string>,
                            tree: map<string, seq<Hop>>, head: nat, maxHops: int,
                            hops: seq<Hop>, k: nat, x: string, h: Hop)
    requires Expanding(edges, from, order, tree, head, maxHops, hops, k) && k < |hops|
    requires x in tree && IsHop(edges, x, h)
    ensures Settled(tree, x, h) || WalkLeq(tree[order[head - 1]] + [hops[k]], tree[x] + [h])
  {
    var u := order[head - 1];
    var i :| 0 <= i < |order| && order[i] == x;
    if i < head - 1 && |tree[x]| < maxHops {
      assert Expanded(edges, tree, order[i]);
    } else if i < head - 1 {
      assert |tree[u] + [hops[k]]| < |tree[x] + [h]|;
    } else if i == head - 1 {
      assert h in hops;
      var j :| 0 <= j < |hops| && hops[j] == h;
      if k <= j {
        SmallerLastHopIsBelow(tree[u], hops[k], h);
      }
    } else {
      assert Earlier(order, tree, head - 1, i);
      ExtendingBelowStaysBelow(tree[u], tree[x], hops[k], h);
    }
  }

  /** Where the nodes known so far were discovered from. */
  ghost predicate Sources(previous: map<string, Parent>, order: seq<string>, head: nat, hops: seq<Hop>, k: nat)
    requires 0 < head <= |order| && k <= |hops|
  {
    forall y :: y in previous ==>
      || previous[y].node in order[..head - 1]
      || (previous[y].node == order[head - 1] && previous[y].hop in hops[..k])
  }

  /** Every node known so far was met no later than the walk through hop `k`; a new node is met last. */
  lemma KnownNodesComeEarlier(edges: seq<Edge>, from: string, order: seq<string>,
                              tree: map<string, seq<Hop>>, previous: map<string, Parent>, head: nat,
                              maxHops: int, hops: seq<Hop>, k: nat, y: string)
    requires Expanding(edges, from, order, tree, head, maxHops, hops, k) && k < |hops|
    requires Threads(from, previous, tree) && Sources(previous, order, head, hops, k)
    requires y in tree
    ensures WalkLeq(tree[y], tree[order[head - 1]] + [hops[k]])
    ensures y != hops[k].to ==> WalkBelow(tree[y], tree[order[head - 1]] + [hops[k]])
  {
    var u := order[head - 1];
    if y != from {
      var p := previous[y];
      if p.node in order[..head - 1] {
        var i :| 0 <= i < head - 1 && order[i] == p.node;
        assert Earlier(order, tree, i, head - 1);
        ExtendingBelowStaysBelow(tree[p.node], tree[u], p.hop, hops[k]);
      } else {
        SmallerLastHopIsBelow(tree[u], p.hop, hops[k]);
      }
    }
  }

  lemma {:induction false} DistinctFits(order: seq<string>, within: set<string>)
    requires forall i, j :: 0 <= i < j < |order| ==> order[i] != order[j]
    requires forall x :: x in order ==> x in within
    ensures |order| <= |within|
  {
    if order != [] {
      var last := |order| - 1;
      forall x | x in order[..last] ensures x in within - {order[last]} {
      }
      DistinctFits(order[..last], within - {order[last]});
    }
  }

  /** A newly met node goes to the end of the order. */
  lemma DiscoverGrows(edges: seq<Edge>, from: string, order: seq<string>,
                      tree: map<string, seq<Hop>>, previous: map<string, Parent>, head: nat,
                      maxHops: int, hops: seq<Hop>, k: nat)
    requires Expanding(edges, from, order, tree, head, maxHops, hops, k) && k < |hops|
    requires Threads(from, previous, tree) && Sources(previous, order, head, hops, k)
    requires hops[k].to !in tree
    ensures var u, v := order[head - 1], hops[k].to;
            Grown(edges, from, order + [v], tree[v := tree[u] + [hops[k]]])
  {
    var u, v := order[head - 1], hops[k].to;
    var tree' := tree[v := tree[u] + [hops[k]]];
    var order' := order + [v];
    assert hops[k] in hops;
    ExtendWalk(edges, from, tree[u], u, hops[k]);
    forall i, j | 0 <= i < j < |order'| ensures Earlier(order', tree', i, j) {
      if j == |order| {
        KnownNodesComeEarlier(edges, from, order, tree, previous, head, maxHops, hops, k, order[i]);
      } else {
        assert Earlier(order, tree, i, j);
      }
    }
  }

  /** What was settled stays settled when the tree grows. */
  lemma GrowthKeepsExpanded(edges: seq<Edge>, order: seq<string>, tree: map<string, seq<Hop>>,
                            head: nat, maxHops: int, v: string, w: seq<Hop>)
    requires PrefixExpanded(edges, order, tree, head, maxHops) && v !in tree
    ensures PrefixExpanded(edges, order + [v], tree[v := w], head, maxHops)
  {
    var order', tree' := order + [v], tree[v := w];
    forall i | 0 <= i < head && |tree'[order'[i]]| < maxHops ensures Expanded(edges, tree', order'[i]) {
      assert Expanded(edges, tree, order[i]);
      forall h | IsHop(edges, order[i], h) ensures Settled(tree', order[i], h) {
        assert Settled(tree, order[i], h);
      }
    }
  }

  lemma DiscoverThreads(from: string, previous: map<string, Parent>, tree: map<string, seq<Hop>>, u: string, hop: Hop)
    requires Threads(from, previous, tree) && u in tree && hop.to !in tree
    ensures Threads(from, previous[hop.to := Parent(u, hop)], tree[hop.to := tree[u] + [hop]])
  {
  }

  lemma DiscoverSources(previous: map<string, Parent>, order: seq<string>, head: nat, hops: seq<Hop>, k: nat, v: string)
    requires 0 < head <= |order| && k < |hops| && Sources(previous, order, head, hops, k)
    ensures Sources(previous, order + [v], head, hops, k + 1)
    ensures Sources(previous[v := Parent(order[head - 1], hops[k])], order + [v], head, hops, k + 1)
  {
    assert (order + [v])[..head - 1] == order[..head - 1];
    assert hops[..k + 1] == hops[..k] + [hops[k]];
  }

  /** Recording a new node at the end of `order` keeps everything learnt so far. */
  lemma DiscoverKeeps(edges: seq<Edge>, from: string, order: seq<string>,
                      tree: map<string, seq<Hop>>, previous: map<string, Parent>, head: nat,
                      maxHops: int, hops: seq<Hop>, k: nat)
    requires Expanding(edges, from, order, tree, head, maxHops, hops, k) && k < |hops|
    requires Threads(from, previous, tree) && Sources(previous, order, head, hops, k)
    requires hops[k].to !in tree
    ensures var u, v := order[head - 1], hops[k].to;
            var tree' := tree[v := tree[u] + [hops[k]]];
            var previous' := previous[v := Parent(u, hops[k])];
            && Expanding(edges, from, order + [v], tree', head, maxHops, hops, k + 1)
            && Threads(from, previous', tree')
            && Sources(previous', order + [v], head, hops, k + 1)
  {
    var u, v := order[head - 1], hops[k].to;
    var tree' := tree[v := tree[u] + [hops[k]]];
    assert u in tree && from in tree && from != v;
    DiscoverGrows(edges, from, order, tree, previous, head, maxHops, hops, k);
    GrowthKeepsExpanded(edges, order, tree, head - 1, maxHops, v, tree[u] + [hops[k]]);
    DiscoverSettles(tree, u, hops, k);
    ExpandingByParts(edges, from, order, tree, head, maxHops, hops, k, tree', v);
    hide Expanding, Threads, Sources;
    DiscoverThreads(from, previous, tree, u, hops[k]);
    DiscoverSources(previous, order, head, hops, k, v);
  }

  lemma ExpandingByParts(edges: seq<Edge>, from: string, order: seq<string>, tree: map<string, seq<Hop>>,
                         head: nat, maxHops: int, hops: seq<Hop>, k: nat, tree': map<string, seq<Hop>>, v: string)
    requires Expanding(edges, from, order, tree, head, maxHops, hops, k) && k < |hops|
    requires Grown(edges, from, order + [v], tree') && PrefixExpanded(edges, order + [v], tree', head - 1, maxHops)
    requires from in tree' && tree'[from] == [] && order[head - 1] in tree'
    requires tree'[order[head - 1]] == tree[order[head - 1]]
    requires forall j :: 0 <= j < k + 1 ==> Settled(tree', order[head - 1], hops[j])
    ensures Expanding(edges, from, order + [v], tree', head, maxHops, hops, k + 1)
  {
    hide Grown, PrefixExpanded, HopsSorted, Settled, IsHop;
  }

  lemma DiscoverSettles(tree: map<string, seq<Hop>>, u: string, hops: seq<Hop>, k: nat)
    requires u in tree && k < |hops| && hops[k].to !in tree
    requires forall j :: 0 <= j < k ==> Settled(tree, u, hops[j])
    ensures forall j :: 0 <= j < k + 1 ==> Settled(tree[hops[k].to := tree[u] + [hops[k]]], u, hops[j])
  {
    forall j | 0 <= j < k + 1 ensures Settled(tree[hops[k].to := tree[u] + [hops[k]]], u, hops[j]) {
      assert j < k ==> Settled(tree, u, hops[j]);
    }
  }

  lemma SkipKeeps(edges: seq<Edge>, from: string, order: seq<string>,
                  tree: map<string, seq<Hop>>, previous: map<string, Parent>, head: nat,
                  maxHops: int, hops: seq<Hop>, k: nat)
    requires Expanding(edges, from, order, tree, head, maxHops, hops, k) && k < |hops|
    requires Threads(from, previous, tree) && Sources(previous, order, head, hops, k)
    requires hops[k].to in tree
    ensures Expanding(edges, from, order, tree, head, maxHops, hops, k + 1)
    ensures Sources(previous, order, head, hops, k + 1)
  {
    KnownNodesComeEarlier(edges, from, order, tree, previous, head, maxHops, hops, k, hops[k].to);
    assert Settled(tree, order[head - 1], hops[k]);
    assert hops[..k + 1] == hops[..k] + [hops[k]];
  }

  lemma FoundIsLeast(edges: seq<Edge>, from: string, order: seq<string>, tree: map<string, seq<Hop>>,
                     head: nat, maxHops: int, hops: seq<Hop>, k: nat)
    requires Expanding(edges, from, order, tree, head, maxHops, hops, k) && k < |hops|
    requires hops[k].to !in tree
    ensures IsLeastWalk(edges, from, tree[order[head - 1]] + [hops[k]], hops[k].to)
  {
    var u, v := order[head - 1], hops[k].to;
    assert hops[k] in hops;
    ExtendWalk(edges, from, tree[u], u, hops[k]);
    forall w | IsWalk(edges, from, w, v) ensures WalkLeq(tree[u] + [hops[k]], w) {
      ExpandingCovers(edges, from, order, tree, head, maxHops, hops, k, w, v);
    }
  }

  // ---- the loops ----

  /** The queue holds the discovered nodes from position `head` on, each with its depth. */
  ghost predicate QueueHolds(queue: seq<(string, nat)>, order: seq<string>, tree: map<string, seq<Hop>>, head: nat) {
    && |queue| + head == |order|
    && (forall x :: x in order ==> x in tree)
    && forall i :: 0 <= i < |queue| ==> queue[i] == (order[head + i], |tree[order[head + i]]|)
  }

  ghost predicate Searching(edges: seq<Edge>, from: string, order: seq<string>, tree: map<string, seq<Hop>>,
                            previous: map<string, Parent>, queue: seq<(string, nat)>, head: nat, maxHops: int)
  {
    && Grown(edges, from, order, tree)
    && Threads(from, previous, tree)
    && PrefixExpanded(edges, order, tree, head, maxHops)
    && QueueHolds(queue, order, tree, head)
    && forall y :: y in previous ==> previous[y].node in order[..head]
  }

  /** The target has been reached by its least walk. */
  ghost predicate Reached(edges: seq<Edge>, from: string, to: string, previous: map<string, Parent>,
                          tree: map<string, seq<Hop>>, maxHops: int)
  {
    && Threads(from, previous, tree)
    && to in previous
    && IsLeastWalk(edges, from, tree[to], to)
    && |tree[to]| <= maxHops
  }

  /** The last hop of a node settled: the search may take the next node from the queue. */
  lemma ExpansionDone(edges: seq<Edge>, from: string, order: seq<string>, tree: map<string, seq<Hop>>,
                      previous: map<string, Parent>, queue: seq<(string, nat)>, head: nat, maxHops: int,
                      hops: seq<Hop>)
    requires Expanding(edges, from, order, tree, head, maxHops, hops, |hops|)
    requires Threads(from, previous, tree) && Sources(previous, order, head, hops, |hops|)
    requires QueueHolds(queue, order, tree, head)
    ensures Searching(edges, from, order, tree, previous, queue, head, maxHops)
  {
    hide Grown, Threads, QueueHolds, HopsSorted;
    var u := order[head - 1];
    assert Expanded(edges, tree, u) by {
      forall h | IsHop(edges, u, h) ensures Settled(tree, u, h) {
        assert h in hops;
      }
    }
    assert order[..head] == order[..head - 1] + [u];
  }

  /** Queueing the node just discovered, one level below the one being expanded. */
  lemma EnqueueKeeps(queue: seq<(string, nat)>, order: seq<string>, tree: map<string, seq<Hop>>, head: nat,
                     u: string, hop: Hop)
    requires QueueHolds(queue, order, tree, head) && u in tree && hop.to !in tree
    ensures QueueHolds(queue + [(hop.to, |tree[u]| + 1)], order + [hop.to], tree[hop.to := tree[u] + [hop]], head)
  {
    var queue' := queue + [(hop.to, |tree[u]| + 1)];
    var order', tree' := order + [hop.to], tree[hop.to := tree[u] + [hop]];
    forall i | 0 <= i < |queue'| ensures queue'[i] == (order'[head + i], |tree'[order'[head + i]]|) {
      if i < |queue| {
        assert queue[i] == (order[head + i], |tree[order[head + i]]|);
      }
    }
  }

  /** A discovery of the target ends the search with its least walk. */
  lemma DiscoveryReaches(edges: seq<Edge>, from: string, order: seq<string>,
                         tree: map<string, seq<Hop>>, previous: map<string, Parent>, head: nat,
                         maxHops: int, hops: seq<Hop>, k: nat)
    requires Expanding(edges, from, order, tree, head, maxHops, hops, k) && k < |hops|
    requires Threads(from, previous, tree) && Sources(previous, order, head, hops, k)
    requires hops[k].to !in tree
    ensures var u, v := order[head - 1], hops[k].to;
            Reached(edges, from, v, previous[v := Parent(u, hops[k])], tree[v := tree[u] + [hops[k]]], maxHops)
  {
    DiscoverKeeps(edges, from, order, tree, previous, head, maxHops, hops, k);
    FoundIsLeast(edges, from, order, tree, head, maxHops, hops, k);
  }

  /** All that holds between two nodes taken from the queue. */
  ghost predicate AtNode(edges: seq<Edge>, known: set<string>, from: string, to: string, head: nat, maxHops: int,
                         queue: seq<(string, nat)>, visited: set<string>, previous: map<string, Parent>,
                         order: seq<string>, tree: map<string, seq<Hop>>)
  {
    && visited == tree.Keys <= known && head <= |order|
    && Grown(edges, from, order, tree)
    && (to !in previous ==> Searching(edges, from, order, tree, previous, queue, head, maxHops))
    && (to in previous ==> queue == [] && Reached(edges, from, to, previous, tree, maxHops))
  }

  /** All that holds before hop `k` of the node being expanded. */
  ghost predicate AtHop(edges: seq<Edge>, known: set<string>, from: string, to: string, head: nat, maxHops: int,
                        hops: seq<Hop>, k: nat, queue: seq<(string, nat)>, visited: set<string>,
                        previous: map<string, Parent>, order: seq<string>, tree: map<string, seq<Hop>>)
  {
    && Expanding(edges, from, order, tree, head, maxHops, hops, k)
    && Threads(from, previous, tree) && Sources(previous, order, head, hops, k)
    && QueueHolds(queue, order, tree, head)
    && visited == tree.Keys <= known
    && to !in previous && to != from
    && forall h :: h in hops ==> h.to in known
  }

  /** As `AtHop`, for the node being expanded and its depth. */
  ghost predicate AtHopOf(edges: seq<Edge>, known: set<string>, from: string, to: string, head: nat, maxHops: int,
                          hops: seq<Hop>, k: nat, queue: seq<(string, nat)>, visited: set<string>,
                          previous: map<string, Parent>, order: seq<string>, tree: map<string, seq<Hop>>,
                          current: string, depth: nat)
  {
    && AtHop(edges, known, from, to, head, maxHops, hops, k, queue, visited, previous, order, tree)
    && 0 < head <= |order| && order[head - 1] == current
    && current in tree && |tree[current]| == depth
  }

  lemma AtHopSkips(edges: seq<Edge>, known: set<string>, from: string, to: string, head: nat, maxHops: int,
                   hops: seq<Hop>, k: nat, queue: seq<(string, nat)>, visited: set<string>,
                   previous: map<string, Parent>, order: seq<string>, tree: map<string, seq<Hop>>,
                   current: string, depth: nat)
    requires AtHopOf(edges, known, from, to, head, maxHops, hops, k, queue, visited, previous, order, tree, current, depth)
    requires k < |hops| && hops[k].to in visited
    ensures AtHopOf(edges, known, from, to, head, maxHops, hops, k + 1, queue, visited, previous, order, tree, current, depth)
  {
    SkipKeeps(edges, from, order, tree, previous, head, maxHops, hops, k);
    hide Expanding, Sources;
  }

  lemma AtHopDiscovers(edges: seq<Edge>, known: set<string>, from: string, to: string, head: nat, maxHops: int,
                       hops: seq<Hop>, k: nat, queue: seq<(string, nat)>, visited: set<string>,
                       previous: map<string, Parent>, order: seq<string>, tree: map<string, seq<Hop>>,
                       current: string, depth: nat)
    returns (order': seq<string>, tree': map<string, seq<Hop>>)
    requires AtHopOf(edges, known, from, to, head, maxHops, hops, k, queue, visited, previous, order, tree, current, depth)
    requires k < |hops| && hops[k].to !in visited
    ensures var v := hops[k].to;
            var previous' := previous[v := Parent(current, hops[k])];
            && (v == to ==> AtNode(edges, known, from, to, head, maxHops, [], visited + {v}, previous', order', tree'))
            && (v != to ==> AtHopOf(edges, known, from, to, head, maxHops, hops, k + 1, queue + [(v, depth + 1)],
                                    visited + {v}, previous', order', tree', current, depth))
  {
    order', tree' := order + [hops[k].to], tree[hops[k].to := tree[current] + [hops[k]]];
    DiscoverKeeps(edges, from, order, tree, previous, head, maxHops, hops, k);
    DiscoverGrows(edges, from, order, tree, previous, head, maxHops, hops, k);
    DiscoveryReaches(edges, from, order, tree, previous, head, maxHops, hops, k);
    EnqueueKeeps(queue, order, tree, head, current, hops[k]);
    assert hops[k] in hops;
    hide Expanding, Threads, Sources, QueueHolds, Grown, Reached;
  }

  /** The inner loop: expand the node just taken from the queue. */
  method ExpandNode(hops: seq<Hop>, ghost edges: seq<Edge>, ghost known: set<string>, from: string, to: string,
                    current: string, depth: nat, ghost head: nat, maxHops: int,
                    queue: seq<(string, nat)>, visited: set<string>, previous: map<string, Parent>,
                    ghost order: seq<string>, ghost tree: map<string, seq<Hop>>)
    returns (queue': seq<(string, nat)>, visited': set<string>, previous': map<string, Parent>,
             ghost order': seq<string>, ghost tree': map<string, seq<Hop>>)
    requires AtHopOf(edges, known, from, to, head, maxHops, hops, 0, queue, visited, previous, order, tree, current, depth)
    ensures AtNode(edges, known, from, to, head, maxHops, queue', visited', previous', order', tree')
  {
    queue', visited', previous', order', tree' := queue, visited, previous, order, tree;
    hide *;
    for k := 0 to |hops|
      invariant AtHopOf(edges, known, from, to, head, maxHops, hops, k, queue', visited', previous', order', tree',
                        current, depth)
    {
      var hop := hops[k];
      if hop.to in visited' {
        AtHopSkips(edges, known, from, to, head, maxHops, hops, k, queue', visited', previous', order', tree', current, depth);
        continue;
      }
      order', tree' :=
        AtHopDiscovers(edges, known, from, to, head, maxHops, hops, k, queue', visited', previous', order', tree', current, depth);
      visited' := visited' + {hop.to};
      previous' := previous'[hop.to := Parent(current, hop)];
      if hop.to == to {
        queue' := [];
        return;
      }
      queue' := queue' + [(hop.to, depth + 1)];
    }
    ExpansionEnds(edges, known, from, to, head, maxHops, hops, queue', visited', previous', order', tree', current, depth);
  }

  lemma ExpansionEnds(edges: seq<Edge>, known: set<string>, from: string, to: string, head: nat, maxHops: int,
                      hops: seq<Hop>, queue: seq<(string, nat)>, visited: set<string>,
                      previous: map<string, Parent>, order: seq<string>, tree: map<string, seq<Hop>>,
                      current: string, depth: nat)
    requires AtHopOf(edges, known, from, to, head, maxHops, hops, |hops|, queue, visited, previous, order, tree, current, depth)
    ensures AtNode(edges, known, from, to, head, maxHops, queue, visited, previous, order, tree)
  {
    ExpansionDone(edges, from, order, tree, previous, queue, head, maxHops, hops);
  }

  /** Discovered nodes are distinct, so no more of them can be taken from the queue than there are nodes. */
  lemma GrownFits(edges: seq<Edge>, from: string, order: seq<string>, tree: map<string, seq<Hop>>, known: set<string>)
    requires Grown(edges, from, order, tree) && tree.Keys <= known
    ensures |order| <= |known|
  {
    forall i, j | 0 <= i < j < |order| ensures order[i] != order[j] {
      assert Earlier(order, tree, i, j);
      if order[i] == order[j] {
        WalkIsNotBelowItself(tree[order[i]]);
      }
    }
    DistinctFits(order, known);
  }

  lemma WalkIsNotBelowItself(p: seq<Hop>)
    ensures !WalkBelow(p, p)
  {
    if WalkBelow(p, p) {
      var i :| 0 <= i < |p| && TurnsBelow(p, p, i);
      HopOrderIsAsymmetric(p[i], p[i]);
    }
  }

  /** Taking the next node off the queue starts its expansion. */
  lemma ExpansionStarts(edges: seq<Edge>, from: string, order: seq<string>, tree: map<string, seq<Hop>>,
                        previous: map<string, Parent>, queue: seq<(string, nat)>, head: nat, maxHops: int,
                        hops: seq<Hop>)
    requires Searching(edges, from, order, tree, previous, queue, head, maxHops) && queue != []
    requires HopsSorted(hops) && forall h :: h in hops <==> IsHop(edges, queue[0].0, h)
    ensures queue[0] == (order[head], |tree[order[head]]|)
    ensures queue[0].1 < maxHops ==> Expanding(edges, from, order, tree, head + 1, maxHops, hops, 0)
    ensures Sources(previous, order, head + 1, hops, 0)
    ensures QueueHolds(queue[1..], order, tree, head + 1)
    ensures queue[0].1 >= maxHops ==> Searching(edges, from, order, tree, previous, queue[1..], head + 1, maxHops)
  {
    assert queue[0] == (order[head + 0], |tree[order[head + 0]]|);
    assert order[..head + 1] == order[..head] + [order[head]];
    forall i | 0 <= i < |queue[1..]|
      ensures queue[1..][i] == (order[head + 1 + i], |tree[order[head + 1 + i]]|)
    {
      assert queue[i + 1] == (order[head + (i + 1)], |tree[order[head + (i + 1)]]|);
    }
  }

  lemma SearchStarts(edges: seq<Edge>, known: set<string>, from: string, to: string, maxHops: int)
    requires from in known && from != to
    ensures AtNode(edges, known, from, to, 0, maxHops, [(from, 0)], {from}, map[], [from], map[from := []])
  {
    hide HopsAt, WalkBelow;
    var order, tree: map<string, seq<Hop>> := [from], map[from := []];
    assert Threads(from, map[], tree) && QueueHolds([(from, 0)], order, tree, 0);
    assert Grown(edges, from, order, tree);
    assert order[..0] == [];
    assert Searching(edges, from, order, tree, map[], [(from, 0)], 0, maxHops);
  }

  method Search(adjacency: map<string, seq<Hop>>, ghost edges: seq<Edge>, from: string, to: string, maxHops: int)
    returns (previous: map<string, Parent>, ghost tree: map<string, seq<Hop>>)
    requires IsAdjacency(adjacency, edges)
    requires forall e :: e in edges ==> e.source in adjacency && e.target in adjacency
    requires from in adjacency && from != to
    ensures to in previous ==> Reached(edges, from, to, previous, tree, maxHops)
    ensures to !in previous ==> forall w :: IsWalk(edges, from, w, to) ==> |w| > maxHops
  {
    hide HopsAt, HopLeq;
    SearchStarts(edges, adjacency.Keys, from, to, maxHops);
    var queue: seq<(string, nat)> := [(from, 0)];
    previous := map[];
    var visited := {from};
    ghost var order := [from];
    ghost var head := 0;
    tree := map[from := []];
    while queue != []
      invariant AtNode(edges, adjacency.Keys, from, to, head, maxHops, queue, visited, previous, order, tree)
      decreases |adjacency| - head
    {
      var (current, depth) := queue[0];
      assert current in adjacency by {
        assert queue[0] == (order[head + 0], |tree[order[head + 0]]|);
      }
      ExpansionStarts(edges, from, order, tree, previous, queue, head, maxHops, adjacency[current]);
      GrownFits(edges, from, order, tree, adjacency.Keys);
      queue := queue[1..];
      head := head + 1;
      if depth >= maxHops {
        continue;
      }
      queue, visited, previous, order, tree :=
        ExpandNode(adjacency[current], edges, adjacency.Keys, from, to, current, depth, head, maxHops,
                   queue, visited, previous, order, tree);
    }
    if to !in previous {
      forall w | IsWalk(edges, from, w, to) ensures |w| > maxHops {
        if |w| <= maxHops {
          ExhaustedCovers(edges, from, order, tree, maxHops, w, to);
        }
      }
    }
  }
}
