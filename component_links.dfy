/** The pairing step of `connect_components_in_intersections` in
    `snman/graph_tools.py`: within one intersection cluster, the lowest node
    id of each weakly connected component is linked to that of every other
    component by a new straight edge. The components themselves are given. */
module ComponentLinks {
  import opened Common
  import opened StreetGraph

  /** The smallest element of a non-empty set (Python's `min`). */
  ghost function SetMin(s: set<NodeId>): (m: NodeId)
    requires s != {}
    ensures m in s && forall x :: x in s ==> m <= x
    decreases |s|
  {
    var y :| y in s;
    if s == {y} then y
    else
      var m := SetMin(s - {y});
      assert forall x :: x in s ==> x == y || x in s - {y};
      if y < m then y else m
  }

  /** `min(wcc)`, for a component that is never empty. */
  method MinOf(s: set<NodeId>) returns (m: NodeId)
    requires s != {}
    ensures m == SetMin(s)
  {
    m :| m in s;
    var rest := s - {m};
    while rest != {}
      invariant rest <= s && m in s
      invariant forall x :: x in s && x !in rest ==> m <= x
      decreases rest
    {
      var x :| x in rest;
      if x < m {
        m := x;
      }
      rest := rest - {x};
    }
  }

  /** The representatives `nodes`: the minimum of each component, in the
      order the components are listed. */
  ghost function Minima(wccs: seq<set<NodeId>>): (r: seq<NodeId>)
    requires forall i :: 0 <= i < |wccs| ==> wccs[i] != {}
    ensures |r| == |wccs|
    ensures forall i :: 0 <= i < |wccs| ==> r[i] == SetMin(wccs[i])
  {
    if |wccs| == 0 then [] else Minima(wccs[..|wccs| - 1]) + [SetMin(wccs[|wccs| - 1])]
  }

  /** `itertools.combinations(s, 2)`: every pair of positions i < j, in
      lexicographic order of the positions. */
  function Pairs(s: seq<NodeId>): seq<(NodeId, NodeId)>
  {
    if |s| == 0 then [] else PairsWith(s[0], s[1..]) + Pairs(s[1..])
  }

  /** The pairs of x with each element of rest, in order. */
  function PairsWith(x: NodeId, rest: seq<NodeId>): (r: seq<(NodeId, NodeId)>)
    ensures |r| == |rest|
    ensures forall k :: 0 <= k < |rest| ==> r[k] == (x, rest[k])
  {
    if |rest| == 0 then [] else [(x, rest[0])] + PairsWith(x, rest[1..])
  }

  /** k components give k(k-1)/2 pairs. */
  lemma PairsCount(s: seq<NodeId>)
    ensures |Pairs(s)| == |s| * (|s| - 1) / 2
  {
    DoublePairsCount(s);
  }

  lemma {:induction false} DoublePairsCount(s: seq<NodeId>)
    ensures 2 * |Pairs(s)| == |s| * (|s| - 1)
  {
    if |s| > 0 {
      var m := |s| - 1;
      DoublePairsCount(s[1..]);
      assert |Pairs(s)| == m + |Pairs(s[1..])|;
      assert m * (m - 1) + 2 * m == (m + 1) * m;
    }
  }

  /** Every pair is two listed elements, the first listed before the
      second. */
  lemma {:induction false} PairsAreOrderedPositions(s: seq<NodeId>)
    ensures forall t :: 0 <= t < |Pairs(s)| ==>
              exists i, j :: 0 <= i < j < |s| && Pairs(s)[t] == (s[i], s[j])
  {
    if |s| > 0 {
      var tail := s[1..];
      PairsAreOrderedPositions(tail);
      var head := PairsWith(s[0], tail);
      assert Pairs(s) == head + Pairs(tail);
      forall t | 0 <= t < |Pairs(s)|
        ensures exists i, j :: 0 <= i < j < |s| && Pairs(s)[t] == (s[i], s[j])
      {
        if t < |head| {
          assert 0 < t + 1 < |s| && Pairs(s)[t] == (s[0], s[t + 1]);
        } else {
          var i, j :| 0 <= i < j < |tail| && Pairs(tail)[t - |head|] == (tail[i], tail[j]);
          assert 0 <= i + 1 < j + 1 < |s| && Pairs(s)[t] == (s[i + 1], s[j + 1]);
        }
      }
      assert forall t :: 0 <= t < |Pairs(s)| ==>
              exists i, j :: 0 <= i < j < |s| && Pairs(s)[t] == (s[i], s[j]);
    } else {
      assert Pairs(s) == [];
    }
  }

  /** Every two positions i < j give a pair. */
  lemma {:induction false} PairsCoverPositions(s: seq<NodeId>)
    ensures forall i, j :: 0 <= i < j < |s| ==> (s[i], s[j]) in Pairs(s)
  {
    if |s| > 0 {
      var tail := s[1..];
      PairsCoverPositions(tail);
      var head := PairsWith(s[0], tail);
      forall i, j | 0 <= i < j < |s|
        ensures (s[i], s[j]) in Pairs(s)
      {
        if i == 0 {
          assert head[j - 1] == (s[i], s[j]);
        } else {
          assert (tail[i - 1], tail[j - 1]) in Pairs(tail);
        }
      }
    }
  }

  /** The geometry of a link: a straight line between the two nodes'
      coordinates, or the `''` placeholder (no points) when a node is
      missing or without attributes. */
  function LinkGeometry(nodes: map<NodeId, NodeData>, u: NodeId, v: NodeId): Geometry {
    if u in nodes && v in nodes && nodes[u].point.Some? && nodes[v].point.Some?
    then [nodes[u].point.value, nodes[v].point.value]
    else []
  }

  function Lo(p: (NodeId, NodeId)): NodeId {
    if p.0 <= p.1 then p.0 else p.1
  }

  function Hi(p: (NodeId, NodeId)): NodeId {
    if p.0 <= p.1 then p.1 else p.0
  }

  /** The edges after the links for pairs have been added one by one, and
      the ids the links received. */
  datatype Links = Links(edges: map<EdgeId, EdgeData>, added: seq<EdgeId>)

  /** Adding the link for one pair to what is there already. */
  function LinkStep(prev: Links, directed: bool, nodes: map<NodeId, NodeData>, p: (NodeId, NodeId)): Links {
    var id := EdgeId(Lo(p), Hi(p), FreshKey(prev.edges, directed, Lo(p), Hi(p)));
    Links(prev.edges[id := GeometryOnly(LinkGeometry(nodes, Lo(p), Hi(p)))], prev.added + [id])
  }

  function Linked(orig: map<EdgeId, EdgeData>, directed: bool, nodes: map<NodeId, NodeData>,
                  pairs: seq<(NodeId, NodeId)>): Links
  {
    if |pairs| == 0 then Links(orig, [])
    else LinkStep(Linked(orig, directed, nodes, pairs[..|pairs| - 1]), directed, nodes, pairs[|pairs| - 1])
  }

  /** One link: a new id from the smaller to the larger node, with only the
      link's geometry, and every other edge as it was. */
  lemma LinkStepEffect(prev: Links, directed: bool, nodes: map<NodeId, NodeData>, p: (NodeId, NodeId))
    ensures var r, id := LinkStep(prev, directed, nodes, p), LinkStep(prev, directed, nodes, p).added[|prev.added|];
      && |r.added| == |prev.added| + 1
      && r.added[..|prev.added|] == prev.added
      && id.u == Lo(p) && id.v == Hi(p) && id !in prev.edges
      && r.edges == prev.edges[id := GeometryOnly(LinkGeometry(nodes, Lo(p), Hi(p)))]
      && |r.edges| == |prev.edges| + 1
  {
    FreshKeyUnused(prev.edges, directed, Lo(p), Hi(p));
  }

  /** The edges after linking are the original ones and the added ones,
      one added id per pair. */
  lemma {:induction false} LinkedKeys(orig: map<EdgeId, EdgeData>, directed: bool, nodes: map<NodeId, NodeData>,
                                      pairs: seq<(NodeId, NodeId)>)
    ensures var r := Linked(orig, directed, nodes, pairs);
      && |r.added| == |pairs|
      && (forall id :: id in r.edges <==> id in orig || id in r.added)
  {
    if |pairs| > 0 {
      var init := pairs[..|pairs| - 1];
      LinkedKeys(orig, directed, nodes, init);
      var prev := Linked(orig, directed, nodes, init);
      LinkStepEffect(prev, directed, nodes, pairs[|pairs| - 1]);
      var r := Linked(orig, directed, nodes, pairs);
      assert r.added == prev.added + [r.added[|prev.added|]];
    }
  }

  /** Each pair adds an edge from the smaller to the larger node id under an
      id the original graph does not use. */
  lemma {:induction false} LinkedFresh(orig: map<EdgeId, EdgeData>, directed: bool, nodes: map<NodeId, NodeData>,
                                       pairs: seq<(NodeId, NodeId)>)
    ensures var r := Linked(orig, directed, nodes, pairs);
      && |r.added| == |pairs|
      && (forall t :: 0 <= t < |pairs| ==>
            r.added[t].u == Lo(pairs[t]) && r.added[t].v == Hi(pairs[t]) && r.added[t] !in orig)
  {
    if |pairs| > 0 {
      var init := pairs[..|pairs| - 1];
      LinkedFresh(orig, directed, nodes, init);
      LinkedKeys(orig, directed, nodes, init);
      var prev := Linked(orig, directed, nodes, init);
      var p := pairs[|pairs| - 1];
      assert pairs == init + [p];
      FreshStep(orig, prev, directed, nodes, init, p);
    }
  }

  /** The inductive step of LinkedFresh, on one LinkStep. */
  lemma FreshStep(orig: map<EdgeId, EdgeData>, prev: Links, directed: bool, nodes: map<NodeId, NodeData>,
                  init: seq<(NodeId, NodeId)>, p: (NodeId, NodeId))
    requires |prev.added| == |init|
    requires forall t :: 0 <= t < |init| ==>
               prev.added[t].u == Lo(init[t]) && prev.added[t].v == Hi(init[t]) && prev.added[t] !in orig
    requires forall id :: id in orig ==> id in prev.edges
    ensures var r, pairs := LinkStep(prev, directed, nodes, p), init + [p];
      && |r.added| == |pairs|
      && (forall t :: 0 <= t < |pairs| ==>
            r.added[t].u == Lo(pairs[t]) && r.added[t].v == Hi(pairs[t]) && r.added[t] !in orig)
  {
    LinkStepEffect(prev, directed, nodes, p);
    var r := LinkStep(prev, directed, nodes, p);
    forall t | 0 <= t < |init|
      ensures r.added[t] == prev.added[t]
    {
      assert r.added[t] == r.added[..|init|][t];
    }
  }

  /** No two pairs get the same id. */
  lemma {:induction false} LinkedDistinct(orig: map<EdgeId, EdgeData>, directed: bool, nodes: map<NodeId, NodeData>,
                                          pairs: seq<(NodeId, NodeId)>)
    ensures var r := Linked(orig, directed, nodes, pairs);
      forall s, t :: 0 <= s < t < |r.added| ==> r.added[s] != r.added[t]
  {
    if |pairs| > 0 {
      var init := pairs[..|pairs| - 1];
      LinkedDistinct(orig, directed, nodes, init);
      LinkedKeys(orig, directed, nodes, init);
      var prev := Linked(orig, directed, nodes, init);
      var p := pairs[|pairs| - 1];
      LinkStepEffect(prev, directed, nodes, p);
      var r := Linked(orig, directed, nodes, pairs);
      assert r == LinkStep(prev, directed, nodes, p);
      assert r.added == prev.added + [r.added[|prev.added|]];
      assert r.added[|prev.added|] !in prev.added;
    }
  }

  /** The edge count grows by one per pair. */
  lemma {:induction false} LinkedCount(orig: map<EdgeId, EdgeData>, directed: bool, nodes: map<NodeId, NodeData>,
                                       pairs: seq<(NodeId, NodeId)>)
    ensures |Linked(orig, directed, nodes, pairs).edges| == |orig| + |pairs|
  {
    if |pairs| > 0 {
      var init := pairs[..|pairs| - 1];
      LinkedCount(orig, directed, nodes, init);
      LinkStepEffect(Linked(orig, directed, nodes, init), directed, nodes, pairs[|pairs| - 1]);
    }
  }

  /** Linking leaves the original edges' attributes alone and gives each
      link only its geometry. */
  lemma {:induction false} LinkedValues(orig: map<EdgeId, EdgeData>, directed: bool, nodes: map<NodeId, NodeData>,
                                        pairs: seq<(NodeId, NodeId)>)
    ensures var r := Linked(orig, directed, nodes, pairs);
      && (forall id :: id in orig ==> id in r.edges && r.edges[id] == orig[id])
      && (forall t :: 0 <= t < |r.added| && t < |pairs| ==>
            r.added[t] in r.edges && r.edges[r.added[t]] == GeometryOnly(LinkGeometry(nodes, Lo(pairs[t]), Hi(pairs[t]))))
  {
    if |pairs| > 0 {
      var init := pairs[..|pairs| - 1];
      LinkedValues(orig, directed, nodes, init);
      LinkedKeys(orig, directed, nodes, init);
      LinkedFresh(orig, directed, nodes, init);
      LinkedDistinct(orig, directed, nodes, pairs);
      var prev := Linked(orig, directed, nodes, init);
      var p := pairs[|pairs| - 1];
      assert pairs == init + [p];
      ValuesStep(orig, prev, directed, nodes, init, p);
    }
  }

  /** The inductive step of LinkedValues, on one LinkStep. */
  lemma ValuesStep(orig: map<EdgeId, EdgeData>, prev: Links, directed: bool, nodes: map<NodeId, NodeData>,
                   init: seq<(NodeId, NodeId)>, p: (NodeId, NodeId))
    requires |prev.added| == |init|
    requires forall id :: id in orig ==> id in prev.edges && prev.edges[id] == orig[id]
    requires forall t :: 0 <= t < |init| ==>
               prev.added[t] in prev.edges && prev.edges[prev.added[t]] == GeometryOnly(LinkGeometry(nodes, Lo(init[t]), Hi(init[t])))
    ensures var r, pairs := LinkStep(prev, directed, nodes, p), init + [p];
      && (forall id :: id in orig ==> id in r.edges && r.edges[id] == orig[id])
      && (forall t :: 0 <= t < |r.added| && t < |pairs| ==>
            r.added[t] in r.edges && r.edges[r.added[t]] == GeometryOnly(LinkGeometry(nodes, Lo(pairs[t]), Hi(pairs[t]))))
  {
    LinkStepEffect(prev, directed, nodes, p);
    var r := LinkStep(prev, directed, nodes, p);
    var id := r.added[|init|];
    forall t | 0 <= t < |init|
      ensures r.added[t] == prev.added[t] && r.added[t] != id
    {
      assert r.added[t] == r.added[..|init|][t];
    }
  }

  /** The links of a cluster with k components number k(k-1)/2, one per pair
      of representatives. */
  lemma ClusterLinkCount(orig: map<EdgeId, EdgeData>, directed: bool, nodes: map<NodeId, NodeData>, reps: seq<NodeId>)
    ensures |Linked(orig, directed, nodes, Pairs(reps)).edges| == |orig| + |reps| * (|reps| - 1) / 2
  {
    LinkedCount(orig, directed, nodes, Pairs(reps));
    PairsCount(reps);
  }

  /** The loop over `itertools.combinations(nodes, 2)`: each pair is linked
      by `add_edge(min, max, geometry=...)`. */
  method LinkPairs(g: Graph, pairs: seq<(NodeId, NodeId)>)
    requires g.Valid()
    requires forall t :: 0 <= t < |pairs| ==> pairs[t].0 in g.nodes && pairs[t].1 in g.nodes
    modifies g
    ensures g.Valid() && g.nodes == old(g.nodes)
    ensures g.edges == Linked(old(g.edges), g.directed, g.nodes, pairs).edges
  {
    ghost var orig, nodes0 := g.edges, g.nodes;
    for t := 0 to |pairs|
      invariant g.Valid() && g.nodes == nodes0
      invariant g.edges == Linked(orig, g.directed, nodes0, pairs[..t]).edges
    {
      var (a, b) := pairs[t];
      var u := if a <= b then a else b;
      var v := if a <= b then b else a;
      var geom: Geometry := [];
      if u in g.nodes && v in g.nodes && g.nodes[u].point.Some? && g.nodes[v].point.Some? {
        geom := [g.nodes[u].point.value, g.nodes[v].point.value];
      }
      assert pairs[..t + 1][..t] == pairs[..t];
      assert u == Lo(pairs[t]) && v == Hi(pairs[t]) && geom == LinkGeometry(nodes0, u, v);
      ghost var prev := Linked(orig, g.directed, nodes0, pairs[..t]);
      assert Linked(orig, g.directed, nodes0, pairs[..t + 1]) == LinkStep(prev, g.directed, nodes0, pairs[t]);
      var k := g.AddEdge(u, v, GeometryOnly(geom));
      assert k == FreshKey(prev.edges, g.directed, u, v);
      assert WithNode(WithNode(nodes0, u), v) == nodes0;
    }
    assert pairs[..|pairs|] == pairs;
  }

  /** The list `nodes` of `connect_components_in_intersections`: the
      minimum of each component, in order. */
  method Representatives(wccs: seq<set<NodeId>>) returns (nodes: seq<NodeId>)
    requires forall i :: 0 <= i < |wccs| ==> wccs[i] != {}
    ensures nodes == Minima(wccs)
  {
    nodes := [];
    for i := 0 to |wccs|
      invariant nodes == Minima(wccs[..i])
    {
      var firstNode := MinOf(wccs[i]);
      assert wccs[..i + 1][..i] == wccs[..i];
      nodes := nodes + [firstNode];
    }
    assert wccs[..|wccs|] == wccs;
  }

  /** One cluster of `connect_components_in_intersections`: with more than
      one node and more than one component, the minimum of each component is
      linked to the minimum of every other; otherwise nothing changes. */
  method ConnectComponentsInCluster(g: Graph, clusterSize: nat, wccs: seq<set<NodeId>>)
    requires g.Valid()
    requires forall i :: 0 <= i < |wccs| ==> wccs[i] != {} && wccs[i] <= g.nodes.Keys
    modifies g
    ensures g.Valid() && g.nodes == old(g.nodes)
    ensures clusterSize <= 1 || |wccs| <= 1 ==> g.edges == old(g.edges)
    ensures clusterSize > 1 && |wccs| > 1 ==>
              g.edges == Linked(old(g.edges), g.directed, g.nodes, Pairs(Minima(wccs))).edges
  {
    if clusterSize > 1 && |wccs| > 1 {
      var nodes := Representatives(wccs);
      assert forall i :: 0 <= i < |nodes| ==> nodes[i] in wccs[i];
      PairsAreOrderedPositions(nodes);
      forall t | 0 <= t < |Pairs(nodes)|
        ensures Pairs(nodes)[t].0 in g.nodes && Pairs(nodes)[t].1 in g.nodes
      {
        var i, j :| 0 <= i < j < |nodes| && Pairs(nodes)[t] == (nodes[i], nodes[j]);
        assert nodes[i] in wccs[i] && nodes[j] in wccs[j];
      }
      LinkPairs(g, Pairs(nodes));
    }
  }
}
