/** `add_hierarchies` of `snman/street_graph_node.py`: a node records the set
    of `hierarchy` values of the edges that touch it. */
module StreetGraphNode {
  import opened Common
  import opened StreetGraph

  /** The edges into or out of n (`in_edges` and `out_edges` with keys). */
  function IncidentEdges(edges: map<EdgeId, EdgeData>, n: NodeId): set<EdgeId> {
    set id | id in edges && (id.u == n || id.v == n)
  }

  /** The `hierarchy` values of the given edges, `None` for an edge without
      one (`.get('hierarchy')`). */
  function HierarchiesOf(edges: map<EdgeId, EdgeData>, ids: set<EdgeId>): set<Option<string>>
    requires ids <= edges.Keys
  {
    set id | id in ids :: edges[id].hierarchy
  }

  /** The set `add_hierarchies` stores at n. */
  function HierarchiesAt(edges: map<EdgeId, EdgeData>, n: NodeId): set<Option<string>> {
    HierarchiesOf(edges, IncidentEdges(edges, n))
  }

  /** A value is recorded exactly when some edge at n carries it. */
  lemma HierarchyMember(edges: map<EdgeId, EdgeData>, n: NodeId, h: Option<string>)
    ensures h in HierarchiesAt(edges, n) <==>
              exists id :: id in edges && (id.u == n || id.v == n) && edges[id].hierarchy == h
  {
    if h in HierarchiesAt(edges, n) {
      var id :| id in IncidentEdges(edges, n) && edges[id].hierarchy == h;
    }
    if exists id :: id in edges && (id.u == n || id.v == n) && edges[id].hierarchy == h {
      var id :| id in edges && (id.u == n || id.v == n) && edges[id].hierarchy == h;
      assert id in IncidentEdges(edges, n);
    }
  }

  /** The set is empty exactly when no edge touches n. */
  lemma HierarchiesEmpty(edges: map<EdgeId, EdgeData>, n: NodeId)
    ensures HierarchiesAt(edges, n) == {} <==> IncidentEdges(edges, n) == {}
  {
    if IncidentEdges(edges, n) != {} {
      var id :| id in IncidentEdges(edges, n);
      assert edges[id].hierarchy in HierarchiesAt(edges, n);
    }
  }

  /** There are no more distinct values than edges at n. */
  lemma HierarchyCount(edges: map<EdgeId, EdgeData>, n: NodeId)
    ensures |HierarchiesAt(edges, n)| <= |IncidentEdges(edges, n)|
  {
    FewerValuesThanEdges(edges, IncidentEdges(edges, n));
  }

  lemma {:induction false} FewerValuesThanEdges(edges: map<EdgeId, EdgeData>, ids: set<EdgeId>)
    requires ids <= edges.Keys
    ensures |HierarchiesOf(edges, ids)| <= |ids|
    decreases |ids|
  {
    if ids != {} {
      var id :| id in ids;
      var rest := ids - {id};
      FewerValuesThanEdges(edges, rest);
      var h := edges[id].hierarchy;
      assert HierarchiesOf(edges, ids) == HierarchiesOf(edges, rest) + {h};
      if h in HierarchiesOf(edges, rest) {
        assert HierarchiesOf(edges, ids) == HierarchiesOf(edges, rest);
      }
    }
  }

  /** `add_hierarchies(G, n)` on a directed graph (the only kind with
      `in_edges`): the node's `hierarchies` becomes the set of values at n;
      nothing else changes. */
  method AddHierarchies(g: Graph, n: NodeId)
    requires g.directed && n in g.nodes
    modifies g
    ensures g.nodes == old(g.nodes)[n := old(g.nodes)[n].(hierarchies := Some(HierarchiesAt(g.edges, n)))]
    ensures g.edges == old(g.edges)
  {
    var hierarchies := HierarchiesAt(g.edges, n);
    g.nodes := g.nodes[n := g.nodes[n].(hierarchies := Some(hierarchies))];
  }
}
