/** The street graph: a networkx multigraph whose edges are identified by
    (u, v, key) and carry a dictionary of attributes. Only the attributes the
    modelled operations read or write are kept. */
module StreetGraph {
  import opened Common
  import opened Lanes

  type NodeId = nat

  /** The (u, v, key) triple that identifies an edge. */
  datatype EdgeId = EdgeId(u: NodeId, v: NodeId, key: nat)

  /** The attributes of an edge: `ln_desc`, the reversed flag, `geometry`,
      `dead_end` and `hierarchy`; `None` is an absent key. */
  datatype EdgeData = EdgeData(
    lanes: Option<seq<Lane>>,
    reversed: Option<bool>,
    geometry: Option<Geometry>,
    deadEnd: bool,
    hierarchy: Option<string>)

  /** An attribute dictionary with only `geometry` set. */
  function GeometryOnly(g: Geometry): EdgeData {
    EdgeData(None, None, Some(g), false, None)
  }

  /** An edge as networkx lists it: `(u, v, key, data)`. */
  datatype Edge = Edge(u: NodeId, v: NodeId, key: nat, data: EdgeData) {
    function Id(): EdgeId {
      EdgeId(u, v, key)
    }
  }

  /** The attributes of a node: its coordinates `x`/`y`, `_split_node` and
      `hierarchies`. */
  datatype NodeData = NodeData(point: Option<Point>, splitNode: bool, hierarchies: Option<set<Option<string>>>)

  /** A node networkx creates implicitly, without attributes. */
  const NoNodeData := NodeData(None, false, None)

  /** The same edge seen from its other end. */
  function Mirror(id: EdgeId): EdgeId {
    EdgeId(id.v, id.u, id.key)
  }

  /** Whether the stored edge id joins u to v; an undirected graph ignores
      the orientation. */
  predicate Joins(id: EdgeId, directed: bool, u: NodeId, v: NodeId) {
    (id.u == u && id.v == v) || (!directed && id.u == v && id.v == u)
  }

  /** The keys already used between u and v (`G._adj[u][v]`). */
  function KeysBetween(edges: map<EdgeId, EdgeData>, directed: bool, u: NodeId, v: NodeId): set<nat> {
    set id | id in edges && Joins(id, directed, u, v) :: id.key
  }

  /** Where the edge (u, v, key) is stored in edges, if it exists. */
  function SlotIn(edges: map<EdgeId, EdgeData>, directed: bool, u: NodeId, v: NodeId, key: nat): (r: Option<EdgeId>)
    ensures r.Some? ==> r.value in edges && r.value.key == key && Joins(r.value, directed, u, v)
    ensures r.None? ==> forall id :: id in edges && id.key == key ==> !Joins(id, directed, u, v)
  {
    if EdgeId(u, v, key) in edges then Some(EdgeId(u, v, key))
    else if !directed && EdgeId(v, u, key) in edges then Some(EdgeId(v, u, key))
    else None
  }

  /** The first key from k on that is not in keys. */
  function NextFreeKey(keys: set<nat>, k: nat): (r: nat)
    ensures r !in keys && r >= k
    ensures forall j :: k <= j < r ==> j in keys
    decreases |set j | j in keys && j >= k|
  {
    if k !in keys then k
    else
      var above, next := set j | j in keys && j >= k, set j | j in keys && j >= k + 1;
      assert above == next + {k} && k !in next;
      NextFreeKey(keys, k + 1)
  }

  /** The key networkx gives a new edge between u and v: the number of keys
      in use between them, counted up until it is free. */
  function FreshKey(edges: map<EdgeId, EdgeData>, directed: bool, u: NodeId, v: NodeId): nat {
    var keys := KeysBetween(edges, directed, u, v);
    NextFreeKey(keys, |keys|)
  }

  /** A fresh key gives an id that is not in use, under either orientation
      in an undirected graph. */
  lemma FreshKeyUnused(edges: map<EdgeId, EdgeData>, directed: bool, u: NodeId, v: NodeId)
    ensures EdgeId(u, v, FreshKey(edges, directed, u, v)) !in edges
    ensures !directed ==> EdgeId(v, u, FreshKey(edges, directed, u, v)) !in edges
  {
    var k := FreshKey(edges, directed, u, v);
    if EdgeId(u, v, k) in edges {
      assert Joins(EdgeId(u, v, k), directed, u, v);
    }
    if !directed && EdgeId(v, u, k) in edges {
      assert Joins(EdgeId(v, u, k), directed, u, v);
    }
  }

  /** The node map with n present, created without attributes if needed. */
  function WithNode(nodes: map<NodeId, NodeData>, n: NodeId): (r: map<NodeId, NodeData>)
    ensures r.Keys == nodes.Keys + {n}
    ensures forall m :: m in nodes ==> r[m] == nodes[m]
    ensures n !in nodes ==> r[n] == NoNodeData
  {
    if n in nodes then nodes else nodes[n := NoNodeData]
  }

  /** Where the edge listed as e is stored: under e's own orientation, or,
      for an undirected edge listed from its other end, under the mirror. */
  function StoredId(edges: map<EdgeId, EdgeData>, e: Edge): EdgeId {
    if e.Id() in edges then e.Id() else Mirror(e.Id())
  }

  /** A listing of the edges of a graph, as `G.edges(keys=True, data=True)`
      gives it: each edge exactly once, with its attributes; a directed edge
      from u to v, an undirected edge from either of its ends. */
  ghost predicate ListsEdges(list: seq<Edge>, edges: map<EdgeId, EdgeData>, directed: bool) {
    && (forall i :: 0 <= i < |list| ==>
          && (list[i].Id() in edges || (!directed && Mirror(list[i].Id()) in edges))
          && list[i].data == edges[StoredId(edges, list[i])])
    && (forall id :: id in edges ==> exists i :: 0 <= i < |list| && StoredId(edges, list[i]) == id)
    && (forall i, j :: 0 <= i < j < |list| ==> StoredId(edges, list[i]) != StoredId(edges, list[j]))
  }

  /** A networkx `MultiDiGraph` (directed) or `MultiGraph` (undirected). An
      undirected edge is kept once here, under the orientation it was added
      with; networkx reports it from whichever end comes first in its node
      order, which the model does not track. */
  class Graph {
    const directed: bool
    var nodes: map<NodeId, NodeData>
    var edges: map<EdgeId, EdgeData>

    /** Every edge joins nodes of the graph, and an undirected edge is not
        stored under both orientations. */
    ghost predicate Valid()
      reads this
    {
      && (forall id :: id in edges ==> id.u in nodes && id.v in nodes)
      && (!directed ==> forall id :: id in edges && Mirror(id) in edges ==> id.u == id.v)
    }

    constructor (directed: bool, nodes: map<NodeId, NodeData>)
      ensures this.directed == directed && this.nodes == nodes && edges == map[]
      ensures Valid()
    {
      this.directed := directed;
      this.nodes := nodes;
      edges := map[];
    }

    /** Where the edge (u, v, key) is stored, if it exists (`has_edge`). */
    function Slot(u: NodeId, v: NodeId, key: nat): Option<EdgeId>
      reads this
    {
      SlotIn(edges, directed, u, v, key)
    }

    predicate HasEdge(u: NodeId, v: NodeId, key: nat)
      reads this
    {
      Slot(u, v, key).Some?
    }

    /** networkx `new_edge_key`: the number of keys in use between u and v,
        counted up until it is free. */
    method NewEdgeKey(u: NodeId, v: NodeId) returns (k: nat)
      ensures k == FreshKey(edges, directed, u, v)
    {
      var keys := KeysBetween(edges, directed, u, v);
      k := |keys|;
      while k in keys
        invariant NextFreeKey(keys, k) == NextFreeKey(keys, |keys|)
        decreases |set j | j in keys && j >= k|
      {
        ghost var above, next := set j | j in keys && j >= k, set j | j in keys && j >= k + 1;
        assert above == next + {k} && k !in next;
        k := k + 1;
      }
    }

    /** `add_edge(u, v, **data)`: a new key, missing endpoints created. */
    method AddEdge(u: NodeId, v: NodeId, data: EdgeData) returns (k: nat)
      requires Valid()
      modifies this
      ensures Valid()
      ensures k == FreshKey(old(edges), directed, u, v)
      ensures EdgeId(u, v, k) !in old(edges)
      ensures edges == old(edges)[EdgeId(u, v, k) := data]
      ensures nodes == WithNode(WithNode(old(nodes), u), v)
    {
      k := NewEdgeKey(u, v);
      FreshKeyUnused(edges, directed, u, v);
      nodes := WithNode(WithNode(nodes, u), v);
      edges := edges[EdgeId(u, v, k) := data];
    }

    /** `remove_edge(u, v, key)` of an edge that exists. */
    method RemoveEdge(u: NodeId, v: NodeId, key: nat)
      requires Valid() && HasEdge(u, v, key)
      modifies this
      ensures Valid()
      ensures edges == old(edges) - {old(Slot(u, v, key)).value}
      ensures nodes == old(nodes)
    {
      edges := edges - {Slot(u, v, key).value};
    }

    /** `set_edge_attributes` on one existing edge, with a full dictionary. */
    method SetEdgeData(u: NodeId, v: NodeId, key: nat, data: EdgeData)
      requires Valid() && HasEdge(u, v, key)
      modifies this
      ensures Valid()
      ensures edges == old(edges)[old(Slot(u, v, key)).value := data]
      ensures nodes == old(nodes)
    {
      edges := edges[Slot(u, v, key).value := data];
    }

    /** `add_node(n, x=.., y=.., _split_node=True)`: the given attributes are
        set, any other attribute of an existing node is kept. */
    method AddSplitNode(n: NodeId, p: Point)
      requires Valid()
      modifies this
      ensures Valid()
      ensures nodes == old(nodes)[n := WithNode(old(nodes), n)[n].(point := Some(p), splitNode := true)]
      ensures edges == old(edges)
    {
      nodes := nodes[n := WithNode(nodes, n)[n].(point := Some(p), splitNode := true)];
    }

    /** `list(G.edges(data=True, keys=True))`: every edge once, in some
        order; an undirected edge from either end, the one networkx's node
        order puts first. */
    method EdgeList() returns (r: seq<Edge>)
      requires Valid()
      ensures ListsEdges(r, edges, directed)
    {
      var rest := edges.Keys;
      r := [];
      while rest != {}
        invariant rest <= edges.Keys
        invariant forall i :: 0 <= i < |r| ==>
                    && (r[i].Id() in edges || (!directed && Mirror(r[i].Id()) in edges))
                    && StoredId(edges, r[i]) !in rest && r[i].data == edges[StoredId(edges, r[i])]
        invariant forall id :: id in edges && id !in rest ==> exists i :: 0 <= i < |r| && StoredId(edges, r[i]) == id
        invariant forall i, j :: 0 <= i < j < |r| ==> StoredId(edges, r[i]) != StoredId(edges, r[j])
        decreases rest
      {
        var id :| id in rest;
        var fromV: bool :| !directed || !fromV;
        var e := if fromV then Edge(id.v, id.u, id.key, edges[id]) else Edge(id.u, id.v, id.key, edges[id]);
        assert StoredId(edges, e) == id;
        ghost var before := r;
        r := r + [e];
        assert forall i :: 0 <= i < |before| ==> r[i] == before[i];
        assert StoredId(edges, r[|r| - 1]) == id;
        rest := rest - {id};
      }
    }
  }
}
