/** The edge transforms of `snman/graph_tools.py` that edit the street graph
    in place: reversing an edge, normalising edge directions and splitting an
    edge at a new node. */
module GraphTools {
  import opened Common
  import opened Lanes
  import opened StreetGraph

  /** The attributes of an edge read in the opposite direction: a non-empty
      lane list is reversed (`_reverse_lanes`), a non-empty geometry is
      reversed, and the reversed flag is toggled, an absent flag counting as
      false. */
  function FlipData(d: EdgeData): EdgeData {
    d.(lanes := if d.lanes.Some? && |d.lanes.value| > 0 then Some(ReverseLanes(d.lanes.value)) else d.lanes,
       geometry := if d.geometry.Some? && |d.geometry.value| > 0 then Some(Reverse(d.geometry.value)) else d.geometry,
       reversed := Some(!d.reversed.GetOr(false)))
  }

  /** Flipping reverses the lane list and the geometry, toggles the flag and
      keeps every other attribute. */
  lemma FlipDataEffect(d: EdgeData)
    ensures FlipData(d).reversed == Some(!d.reversed.GetOr(false))
    ensures FlipData(d).lanes.Some? <==> d.lanes.Some?
    ensures d.lanes.Some? ==> |FlipData(d).lanes.value| == |d.lanes.value|
    ensures d.lanes.Some? ==> forall i :: 0 <= i < |d.lanes.value| ==>
              FlipData(d).lanes.value[i] == Flip(d.lanes.value[|d.lanes.value| - 1 - i])
    ensures FlipData(d).geometry.Some? <==> d.geometry.Some?
    ensures d.geometry.Some? ==> |FlipData(d).geometry.value| == |d.geometry.value|
    ensures d.geometry.Some? ==> forall i :: 0 <= i < |d.geometry.value| ==>
              FlipData(d).geometry.value[i] == d.geometry.value[|d.geometry.value| - 1 - i]
    ensures FlipData(d).deadEnd == d.deadEnd && FlipData(d).hierarchy == d.hierarchy
  {
  }

  /** Reversing twice restores the lane list and the geometry; the flag ends
      up as it was, with an absent flag now present as false. */
  lemma FlipDataTwice(d: EdgeData)
    ensures FlipData(FlipData(d)) == d.(reversed := Some(d.reversed.GetOr(false)))
  {
    var once := FlipData(d);
    var twice := FlipData(once);
    if d.lanes.Some? && |d.lanes.value| > 0 {
      ReverseLanesTwice(d.lanes.value);
      assert |once.lanes.value| > 0;
    }
    assert twice.lanes == d.lanes;
    if d.geometry.Some? && |d.geometry.value| > 0 {
      ReverseTwice(d.geometry.value);
      assert |once.geometry.value| > 0;
    }
    assert twice.geometry == d.geometry;
    assert twice.reversed == Some(d.reversed.GetOr(false));
  }

  /** `_reverse_edge(street_graph, edge, reverse_topology)`: an edge that
      does not exist is returned as it is. With `reverse_topology` on a
      directed graph the edge is removed and added back from v to u under a
      new key, with the flipped attributes. Otherwise (in particular on an
      undirected graph) only the attributes are flipped, and the edge is
      returned with them. */
  method ReverseEdge(g: Graph, e: Edge, reverseTopology: bool) returns (r: Edge)
    requires g.Valid()
    modifies g
    ensures g.Valid()
    ensures g.nodes == old(g.nodes)
    ensures !old(g.HasEdge(e.u, e.v, e.key)) ==> r == e && g.edges == old(g.edges)
    ensures old(g.HasEdge(e.u, e.v, e.key)) && reverseTopology && g.directed ==>
              && r.u == e.v && r.v == e.u && r.data == FlipData(e.data)
              && r.Id() !in old(g.edges) - {e.Id()}
              && g.edges == (old(g.edges) - {e.Id()})[r.Id() := r.data]
              && |g.edges| == |old(g.edges)|
    ensures old(g.HasEdge(e.u, e.v, e.key)) && !(reverseTopology && g.directed) ==>
              && r == e.(data := FlipData(e.data))
              && g.edges == old(g.edges)[old(g.Slot(e.u, e.v, e.key)).value := r.data]
              && |g.edges| == |old(g.edges)|
  {
    if !g.HasEdge(e.u, e.v, e.key) {
      return e;
    }
    var flipped := FlipData(e.data);
    if reverseTopology && g.directed {
      g.RemoveEdge(e.u, e.v, e.key);
      var k := g.AddEdge(e.v, e.u, flipped);
      r := Edge(e.v, e.u, k, flipped);
    } else {
      g.SetEdgeData(e.u, e.v, e.key, flipped);
      r := e.(data := flipped);
    }
  }

  /** Progress of `normalize_edge_directions` once the edges in removed have
      been reversed: stated for each kind of graph below. */
  ghost predicate Progress(directed: bool, orig: map<EdgeId, EdgeData>, cur: map<EdgeId, EdgeData>,
                           removed: set<EdgeId>, created: set<EdgeId>, partner: map<EdgeId, EdgeId>)
  {
    if directed then DirectedProgress(orig, cur, removed, created, partner)
    else UndirectedProgress(orig, cur, removed)
  }

  lemma ProgressStart(directed: bool, orig: map<EdgeId, EdgeData>)
    ensures Progress(directed, orig, orig, {}, {}, map[])
  {
  }

  /** On an undirected graph the reversed edges keep their ids and only
      their attributes are flipped. */
  ghost predicate UndirectedProgress(orig: map<EdgeId, EdgeData>, cur: map<EdgeId, EdgeData>, removed: set<EdgeId>)
  {
    && cur.Keys == orig.Keys
    && forall id :: id in orig ==> cur[id] == if id in removed then FlipData(orig[id]) else orig[id]
  }

  lemma UndirectedStep(orig: map<EdgeId, EdgeData>, cur: map<EdgeId, EdgeData>, removed: set<EdgeId>,
                       id: EdgeId, d: EdgeData)
    requires UndirectedProgress(orig, cur, removed)
    requires id in orig && id !in removed && d == orig[id]
    ensures UndirectedProgress(orig, cur[id := FlipData(d)], removed + {id})
  {
  }

  /** Progress of `normalize_edge_directions` on a directed graph: each edge
      removed so far has its own flipped replacement, `partner[id]`, under a
      new id running from the smaller to the larger node id, and every other
      original edge is as it was. */
  ghost predicate DirectedProgress(orig: map<EdgeId, EdgeData>, cur: map<EdgeId, EdgeData>,
                                   removed: set<EdgeId>, created: set<EdgeId>, partner: map<EdgeId, EdgeId>)
  {
    && KeysProgress(orig, cur, removed, created)
    && KeptProgress(orig, cur, removed)
    && PartnerProgress(orig, cur, removed, created, partner)
  }

  /** The edge ids: the originals not removed, and the created ones. */
  ghost predicate KeysProgress(orig: map<EdgeId, EdgeData>, cur: map<EdgeId, EdgeData>,
                               removed: set<EdgeId>, created: set<EdgeId>)
  {
    && cur.Keys == (orig.Keys - removed) + created
    && removed <= orig.Keys
    && (forall id :: id in created ==> id.u < id.v && id !in orig)
  }

  ghost predicate KeptProgress(orig: map<EdgeId, EdgeData>, cur: map<EdgeId, EdgeData>, removed: set<EdgeId>)
  {
    forall id :: id in orig && id !in removed ==> id in cur && cur[id] == orig[id]
  }

  /** partner maps the removed edges one to one onto the created ones, each
      to its flipped reverse. */
  ghost predicate PartnerProgress(orig: map<EdgeId, EdgeData>, cur: map<EdgeId, EdgeData>,
                                  removed: set<EdgeId>, created: set<EdgeId>, partner: map<EdgeId, EdgeId>)
  {
    && partner.Keys == removed
    && partner.Values == created
    && (forall a, b :: a in partner && b in partner && a != b ==> partner[a] != partner[b])
    && (forall id :: id in removed ==>
          && id in orig
          && partner[id] == EdgeId(id.v, id.u, partner[id].key)
          && partner[id] in cur && cur[partner[id]] == FlipData(orig[id]))
  }

  /** Reversing one more original edge keeps the directed progress. */
  lemma DirectedStep(orig: map<EdgeId, EdgeData>, cur: map<EdgeId, EdgeData>,
                     removed: set<EdgeId>, created: set<EdgeId>, partner: map<EdgeId, EdgeId>, e: Edge, r: Edge)
    requires DirectedProgress(orig, cur, removed, created, partner)
    requires e.Id() in orig && e.Id() !in removed && e.data == orig[e.Id()] && e.u > e.v
    requires r.u == e.v && r.v == e.u && r.data == FlipData(e.data) && r.Id() !in cur - {e.Id()}
    ensures DirectedProgress(orig, (cur - {e.Id()})[r.Id() := r.data], removed + {e.Id()}, created + {r.Id()},
                             partner[e.Id() := r.Id()])
  {
    assert r.Id() !in orig && r.Id() !in created;
    KeysStep(orig, cur, removed, created, e.Id(), r.Id(), r.data);
    KeptStep(orig, cur, removed, e.Id(), r.Id(), r.data);
    PartnerStep(orig, cur, removed, created, partner, e, r);
  }

  lemma KeysStep(orig: map<EdgeId, EdgeData>, cur: map<EdgeId, EdgeData>,
                 removed: set<EdgeId>, created: set<EdgeId>, gone: EdgeId, added: EdgeId, d: EdgeData)
    requires KeysProgress(orig, cur, removed, created)
    requires gone in orig && gone !in removed && added !in orig && added !in created && added.u < added.v
    ensures KeysProgress(orig, (cur - {gone})[added := d], removed + {gone}, created + {added})
  {
    var next := (cur - {gone})[added := d];
    assert gone !in created;
    assert next.Keys == (cur.Keys - {gone}) + {added};
    assert next.Keys == (orig.Keys - (removed + {gone})) + (created + {added});
  }

  lemma KeptStep(orig: map<EdgeId, EdgeData>, cur: map<EdgeId, EdgeData>,
                 removed: set<EdgeId>, gone: EdgeId, added: EdgeId, d: EdgeData)
    requires KeptProgress(orig, cur, removed)
    requires added !in orig
    ensures KeptProgress(orig, (cur - {gone})[added := d], removed + {gone})
  {
  }

  lemma PartnerStep(orig: map<EdgeId, EdgeData>, cur: map<EdgeId, EdgeData>,
                    removed: set<EdgeId>, created: set<EdgeId>, partner: map<EdgeId, EdgeId>, e: Edge, r: Edge)
    requires PartnerProgress(orig, cur, removed, created, partner)
    requires forall id :: id in created ==> id !in orig
    requires e.Id() in orig && e.Id() !in removed && e.data == orig[e.Id()]
    requires r.u == e.v && r.v == e.u && r.data == FlipData(e.data) && r.Id() !in created
    ensures PartnerProgress(orig, (cur - {e.Id()})[r.Id() := r.data], removed + {e.Id()}, created + {r.Id()},
                            partner[e.Id() := r.Id()])
  {
    var p := partner[e.Id() := r.Id()];
    assert forall id :: id in removed ==> partner[id] != e.Id() && partner[id] != r.Id();
    assert p.Values == partner.Values + {r.Id()} by {
      forall x | x in p.Values
        ensures x in partner.Values + {r.Id()}
      {
        var k :| k in p && p[k] == x;
        if k != e.Id() {
          assert partner[k] == x;
        }
      }
      forall x | x in partner.Values
        ensures x in p.Values
      {
        var k :| k in partner && partner[k] == x;
        assert p[k] == x;
      }
      assert p[e.Id()] == r.Id();
    }
  }

  /** The edges of a directed graph that run from a larger to a smaller node
      id. */
  ghost function Descending(orig: map<EdgeId, EdgeData>): set<EdgeId> {
    set id | id in orig && id.u > id.v
  }

  /** The result of normalising a directed graph: every edge runs from the
      smaller to the larger node id; the edges that already did are kept as
      they were; partner maps each other edge one to one to its replacement,
      its flipped reverse; and there is no other edge. */
  ghost predicate NormalizedDirected(orig: map<EdgeId, EdgeData>, cur: map<EdgeId, EdgeData>,
                                     partner: map<EdgeId, EdgeId>)
  {
    && (forall id :: id in cur ==> id.u <= id.v)
    && (forall id :: id in orig && id.u <= id.v ==> id in cur && cur[id] == orig[id])
    && partner.Keys == Descending(orig)
    && (forall a, b :: a in partner && b in partner && a != b ==> partner[a] != partner[b])
    && (forall id :: id in partner ==>
          && partner[id] == EdgeId(id.v, id.u, partner[id].key)
          && partner[id] !in orig
          && partner[id] in cur && cur[partner[id]] == FlipData(orig[id]))
    && cur.Keys == (orig.Keys - Descending(orig)) + partner.Values
  }

  /** The edges, reported descending in the listing, whose attributes
      normalising an undirected graph flips. */
  function ListedDescending(list: seq<Edge>, orig: map<EdgeId, EdgeData>): set<EdgeId> {
    set i | 0 <= i < |list| && list[i].u > list[i].v :: StoredId(orig, list[i])
  }

  /** The attributes of the edges in ids flipped, the others kept. */
  function FlippedAt(orig: map<EdgeId, EdgeData>, ids: set<EdgeId>): map<EdgeId, EdgeData> {
    map id | id in orig :: if id in ids then FlipData(orig[id]) else orig[id]
  }

  /** Normalising a directed graph keeps the number of edges. */
  lemma NormalizedDirectedCount(orig: map<EdgeId, EdgeData>, cur: map<EdgeId, EdgeData>, partner: map<EdgeId, EdgeId>)
    requires NormalizedDirected(orig, cur, partner)
    ensures |cur| == |orig|
  {
    InjectiveValues(partner);
    forall x | x in partner.Values
      ensures x !in orig.Keys
    {
      var k :| k in partner && partner[k] == x;
    }
    ReplacedCount(orig.Keys, Descending(orig), partner.Values);
  }

  /** Replacing some elements of a set by as many new ones keeps its size. */
  lemma ReplacedCount<T>(all: set<T>, gone: set<T>, added: set<T>)
    requires gone <= all && all * added == {} && |added| == |gone|
    ensures |(all - gone) + added| == |all|
  {
    assert (all - gone) * added == {};
    assert all == (all - gone) + gone;
  }

  /** Every edge of a normalised directed graph is an ascending original,
      as it was, or the replacement of a descending original (of one only,
      partner being one to one). */
  lemma NormalizedDirectedOrigin(orig: map<EdgeId, EdgeData>, cur: map<EdgeId, EdgeData>, partner: map<EdgeId, EdgeId>)
    requires NormalizedDirected(orig, cur, partner)
    ensures forall id :: id in cur ==>
              (id in orig && id.u <= id.v && cur[id] == orig[id]) ||
              (exists o :: o in partner && partner[o] == id && cur[id] == FlipData(orig[o]))
  {
    forall id | id in cur && id !in orig
      ensures exists o :: o in partner && partner[o] == id && cur[id] == FlipData(orig[o])
    {
      var o :| o in partner && partner[o] == id;
    }
  }

  /** A one-to-one map has as many values as keys. */
  lemma {:induction false} InjectiveValues<K, V>(m: map<K, V>)
    requires forall a, b :: a in m && b in m && a != b ==> m[a] != m[b]
    ensures |m.Values| == |m.Keys|
    decreases |m.Keys|
  {
    if |m.Keys| > 0 {
      var k :| k in m;
      var m' := m - {k};
      InjectiveValues(m');
      assert m.Values == m'.Values + {m[k]} by {
        forall x | x in m.Values
          ensures x in m'.Values + {m[k]}
        {
          var j :| j in m && m[j] == x;
          if j != k {
            assert m'[j] == x;
          }
        }
        forall x | x in m'.Values
          ensures x in m.Values
        {
          var j :| j in m' && m'[j] == x;
          assert m[j] == x;
        }
      }
      assert m[k] !in m'.Values by {
        forall j | j in m'
          ensures m'[j] != m[k]
        {
        }
      }
      assert m.Keys == m'.Keys + {k};
    }
  }

  lemma DirectedDone(orig: map<EdgeId, EdgeData>, cur: map<EdgeId, EdgeData>,
                     removed: set<EdgeId>, created: set<EdgeId>, partner: map<EdgeId, EdgeId>)
    requires DirectedProgress(orig, cur, removed, created, partner)
    requires removed == Descending(orig)
    ensures NormalizedDirected(orig, cur, partner)
  {
  }

  /** Normalising a directed graph a second time changes nothing and
      replaces no edge. */
  lemma NormalizeDirectedIdempotent(orig: map<EdgeId, EdgeData>, once: map<EdgeId, EdgeData>,
                                    twice: map<EdgeId, EdgeData>, p1: map<EdgeId, EdgeId>, p2: map<EdgeId, EdgeId>)
    requires NormalizedDirected(orig, once, p1) && NormalizedDirected(once, twice, p2)
    ensures twice == once && p2 == map[]
  {
    assert Descending(once) == {};
    assert p2.Values == {};
  }

  lemma UndirectedDone(orig: map<EdgeId, EdgeData>, cur: map<EdgeId, EdgeData>, removed: set<EdgeId>)
    requires UndirectedProgress(orig, cur, removed)
    ensures cur == FlippedAt(orig, removed)
  {
  }

  /** Normalising an undirected graph twice, with the edges reported the
      same way, restores every lane list and geometry. */
  lemma FlippedAtTwice(orig: map<EdgeId, EdgeData>, ids: set<EdgeId>)
    ensures FlippedAt(FlippedAt(orig, ids), ids).Keys == orig.Keys
    ensures forall id :: id in orig ==>
              FlippedAt(FlippedAt(orig, ids), ids)[id].lanes == orig[id].lanes &&
              FlippedAt(FlippedAt(orig, ids), ids)[id].geometry == orig[id].geometry
  {
    forall id | id in orig && id in ids {
      FlipDataTwice(orig[id]);
    }
  }

  /** The listed edges before position i that are reported from the larger
      to the smaller node id are exactly the removed ones. */
  ghost predicate RemovedPrefix(list: seq<Edge>, orig: map<EdgeId, EdgeData>, i: nat, removed: set<EdgeId>)
    requires i <= |list|
  {
    removed == ListedDescending(list[..i], orig)
  }

  /** The edge at position i has not been removed yet. */
  lemma RemovedPrefixNext(list: seq<Edge>, orig: map<EdgeId, EdgeData>, directed: bool, i: nat, removed: set<EdgeId>)
    requires ListsEdges(list, orig, directed) && i < |list| && RemovedPrefix(list, orig, i, removed)
    ensures StoredId(orig, list[i]) in orig && StoredId(orig, list[i]) !in removed
    ensures list[i].data == orig[StoredId(orig, list[i])]
    ensures directed ==> StoredId(orig, list[i]) == list[i].Id()
  {
    forall j | 0 <= j < i
      ensures StoredId(orig, list[..i][j]) != StoredId(orig, list[i])
    {
      assert list[..i][j] == list[j];
    }
  }

  lemma RemovedPrefixStep(list: seq<Edge>, orig: map<EdgeId, EdgeData>, i: nat, removed: set<EdgeId>, removed': set<EdgeId>)
    requires i < |list| && RemovedPrefix(list, orig, i, removed)
    requires removed' == if list[i].u > list[i].v then removed + {StoredId(orig, list[i])} else removed
    ensures RemovedPrefix(list, orig, i + 1, removed')
  {
    var p, q := list[..i], list[..i + 1];
    assert q == p + [list[i]];
    assert forall j :: 0 <= j < i ==> q[j] == p[j];
  }

  /** In a directed graph an edge is reported from u to v, so the edges
      reported descending are the descending ones. */
  lemma DirectedListedDescending(list: seq<Edge>, orig: map<EdgeId, EdgeData>)
    requires ListsEdges(list, orig, true)
    ensures ListedDescending(list, orig) == Descending(orig)
  {
    forall id | id in Descending(orig)
      ensures id in ListedDescending(list, orig)
    {
      var i :| 0 <= i < |list| && StoredId(orig, list[i]) == id;
    }
  }

  /** `normalize_edge_directions`: every listed edge reported from a larger
      to a smaller node id is reversed. A directed graph ends up normalised,
      partner naming each reversed edge's replacement; an undirected graph
      keeps its edges where they are, with the attributes of those reported
      descending flipped. */
  method NormalizeEdgeDirections(g: Graph) returns (ghost listed: seq<Edge>, ghost partner: map<EdgeId, EdgeId>)
    requires g.Valid()
    modifies g
    ensures g.Valid()
    ensures g.nodes == old(g.nodes)
    ensures ListsEdges(listed, old(g.edges), g.directed)
    ensures g.directed ==> NormalizedDirected(old(g.edges), g.edges, partner)
    ensures !g.directed ==> g.edges == FlippedAt(old(g.edges), ListedDescending(listed, old(g.edges)))
  {
    var list := g.EdgeList();
    listed := list;
    ghost var orig := g.edges;
    ghost var removed: set<EdgeId> := {};
    ghost var created: set<EdgeId> := {};
    partner := map[];
    ProgressStart(g.directed, orig);
    assert list[..0] == [];
    for i := 0 to |list|
      invariant g.Valid() && g.nodes == old(g.nodes)
      invariant RemovedPrefix(list, orig, i, removed)
      invariant Progress(g.directed, orig, g.edges, removed, created, partner)
    {
      RemovedPrefixNext(list, orig, g.directed, i, removed);
      ghost var before := removed;
      removed, created, partner := ReverseIfDescending(g, list[i], orig, removed, created, partner);
      RemovedPrefixStep(list, orig, i, before, removed);
    }
    assert list[..|list|] == list;
    if g.directed {
      DirectedListedDescending(list, orig);
      DirectedDone(orig, g.edges, removed, created, partner);
    } else {
      UndirectedDone(orig, g.edges, removed);
    }
  }

  /** One turn of the loop of `normalize_edge_directions`: the edge is
      reversed when it is reported from a larger to a smaller node id. */
  method ReverseIfDescending(g: Graph, e: Edge, ghost orig: map<EdgeId, EdgeData>, ghost removed: set<EdgeId>,
                             ghost created: set<EdgeId>, ghost partner: map<EdgeId, EdgeId>)
      returns (ghost removed': set<EdgeId>, ghost created': set<EdgeId>, ghost partner': map<EdgeId, EdgeId>)
    requires g.Valid() && Progress(g.directed, orig, g.edges, removed, created, partner)
    requires StoredId(orig, e) in orig && StoredId(orig, e) !in removed && e.data == orig[StoredId(orig, e)]
    requires g.directed ==> StoredId(orig, e) == e.Id()
    modifies g
    ensures g.Valid() && g.nodes == old(g.nodes)
    ensures Progress(g.directed, orig, g.edges, removed', created', partner')
    ensures removed' == if e.u > e.v then removed + {StoredId(orig, e)} else removed
  {
    removed', created', partner' := removed, created, partner;
    if e.u > e.v {
      ghost var before := g.edges;
      ghost var id := StoredId(orig, e);
      if g.directed {
        assert e.Id() in g.edges && g.edges[e.Id()] == e.data;
        var r := ReverseEdge(g, e, true);
        DirectedStep(orig, before, removed, created, partner, e, r);
        created' := created + {r.Id()};
        partner' := partner[e.Id() := r.Id()];
      } else {
        assert id in g.edges && g.edges[id] == e.data;
        assert g.Slot(e.u, e.v, e.key) == Some(id);
        var _ := ReverseEdge(g, e, true);
        UndirectedStep(orig, before, removed, id, e.data);
      }
      removed' := removed + {id};
    }
  }

  /** What `_split_edge` returns: `False` on failure; it falls off its end,
      returning `None`, on success. `Raised` stands for the exception the
      geometry library raises when asked for the nearest point of the empty
      `''` placeholder geometry. */
  datatype SplitReturn = ReturnedFalse | ReturnedNone | Raised

  /** The result of the geometric split the caller's geometry library
      performs: the split point snapped onto the line, and the pieces of the
      line cut around it. */
  datatype GeometrySplit = GeometrySplit(snapped: Point, pieces: seq<Geometry>)

  /** Whether the geometric split is usable: it is only consulted when the
      edge has a geometry, and it must yield exactly three pieces. */
  predicate SplitUsable(d: EdgeData, cut: GeometrySplit) {
    d.geometry.None? || |cut.pieces| == 3
  }

  /** The attributes of the edge from u to the new node: a copy of the
      original ones whose geometry, if any, is the first piece extended to
      the split point. */
  function FirstPart(d: EdgeData, p: Point, cut: GeometrySplit): EdgeData
    requires SplitUsable(d, cut)
  {
    if d.geometry.Some? then d.(geometry := Some(cut.pieces[0] + [p])) else d
  }

  /** The attributes of the edge from the new node to v: a copy whose
      geometry, if any, is the third piece starting at the split point. */
  function SecondPart(d: EdgeData, p: Point, cut: GeometrySplit): EdgeData
    requires SplitUsable(d, cut)
  {
    if d.geometry.Some? then d.(geometry := Some([p] + cut.pieces[2])) else d
  }

  /** Where the new node is placed: the snapped point when the edge has a
      geometry, the given point otherwise. */
  function NodePoint(d: EdgeData, p: Point, cut: GeometrySplit): Point {
    if d.geometry.Some? then cut.snapped else p
  }

  /** Both halves carry the original lane list and every other attribute;
      the first geometry ends and the second starts at the split point. */
  lemma SplitParts(d: EdgeData, p: Point, cut: GeometrySplit)
    requires SplitUsable(d, cut)
    ensures FirstPart(d, p, cut).(geometry := d.geometry) == d
    ensures SecondPart(d, p, cut).(geometry := d.geometry) == d
    ensures FirstPart(d, p, cut).geometry.Some? <==> d.geometry.Some?
    ensures SecondPart(d, p, cut).geometry.Some? <==> d.geometry.Some?
    ensures d.geometry.Some? ==> var g1, g2 := FirstPart(d, p, cut).geometry.value, SecondPart(d, p, cut).geometry.value;
              |g1| > 0 && g1[|g1| - 1] == p && |g2| > 0 && g2[0] == p
  {
  }

  /** The attributes stored on a new half: flipped when, in an undirected
      graph, the half runs from a larger to a smaller node id. */
  function Stored(directed: bool, from: NodeId, to: NodeId, d: EdgeData): EdgeData {
    if !directed && from > to then FlipData(d) else d
  }

  lemma OverwriteEarlier<K, V>(m: map<K, V>, a: K, b: K, x: V, y: V, z: V)
    requires a != b
    ensures m[a := x][b := y][a := z] == m[a := z][b := y]
  {
  }

  lemma OverwriteSame<K, V>(m: map<K, V>, b: K, y: V, z: V)
    ensures m[b := y][b := z] == m[b := z]
  {
  }

  /** `_split_edge(street_graph, edge, split_point)`. It fails, changing
      nothing, when the edge does not exist or its geometry does not split
      into three pieces, and raises, changing nothing, when the geometry is
      the empty placeholder. Otherwise the new node takes the id `len(nodes)`,
      which is fresh only when node ids are; the edge is replaced by one
      from u to the new node and one from the new node to v, under new
      keys, so the graph has one edge more. */
  method SplitEdge(g: Graph, e: Edge, splitPoint: Point, cut: GeometrySplit)
      returns (r: SplitReturn, ghost k1: nat, ghost k2: nat)
    requires g.Valid()
    modifies g
    ensures g.Valid()
    ensures r == Raised <==> old(g.HasEdge(e.u, e.v, e.key)) && e.data.geometry == Some([])
    ensures r == ReturnedFalse <==>
              !old(g.HasEdge(e.u, e.v, e.key)) || (e.data.geometry != Some([]) && !SplitUsable(e.data, cut))
    ensures r != ReturnedNone ==> g.edges == old(g.edges) && g.nodes == old(g.nodes)
    ensures r == ReturnedNone ==>
              var s := old(|g.nodes|);
              && SplitUsable(e.data, cut)
              && g.nodes == old(g.nodes)[s := WithNode(old(g.nodes), s)[s].(
                                             point := Some(NodePoint(e.data, splitPoint, cut)), splitNode := true)]
              && EdgeId(e.u, s, k1) != EdgeId(s, e.v, k2)
              && g.edges == (old(g.edges) - {old(g.Slot(e.u, e.v, e.key)).value})
                              [EdgeId(e.u, s, k1) := Stored(g.directed, e.u, s, FirstPart(e.data, splitPoint, cut))]
                              [EdgeId(s, e.v, k2) := Stored(g.directed, s, e.v, SecondPart(e.data, splitPoint, cut))]
              && |g.edges| == old(|g.edges|) + 1
              && (s !in old(g.nodes) ==> |g.nodes| == old(|g.nodes|) + 1)
  {
    k1, k2 := 0, 0;
    if !g.HasEdge(e.u, e.v, e.key) {
      return ReturnedFalse, k1, k2;
    }
    if e.data.geometry == Some([]) {
      return Raised, k1, k2;
    }
    if !SplitUsable(e.data, cut) {
      return ReturnedFalse, k1, k2;
    }
    k1, k2 := SplitThrough(g, e, splitPoint, cut);
    r := ReturnedNone;
  }

  /** The successful part of `_split_edge`: the new node `len(nodes)` is
      added and the edge is replaced by its two halves through it. */
  method SplitThrough(g: Graph, e: Edge, splitPoint: Point, cut: GeometrySplit) returns (ghost k1: nat, ghost k2: nat)
    requires g.Valid() && g.HasEdge(e.u, e.v, e.key) && SplitUsable(e.data, cut)
    modifies g
    ensures g.Valid()
    ensures var s := old(|g.nodes|);
            && g.nodes == old(g.nodes)[s := WithNode(old(g.nodes), s)[s].(
                                           point := Some(NodePoint(e.data, splitPoint, cut)), splitNode := true)]
            && EdgeId(e.u, s, k1) != EdgeId(s, e.v, k2)
            && g.edges == (old(g.edges) - {old(g.Slot(e.u, e.v, e.key)).value})
                            [EdgeId(e.u, s, k1) := Stored(g.directed, e.u, s, FirstPart(e.data, splitPoint, cut))]
                            [EdgeId(s, e.v, k2) := Stored(g.directed, s, e.v, SecondPart(e.data, splitPoint, cut))]
            && |g.edges| == old(|g.edges|) + 1
            && (s !in old(g.nodes) ==> |g.nodes| == old(|g.nodes|) + 1)
  {
    var s := |g.nodes|;
    var d1 := FirstPart(e.data, splitPoint, cut);
    var d2 := SecondPart(e.data, splitPoint, cut);
    g.AddSplitNode(s, NodePoint(e.data, splitPoint, cut));
    ghost var rest := g.edges - {g.Slot(e.u, e.v, e.key).value};
    var key1, key2 := ReplaceBySplit(g, e, s, d1, d2);
    k1, k2 := key1, key2;
    if !g.directed {
      Recanonicalise(g, rest, e.u, s, e.v, key1, key2, d1, d2);
    }
  }

  /** The topology step of `_split_edge`: remove the edge and add its two
      halves through node s. */
  method ReplaceBySplit(g: Graph, e: Edge, s: NodeId, d1: EdgeData, d2: EdgeData) returns (key1: nat, key2: nat)
    requires g.Valid() && g.HasEdge(e.u, e.v, e.key) && s in g.nodes
    modifies g
    ensures g.Valid() && g.nodes == old(g.nodes)
    ensures EdgeId(e.u, s, key1) != EdgeId(s, e.v, key2)
    ensures g.edges == (old(g.edges) - {old(g.Slot(e.u, e.v, e.key)).value})[EdgeId(e.u, s, key1) := d1][EdgeId(s, e.v, key2) := d2]
    ensures EdgeId(e.u, s, key1) !in old(g.edges) - {old(g.Slot(e.u, e.v, e.key)).value}
    ensures EdgeId(s, e.v, key2) !in old(g.edges) - {old(g.Slot(e.u, e.v, e.key)).value}
    ensures |g.edges| == |old(g.edges)| + 1
  {
    ghost var rest := g.edges - {g.Slot(e.u, e.v, e.key).value};
    g.RemoveEdge(e.u, e.v, e.key);
    key1 := g.AddEdge(e.u, s, d1);
    key2 := g.AddEdge(s, e.v, d2);
  }

  /** The last step of `_split_edge` in an undirected graph: a half running
      from a larger to a smaller node id gets its attributes flipped. */
  method Recanonicalise(g: Graph, ghost rest: map<EdgeId, EdgeData>, u: NodeId, s: NodeId, v: NodeId,
                        key1: nat, key2: nat, d1: EdgeData, d2: EdgeData)
    requires g.Valid() && !g.directed
    requires EdgeId(u, s, key1) != EdgeId(s, v, key2)
    requires g.edges == rest[EdgeId(u, s, key1) := d1][EdgeId(s, v, key2) := d2]
    modifies g
    ensures g.Valid() && g.nodes == old(g.nodes)
    ensures g.edges == rest[EdgeId(u, s, key1) := Stored(false, u, s, d1)][EdgeId(s, v, key2) := Stored(false, s, v, d2)]
  {
    ghost var id1, id2 := EdgeId(u, s, key1), EdgeId(s, v, key2);
    if u > s {
      assert g.Slot(u, s, key1) == Some(id1);
      var _ := ReverseEdge(g, Edge(u, s, key1, d1), true);
      OverwriteEarlier(rest, id1, id2, d1, d2, FlipData(d1));
    }
    if s > v {
      assert EdgeId(v, s, key2) in g.edges ==> v == s;
      assert g.Slot(v, s, key2) == Some(id2);
      ghost var before := g.edges;
      var _ := ReverseEdge(g, Edge(v, s, key2, d2), true);
      OverwriteSame(rest[id1 := Stored(false, u, s, d1)], id2, d2, FlipData(d2));
    }
  }
}
