# snman lanes and street-graph edge transforms, in Dafny

This project models three parts of the snman street-network manager.

1. The lane codec of `snman/lanes.py`:
   - the decoder `_generate_lanes_for_edge`, which turns an edge's OpenStreetMap-style tags into an ordered lane list;
   - `_reverse_lanes`;
   - the classifier `_lane_properties`, without the width;
   - the counter `_lane_stats`;
   - the encoder `_update_osm_tags_for_edge`, which writes the counts back into the edge's tag dictionary.
2. The edge transforms of `snman/graph_tools.py`:
   - `_edge_hash`, `_remove_edge_from_list`, `_unique_edges` and `_get_neighbors`;
   - `_reverse_edge`, `normalize_edge_directions` and `_split_edge`, which edit the multigraph in place;
   - the pairing loop of `connect_components_in_intersections`, which links the smallest node of every weakly connected component of a cluster to that of every other.
3. `add_hierarchies` of `snman/street_graph_node.py`.

Layout:

- `common.dfy`: `Option`, points and geometries, sequence reversal.
- `lanes.dfy`: lane type, direction, lane, `_reverse_lanes`, `_lane_properties`.
- `lane_decoder.dfy`: the tags record and the decoder. `Decode` specifies it. `GenerateLanesForEdge` fills the five buckets and runs the four override loops.
- `lane_stats.dfy`: the counters. `StatsOf` specifies them. `ComputeLaneStats` is the counting loop.
- `lane_encoder.dfy`: the encoder. `EncodeTags` specifies it. The class `EdgeAttributes` holds the attribute dictionary and rewrites it in place.
- `street_graph.dfy`: the multigraph, as the class `Graph`. It keeps a node map and a map from `(u, v, key)` to edge attributes. It provides the networkx operations the transforms call: `has_edge`, `add_edge` with its key choice, `remove_edge`, attribute writes and `add_node`.
- `graph_tools.py` is modelled in two files:
  - `graph_tools.dfy`: `_reverse_edge`, `normalize_edge_directions` and `_split_edge`;
  - `edge_lists.dfy`: the list filters, keyed on the `(u, v, key)` hash.
- `component_links.dfy`: the pairing step. `Linked` specifies it. `LinkPairs` is the loop over `itertools.combinations`.
- `street_graph_node.dfy`: `add_hierarchies`.

Modelling choices:

- Lane tokens such as `m>` become `Lane(Motorized, Forward)`. The five lane types and four directions are enumerations, because the constants module is not part of this model.
- Tag values arrive already parsed.
  - `lanes`, `lanes:forward` and `lanes:backward` are optional integers. Missing ones default to 1, 0 and 0, as at `snman/lanes.py:61-63`.
  - `oneway` and the reversed flag are booleans.
  - Every pipe-separated per-lane tag is its token list. A missing tag becomes the empty list. That behaves like `''.split('|')`, whose single empty token matches no marker.
- Node ids and edge keys are natural numbers.
- `add_edge` picks the key networkx's `new_edge_key` picks: the smallest unused key that is at least the number of keys already between the two nodes.
- A geometry is an opaque sequence of points. Reversing a geometry reverses the sequence.
- `_split_edge` does not compute the shapely split. It receives the snapped point and the pieces of the split as a parameter.
- The incident-edge lists of `_get_neighbors` (`graph.edges(nbunch=...)`) are parameters.

## Model

| member | source | states |
|---|---|---|
| Common.Reverse | snman/graph_tools.py:91-93 | the reversed geometry has the same length, point i being point n-1-i of the original |
| Common.ReverseTwice | snman/graph_tools.py:91-93 | reversing a geometry twice gives it back |
| Lanes.Opposite | snman/lanes.py:180-183 | forward and backward are exchanged; both-ways and to-be-determined are kept |
| Lanes.ReverseLanes | snman/lanes.py:164-185 | same length; lane i of the result is lane n-1-i of the input with forward and backward exchanged |
| Lanes.OppositeTwice | snman/lanes.py:180-183 | exchanging directions twice restores the direction |
| Lanes.ReverseLanesTwice | snman/lanes.py:164-185 | reversing a lane list twice gives back the original list |
| Lanes.ReverseLanesKeepsTypes | snman/lanes.py:178-185 | reversal keeps every lane type; both-ways and to-be-determined lanes are carried over unchanged, at the mirrored position |
| Lanes.Properties | snman/lanes.py:242-252 | the flags of a lane: motorized iff private-car or public-transport lane, never both; dedicated cycling iff cycling lane or track, never both; motorized and cycling exclude each other; foot iff neither |
| LaneDecoder.CountsOf | snman/lanes.py:60-91 | a both-ways lane exactly for a single lane without `oneway`; on a oneway road with a positive count, every lane is forward |
| LaneDecoder.TypedCountsOf | snman/lanes.py:92-102 | on a dedicated public transport road, at least one public transport lane each way, none both ways and no motorized lane; otherwise no public transport lane |
| LaneDecoder.ApplyOverride | snman/lanes.py:141-159 | the in-place loop over the tokens computes `Override`: same length, a position retyped to a public transport lane in the given direction exactly when its token is the marker, untouched beyond the token list |
| LaneDecoder.CountLanes | snman/lanes.py:60-102 | the counting statements compute TypedCountsOf |
| LaneDecoder.FillBuckets | snman/lanes.py:104-135 | the `extend` calls build `InitialBuckets`, the five buckets left, backward, both, forward, right of the specification |
| LaneDecoder.GenerateLanesForEdge | snman/lanes.py:30-161 | the imperative decoder returns exactly `Decode` of the tags: the overridden buckets concatenated, which the Decode lemmas below characterise |
| LaneDecoder.OverrideWithoutMarker | snman/lanes.py:141-159 | an override list without its marker leaves the bucket unchanged |
| LaneDecoder.DecodeWithoutOverrides | snman/lanes.py:137-161 | without override markers the result is the buckets concatenated left, backward, both, forward, right |
| LaneDecoder.DecodeNoTags | snman/lanes.py:60-91 | an edge without tags has one motorized lane in both directions |
| LaneDecoder.DecodeOneway | snman/lanes.py:89-90 | `lanes=n` with `oneway` gives n forward motorized lanes, after any `lanes:backward` lanes |
| LaneDecoder.DecodeTwoWaySplit | snman/lanes.py:76-82 | n>1 lanes, two-way, without a consistent split: ceil(n/2) backward lanes listed first, then floor(n/2) forward, n in total |
| LaneDecoder.DecodeSingleLaneWithForwardTag | snman/lanes.py:77-86 | `lanes=1`, `lanes:forward=1`, no `oneway`: a both-ways lane and a forward lane |
| LaneDecoder.DecodePathHighway | snman/lanes.py:104-112 | footway, path, track, cycleway and pedestrian give exactly one lane: a foot lane both ways, or a cycling track (forward when oneway, both-ways in the backward bucket otherwise), which only the first forward or last backward override token can retype |
| LaneDecoder.OverrideRetypes | snman/lanes.py:141-159 | an override pass keeps the bucket's length and only turns lanes into public transport lanes in its direction |
| LaneDecoder.TwoPassesRetype | snman/lanes.py:141-159 | the bus and vehicle passes of one bucket together keep its length and only turn lanes into public transport lanes in its direction |
| LaneDecoder.OverrideUniform | snman/lanes.py:141-159 | overriding public transport lanes with their own direction changes nothing |
| LaneDecoder.DedicatedPtBuckets | snman/lanes.py:92-102 | on a dedicated public transport road: no both-ways bucket, non-empty backward and forward buckets of public transport lanes only |
| LaneDecoder.DedicatedPtLayout | snman/lanes.py:128-161 | on a dedicated public transport road the overrides change nothing: cycling lanes around one public transport list per direction |
| LaneDecoder.DecodeDedicatedPt | snman/lanes.py:92-102 | a dedicated public transport road has no motorized lane, no both-ways lane, and a public transport lane forward and one backward |
| LaneDecoder.DecodeOverridesOnlyRetype | snman/lanes.py:137-161 | the overrides keep the length; outside the backward and forward buckets nothing changes; inside them a lane stays or becomes a public transport lane in that bucket's direction |
| LaneDecoder.FlipAllConcat | snman/lanes.py:161 | exchanging directions distributes over concatenation |
| LaneDecoder.FlipAllRepeat | snman/lanes.py:128-135 | exchanging directions on n copies gives n copies of the flipped lane |
| LaneDecoder.FlipAllOverride | snman/lanes.py:141-159 | overriding then exchanging directions equals exchanging then overriding with the opposite direction |
| LaneDecoder.BucketsReversed | snman/lanes.py:52-58 | with the reversed flag each bucket is the unreversed bucket with directions exchanged |
| LaneDecoder.RoadBucketsReversed | snman/lanes.py:114-135 | the same, for the buckets of an ordinary road |
| LaneDecoder.RepeatsReversed | snman/lanes.py:128-135 | two runs of lanes in the opposite direction are the flipped runs |
| LaneDecoder.DecodeReversed | snman/lanes.py:52-58 | decoding with the reversed flag equals decoding without it with forward and backward exchanged lane by lane, order unchanged |
| LaneStats.DirectionCounts.Inc | snman/lanes.py:288-295 | incrementing adds one to the counter of that direction and leaves the other three |
| LaneStats.CountsStep | snman/lanes.py:282-339 | one more lane increments the counter of its direction in each group it belongs to, and nothing else |
| LaneStats.ComputeLaneStats | snman/lanes.py:281-344 | the counting loop computes `StatsOf`, the per-group `CountsOf` counters and their motorized total |
| LaneStats.MotorizedSplit | snman/lanes.py:286-317 | per direction, motorized lanes are private-car lanes plus public transport lanes |
| LaneStats.DirectionsCoverKind | snman/lanes.py:342-344 | the four direction counters of a group add up to the number of its lanes |
| LaneStats.StatsMotorized | snman/lanes.py:342-344 | `n_lanes_motorized` is the number of motorized lanes, and each motorized counter is the private-car counter plus the public transport counter |
| LaneStats.CountPrepend | snman/lanes.py:282-339 | a lane in front adds one to its own counter |
| LaneStats.CountReversed | snman/lanes.py:164-185 | in a reversed list each direction's count is the original count of the opposite direction |
| LaneStats.StatsReversed | snman/lanes.py:281-344 | the statistics of a reversed list are the original ones with forward and backward exchanged, the totals unchanged |
| LaneEncoder.WrittenInSteps | snman/lanes.py:356-440 | the encoder writes the lane counts, then the per-lane tags, then the cycleways |
| LaneEncoder.WrittenByKey | snman/lanes.py:356-440 | `EncodeTags`: a dictionary with `EncodedValue` at each written key and the old value elsewhere is the encoded dictionary |
| LaneEncoder.CyclewayKeysEncoded | snman/lanes.py:407-440 | each cycleway key holds what its side's cycling lanes and tracks say |
| LaneEncoder.EncodeTagsFrame | snman/lanes.py:356-413 | every owned key is defined after encoding; every other key keeps its value |
| LaneEncoder.EncodeTagsCanonical | snman/lanes.py:356-413 | encoding adds only owned keys, so no owned key gets a second spelling |
| LaneEncoder.EncodeLaneCounts | snman/lanes.py:356-370 | `lanes` is the number of motorized lanes when non-zero and None otherwise; `lanes:forward`, `lanes:backward` and `lanes:both_ways` hold their counts when non-zero and None otherwise |
| LaneEncoder.PerLaneTokens | snman/lanes.py:379-405 | one token per lane of the side; designated/no exactly for the first public transport lanes, permissive/yes for the rest |
| LaneEncoder.EncodePerLaneTags | snman/lanes.py:372-405 | `bus:lanes:X` and `vehicle:lanes:X` are written together, exactly when side X has a public transport lane, with equally many tokens, designated paired with no and permissive with yes, all designated ones first; otherwise both are None |
| LaneEncoder.EncodeCycleways | snman/lanes.py:407-440 | on each side `cycleway*` says track exactly when the cycling tracks run there, else lane exactly when the cycling lanes do; the `:lane` keys say advisory exactly when cycling lanes run on that side |
| LaneEncoder.CyclewayKeysWritten | snman/lanes.py:407-440 | the six cycleway keys hold the values computed from the side of the lanes and the side of the tracks |
| LaneEncoder.SidesOfCounts | snman/lanes.py:416-440 | a facility counts as both sides iff it has a both-ways lane or one each way; as right iff only forward; as left iff only backward |
| LaneEncoder.TrackOnOneKey | snman/lanes.py:430-440 | at most one of `cycleway`, `cycleway:right` and `cycleway:left` says track |
| LaneEncoder.EdgeAttributes.UpdateOsmTags | snman/lanes.py:351-441 | the dictionary becomes EncodeTags of its old value and of the statistics of its lane list (`data.get(key, [])`, which must be a lane list when present); a dictionary whose keys have one representation keeps that property |
| LaneEncoder.EdgeAttributes.WriteLaneCounts | snman/lanes.py:356-370 | resets and writes the four lane-count keys, nothing else |
| LaneEncoder.EdgeAttributes.WritePtLanes | snman/lanes.py:372-405 | resets and writes the four per-lane keys, nothing else |
| LaneEncoder.EdgeAttributes.WriteCycleways | snman/lanes.py:407-440 | resets and writes the six cycleway keys, nothing else |
| LaneEncoder.EdgeAttributes.WriteCyclingLanes | snman/lanes.py:407-428 | the six cycleway keys are reset, then lane/advisory is written on the side the cycling lanes run |
| LaneEncoder.EdgeAttributes.WriteCyclingTracks | snman/lanes.py:430-440 | track overwrites the key of the side the tracks run, and only that key |
| StreetGraph.SlotIn | snman/graph_tools.py:77 | `has_edge(u, v, key)`: the stored id joining u and v under that key, or none when there is no such edge |
| StreetGraph.NextFreeKey | snman/graph_tools.py:100 | the first key from k on that is not in use: unused, and every key before it from k on is used |
| StreetGraph.FreshKeyUnused | snman/graph_tools.py:100 | `FreshKey`, the key `add_edge` picks, is unused between the two nodes, in either orientation of an undirected graph |
| StreetGraph.WithNode | snman/graph_tools.py:155-156 | `add_edge` adds a missing endpoint without attributes and keeps existing nodes |
| StreetGraph.Graph.NewEdgeKey | snman/graph_tools.py:100 | the key search of `add_edge` returns the first free key |
| StreetGraph.Graph.AddEdge | snman/graph_tools.py:100 | adds the edge under that fresh key, changing no other edge, and adds missing endpoints |
| StreetGraph.Graph.RemoveEdge | snman/graph_tools.py:85 | removes exactly the stored edge |
| StreetGraph.Graph.SetEdgeData | snman/graph_tools.py:102 | replaces exactly the stored edge's attributes |
| StreetGraph.Graph.AddSplitNode | snman/graph_tools.py:153 | `add_node(id, x, y, _split_node=True)`: sets the node's point and split flag, keeps its other attributes and every other node |
| StreetGraph.Graph.EdgeList | snman/graph_tools.py:50 | `list(edges(data=True, keys=True))`: every edge exactly once with its data; a directed edge from u to v, an undirected edge from either end |
| GraphTools.FlipDataEffect | snman/graph_tools.py:87-96 | `FlipData`: a non-empty lane list is reversed lane by lane, a non-empty geometry reversed point by point, the flag toggled with absent counting as false, other attributes kept |
| GraphTools.FlipDataTwice | snman/graph_tools.py:87-96 | flipping twice restores lane list, geometry and flag, an absent flag ending as false |
| GraphTools.ReverseEdge | snman/graph_tools.py:57-108 | a missing edge is returned unchanged with the graph unchanged; with `reverse_topology` on a directed graph the edge is replaced by its flipped reverse under a fresh key, with as many edges as before; otherwise only its attributes are flipped in place and the edge is returned with them |
| GraphTools.UndirectedStep | snman/graph_tools.py:51-53 | reversing one more edge of an undirected graph flips exactly the attributes stored for it |
| GraphTools.DirectedStep | snman/graph_tools.py:51-53 | reversing one more edge of a directed graph keeps the progress invariant |
| GraphTools.KeysStep | snman/graph_tools.py:51-53 | the ids after one more reversal: the kept originals and the new ids |
| GraphTools.KeptStep | snman/graph_tools.py:51-53 | edges not yet reversed keep their attributes |
| GraphTools.PartnerStep | snman/graph_tools.py:51-53 | the reversed edges map one to one onto the new ids, each to its own replacement from its smaller to its larger node holding its flipped attributes |
| GraphTools.DirectedDone | snman/graph_tools.py:49-54 | once every descending edge is reversed, a directed graph is `NormalizedDirected`: only ascending edges, the ascending originals unchanged, each descending one mapped one to one to its own flipped reverse, no other edge |
| GraphTools.NormalizedDirectedCount | snman/graph_tools.py:49-54 | a normalised directed graph has as many edges as before |
| GraphTools.NormalizedDirectedOrigin | snman/graph_tools.py:49-54 | every edge of the normalised directed graph is an ascending original as it was, or the flipped replacement of a descending original under the one-to-one partner map |
| GraphTools.NormalizeDirectedIdempotent | snman/graph_tools.py:49-54 | on a directed graph a second normalisation changes nothing and replaces no edge |
| GraphTools.UndirectedDone | snman/graph_tools.py:49-54 | on an undirected graph the result keeps every edge id and flips exactly the reversed edges' attributes (`FlippedAt`) |
| GraphTools.FlippedAtTwice | snman/graph_tools.py:49-54 | normalising an undirected graph twice, with the edges reported the same way, restores every lane list and geometry |
| GraphTools.RemovedPrefixNext | snman/graph_tools.py:50-53 | the listed edge at the loop position is stored with its listed data and has not been reversed yet; in a directed graph it is stored as listed |
| GraphTools.RemovedPrefixStep | snman/graph_tools.py:51-53 | after one more turn the reversed edges are those listed so far with u > v |
| GraphTools.DirectedListedDescending | snman/graph_tools.py:50-52 | in a directed graph the edges listed with u > v are exactly the descending edges |
| GraphTools.NormalizeEdgeDirections | snman/graph_tools.py:49-54 | over the listing it takes: a directed graph ends up normalised as `NormalizedDirected` states, with the partner map; an undirected graph keeps its edge ids, with the attributes flipped of exactly the edges the listing reports from the larger to the smaller node; nodes unchanged |
| GraphTools.ReverseIfDescending | snman/graph_tools.py:52-53 | one loop turn reverses the edge exactly when it is reported with u > v |
| GraphTools.SplitParts | snman/graph_tools.py:126-150 | `FirstPart` and `SecondPart`: both halves carry every original attribute, the lane list included; the first geometry ends and the second starts at the split point |
| GraphTools.SplitEdge | snman/graph_tools.py:111-163 | raises with the graph unchanged iff the edge exists and its geometry is the empty placeholder; returns False with the graph unchanged iff the edge is missing or the split does not give three pieces; otherwise returns None, node `len(nodes)` gets `NodePoint` and the split flag, the edge is replaced by the halves to and from it, flipped when descending in an undirected graph, and the graph has one edge more |
| GraphTools.SplitThrough | snman/graph_tools.py:120-163 | the successful split: node `len(nodes)` gets `NodePoint` and the split flag, keeping its other attributes; the edge is replaced by the halves to and from it under new distinct ids, flipped when descending in an undirected graph; one edge more |
| GraphTools.ReplaceBySplit | snman/graph_tools.py:153-156 | removes the edge and adds both halves under fresh keys: one edge more |
| GraphTools.Recanonicalise | snman/graph_tools.py:158-163 | in an undirected graph, a half from a larger to a smaller node has its attributes flipped |
| EdgeLists.DigitChar | snman/graph_tools.py:13 | the decimal digit of d |
| EdgeLists.NatToString | snman/graph_tools.py:13 | `str(n)`: non-empty, only digits, no leading zero |
| EdgeLists.ParseNatToString | snman/graph_tools.py:13 | the decimal text reads back as the number |
| EdgeLists.NatToStringInjective | snman/graph_tools.py:13 | different numbers have different decimal texts |
| EdgeLists.SplitAtDash | snman/graph_tools.py:13 | a dash-joined text of dash-free parts determines the parts |
| EdgeLists.EdgeHashInjective | snman/graph_tools.py:12-13 | `EdgeHash`, the text `u-v-key`: two edges have the same hash iff they have the same (u, v, key) |
| EdgeLists.SubsequenceCounts | snman/graph_tools.py:16-22 | a subsequence holds no element more often than the list |
| EdgeLists.RemoveEdgeFromList | snman/graph_tools.py:16-22 | the loop computes Remaining |
| EdgeLists.RemainingSubsequence | snman/graph_tools.py:16-22 | the result keeps the input order: it is a subsequence |
| EdgeLists.RemainingCounts | snman/graph_tools.py:16-22 | `Remaining`: an entry is kept with all its occurrences iff its triple differs from the removed edge's and, when dead ends are excluded, it is not a dead end; otherwise it is gone |
| EdgeLists.RemainingConcat | snman/graph_tools.py:30-35 | filtering a concatenation filters each part |
| EdgeLists.IdsAppend | snman/graph_tools.py:42-45 | appending an edge adds its triple to the triples seen |
| EdgeLists.HashesAppend | snman/graph_tools.py:45 | appending an edge adds its hash to the hashes seen |
| EdgeLists.HashSeen | snman/graph_tools.py:43-44 | the hash is in the seen set iff the triple has been seen |
| EdgeLists.UniqueEdges | snman/graph_tools.py:39-46 | the loop with the seen-hash set computes Unique |
| EdgeLists.UniqueSubsequence | snman/graph_tools.py:39-46 | the result keeps the input order: it is a subsequence |
| EdgeLists.UniqueCovers | snman/graph_tools.py:39-46 | `Unique`: the result has exactly the triples of the input |
| EdgeLists.UniqueDistinct | snman/graph_tools.py:39-46 | no triple occurs twice in the result |
| EdgeLists.UniqueKeepsFirst | snman/graph_tools.py:39-46 | the first occurrence of every triple is kept |
| EdgeLists.SubsequenceTransitive | snman/graph_tools.py:30-35 | a subsequence of a subsequence is a subsequence |
| EdgeLists.KeptIsNeighboring | snman/graph_tools.py:19-20 | the hash test of `_remove_edge_from_list` keeps exactly the entries with another triple that are not excluded dead ends |
| EdgeLists.UniqueRemainingKeepsFirst | snman/graph_tools.py:30-35 | filtering then deduplicating keeps the first neighbor entry of every triple |
| EdgeLists.UniqueRemainingNeighboring | snman/graph_tools.py:30-35 | every entry kept is another edge than the given one and not an excluded dead end |
| EdgeLists.UniqueRemainingCovers | snman/graph_tools.py:30-35 | every other triple of the input, unless an excluded dead end, is kept |
| EdgeLists.UniqueOfDistinct | snman/graph_tools.py:39-46 | a list with distinct triples is returned unchanged |
| EdgeLists.UniqueIdempotent | snman/graph_tools.py:39-46 | deduplicating twice is deduplicating once |
| EdgeLists.UniqueRemainingIsNeighborList | snman/graph_tools.py:30-35 | deduplicating the filtered list gives a `NeighborList`: a subsequence of the input (its order kept), with distinct triples, none the edge itself nor an excluded dead end, covering every other triple, and holding the first neighbor entry of each triple |
| EdgeLists.GetNeighbors | snman/graph_tools.py:25-36 | the three returned lists are the filtered and deduplicated edges at u, at v and at both, each such a neighbor list |
| ComponentLinks.SetMin | snman/graph_tools.py:233 | `min(wcc)` is in the component and no larger than any node of it |
| ComponentLinks.MinOf | snman/graph_tools.py:233 | the scan computes the minimum |
| ComponentLinks.Minima | snman/graph_tools.py:230-234 | one representative per component, in order, each its minimum |
| ComponentLinks.PairsWith | snman/graph_tools.py:236 | the pairs of one node with each later node, in order |
| ComponentLinks.PairsCount | snman/graph_tools.py:236 | `combinations(nodes, 2)` has k(k-1)/2 pairs |
| ComponentLinks.DoublePairsCount | snman/graph_tools.py:236 | twice the number of pairs is k(k-1) |
| ComponentLinks.PairsAreOrderedPositions | snman/graph_tools.py:236 | `Pairs`: every pair is (nodes[i], nodes[j]) for some i < j |
| ComponentLinks.PairsCoverPositions | snman/graph_tools.py:236 | every (nodes[i], nodes[j]) with i < j is a pair |
| ComponentLinks.LinkStepEffect | snman/graph_tools.py:237-248 | one link adds a new edge from the smaller to the larger node with only the link geometry, keeps every other edge, and adds one edge |
| ComponentLinks.LinkedKeys | snman/graph_tools.py:236-248 | the edges after linking are the original ones and one added edge per pair |
| ComponentLinks.LinkedFresh | snman/graph_tools.py:236-248 | every pair's edge runs from its smaller to its larger node under an id the original graph does not use |
| ComponentLinks.FreshStep | snman/graph_tools.py:236-248 | LinkedFresh is kept by one more pair |
| ComponentLinks.LinkedDistinct | snman/graph_tools.py:236-248 | no two pairs get the same edge |
| ComponentLinks.LinkedCount | snman/graph_tools.py:236-248 | the edge count grows by one per pair |
| ComponentLinks.LinkedValues | snman/graph_tools.py:239-248 | `Linked`: original edges keep their attributes; each link carries only `LinkGeometry`, the line between the node points or the empty placeholder |
| ComponentLinks.ValuesStep | snman/graph_tools.py:239-248 | LinkedValues is kept by one more pair |
| ComponentLinks.ClusterLinkCount | snman/graph_tools.py:229-248 | a cluster with k components gets exactly k(k-1)/2 new edges |
| ComponentLinks.LinkPairs | snman/graph_tools.py:236-248 | the loop adds the links of Linked, nodes unchanged |
| ComponentLinks.Representatives | snman/graph_tools.py:230-234 | the loop builds Minima of the components |
| ComponentLinks.ConnectComponentsInCluster | snman/graph_tools.py:225-248 | with at most one node or one component nothing changes; otherwise the component minima are linked pairwise as Linked states, nodes unchanged |
| StreetGraphNode.HierarchyMember | snman/street_graph_node.py:7-8 | `HierarchiesAt`: a value (None for a missing `hierarchy`) is in the set iff some in- or out-edge of n carries it |
| StreetGraphNode.HierarchiesEmpty | snman/street_graph_node.py:7-9 | the set is empty iff no edge touches n |
| StreetGraphNode.HierarchyCount | snman/street_graph_node.py:7-8 | the set has no more values than n has edges; parallel edges with one value count once |
| StreetGraphNode.FewerValuesThanEdges | snman/street_graph_node.py:8 | a set of edges has no more hierarchy values than edges |
| StreetGraphNode.AddHierarchies | snman/street_graph_node.py:6-9 | node n's `hierarchies` becomes that set; edges, other nodes and n's other attributes are unchanged |

## Left out

- Lane widths and the derived statistics are not modelled: the `width` field of `_lane_properties` (`snman/lanes.py:244`) and `_generate_lane_stats_for_edge` with `prop_cyc` (`snman/lanes.py:205-228`). They need the width table of the constants module, which is not part of this model, and floating-point division.
- The per-edge drivers `generate_lanes`, `generate_lane_stats` and `update_osm_tags` (`snman/lanes.py:6-27`, `188-202`, `347-349`) are not modelled. They only apply the per-edge operations to every edge, in networkx iteration order.
- `_order_lanes` (`snman/lanes.py:443-445`) does nothing.
- String parsing of tag values is not modelled:
  - `int()` on the lane counts;
  - `oneway` values other than a boolean;
  - `split('|')` of the per-lane tags.
  Tags arrive typed. An unparsable `lanes` value, which raises in the source, cannot occur.
- An encode-then-decode round trip is not stated, because the source does not support one. The encoder writes None into `lanes`, which the decoder's `int()` cannot read. The decoder never reads `lanes:both_ways` or `cycleway:lane`.
- All shapely geometry work is not modelled: nearest point, buffer, split and substring. The split's result is a parameter of `SplitEdge`, and a geometry is an opaque point sequence. Where `_reverse_edge` skips an empty `LineString`, the model skips an empty sequence.
- The `''` placeholder geometry of the pairing step is modelled as the empty point sequence. `_split_edge` on such an edge raises in shapely's nearest-point search before changing the graph; `SplitEdge` returns `Raised` for it. The exception itself is not modelled.
- `split_through_edges_in_intersections` (`snman/graph_tools.py:166-212`) is not modelled: it is geopandas and osmnx plumbing over floating-point geometry.
- The cluster and component discovery of `connect_components_in_intersections` (`snman/graph_tools.py:217-227`) is not modelled. The cluster size and its weakly connected components are inputs of `ConnectComponentsInCluster`.
- `update_precalculated_attributes` (`snman/graph_tools.py:250-252`) is a single osmnx call and is not modelled.
- `cast_attributes_for_export` and `cast_attributes_for_import` (`snman/street_graph_node.py:12-21`) are not modelled. They use Python's `str()` of a set and `utils.object_from_string`, which is not part of this model.
- ComponentLinks.LinkGeometry: a node that has attributes but no coordinates raises an error in the source, when shapely builds a point from missing coordinates. The model gives such a link the empty placeholder instead.
- ComponentLinks.ConnectComponentsInCluster requires the components' nodes to be nodes of the graph, as networkx components of a subgraph always are.
- StreetGraphNode.AddHierarchies requires a directed graph. On an undirected networkx graph, `in_edges` does not exist and the call raises.
- EdgeLists.GetNeighbors takes the lists `graph.edges(nbunch=u)` and `graph.edges(nbunch=v)` as parameters.
  - The order networkx lists them in is not modelled.
  - Neither is the orientation an undirected graph reports them in.
  - For a directed graph the lists hold only the out-edges.
- StreetGraph.Graph.EdgeList lists every edge once in some order. It does not fix networkx's order, and so it leaves open which end an undirected edge is reported from: networkx reports it from the endpoint that comes first in node insertion order, which the model does not track.
- GraphTools.NormalizeEdgeDirections is stated over the listing it takes. On an undirected graph, which edges get their attributes flipped therefore depends on the node insertion order, which the model leaves open.
- GraphTools.ReverseEdge replaces the stored attributes where `set_edge_attributes` updates the stored dictionary with the given one. The two agree when the edge is passed with its stored attributes, as `normalize_edge_directions` and `_split_edge` pass it.
- GraphTools.ReverseEdge does not model aliasing. The source flips the caller's attribute dictionary in place, and `add_edge(**data)` copies it into the graph. The model returns the flipped attributes instead.
- GraphTools.SplitEdge does not assume that `len(nodes)` is a fresh node id. When that id is already in use, its node keeps its other attributes, and the node count does not grow.
- LaneEncoder.EdgeAttributes.UpdateOsmTags requires the value under the lane key, when present, to be a lane list; on any other value `_lane_stats` raises or iterates over something that is not a lane. It also requires every key to have one spelling: an owned key is never given as `OtherKey` with its name, since a Python dictionary has one entry per name.
- Python's exceptions for a malformed edge tuple are not modelled; an edge is always a well-formed `(u, v, key, data)` record.
