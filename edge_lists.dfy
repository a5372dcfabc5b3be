/** The edge-list helpers of `snman/graph_tools.py`: the textual hash of an
    edge's (u, v, key) triple and the order-preserving list filters keyed on
    it. An edge tuple `(u, v, key, data)` is a `StreetGraph.Edge`. */
module EdgeLists {
  import opened StreetGraph

  /** The decimal digit d as a character. */
  function DigitChar(d: nat): (c: char)
    requires d < 10
    ensures '0' <= c <= '9' && c as int - '0' as int == d
  {
    ('0' as int + d) as char
  }

  predicate AllDigits(s: string) {
    forall i :: 0 <= i < |s| ==> '0' <= s[i] <= '9'
  }

  /** Python's `str` of a non-negative integer: its decimal digits, without
      leading zeros. */
  function NatToString(n: nat): (s: string)
    ensures |s| > 0 && AllDigits(s)
    ensures n >= 10 ==> s[0] != '0'
  {
    if n < 10 then [DigitChar(n)] else NatToString(n / 10) + [DigitChar(n % 10)]
  }

  /** The value of a string of decimal digits. */
  function ParseDecimal(s: string): nat
    requires AllDigits(s)
  {
    if |s| == 0 then 0 else ParseDecimal(s[..|s| - 1]) * 10 + (s[|s| - 1] as int - '0' as int)
  }

  /** Reading the decimal text of n back gives n. */
  lemma {:induction false} ParseNatToString(n: nat)
    ensures ParseDecimal(NatToString(n)) == n
  {
    if n >= 10 {
      var s := NatToString(n);
      assert s[..|s| - 1] == NatToString(n / 10);
      ParseNatToString(n / 10);
    }
  }

  /** Two numbers with the same decimal text are equal. */
  lemma NatToStringInjective(a: nat, b: nat)
    ensures NatToString(a) == NatToString(b) <==> a == b
  {
    ParseNatToString(a);
    ParseNatToString(b);
  }

  predicate NoDash(s: string) {
    forall i :: 0 <= i < |s| ==> s[i] != '-'
  }

  /** In a joined string the first dash follows the first part. */
  lemma DashAfter(a: string, b: string)
    requires NoDash(a)
    ensures forall i :: 0 <= i < |a| ==> (a + "-" + b)[i] != '-'
    ensures (a + "-" + b)[|a|] == '-'
  {
  }

  /** A string joined to another with a dash splits back at the first dash
      when the first part has none. */
  lemma SplitAtDash(a1: string, b1: string, a2: string, b2: string)
    requires NoDash(a1) && NoDash(a2)
    requires a1 + "-" + b1 == a2 + "-" + b2
    ensures a1 == a2 && b1 == b2
  {
    var s := a1 + "-" + b1;
    DashAfter(a1, b1);
    DashAfter(a2, b2);
    assert |a1| == |a2|;
    assert a1 == s[..|a1|] == a2;
    assert b1 == s[|a1| + 1..] == b2;
  }

  /** `_edge_hash(edge)`: u, v and key in decimal, joined with dashes. */
  function EdgeHash(e: Edge): string {
    NatToString(e.u) + "-" + NatToString(e.v) + "-" + NatToString(e.key)
  }

  /** Two edges have the same hash exactly when they have the same (u, v,
      key) triple, so the filters below key on the triple. */
  lemma EdgeHashInjective(e1: Edge, e2: Edge)
    ensures EdgeHash(e1) == EdgeHash(e2) <==> e1.Id() == e2.Id()
  {
    if EdgeHash(e1) == EdgeHash(e2) {
      var u1, v1, k1 := NatToString(e1.u), NatToString(e1.v), NatToString(e1.key);
      var u2, v2, k2 := NatToString(e2.u), NatToString(e2.v), NatToString(e2.key);
      assert EdgeHash(e1) == u1 + "-" + (v1 + "-" + k1);
      assert EdgeHash(e2) == u2 + "-" + (v2 + "-" + k2);
      SplitAtDash(u1, v1 + "-" + k1, u2, v2 + "-" + k2);
      SplitAtDash(v1, k1, v2, k2);
      NatToStringInjective(e1.u, e2.u);
      NatToStringInjective(e1.v, e2.v);
      NatToStringInjective(e1.key, e2.key);
    }
  }

  /** a is a subsequence of b: b with some elements left out, in the same
      order. */
  predicate IsSubsequence<T(==)>(a: seq<T>, b: seq<T>)
    decreases |b|
  {
    |a| == 0 ||
    (|b| > 0 &&
     ((a[|a| - 1] == b[|b| - 1] && IsSubsequence(a[..|a| - 1], b[..|b| - 1])) || IsSubsequence(a, b[..|b| - 1])))
  }

  /** A subsequence holds each element at most as often as the sequence. */
  lemma {:induction false} SubsequenceCounts<T>(a: seq<T>, b: seq<T>)
    requires IsSubsequence(a, b)
    ensures multiset(a) <= multiset(b)
    decreases |b|
  {
    if |a| > 0 {
      var b' := b[..|b| - 1];
      assert b == b' + [b[|b| - 1]];
      if a[|a| - 1] == b[|b| - 1] && IsSubsequence(a[..|a| - 1], b') {
        SubsequenceCounts(a[..|a| - 1], b');
        assert a == a[..|a| - 1] + [a[|a| - 1]];
      } else {
        SubsequenceCounts(a, b');
      }
    }
  }

  /** Whether `_remove_edge_from_list` keeps the candidate: its hash differs
      from the removed edge's and, when dead ends are excluded, it is not a
      dead end. */
  predicate KeptCandidate(c: Edge, toRemove: Edge, deadEnds: bool) {
    EdgeHash(c) != EdgeHash(toRemove) && !(!deadEnds && c.data.deadEnd)
  }

  /** The list `_remove_edge_from_list` returns. */
  function Remaining(edges: seq<Edge>, toRemove: Edge, deadEnds: bool): seq<Edge> {
    if |edges| == 0 then []
    else
      var last := edges[|edges| - 1];
      Remaining(edges[..|edges| - 1], toRemove, deadEnds) + if KeptCandidate(last, toRemove, deadEnds) then [last] else []
  }

  /** `_remove_edge_from_list(edges, edge_to_remove, dead_ends)`. */
  method RemoveEdgeFromList(edges: seq<Edge>, toRemove: Edge, deadEnds: bool) returns (cleaned: seq<Edge>)
    ensures cleaned == Remaining(edges, toRemove, deadEnds)
  {
    cleaned := [];
    for i := 0 to |edges|
      invariant cleaned == Remaining(edges[..i], toRemove, deadEnds)
    {
      assert edges[..i + 1][..i] == edges[..i];
      if EdgeHash(edges[i]) != EdgeHash(toRemove) && !(!deadEnds && edges[i].data.deadEnd) {
        cleaned := cleaned + [edges[i]];
      }
    }
    assert edges[..|edges|] == edges;
  }

  /** The kept entries keep their order. */
  lemma {:induction false} RemainingSubsequence(edges: seq<Edge>, toRemove: Edge, deadEnds: bool)
    ensures IsSubsequence(Remaining(edges, toRemove, deadEnds), edges)
  {
    if |edges| > 0 {
      var p := edges[..|edges| - 1];
      RemainingSubsequence(p, toRemove, deadEnds);
      var r := Remaining(edges, toRemove, deadEnds);
      if KeptCandidate(edges[|edges| - 1], toRemove, deadEnds) {
        assert r[..|r| - 1] == Remaining(p, toRemove, deadEnds);
        assert r[|r| - 1] == edges[|edges| - 1];
      } else {
        assert r == Remaining(p, toRemove, deadEnds);
      }
      assert IsSubsequence(r, edges);
    }
  }

  /** Exactly the entries with another (u, v, key) triple, and when dead
      ends are excluded not a dead end, are kept, each as often as it was
      listed. */
  lemma {:induction false} RemainingCounts(edges: seq<Edge>, toRemove: Edge, deadEnds: bool, c: Edge)
    ensures multiset(Remaining(edges, toRemove, deadEnds))[c] ==
            if c.Id() != toRemove.Id() && (deadEnds || !c.data.deadEnd) then multiset(edges)[c] else 0
  {
    EdgeHashInjective(c, toRemove);
    if |edges| > 0 {
      var p := edges[..|edges| - 1];
      assert edges == p + [edges[|edges| - 1]];
      RemainingCounts(p, toRemove, deadEnds, c);
    }
  }

  /** Filtering a concatenation filters each part. */
  lemma {:induction false} RemainingConcat(a: seq<Edge>, b: seq<Edge>, toRemove: Edge, deadEnds: bool)
    ensures Remaining(a + b, toRemove, deadEnds) == Remaining(a, toRemove, deadEnds) + Remaining(b, toRemove, deadEnds)
    decreases |b|
  {
    if |b| == 0 {
      assert a + b == a;
    } else {
      var b' := b[..|b| - 1];
      assert (a + b)[..|a + b| - 1] == a + b';
      RemainingConcat(a, b', toRemove, deadEnds);
    }
  }

  /** The (u, v, key) triples of the edges listed. */
  function Ids(s: seq<Edge>): set<EdgeId> {
    set e | e in s :: e.Id()
  }

  /** The hashes of the edges listed. */
  function Hashes(s: seq<Edge>): set<string> {
    set e | e in s :: EdgeHash(e)
  }

  lemma IdsAppend(s: seq<Edge>, e: Edge)
    ensures Ids(s + [e]) == Ids(s) + {e.Id()}
  {
    assert forall c :: c in s + [e] <==> c in s || c == e;
  }

  lemma HashesAppend(s: seq<Edge>, e: Edge)
    ensures Hashes(s + [e]) == Hashes(s) + {EdgeHash(e)}
  {
    assert forall c :: c in s + [e] <==> c in s || c == e;
  }

  /** The list `_unique_edges` returns: each entry whose triple was not
      listed before it. */
  function Unique(s: seq<Edge>): seq<Edge> {
    if |s| == 0 then []
    else
      var p := s[..|s| - 1];
      Unique(p) + if s[|s| - 1].Id() in Ids(p) then [] else [s[|s| - 1]]
  }

  /** An edge's hash has been seen exactly when its triple has. */
  lemma HashSeen(s: seq<Edge>, e: Edge)
    ensures EdgeHash(e) in Hashes(s) <==> e.Id() in Ids(s)
  {
    if EdgeHash(e) in Hashes(s) {
      var c :| c in s && EdgeHash(c) == EdgeHash(e);
      EdgeHashInjective(c, e);
    }
    if e.Id() in Ids(s) {
      var c :| c in s && c.Id() == e.Id();
      EdgeHashInjective(c, e);
    }
  }

  /** `_unique_edges(edges)`: a seen-set of hashes, an entry appended when
      its hash is new. */
  method UniqueEdges(edges: seq<Edge>) returns (unique: seq<Edge>)
    ensures unique == Unique(edges)
  {
    unique := [];
    var hashes: set<string> := {};
    for i := 0 to |edges|
      invariant unique == Unique(edges[..i])
      invariant hashes == Hashes(edges[..i])
    {
      var p := edges[..i];
      assert edges[..i + 1] == p + [edges[i]];
      assert edges[..i + 1][..i] == p;
      var thisHash := EdgeHash(edges[i]);
      HashSeen(p, edges[i]);
      HashesAppend(p, edges[i]);
      if thisHash !in hashes {
        unique := unique + [edges[i]];
      }
      hashes := hashes + {thisHash};
    }
    assert edges[..|edges|] == edges;
  }

  /** The unique entries keep their order. */
  lemma {:induction false} UniqueSubsequence(s: seq<Edge>)
    ensures IsSubsequence(Unique(s), s)
  {
    if |s| > 0 {
      var p := s[..|s| - 1];
      UniqueSubsequence(p);
      var r := Unique(s);
      if s[|s| - 1].Id() !in Ids(p) {
        assert r[..|r| - 1] == Unique(p);
        assert r[|r| - 1] == s[|s| - 1];
      } else {
        assert r == Unique(p);
      }
      assert IsSubsequence(r, s);
    }
  }

  /** Every triple listed is kept. */
  lemma {:induction false} UniqueCovers(s: seq<Edge>)
    ensures Ids(Unique(s)) == Ids(s)
  {
    if |s| > 0 {
      var p := s[..|s| - 1];
      UniqueCovers(p);
      assert s == p + [s[|s| - 1]];
      IdsAppend(p, s[|s| - 1]);
      IdsAppend(Unique(p), s[|s| - 1]);
    }
  }

  /** No triple is kept twice. */
  lemma {:induction false} UniqueDistinct(s: seq<Edge>)
    ensures forall i, j :: 0 <= i < j < |Unique(s)| ==> Unique(s)[i].Id() != Unique(s)[j].Id()
  {
    if |s| > 0 {
      var p := s[..|s| - 1];
      UniqueDistinct(p);
      UniqueCovers(p);
      var r := Unique(s);
      if s[|s| - 1].Id() !in Ids(p) {
        forall i | 0 <= i < |r| - 1
          ensures r[i].Id() != r[|r| - 1].Id()
        {
          assert r[i] in Unique(p);
        }
      }
    }
  }

  /** Whether the entry at i is the first listed with its triple. */
  predicate FirstOccurrence(s: seq<Edge>, i: int)
    requires 0 <= i < |s|
  {
    forall j :: 0 <= j < i ==> s[j].Id() != s[i].Id()
  }

  /** The entry kept for each triple is its first occurrence. */
  lemma {:induction false} UniqueKeepsFirst(s: seq<Edge>)
    ensures forall i :: 0 <= i < |s| && FirstOccurrence(s, i) ==> s[i] in Unique(s)
  {
    if |s| > 0 {
      var p := s[..|s| - 1];
      UniqueKeepsFirst(p);
      forall i | 0 <= i < |s| && FirstOccurrence(s, i)
        ensures s[i] in Unique(s)
      {
        if i < |p| {
          assert FirstOccurrence(p, i);
        } else {
          forall c | c in p
            ensures c.Id() != s[i].Id()
          {
            var j :| 0 <= j < |p| && p[j] == c;
          }
        }
      }
    }
  }

  /** A list without repeated triples is its own unique list. */
  lemma {:induction false} UniqueOfDistinct(s: seq<Edge>)
    requires forall i, j :: 0 <= i < j < |s| ==> s[i].Id() != s[j].Id()
    ensures Unique(s) == s
  {
    if |s| > 0 {
      var p := s[..|s| - 1];
      UniqueOfDistinct(p);
      forall c | c in p
        ensures c.Id() != s[|s| - 1].Id()
      {
        var j :| 0 <= j < |p| && p[j] == c;
        assert s[j] == c;
      }
      assert s == p + [s[|s| - 1]];
    }
  }

  /** `_unique_edges` applied twice changes nothing more. */
  lemma UniqueIdempotent(s: seq<Edge>)
    ensures Unique(Unique(s)) == Unique(s)
  {
    UniqueDistinct(s);
    UniqueOfDistinct(Unique(s));
  }

  /** Whether `_get_neighbors` reports the incident entry c as a neighbor
      of edge: another (u, v, key) triple and, when dead ends are excluded,
      not a dead end. */
  predicate Neighboring(c: Edge, edge: Edge, deadEnds: bool) {
    c.Id() != edge.Id() && (deadEnds || !c.data.deadEnd)
  }

  lemma KeptIsNeighboring(c: Edge, edge: Edge, deadEnds: bool)
    ensures KeptCandidate(c, edge, deadEnds) <==> Neighboring(c, edge, deadEnds)
  {
    EdgeHashInjective(c, edge);
  }

  /** Whether the entry at i is a neighbor and no earlier neighbor entry has
      its triple. */
  predicate FirstNeighboring(s: seq<Edge>, i: int, edge: Edge, deadEnds: bool)
    requires 0 <= i < |s|
  {
    Neighboring(s[i], edge, deadEnds) &&
    forall j :: 0 <= j < i && Neighboring(s[j], edge, deadEnds) ==> s[j].Id() != s[i].Id()
  }

  /** What `_get_neighbors` promises of each of its lists, given what the
      incident-edge query listed: neighbor entries of the query in the
      query's order, each triple once, every such triple present, and the
      entry kept for a triple the first listed with it. */
  predicate NeighborList(r: seq<Edge>, incident: seq<Edge>, edge: Edge, deadEnds: bool) {
    && IsSubsequence(r, incident)
    && (forall i :: 0 <= i < |r| ==> Neighboring(r[i], edge, deadEnds))
    && (forall i, j :: 0 <= i < j < |r| ==> r[i].Id() != r[j].Id())
    && (forall c :: c in incident && Neighboring(c, edge, deadEnds) ==> c.Id() in Ids(r))
    && (forall i :: 0 <= i < |incident| && FirstNeighboring(incident, i, edge, deadEnds) ==> incident[i] in r)
  }

  /** Being a subsequence is transitive. */
  lemma {:induction false} SubsequenceTransitive<T>(a: seq<T>, b: seq<T>, c: seq<T>)
    requires IsSubsequence(a, b) && IsSubsequence(b, c)
    ensures IsSubsequence(a, c)
    decreases |c|
  {
    if |a| > 0 {
      var a', b', c' := a[..|a| - 1], b[..|b| - 1], c[..|c| - 1];
      if b[|b| - 1] == c[|c| - 1] && IsSubsequence(b', c') {
        if a[|a| - 1] == b[|b| - 1] && IsSubsequence(a', b') {
          SubsequenceTransitive(a', b', c');
        } else {
          SubsequenceTransitive(a, b', c');
        }
      } else {
        SubsequenceTransitive(a, b, c');
      }
    }
  }

  /** Filtering and then dropping repeated triples keeps the first neighbor
      entry of each triple. */
  lemma {:induction false} UniqueRemainingKeepsFirst(s: seq<Edge>, edge: Edge, deadEnds: bool)
    ensures forall i :: 0 <= i < |s| && FirstNeighboring(s, i, edge, deadEnds) ==> s[i] in Unique(Remaining(s, edge, deadEnds))
  {
    if |s| > 0 {
      var p := s[..|s| - 1];
      UniqueRemainingKeepsFirst(p, edge, deadEnds);
      var kp, ks := Remaining(p, edge, deadEnds), Remaining(s, edge, deadEnds);
      UniqueRemainingGrows(s, edge, deadEnds);
      forall i | 0 <= i < |p| && FirstNeighboring(s, i, edge, deadEnds)
        ensures s[i] in Unique(ks)
      {
        assert FirstNeighboring(p, i, edge, deadEnds);
      }
      if FirstNeighboring(s, |p|, edge, deadEnds) {
        LastNotSeen(s, edge, deadEnds);
      }
    }
  }

  /** One more entry in the input drops nothing from the result. */
  lemma UniqueRemainingGrows(s: seq<Edge>, edge: Edge, deadEnds: bool)
    requires |s| > 0
    ensures forall c :: c in Unique(Remaining(s[..|s| - 1], edge, deadEnds)) ==> c in Unique(Remaining(s, edge, deadEnds))
  {
    var kp, ks := Remaining(s[..|s| - 1], edge, deadEnds), Remaining(s, edge, deadEnds);
    if KeptCandidate(s[|s| - 1], edge, deadEnds) {
      assert ks == kp + [s[|s| - 1]];
      assert ks[..|ks| - 1] == kp;
    } else {
      assert ks == kp;
    }
  }

  /** The first neighbor entry of a triple, listed last, is new to the
      entries kept before it, and so is kept. */
  lemma LastNotSeen(s: seq<Edge>, edge: Edge, deadEnds: bool)
    requires |s| > 0 && FirstNeighboring(s, |s| - 1, edge, deadEnds)
    ensures s[|s| - 1] in Unique(Remaining(s, edge, deadEnds))
  {
    var p := s[..|s| - 1];
    var kp, ks := Remaining(p, edge, deadEnds), Remaining(s, edge, deadEnds);
    KeptIsNeighboring(s[|s| - 1], edge, deadEnds);
    assert ks == kp + [s[|s| - 1]];
    assert ks[..|ks| - 1] == kp;
    forall c | c in kp
      ensures c.Id() != s[|s| - 1].Id()
    {
      assert multiset(kp)[c] > 0;
      RemainingCounts(p, edge, deadEnds, c);
      var j :| 0 <= j < |p| && p[j] == c;
      assert s[j] == c;
    }
  }

  /** Filtering and then dropping repeated triples gives a neighbor list. */
  lemma UniqueRemainingIsNeighborList(s: seq<Edge>, edge: Edge, deadEnds: bool)
    ensures NeighborList(Unique(Remaining(s, edge, deadEnds)), s, edge, deadEnds)
  {
    var kept := Remaining(s, edge, deadEnds);
    var r := Unique(kept);
    UniqueSubsequence(kept);
    RemainingSubsequence(s, edge, deadEnds);
    SubsequenceTransitive(r, kept, s);
    UniqueDistinct(kept);
    UniqueRemainingNeighboring(s, edge, deadEnds);
    UniqueRemainingCovers(s, edge, deadEnds);
    UniqueRemainingKeepsFirst(s, edge, deadEnds);
  }

  /** Every entry kept is a neighbor. */
  lemma UniqueRemainingNeighboring(s: seq<Edge>, edge: Edge, deadEnds: bool)
    ensures forall c :: c in Unique(Remaining(s, edge, deadEnds)) ==> Neighboring(c, edge, deadEnds)
  {
    var kept := Remaining(s, edge, deadEnds);
    var r := Unique(kept);
    UniqueSubsequence(kept);
    SubsequenceCounts(r, kept);
    forall c | c in r
      ensures Neighboring(c, edge, deadEnds)
    {
      assert multiset(r)[c] > 0;
      RemainingCounts(s, edge, deadEnds, c);
    }
  }

  /** Every neighbor triple of the input is kept. */
  lemma UniqueRemainingCovers(s: seq<Edge>, edge: Edge, deadEnds: bool)
    ensures forall c :: c in s && Neighboring(c, edge, deadEnds) ==> c.Id() in Ids(Unique(Remaining(s, edge, deadEnds)))
  {
    var kept := Remaining(s, edge, deadEnds);
    UniqueCovers(kept);
    forall c | c in s && Neighboring(c, edge, deadEnds)
      ensures c.Id() in Ids(kept)
    {
      RemainingCounts(s, edge, deadEnds, c);
      assert c in kept;
    }
  }

  /** The three lists `_get_neighbors` returns. */
  datatype Neighbors = Neighbors(atU: seq<Edge>, atV: seq<Edge>, atEither: seq<Edge>)

  /** `_get_neighbors(graph, edge, dead_ends)`, given what `graph.edges`
      lists at u and at v: the edges there other than this one, each once,
      at u, at v, and at either end. */
  method GetNeighbors(uEdges: seq<Edge>, vEdges: seq<Edge>, edge: Edge, deadEnds: bool) returns (r: Neighbors)
    ensures r.atU == Unique(Remaining(uEdges, edge, deadEnds))
    ensures r.atV == Unique(Remaining(vEdges, edge, deadEnds))
    ensures r.atEither == Unique(Remaining(uEdges + vEdges, edge, deadEnds))
    ensures NeighborList(r.atU, uEdges, edge, deadEnds)
    ensures NeighborList(r.atV, vEdges, edge, deadEnds)
    ensures NeighborList(r.atEither, uEdges + vEdges, edge, deadEnds)
  {
    var uNeighbors := RemoveEdgeFromList(uEdges, edge, deadEnds);
    var vNeighbors := RemoveEdgeFromList(vEdges, edge, deadEnds);
    var atU := UniqueEdges(uNeighbors);
    var atV := UniqueEdges(vNeighbors);
    var atEither := UniqueEdges(uNeighbors + vNeighbors);
    r := Neighbors(atU, atV, atEither);
    UniqueRemainingIsNeighborList(uEdges, edge, deadEnds);
    UniqueRemainingIsNeighborList(vEdges, edge, deadEnds);
    RemainingConcat(uEdges, vEdges, edge, deadEnds);
    UniqueRemainingIsNeighborList(uEdges + vEdges, edge, deadEnds);
  }
}
