/** `_generate_lanes_for_edge`: the lane list of an edge, inferred from its
    OpenStreetMap-style tags. */
module LaneDecoder {
  import opened Common
  import opened Lanes

  /** The tags the decoder reads, already parsed. A missing tag is `None`;
      `oneway` and the reversed flag are `false` when missing. The pipe
      separated per-lane tags are given as their token lists, a missing tag
      as the empty list. */
  datatype Tags = Tags(
    lanes: Option<int>,
    lanesForward: Option<int>,
    lanesBackward: Option<int>,
    oneway: bool,
    highway: Option<string>,
    access: Option<string>,
    psv: Option<string>,
    bus: Option<string>,
    bicycle: Option<string>,
    cycleway: Option<string>,
    cyclewayLeft: Option<string>,
    cyclewayRight: Option<string>,
    cyclewayBoth: Option<string>,
    busLanesForward: seq<string>,
    busLanesBackward: seq<string>,
    vehicleLanesForward: seq<string>,
    vehicleLanesBackward: seq<string>,
    reversed: bool)

  const NoTags := Tags(None, None, None, false, None, None, None, None, None,
                       None, None, None, None, [], [], [], [], false)

  /** Ways that carry only cyclists and pedestrians. */
  predicate IsPathHighway(t: Tags) {
    t.highway.Some? && t.highway.value in {"footway", "path", "track", "cycleway", "pedestrian"}
  }

  predicate IsCyclingPath(t: Tags) {
    t.bicycle == Some("yes") || t.bicycle == Some("designated") || t.highway == Some("cycleway")
  }

  /** A service road or a road closed to general access that buses may use. */
  predicate IsDedicatedPt(t: Tags) {
    (t.highway == Some("service") || t.access == Some("no")) && (t.psv == Some("yes") || t.bus == Some("yes"))
  }

  predicate HasLeftCyclingLane(t: Tags) {
    t.cyclewayLeft == Some("lane") || t.cyclewayBoth == Some("lane") || t.cycleway == Some("lane")
  }

  predicate HasRightCyclingLane(t: Tags) {
    t.cyclewayRight == Some("lane") || t.cyclewayBoth == Some("lane") || t.cycleway == Some("lane")
  }

  /** The direction the decoder writes for "forward": swapped when the edge
      was reversed. */
  function ForwardOf(t: Tags): Direction {
    if t.reversed then Backward else Forward
  }

  function BackwardOf(t: Tags): Direction {
    Opposite(ForwardOf(t))
  }

  function Max(a: int, b: int): int {
    if a < b then b else a
  }

  /** Lane counts per direction before they are split into private and
      public transport. */
  datatype LaneCounts = LaneCounts(total: int, forward: int, backward: int, both: int)

  function CountsOf(t: Tags): (c: LaneCounts)
    ensures c.both == (if c.total == 1 && !t.oneway then 1 else 0)
    ensures c.total > 0 && t.oneway ==> c.forward == c.total
  {
    var n := t.lanes.GetOr(1);
    var f0 := t.lanesForward.GetOr(0);
    var b0 := t.lanesBackward.GetOr(0);
    var f1 := if f0 + b0 != n && n > 1 && !t.oneway then n / 2 else f0;
    var b1 := if f0 + b0 != n && n > 1 && !t.oneway then (n + 1) / 2 else b0;
    var both := if n == 1 && !t.oneway then 1 else 0;
    var f2 := if n > 0 && t.oneway then n else f1;
    LaneCounts(n, f2, b1, both)
  }

  datatype TypedCounts = TypedCounts(
    motorizedForward: int, motorizedBackward: int, motorizedBoth: int,
    ptForward: int, ptBackward: int, ptBoth: int)

  function TypedCountsOf(t: Tags): (k: TypedCounts)
    ensures IsDedicatedPt(t) ==>
              k.motorizedForward == 0 && k.motorizedBackward == 0 && k.motorizedBoth == 0
              && k.ptForward >= 1 && k.ptBackward >= 1 && k.ptBoth == 0
    ensures !IsDedicatedPt(t) ==> k.ptForward == 0 && k.ptBackward == 0 && k.ptBoth == 0
  {
    var c := CountsOf(t);
    if IsDedicatedPt(t) then
      TypedCounts(0, 0, 0, Max(c.forward, 1), Max(c.backward, 1), 0)
    else
      TypedCounts(c.forward, c.backward, c.both, 0, 0, 0)
  }

  /** Python's `[lane] * n`: empty when n is not positive. */
  function Repeat(l: Lane, n: int): seq<Lane> {
    seq(if n < 0 then 0 else n, _ => l)
  }

  /** The five lists the decoder fills, from left to right across the edge. */
  datatype Buckets = Buckets(left: seq<Lane>, backward: seq<Lane>, both: seq<Lane>,
                             forward: seq<Lane>, right: seq<Lane>)

  function InitialBuckets(t: Tags): Buckets {
    var fwd := ForwardOf(t);
    var bwd := BackwardOf(t);
    if IsPathHighway(t) then
      if IsCyclingPath(t) then
        if t.oneway then Buckets([], [], [], [Lane(CyclingTrack, fwd)], [])
        else Buckets([], [Lane(CyclingTrack, Both)], [], [], [])
      else Buckets([], [], [Lane(Foot, Both)], [], [])
    else
      var k := TypedCountsOf(t);
      Buckets(
        if HasLeftCyclingLane(t) then [Lane(CyclingLane, bwd)] else [],
        Repeat(Lane(Motorized, bwd), k.motorizedBackward) + Repeat(Lane(DedicatedPt, bwd), k.ptBackward),
        Repeat(Lane(DedicatedPt, Both), k.ptBoth) + Repeat(Lane(Motorized, Both), k.motorizedBoth),
        Repeat(Lane(DedicatedPt, fwd), k.ptForward) + Repeat(Lane(Motorized, fwd), k.motorizedForward),
        if HasRightCyclingLane(t) then [Lane(CyclingLane, fwd)] else [])
  }

  /** One override pass: position i of the bucket becomes a public transport
      lane in direction d exactly when token i is the marker; tokens beyond
      the bucket are ignored. */
  function Override(bucket: seq<Lane>, tokens: seq<string>, marker: string, d: Direction): seq<Lane> {
    seq(|bucket|, i requires 0 <= i < |bucket| =>
      if i < |tokens| && tokens[i] == marker then Lane(DedicatedPt, d) else bucket[i])
  }

  /** The forward bucket after the `bus:lanes:forward` and `vehicle:lanes:forward` passes. */
  function ForwardOverridden(t: Tags, bucket: seq<Lane>): seq<Lane> {
    Override(Override(bucket, t.busLanesForward, "designated", ForwardOf(t)),
             t.vehicleLanesForward, "no", ForwardOf(t))
  }

  /** The backward bucket after the backward passes; their token lists are
      read from the right. */
  function BackwardOverridden(t: Tags, bucket: seq<Lane>): seq<Lane> {
    Override(Override(bucket, Reverse(t.busLanesBackward), "designated", BackwardOf(t)),
             Reverse(t.vehicleLanesBackward), "no", BackwardOf(t))
  }

  /** The decoded lane list. */
  function Decode(t: Tags): seq<Lane> {
    var b := InitialBuckets(t);
    b.left + BackwardOverridden(t, b.backward) + b.both + ForwardOverridden(t, b.forward) + b.right
  }

  /** One override loop of the decoder, rewriting the bucket entry by entry. */
  method ApplyOverride(bucket: seq<Lane>, tokens: seq<string>, marker: string, d: Direction)
    returns (r: seq<Lane>)
    ensures r == Override(bucket, tokens, marker, d)
  {
    r := bucket;
    for i := 0 to |tokens|
      invariant |r| == |bucket|
      invariant forall j :: 0 <= j < |r| ==>
                  r[j] == (if j < i && tokens[j] == marker then Lane(DedicatedPt, d) else bucket[j])
    {
      if tokens[i] == marker && i < |r| {
        r := r[i := Lane(DedicatedPt, d)];
      }
    }
  }

  /** Lines 60-102 of the decoder: the lane counts per direction, split
      into private and public transport. */
  method CountLanes(t: Tags) returns (k: TypedCounts)
    ensures k == TypedCountsOf(t)
  {
    var n := t.lanes.GetOr(1);
    var nForward := t.lanesForward.GetOr(0);
    var nBackward := t.lanesBackward.GetOr(0);
    var nBoth := 0;

    if nForward + nBackward == n {
    } else if n > 1 && !t.oneway {
      nForward := n / 2;
      nBackward := (n + 1) / 2;
    }
    if n == 1 && !t.oneway {
      nBoth := 1;
    }
    if n > 0 && t.oneway {
      nForward := n;
    }
    assert LaneCounts(n, nForward, nBackward, nBoth) == CountsOf(t);
    if IsDedicatedPt(t) {
      k := TypedCounts(0, 0, 0, Max(nForward, 1), Max(nBackward, 1), 0);
    } else {
      k := TypedCounts(nForward, nBackward, nBoth, 0, 0, 0);
    }
  }

  /** Lines 104-135 of the decoder: the five lists before the overrides. */
  method FillBuckets(t: Tags, k: TypedCounts, fwd: Direction, bwd: Direction) returns (b: Buckets)
    requires k == TypedCountsOf(t) && fwd == ForwardOf(t) && bwd == BackwardOf(t)
    ensures b == InitialBuckets(t)
  {
    var left, backward, both, forward, right := [], [], [], [], [];
    if IsPathHighway(t) {
      if IsCyclingPath(t) {
        if t.oneway {
          forward := forward + [Lane(CyclingTrack, fwd)];
        } else {
          backward := backward + [Lane(CyclingTrack, Both)];
        }
      } else {
        both := both + [Lane(Foot, Both)];
      }
    } else {
      if HasLeftCyclingLane(t) {
        left := left + [Lane(CyclingLane, bwd)];
      }
      if HasRightCyclingLane(t) {
        right := right + [Lane(CyclingLane, fwd)];
      }
      backward := backward + Repeat(Lane(Motorized, bwd), k.motorizedBackward);
      backward := backward + Repeat(Lane(DedicatedPt, bwd), k.ptBackward);
      both := both + Repeat(Lane(DedicatedPt, Both), k.ptBoth);
      both := both + Repeat(Lane(Motorized, Both), k.motorizedBoth);
      forward := forward + Repeat(Lane(DedicatedPt, fwd), k.ptForward);
      forward := forward + Repeat(Lane(Motorized, fwd), k.motorizedForward);
    }
    b := Buckets(left, backward, both, forward, right);
  }

  /** `_generate_lanes_for_edge`: counts, fills the lists, then runs the four
      override loops over the forward and backward lists. */
  method GenerateLanesForEdge(t: Tags) returns (lanes: seq<Lane>)
    ensures lanes == Decode(t)
  {
    var fwd, bwd := Forward, Backward;
    if t.reversed {
      fwd, bwd := Backward, Forward;
    }
    var k := CountLanes(t);
    var b := FillBuckets(t, k, fwd, bwd);
    var forward, backward := b.forward, b.backward;

    var busBackward := Reverse(t.busLanesBackward);
    forward := ApplyOverride(forward, t.busLanesForward, "designated", fwd);
    backward := ApplyOverride(backward, busBackward, "designated", bwd);

    var vehicleBackward := Reverse(t.vehicleLanesBackward);
    forward := ApplyOverride(forward, t.vehicleLanesForward, "no", fwd);
    backward := ApplyOverride(backward, vehicleBackward, "no", bwd);

    lanes := b.left + backward + b.both + forward + b.right;
  }

  // Properties of the decoder

  /** The decoded list before the override passes. */
  function Assemble(b: Buckets): seq<Lane> {
    b.left + b.backward + b.both + b.forward + b.right
  }

  predicate NoOverrides(t: Tags) {
    && "designated" !in t.busLanesForward && "designated" !in t.busLanesBackward
    && "no" !in t.vehicleLanesForward && "no" !in t.vehicleLanesBackward
  }

  predicate NoCyclingLanes(t: Tags) {
    !HasLeftCyclingLane(t) && !HasRightCyclingLane(t)
  }

  /** True when the first token of a per-lane tag is the marker. */
  predicate MarksFirst(tokens: seq<string>, marker: string) {
    |tokens| > 0 && tokens[0] == marker
  }

  lemma OverrideWithoutMarker(bucket: seq<Lane>, tokens: seq<string>, marker: string, d: Direction)
    requires marker !in tokens
    ensures Override(bucket, tokens, marker, d) == bucket
  {
  }

  lemma DecodeWithoutOverrides(t: Tags)
    requires NoOverrides(t)
    ensures Decode(t) == Assemble(InitialBuckets(t))
  {
    var b := InitialBuckets(t);
    assert "designated" !in Reverse(t.busLanesBackward);
    assert "no" !in Reverse(t.vehicleLanesBackward);
    OverrideWithoutMarker(b.forward, t.busLanesForward, "designated", ForwardOf(t));
    OverrideWithoutMarker(b.forward, t.vehicleLanesForward, "no", ForwardOf(t));
    OverrideWithoutMarker(b.backward, Reverse(t.busLanesBackward), "designated", BackwardOf(t));
    OverrideWithoutMarker(b.backward, Reverse(t.vehicleLanesBackward), "no", BackwardOf(t));
  }

  /** An edge without any tag is one motorized lane usable in both directions. */
  lemma DecodeNoTags()
    ensures Decode(NoTags) == [Lane(Motorized, Both)]
  {
    DecodeWithoutOverrides(NoTags);
  }

  /** `lanes=n` on a oneway road gives n forward motorized lanes; a
      `lanes:backward` tag still adds its own backward lanes. */
  lemma DecodeOneway(t: Tags, n: int)
    requires t.lanes == Some(n) && n > 0 && t.oneway && !t.reversed
    requires !IsPathHighway(t) && !IsDedicatedPt(t) && NoCyclingLanes(t) && NoOverrides(t)
    ensures Decode(t) == Repeat(Lane(Motorized, Backward), t.lanesBackward.GetOr(0))
                         + Repeat(Lane(Motorized, Forward), n)
  {
    DecodeWithoutOverrides(t);
  }

  /** More than one lane on a two-way road without a consistent
      forward/backward split: floor(n/2) forward and ceil(n/2) backward lanes,
      the backward ones listed first. */
  lemma DecodeTwoWaySplit(t: Tags, n: int)
    requires t.lanes == Some(n) && n > 1 && !t.oneway && !t.reversed
    requires t.lanesForward.GetOr(0) + t.lanesBackward.GetOr(0) != n
    requires !IsPathHighway(t) && !IsDedicatedPt(t) && NoCyclingLanes(t) && NoOverrides(t)
    ensures Decode(t) == Repeat(Lane(Motorized, Backward), (n + 1) / 2)
                         + Repeat(Lane(Motorized, Forward), n / 2)
    ensures n / 2 + (n + 1) / 2 == n
  {
    DecodeWithoutOverrides(t);
  }

  /** `lanes=1` with `lanes:forward=1` and no `oneway` keeps the explicit
      forward lane and also adds a lane in both directions. */
  lemma DecodeSingleLaneWithForwardTag(t: Tags)
    requires t.lanes == Some(1) && t.lanesForward == Some(1) && t.lanesBackward == None
    requires !t.oneway && !t.reversed
    requires !IsPathHighway(t) && !IsDedicatedPt(t) && NoCyclingLanes(t) && NoOverrides(t)
    ensures Decode(t) == [Lane(Motorized, Both), Lane(Motorized, Forward)]
  {
    DecodeWithoutOverrides(t);
  }

  /** Footways, paths, tracks, cycleways and pedestrian streets have exactly
      one lane. A cycling track is placed in the forward list when oneway and
      in the backward list otherwise, so only the first forward or the last
      backward override token can retype it; a foot lane is never retyped. */
  lemma DecodePathHighway(t: Tags)
    requires IsPathHighway(t)
    ensures |Decode(t)| == 1
    ensures !IsCyclingPath(t) ==> Decode(t)[0] == Lane(Foot, Both)
    ensures IsCyclingPath(t) && t.oneway ==>
              Decode(t)[0] == (if MarksFirst(t.busLanesForward, "designated") || MarksFirst(t.vehicleLanesForward, "no")
                               then Lane(DedicatedPt, ForwardOf(t)) else Lane(CyclingTrack, ForwardOf(t)))
    ensures IsCyclingPath(t) && !t.oneway ==>
              Decode(t)[0] == (if MarksFirst(Reverse(t.busLanesBackward), "designated")
                                  || MarksFirst(Reverse(t.vehicleLanesBackward), "no")
                               then Lane(DedicatedPt, BackwardOf(t)) else Lane(CyclingTrack, Both))
  {
  }

  /** Overriding a bucket of public transport lanes in direction d with
      direction d leaves them as they are. */
  lemma OverrideUniform(bucket: seq<Lane>, tokens: seq<string>, marker: string, d: Direction)
    requires forall i :: 0 <= i < |bucket| ==> bucket[i] == Lane(DedicatedPt, d)
    ensures Override(bucket, tokens, marker, d) == bucket
  {
  }

  /** On a dedicated public transport road the buckets hold only public
      transport lanes, at least one each way, and nothing in both
      directions. */
  lemma DedicatedPtBuckets(t: Tags)
    requires IsDedicatedPt(t) && !IsPathHighway(t)
    ensures var b := InitialBuckets(t);
            && b.both == []
            && |b.backward| > 0 && (forall i :: 0 <= i < |b.backward| ==> b.backward[i] == Lane(DedicatedPt, BackwardOf(t)))
            && |b.forward| > 0 && (forall i :: 0 <= i < |b.forward| ==> b.forward[i] == Lane(DedicatedPt, ForwardOf(t)))
            && (forall i :: 0 <= i < |b.left| ==> b.left[i] == Lane(CyclingLane, BackwardOf(t)))
            && (forall i :: 0 <= i < |b.right| ==> b.right[i] == Lane(CyclingLane, ForwardOf(t)))
  {
    var k := TypedCountsOf(t);
    var fwd, bwd := ForwardOf(t), BackwardOf(t);
    assert Repeat(Lane(Motorized, bwd), 0) == [] && Repeat(Lane(Motorized, fwd), 0) == [];
    assert Repeat(Lane(DedicatedPt, Both), 0) == [] && Repeat(Lane(Motorized, Both), 0) == [];
  }

  /** On a dedicated public transport road the decoded list is the cycling
      lanes around one public transport list per direction. */
  lemma DedicatedPtLayout(t: Tags)
    requires IsDedicatedPt(t) && !IsPathHighway(t)
    ensures var b := InitialBuckets(t);
            && Decode(t) == b.left + b.backward + b.forward + b.right
            && |b.backward| > 0 && (forall i :: 0 <= i < |b.backward| ==> b.backward[i] == Lane(DedicatedPt, BackwardOf(t)))
            && |b.forward| > 0 && (forall i :: 0 <= i < |b.forward| ==> b.forward[i] == Lane(DedicatedPt, ForwardOf(t)))
            && (forall i :: 0 <= i < |b.left| ==> b.left[i] == Lane(CyclingLane, BackwardOf(t)))
            && (forall i :: 0 <= i < |b.right| ==> b.right[i] == Lane(CyclingLane, ForwardOf(t)))
  {
    DedicatedPtBuckets(t);
    var b := InitialBuckets(t);
    var fwd, bwd := ForwardOf(t), BackwardOf(t);
    OverrideUniform(b.forward, t.busLanesForward, "designated", fwd);
    OverrideUniform(b.forward, t.vehicleLanesForward, "no", fwd);
    assert ForwardOverridden(t, b.forward) == b.forward;
    OverrideUniform(b.backward, Reverse(t.busLanesBackward), "designated", bwd);
    OverrideUniform(b.backward, Reverse(t.vehicleLanesBackward), "no", bwd);
    assert BackwardOverridden(t, b.backward) == b.backward;
    assert b.left + b.backward + b.both == b.left + b.backward;
  }

  /** A dedicated public transport road has no private car lanes, no lane in
      both directions, and at least one public transport lane each way. */
  lemma DecodeDedicatedPt(t: Tags)
    requires IsDedicatedPt(t) && !IsPathHighway(t)
    ensures forall i :: 0 <= i < |Decode(t)| ==> Decode(t)[i].lanetype != Motorized
    ensures forall i :: 0 <= i < |Decode(t)| ==> Decode(t)[i].direction != Both
    ensures Lane(DedicatedPt, Forward) in Decode(t) && Lane(DedicatedPt, Backward) in Decode(t)
  {
    DedicatedPtLayout(t);
    var b := InitialBuckets(t);
    var r := Decode(t);
    var fwd, bwd := ForwardOf(t), BackwardOf(t);
    var lo, mid, hi := |b.left|, |b.left| + |b.backward|, |b.left| + |b.backward| + |b.forward|;
    forall i | 0 <= i < |r|
      ensures r[i].lanetype != Motorized && r[i].direction != Both
    {
      if i < lo {
        assert r[i] == b.left[i];
      } else if i < mid {
        assert r[i] == b.backward[i - lo];
      } else if i < hi {
        assert r[i] == b.forward[i - mid];
      } else {
        assert r[i] == b.right[i - hi];
      }
    }
    assert r[lo] == b.backward[0];
    assert r[mid] == b.forward[0];
    assert {fwd, bwd} == {Forward, Backward};
  }

  /** The override passes never change the length of the list; a lane either
      keeps its place unchanged or, inside the backward or forward list,
      becomes a public transport lane in that list's direction. */
  lemma DecodeOverridesOnlyRetype(t: Tags)
    ensures |Decode(t)| == |Assemble(InitialBuckets(t))|
    ensures var b := InitialBuckets(t);
            var r := Decode(t);
            var a := Assemble(b);
            var lo := |b.left|;
            var mid := |b.left| + |b.backward| + |b.both|;
            && r[..lo] == a[..lo]
            && (forall i :: lo <= i < lo + |b.backward| ==> r[i] == a[i] || r[i] == Lane(DedicatedPt, BackwardOf(t)))
            && r[lo + |b.backward|..mid] == a[lo + |b.backward|..mid]
            && (forall i :: mid <= i < mid + |b.forward| ==> r[i] == a[i] || r[i] == Lane(DedicatedPt, ForwardOf(t)))
            && r[mid + |b.forward|..] == a[mid + |b.forward|..]
  {
    var b := InitialBuckets(t);
    var bo := BackwardOverridden(t, b.backward);
    var fo := ForwardOverridden(t, b.forward);
    TwoPassesRetype(b.backward, Reverse(t.busLanesBackward), Reverse(t.vehicleLanesBackward), BackwardOf(t));
    TwoPassesRetype(b.forward, t.busLanesForward, t.vehicleLanesForward, ForwardOf(t));
    RetypedConcat(b.left, b.backward, bo, b.both, b.forward, fo, b.right,
                  Lane(DedicatedPt, BackwardOf(t)), Lane(DedicatedPt, ForwardOf(t)));
  }

  /** Replacing the second and fourth of five parts by retyped parts of the
      same length changes only positions inside them. */
  lemma RetypedConcat(left: seq<Lane>, bk: seq<Lane>, bk': seq<Lane>, both: seq<Lane>, fw: seq<Lane>, fw': seq<Lane>,
                      right: seq<Lane>, lb: Lane, lf: Lane)
    requires |bk'| == |bk| && forall i :: 0 <= i < |bk| ==> bk'[i] == bk[i] || bk'[i] == lb
    requires |fw'| == |fw| && forall i :: 0 <= i < |fw| ==> fw'[i] == fw[i] || fw'[i] == lf
    ensures var r, a := left + bk' + both + fw' + right, left + bk + both + fw + right;
            var lo, mid := |left|, |left| + |bk| + |both|;
            && |r| == |a|
            && r[..lo] == a[..lo]
            && (forall i :: lo <= i < lo + |bk| ==> r[i] == a[i] || r[i] == lb)
            && r[lo + |bk|..mid] == a[lo + |bk|..mid]
            && (forall i :: mid <= i < mid + |fw| ==> r[i] == a[i] || r[i] == lf)
            && r[mid + |fw|..] == a[mid + |fw|..]
  {
    var r, a := left + bk' + both + fw' + right, left + bk + both + fw + right;
    var lo, mid := |left|, |left| + |bk| + |both|;
    assert r[..lo] == left == a[..lo];
    assert r[lo + |bk|..mid] == both == a[lo + |bk|..mid];
    assert r[mid + |fw|..] == right == a[mid + |fw|..];
    forall i | lo <= i < lo + |bk|
      ensures r[i] == a[i] || r[i] == lb
    {
      assert r[i] == bk'[i - lo] && a[i] == bk[i - lo];
    }
    forall i | mid <= i < mid + |fw|
      ensures r[i] == a[i] || r[i] == lf
    {
      assert r[i] == fw'[i - mid] && a[i] == fw[i - mid];
    }
  }

  /** The two override passes of one bucket keep its length and only turn
      lanes into public transport lanes in its direction. */
  lemma TwoPassesRetype(bucket: seq<Lane>, bus: seq<string>, vehicle: seq<string>, d: Direction)
    ensures var r := Override(Override(bucket, bus, "designated", d), vehicle, "no", d);
            |r| == |bucket| && forall i :: 0 <= i < |bucket| ==> r[i] == bucket[i] || r[i] == Lane(DedicatedPt, d)
  {
    OverrideRetypes(bucket, bus, "designated", d);
    OverrideRetypes(Override(bucket, bus, "designated", d), vehicle, "no", d);
  }

  /** An override pass keeps the length and only turns lanes into public
      transport lanes in its direction. */
  lemma OverrideRetypes(bucket: seq<Lane>, tokens: seq<string>, marker: string, d: Direction)
    ensures |Override(bucket, tokens, marker, d)| == |bucket|
    ensures forall i :: 0 <= i < |bucket| ==>
              Override(bucket, tokens, marker, d)[i] == bucket[i] || Override(bucket, tokens, marker, d)[i] == Lane(DedicatedPt, d)
  {
  }

  lemma FlipAllConcat(a: seq<Lane>, b: seq<Lane>)
    ensures FlipAll(a + b) == FlipAll(a) + FlipAll(b)
  {
  }

  lemma FlipAllRepeat(l: Lane, n: int)
    ensures FlipAll(Repeat(l, n)) == Repeat(Flip(l), n)
  {
  }

  lemma FlipAllOverride(bucket: seq<Lane>, tokens: seq<string>, marker: string, d: Direction)
    ensures FlipAll(Override(bucket, tokens, marker, d)) == Override(FlipAll(bucket), tokens, marker, Opposite(d))
  {
  }

  /** Marking an edge as reversed flips every lane of every bucket. */
  lemma BucketsReversed(t: Tags)
    ensures var b0, b1 := InitialBuckets(t.(reversed := false)), InitialBuckets(t.(reversed := true));
            && b1.left == FlipAll(b0.left) && b1.backward == FlipAll(b0.backward) && b1.both == FlipAll(b0.both)
            && b1.forward == FlipAll(b0.forward) && b1.right == FlipAll(b0.right)
  {
    if !IsPathHighway(t) {
      RoadBucketsReversed(t);
    }
  }

  lemma RoadBucketsReversed(t: Tags)
    requires !IsPathHighway(t)
    ensures var b0, b1 := InitialBuckets(t.(reversed := false)), InitialBuckets(t.(reversed := true));
            && b1.left == FlipAll(b0.left) && b1.backward == FlipAll(b0.backward) && b1.both == FlipAll(b0.both)
            && b1.forward == FlipAll(b0.forward) && b1.right == FlipAll(b0.right)
  {
    var t0, t1 := t.(reversed := false), t.(reversed := true);
    assert TypedCountsOf(t0) == TypedCountsOf(t1);
    var k := TypedCountsOf(t0);
    RepeatsReversed(Motorized, DedicatedPt, Backward, k.motorizedBackward, k.ptBackward);
    RepeatsReversed(DedicatedPt, Motorized, Forward, k.ptForward, k.motorizedForward);
    FlipAllRepeat(Lane(DedicatedPt, Both), k.ptBoth);
    FlipAllRepeat(Lane(Motorized, Both), k.motorizedBoth);
    FlipAllConcat(Repeat(Lane(DedicatedPt, Both), k.ptBoth), Repeat(Lane(Motorized, Both), k.motorizedBoth));
  }

  /** Two runs of lanes in direction d, flipped, are the same runs in the
      opposite direction. */
  lemma RepeatsReversed(first: LaneType, second: LaneType, d: Direction, m: int, n: int)
    ensures Repeat(Lane(first, Opposite(d)), m) + Repeat(Lane(second, Opposite(d)), n) ==
            FlipAll(Repeat(Lane(first, d), m) + Repeat(Lane(second, d), n))
  {
    FlipAllRepeat(Lane(first, d), m);
    FlipAllRepeat(Lane(second, d), n);
    FlipAllConcat(Repeat(Lane(first, d), m), Repeat(Lane(second, d), n));
  }

  /** Decoding an edge marked as reversed gives the same list, in the same
      order, with forward and backward exchanged on every lane. */
  lemma DecodeReversed(t: Tags)
    ensures Decode(t.(reversed := true)) == FlipAll(Decode(t.(reversed := false)))
  {
    var t0, t1 := t.(reversed := false), t.(reversed := true);
    var b0, b1 := InitialBuckets(t0), InitialBuckets(t1);
    BucketsReversed(t);
    FlipAllOverride(b0.forward, t.busLanesForward, "designated", Forward);
    FlipAllOverride(Override(b0.forward, t.busLanesForward, "designated", Forward), t.vehicleLanesForward, "no", Forward);
    FlipAllOverride(b0.backward, Reverse(t.busLanesBackward), "designated", Backward);
    FlipAllOverride(Override(b0.backward, Reverse(t.busLanesBackward), "designated", Backward),
                    Reverse(t.vehicleLanesBackward), "no", Backward);
    var bo0, fo0 := BackwardOverridden(t0, b0.backward), ForwardOverridden(t0, b0.forward);
    assert BackwardOverridden(t1, b1.backward) == FlipAll(bo0);
    assert ForwardOverridden(t1, b1.forward) == FlipAll(fo0);
    FlipAllConcat(b0.left, bo0);
    FlipAllConcat(b0.left + bo0, b0.both);
    FlipAllConcat(b0.left + bo0 + b0.both, fo0);
    FlipAllConcat(b0.left + bo0 + b0.both + fo0, b0.right);
  }
}
