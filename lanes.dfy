/** Lanes of a street cross-section, the reversal of a lane list and the
    classification of a single lane. */
module Lanes {
  import opened Common

  datatype LaneType = Motorized | DedicatedPt | CyclingLane | CyclingTrack | Foot

  /** Direction relative to the edge's stored direction; `Tbd` is "to be determined". */
  datatype Direction = Forward | Backward | Both | Tbd

  datatype Lane = Lane(lanetype: LaneType, direction: Direction)

  function Opposite(d: Direction): (r: Direction)
    ensures r == Forward <==> d == Backward
    ensures r == Backward <==> d == Forward
    ensures d == Both || d == Tbd ==> r == d
  {
    match d
    case Forward => Backward
    case Backward => Forward
    case Both => Both
    case Tbd => Tbd
  }

  /** One lane seen from the other end of the edge. */
  function Flip(l: Lane): Lane {
    Lane(l.lanetype, Opposite(l.direction))
  }

  /** Every lane flipped, order unchanged. */
  function FlipAll(lanes: seq<Lane>): seq<Lane> {
    seq(|lanes|, i requires 0 <= i < |lanes| => Flip(lanes[i]))
  }

  /** `_reverse_lanes`: the cross-section seen from the other end: the lane
      order is reversed and forward and backward are exchanged on every lane. */
  function ReverseLanes(lanes: seq<Lane>): (r: seq<Lane>)
    ensures |r| == |lanes|
    ensures forall i :: 0 <= i < |lanes| ==> r[i] == Flip(lanes[|lanes| - 1 - i])
  {
    if lanes == [] then [] else ReverseLanes(lanes[1..]) + [Flip(lanes[0])]
  }

  lemma OppositeTwice(d: Direction)
    ensures Opposite(Opposite(d)) == d
  {
  }

  /** Reversing a lane list twice gives back the original list. */
  lemma {:induction false} ReverseLanesTwice(lanes: seq<Lane>)
    ensures ReverseLanes(ReverseLanes(lanes)) == lanes
  {
    var r := ReverseLanes(ReverseLanes(lanes));
    forall i | 0 <= i < |lanes| ensures r[i] == lanes[i] {
      OppositeTwice(lanes[i].direction);
    }
  }

  /** Reversal only swaps forward and backward: lane types, and lanes in both
      directions or with a direction to be determined, are carried over. */
  lemma ReverseLanesKeepsTypes(lanes: seq<Lane>, i: nat)
    requires i < |lanes|
    ensures ReverseLanes(lanes)[|lanes| - 1 - i].lanetype == lanes[i].lanetype
    ensures lanes[i].direction in {Both, Tbd} ==>
              ReverseLanes(lanes)[|lanes| - 1 - i] == lanes[i]
  {
  }

  /** The flags of `_lane_properties` (everything except the width). */
  datatype LaneProperties = LaneProperties(
    lanetype: LaneType,
    direction: Direction,
    motorized: bool,
    privateCars: bool,
    dedicatedPt: bool,
    dedicatedCycling: bool,
    dedicatedCyclingLane: bool,
    dedicatedCyclingTrack: bool)

  function Properties(l: Lane): (p: LaneProperties)
    ensures p.lanetype == l.lanetype && p.direction == l.direction
    ensures p.motorized <==> p.privateCars || p.dedicatedPt
    ensures !(p.privateCars && p.dedicatedPt)
    ensures p.dedicatedCycling <==> p.dedicatedCyclingLane || p.dedicatedCyclingTrack
    ensures !(p.dedicatedCyclingLane && p.dedicatedCyclingTrack)
    ensures !(p.motorized && p.dedicatedCycling)
    ensures l.lanetype == Foot <==> !p.motorized && !p.dedicatedCycling
  {
    LaneProperties(
      l.lanetype,
      l.direction,
      l.lanetype in {Motorized, DedicatedPt},
      l.lanetype == Motorized,
      l.lanetype == DedicatedPt,
      l.lanetype in {CyclingTrack, CyclingLane},
      l.lanetype == CyclingLane,
      l.lanetype == CyclingTrack)
  }
}
