/** `_lane_stats`: lanes counted per kind and per direction. */
module LaneStats {
  import opened Lanes

  /** One counter per direction. */
  datatype DirectionCounts = DirectionCounts(forward: nat, backward: nat, bothWays: nat, tbd: nat) {
    function Get(d: Direction): nat {
      match d
      case Forward => forward
      case Backward => backward
      case Both => bothWays
      case Tbd => tbd
    }

    /** Increment the counter of direction d. */
    function Inc(d: Direction): (r: DirectionCounts)
      ensures r.Get(d) == Get(d) + 1
      ensures forall e :: e != d ==> r.Get(e) == Get(e)
    {
      match d
      case Forward => this.(forward := forward + 1)
      case Backward => this.(backward := backward + 1)
      case Both => this.(bothWays := bothWays + 1)
      case Tbd => this.(tbd := tbd + 1)
    }

    function Total(): nat {
      forward + backward + bothWays + tbd
    }
  }

  const Zero := DirectionCounts(0, 0, 0, 0)

  /** The five kinds of lane the statistics count; motorized lanes are the
      private car lanes together with the public transport lanes. */
  datatype Group = MotorizedLanes | PrivateCars | PtLanes | CyclingLanes | CyclingTracks

  predicate InGroup(p: LaneProperties, g: Group) {
    match g
    case MotorizedLanes => p.motorized
    case PrivateCars => p.privateCars
    case PtLanes => p.dedicatedPt
    case CyclingLanes => p.dedicatedCyclingLane
    case CyclingTracks => p.dedicatedCyclingTrack
  }

  predicate Counted(l: Lane, g: Group, d: Direction) {
    InGroup(Properties(l), g) && l.direction == d
  }

  /** How many lanes of the list belong to group g and run in direction d. */
  function Count(lanes: seq<Lane>, g: Group, d: Direction): nat {
    if lanes == [] then 0
    else Count(lanes[..|lanes| - 1], g, d) + (if Counted(lanes[|lanes| - 1], g, d) then 1 else 0)
  }

  function CountsOf(lanes: seq<Lane>, g: Group): DirectionCounts {
    DirectionCounts(Count(lanes, g, Forward), Count(lanes, g, Backward),
                    Count(lanes, g, Both), Count(lanes, g, Tbd))
  }

  lemma CountsOfGet(lanes: seq<Lane>, g: Group, d: Direction)
    ensures CountsOf(lanes, g).Get(d) == Count(lanes, g, d)
  {
  }

  /** The counters of `_lane_stats`; `nLanesMotorized` is the sum of the four
      motorized counters. */
  datatype Stats = Stats(
    motorized: DirectionCounts,
    privateCars: DirectionCounts,
    dedicatedPt: DirectionCounts,
    cyclingLanes: DirectionCounts,
    cyclingTracks: DirectionCounts,
    nLanesMotorized: nat)
  {
    function Of(g: Group): DirectionCounts {
      match g
      case MotorizedLanes => motorized
      case PrivateCars => privateCars
      case PtLanes => dedicatedPt
      case CyclingLanes => cyclingLanes
      case CyclingTracks => cyclingTracks
    }
  }

  /** The statistics of a lane list, by counting. */
  function StatsOf(lanes: seq<Lane>): Stats {
    Stats(CountsOf(lanes, MotorizedLanes), CountsOf(lanes, PrivateCars), CountsOf(lanes, PtLanes),
          CountsOf(lanes, CyclingLanes), CountsOf(lanes, CyclingTracks),
          CountsOf(lanes, MotorizedLanes).Total())
  }

  /** Counting one more lane increments at most the counter of its direction. */
  lemma CountsStep(lanes: seq<Lane>, i: nat, g: Group)
    requires i < |lanes|
    ensures CountsOf(lanes[..i + 1], g)
            == if InGroup(Properties(lanes[i]), g) then CountsOf(lanes[..i], g).Inc(lanes[i].direction)
               else CountsOf(lanes[..i], g)
  {
    assert lanes[..i + 1][..i] == lanes[..i];
  }

  /** `_lane_stats.__init__`: one pass over the lanes, incrementing the
      counter of every group the lane belongs to. */
  method ComputeLaneStats(lanes: seq<Lane>) returns (s: Stats)
    ensures s == StatsOf(lanes)
  {
    var motorized, privateCars, dedicatedPt, cyclingLanes, cyclingTracks := Zero, Zero, Zero, Zero, Zero;
    for i := 0 to |lanes|
      invariant motorized == CountsOf(lanes[..i], MotorizedLanes)
      invariant privateCars == CountsOf(lanes[..i], PrivateCars)
      invariant dedicatedPt == CountsOf(lanes[..i], PtLanes)
      invariant cyclingLanes == CountsOf(lanes[..i], CyclingLanes)
      invariant cyclingTracks == CountsOf(lanes[..i], CyclingTracks)
    {
      CountsStep(lanes, i, MotorizedLanes);
      CountsStep(lanes, i, PrivateCars);
      CountsStep(lanes, i, PtLanes);
      CountsStep(lanes, i, CyclingLanes);
      CountsStep(lanes, i, CyclingTracks);
      var p := Properties(lanes[i]);
      if p.motorized {
        motorized := motorized.Inc(p.direction);
      }
      if p.privateCars {
        privateCars := privateCars.Inc(p.direction);
      }
      if p.dedicatedPt {
        dedicatedPt := dedicatedPt.Inc(p.direction);
      }
      if p.dedicatedCyclingLane {
        cyclingLanes := cyclingLanes.Inc(p.direction);
      }
      if p.dedicatedCyclingTrack {
        cyclingTracks := cyclingTracks.Inc(p.direction);
      }
    }
    assert lanes[..|lanes|] == lanes;
    s := Stats(motorized, privateCars, dedicatedPt, cyclingLanes, cyclingTracks, motorized.Total());
  }

  // Properties of the statistics

  /** Every motorized counter is the private car counter plus the public
      transport counter of the same direction. */
  lemma {:induction false} MotorizedSplit(lanes: seq<Lane>, d: Direction)
    ensures Count(lanes, MotorizedLanes, d) == Count(lanes, PrivateCars, d) + Count(lanes, PtLanes, d)
  {
    if lanes != [] {
      MotorizedSplit(lanes[..|lanes| - 1], d);
    }
  }

  /** The number of lanes of group g, whatever their direction. */
  function CountKind(lanes: seq<Lane>, g: Group): nat {
    if lanes == [] then 0
    else CountKind(lanes[..|lanes| - 1], g) + (if InGroup(Properties(lanes[|lanes| - 1]), g) then 1 else 0)
  }

  lemma {:induction false} DirectionsCoverKind(lanes: seq<Lane>, g: Group)
    ensures CountsOf(lanes, g).Total() == CountKind(lanes, g)
  {
    if lanes != [] {
      DirectionsCoverKind(lanes[..|lanes| - 1], g);
    }
  }

  /** `n_lanes_motorized` is the sum of the four motorized direction counters,
      which is the number of motorized lanes, and each of those counters is
      the private car counter plus the public transport counter. */
  lemma StatsMotorized(lanes: seq<Lane>)
    ensures StatsOf(lanes).nLanesMotorized == CountKind(lanes, MotorizedLanes)
    ensures forall d :: StatsOf(lanes).motorized.Get(d)
                        == StatsOf(lanes).privateCars.Get(d) + StatsOf(lanes).dedicatedPt.Get(d)
  {
    var s := StatsOf(lanes);
    DirectionsCoverKind(lanes, MotorizedLanes);
    forall d | true
      ensures s.motorized.Get(d) == s.privateCars.Get(d) + s.dedicatedPt.Get(d)
    {
      MotorizedSplit(lanes, d);
      CountsOfGet(lanes, MotorizedLanes, d);
      CountsOfGet(lanes, PrivateCars, d);
      CountsOfGet(lanes, PtLanes, d);
    }
  }

  lemma {:induction false} CountPrepend(l: Lane, lanes: seq<Lane>, g: Group, d: Direction)
    ensures Count([l] + lanes, g, d) == (if Counted(l, g, d) then 1 else 0) + Count(lanes, g, d)
  {
    if lanes != [] {
      assert ([l] + lanes)[..|lanes|] == [l] + lanes[..|lanes| - 1];
      CountPrepend(l, lanes[..|lanes| - 1], g, d);
    }
  }

  /** Counting the lanes of the reversed list in direction d counts the
      original lanes in the opposite direction. */
  lemma {:induction false} CountReversed(lanes: seq<Lane>, g: Group, d: Direction)
    ensures Count(ReverseLanes(lanes), g, d) == Count(lanes, g, Opposite(d))
  {
    if lanes != [] {
      var r := ReverseLanes(lanes);
      assert r == ReverseLanes(lanes[1..]) + [Flip(lanes[0])];
      assert r[..|r| - 1] == ReverseLanes(lanes[1..]);
      CountReversed(lanes[1..], g, d);
      CountPrepend(lanes[0], lanes[1..], g, Opposite(d));
      assert [lanes[0]] + lanes[1..] == lanes;
      OppositeTwice(d);
    }
  }

  /** The same counters with forward and backward exchanged. */
  function SwapCounts(c: DirectionCounts): DirectionCounts {
    DirectionCounts(c.backward, c.forward, c.bothWays, c.tbd)
  }

  /** The statistics of a reversed lane list are the original statistics with
      forward and backward exchanged in every group. */
  lemma StatsReversed(lanes: seq<Lane>)
    ensures var s, r := StatsOf(lanes), StatsOf(ReverseLanes(lanes));
            && r.motorized == SwapCounts(s.motorized)
            && r.privateCars == SwapCounts(s.privateCars)
            && r.dedicatedPt == SwapCounts(s.dedicatedPt)
            && r.cyclingLanes == SwapCounts(s.cyclingLanes)
            && r.cyclingTracks == SwapCounts(s.cyclingTracks)
            && r.nLanesMotorized == s.nLanesMotorized
  {
    forall g, d | true
      ensures Count(ReverseLanes(lanes), g, d) == Count(lanes, g, Opposite(d))
    {
      CountReversed(lanes, g, d);
    }
  }
}
