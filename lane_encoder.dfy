/** `_update_osm_tags_for_edge`: the lane list of an edge written back into
    its OpenStreetMap-style tags. */
module LaneEncoder {
  import opened Lanes
  import opened LaneStats

  /** A value in an edge's attribute dictionary. `Tokens` stands for a pipe
      separated per-lane string (`'|'.join(tokens)`), `LaneDesc` for a lane
      list, `Null` for Python's None. */
  datatype TagValue = Null | Num(n: int) | Text(s: string) | Tokens(tokens: seq<string>) | LaneDesc(lanes: seq<Lane>)

  /** Keys of an edge's attribute dictionary: the ones the encoder owns,
      named after the OpenStreetMap key they stand for, and any other key by
      its name. */
  datatype TagKey =
    | LanesKey | LanesForwardKey | LanesBackwardKey | LanesBothWaysKey
    | BusLanesBackwardKey | BusLanesForwardKey | VehicleLanesBackwardKey | VehicleLanesForwardKey
    | CyclewayKey | CyclewayLaneKey | CyclewayRightKey | CyclewayRightLaneKey | CyclewayLeftKey | CyclewayLeftLaneKey
    | OtherKey(name: string)

  /** The keys the encoder owns: each is reset before being written. */
  const OwnedKeys: set<TagKey> := {
    LanesKey, LanesForwardKey, LanesBackwardKey, LanesBothWaysKey,
    BusLanesBackwardKey, BusLanesForwardKey, VehicleLanesBackwardKey, VehicleLanesForwardKey,
    CyclewayKey, CyclewayLaneKey, CyclewayRightKey, CyclewayRightLaneKey, CyclewayLeftKey, CyclewayLeftLaneKey
  }

  /** The OpenStreetMap names of the owned keys. */
  const OwnedNames: set<string> := {
    "lanes", "lanes:forward", "lanes:backward", "lanes:both_ways",
    "bus:lanes:backward", "bus:lanes:forward", "vehicle:lanes:backward", "vehicle:lanes:forward",
    "cycleway", "cycleway:lane", "cycleway:right", "cycleway:right:lane", "cycleway:left", "cycleway:left:lane"
  }

  /** Every dictionary key has one representation: an owned key is never
      spelled as `OtherKey` with its name. */
  predicate Canonical(k: TagKey) {
    k.OtherKey? ==> k.name !in OwnedNames
  }

  function RepeatToken(token: string, n: nat): seq<string> {
    seq(n, _ => token)
  }

  /** A counter written as a number when it is not zero. */
  function CountTag(n: nat): TagValue {
    if n > 0 then Num(n) else Null
  }

  /** `bus:lanes:*` for one side: its both-ways and own-direction public
      transport lanes are designated, the private car lanes permissive. */
  function BusLanes(pt: DirectionCounts, cars: DirectionCounts, d: Direction): seq<string> {
    RepeatToken("designated", pt.bothWays) + RepeatToken("designated", pt.Get(d))
    + RepeatToken("permissive", cars.bothWays) + RepeatToken("permissive", cars.Get(d))
  }

  /** `vehicle:lanes:*` for one side: "no" where a bus lane is, "yes" where cars may drive. */
  function VehicleLanes(pt: DirectionCounts, cars: DirectionCounts, d: Direction): seq<string> {
    RepeatToken("no", pt.bothWays) + RepeatToken("no", pt.Get(d))
    + RepeatToken("yes", cars.bothWays) + RepeatToken("yes", cars.Get(d))
  }

  /** Whether a side gets per-lane public transport tags at all. */
  predicate HasPtLanes(pt: DirectionCounts, d: Direction) {
    pt.bothWays > 0 || pt.Get(d) > 0
  }

  function PtTag(s: Stats, d: Direction, bus: bool): TagValue {
    if !HasPtLanes(s.dedicatedPt, d) then Null
    else if bus then Tokens(BusLanes(s.dedicatedPt, s.privateCars, d))
    else Tokens(VehicleLanes(s.dedicatedPt, s.privateCars, d))
  }

  /** Which sides of a cycling facility exist: both, only forward (right) or
      only backward (left). */
  datatype Sides = NoSide | BothSides | RightSide | LeftSide

  function SidesOf(c: DirectionCounts): Sides {
    if c.bothWays > 0 || (c.forward > 0 && c.backward > 0) then BothSides
    else if c.forward > 0 then RightSide
    else if c.backward > 0 then LeftSide
    else NoSide
  }

  /** The keys of the three steps of the encoder. */
  const LaneCountKeys: set<TagKey> := {LanesKey, LanesForwardKey, LanesBackwardKey, LanesBothWaysKey}
  const PtKeys: set<TagKey> := {BusLanesBackwardKey, BusLanesForwardKey, VehicleLanesBackwardKey, VehicleLanesForwardKey}
  const CyclewayKeys: set<TagKey> :=
    {CyclewayKey, CyclewayLaneKey, CyclewayRightKey, CyclewayRightLaneKey, CyclewayLeftKey, CyclewayLeftLaneKey}

  /** The value of a cycleway key on a side: a cycling track takes precedence
      over a cycling lane. */
  function CyclewayValue(s: Stats, side: Sides): TagValue {
    if SidesOf(s.cyclingTracks) == side then Text("track")
    else if SidesOf(s.cyclingLanes) == side then Text("lane")
    else Null
  }

  /** The `:lane` subkey of a side: only cycling lanes are described. */
  function CyclewayLaneValue(s: Stats, side: Sides): TagValue {
    if SidesOf(s.cyclingLanes) == side then Text("advisory") else Null
  }

  /** The value an owned key holds after encoding statistics s. Counters are
      written when they are not zero; the per-lane public transport tags of a
      side when it has a public transport lane. */
  function EncodedValue(s: Stats, k: TagKey): TagValue {
    match k
    case LanesKey => CountTag(s.nLanesMotorized)
    case LanesForwardKey => CountTag(s.motorized.forward)
    case LanesBackwardKey => CountTag(s.motorized.backward)
    case LanesBothWaysKey => CountTag(s.motorized.bothWays)
    case BusLanesBackwardKey => PtTag(s, Backward, true)
    case BusLanesForwardKey => PtTag(s, Forward, true)
    case VehicleLanesBackwardKey => PtTag(s, Backward, false)
    case VehicleLanesForwardKey => PtTag(s, Forward, false)
    case CyclewayKey => CyclewayValue(s, BothSides)
    case CyclewayLaneKey => CyclewayLaneValue(s, BothSides)
    case CyclewayRightKey => CyclewayValue(s, RightSide)
    case CyclewayRightLaneKey => CyclewayLaneValue(s, RightSide)
    case CyclewayLeftKey => CyclewayValue(s, LeftSide)
    case CyclewayLeftLaneKey => CyclewayLaneValue(s, LeftSide)
    case OtherKey(_) => Null
  }

  /** The dictionary with the given owned keys set to their encoded values
      and every other entry kept. */
  function Written(attrs: map<TagKey, TagValue>, s: Stats, keys: set<TagKey>): map<TagKey, TagValue> {
    map k | k in attrs.Keys + keys :: if k in keys then EncodedValue(s, k) else attrs[k]
  }

  /** The attribute dictionary after encoding statistics s. */
  function EncodeTags(attrs: map<TagKey, TagValue>, s: Stats): map<TagKey, TagValue> {
    Written(attrs, s, OwnedKeys)
  }

  lemma WrittenInSteps(attrs: map<TagKey, TagValue>, s: Stats)
    ensures EncodeTags(attrs, s)
            == Written(Written(Written(attrs, s, LaneCountKeys), s, PtKeys), s, CyclewayKeys)
  {
  }

  /** A dictionary that holds the encoded value at each of the given keys and
      agrees with attrs elsewhere is the written dictionary. */
  lemma WrittenByKey(attrs: map<TagKey, TagValue>, s: Stats, keys: set<TagKey>, a: map<TagKey, TagValue>)
    requires a.Keys == attrs.Keys + keys
    requires forall k :: k in keys ==> a[k] == EncodedValue(s, k)
    requires forall k :: k in attrs && k !in keys ==> a[k] == attrs[k]
    ensures a == Written(attrs, s, keys)
  {
  }

  /** The six cycleway keys hold their encoded values once each says what
      its side has. */
  lemma CyclewayKeysEncoded(s: Stats, a: map<TagKey, TagValue>)
    requires CyclewayKeys <= a.Keys
    requires a[CyclewayKey] == CyclewayValue(s, BothSides) && a[CyclewayLaneKey] == CyclewayLaneValue(s, BothSides)
    requires a[CyclewayRightKey] == CyclewayValue(s, RightSide) && a[CyclewayRightLaneKey] == CyclewayLaneValue(s, RightSide)
    requires a[CyclewayLeftKey] == CyclewayValue(s, LeftSide) && a[CyclewayLeftLaneKey] == CyclewayLaneValue(s, LeftSide)
    ensures forall k :: k in CyclewayKeys ==> a[k] == EncodedValue(s, k)
  {
  }

  // Properties of the encoder

  /** Encoding defines every owned key and leaves every other key as it was. */
  lemma EncodeTagsFrame(attrs: map<TagKey, TagValue>, s: Stats)
    ensures EncodeTags(attrs, s).Keys == attrs.Keys + OwnedKeys
    ensures forall k :: k in attrs && k !in OwnedKeys ==> EncodeTags(attrs, s)[k] == attrs[k]
  {
  }

  /** Encoding adds only owned keys, so a dictionary whose keys have one
      representation keeps that property. */
  lemma EncodeTagsCanonical(attrs: map<TagKey, TagValue>, s: Stats)
    requires forall k :: k in attrs ==> Canonical(k)
    ensures forall k :: k in EncodeTags(attrs, s) ==> Canonical(k)
  {
    EncodeTagsFrame(attrs, s);
  }

  /** The lane counts are written exactly when they are not zero, and `lanes`
      holds the number of motorized lanes of the list. */
  lemma EncodeLaneCounts(attrs: map<TagKey, TagValue>, lanes: seq<Lane>)
    ensures var r, n := EncodeTags(attrs, StatsOf(lanes)), CountKind(lanes, MotorizedLanes);
            && (n > 0 ==> r[LanesKey] == Num(n))
            && (n == 0 ==> r[LanesKey] == Null)
            && r[LanesForwardKey] == CountTag(Count(lanes, MotorizedLanes, Forward))
            && r[LanesBackwardKey] == CountTag(Count(lanes, MotorizedLanes, Backward))
            && r[LanesBothWaysKey] == CountTag(Count(lanes, MotorizedLanes, Both))
  {
    StatsMotorized(lanes);
  }

  /** Number of public transport lanes a side's per-lane tags describe. */
  function PtCount(pt: DirectionCounts, d: Direction): nat {
    pt.bothWays + pt.Get(d)
  }

  /** Number of private car lanes a side's per-lane tags describe. */
  function CarCount(cars: DirectionCounts, d: Direction): nat {
    cars.bothWays + cars.Get(d)
  }

  lemma PerLaneTokens(pt: DirectionCounts, cars: DirectionCounts, d: Direction)
    ensures var bus, veh := BusLanes(pt, cars, d), VehicleLanes(pt, cars, d);
            && |bus| == |veh| == PtCount(pt, d) + CarCount(cars, d)
            && (forall i :: 0 <= i < |bus| ==> (bus[i] == "designated" <==> i < PtCount(pt, d)))
            && (forall i :: 0 <= i < |bus| ==> (bus[i] == "permissive" <==> i >= PtCount(pt, d)))
            && (forall i :: 0 <= i < |veh| ==> (veh[i] == "no" <==> i < PtCount(pt, d)))
            && (forall i :: 0 <= i < |veh| ==> (veh[i] == "yes" <==> i >= PtCount(pt, d)))
  {
    var bus, veh := BusLanes(pt, cars, d), VehicleLanes(pt, cars, d);
    var p := PtCount(pt, d);
    assert bus == RepeatToken("designated", p) + RepeatToken("permissive", CarCount(cars, d));
    assert veh == RepeatToken("no", p) + RepeatToken("yes", CarCount(cars, d));
  }

  /** `bus:lanes:X` and `vehicle:lanes:X` are written together, exactly when
      side X has a public transport lane; they have one token per lane of the
      side, designated/no for the public transport lanes, all of them first,
      and permissive/yes for the private car lanes. */
  lemma EncodePerLaneTags(attrs: map<TagKey, TagValue>, s: Stats, d: Direction)
    requires d == Forward || d == Backward
    ensures var r := EncodeTags(attrs, s);
            var busKey := if d == Forward then BusLanesForwardKey else BusLanesBackwardKey;
            var vehKey := if d == Forward then VehicleLanesForwardKey else VehicleLanesBackwardKey;
            var p := PtCount(s.dedicatedPt, d);
            && (r[busKey].Tokens? <==> HasPtLanes(s.dedicatedPt, d))
            && (r[vehKey].Tokens? <==> HasPtLanes(s.dedicatedPt, d))
            && (!HasPtLanes(s.dedicatedPt, d) ==> r[busKey] == Null && r[vehKey] == Null)
            && (r[busKey].Tokens? ==>
                  var bus, veh := r[busKey].tokens, r[vehKey].tokens;
                  && |bus| == |veh| == p + CarCount(s.privateCars, d)
                  && (forall i :: 0 <= i < |bus| ==> (bus[i] == "designated" <==> veh[i] == "no"))
                  && (forall i :: 0 <= i < |bus| ==> (bus[i] == "permissive" <==> veh[i] == "yes"))
                  && (forall i :: 0 <= i < |bus| ==> (bus[i] == "designated" <==> i < p))
                  && (forall i :: 0 <= i < |bus| ==> bus[i] == "designated" || bus[i] == "permissive"))
  {
    PerLaneTokens(s.dedicatedPt, s.privateCars, d);
  }

  /** A cycling facility runs in both directions when the list has a
      both-ways one or one each way. */
  predicate TwoSided(lanes: seq<Lane>, g: Group) {
    Count(lanes, g, Both) > 0 || (Count(lanes, g, Forward) > 0 && Count(lanes, g, Backward) > 0)
  }

  /** A cycling facility runs only forward (on the right) or only backward
      (on the left). */
  predicate OneSided(lanes: seq<Lane>, g: Group, d: Direction) {
    !TwoSided(lanes, g) && Count(lanes, g, d) > 0
  }

  /** Cycleway tags in terms of the lane list: `cycleway`, `cycleway:right`
      and `cycleway:left` say "track" exactly when the cycling tracks run on
      that side, else "lane" exactly when the cycling lanes do, and the
      `:lane` subkeys say "advisory" exactly when the cycling lanes run on
      that side, whatever the tracks. */
  lemma EncodeCycleways(attrs: map<TagKey, TagValue>, lanes: seq<Lane>)
    ensures var r := EncodeTags(attrs, StatsOf(lanes));
            && (r[CyclewayKey] == Text("track") <==> TwoSided(lanes, CyclingTracks))
            && (r[CyclewayRightKey] == Text("track") <==> OneSided(lanes, CyclingTracks, Forward))
            && (r[CyclewayLeftKey] == Text("track") <==> OneSided(lanes, CyclingTracks, Backward))
            && (r[CyclewayKey] == Text("lane")
                <==> !TwoSided(lanes, CyclingTracks) && TwoSided(lanes, CyclingLanes))
            && (r[CyclewayRightKey] == Text("lane")
                <==> !OneSided(lanes, CyclingTracks, Forward) && OneSided(lanes, CyclingLanes, Forward))
            && (r[CyclewayLeftKey] == Text("lane")
                <==> !OneSided(lanes, CyclingTracks, Backward) && OneSided(lanes, CyclingLanes, Backward))
            && (r[CyclewayLaneKey] == Text("advisory") <==> TwoSided(lanes, CyclingLanes))
            && (r[CyclewayRightLaneKey] == Text("advisory") <==> OneSided(lanes, CyclingLanes, Forward))
            && (r[CyclewayLeftLaneKey] == Text("advisory") <==> OneSided(lanes, CyclingLanes, Backward))
  {
    SidesOfCounts(lanes, CyclingTracks);
    SidesOfCounts(lanes, CyclingLanes);
    CyclewayKeysWritten(attrs, StatsOf(lanes));
  }

  lemma CyclewayKeysWritten(attrs: map<TagKey, TagValue>, s: Stats)
    ensures var r := EncodeTags(attrs, s);
            && r[CyclewayKey] == CyclewayValue(s, BothSides)
            && r[CyclewayRightKey] == CyclewayValue(s, RightSide)
            && r[CyclewayLeftKey] == CyclewayValue(s, LeftSide)
            && r[CyclewayLaneKey] == CyclewayLaneValue(s, BothSides)
            && r[CyclewayRightLaneKey] == CyclewayLaneValue(s, RightSide)
            && r[CyclewayLeftLaneKey] == CyclewayLaneValue(s, LeftSide)
  {
  }

  lemma SidesOfCounts(lanes: seq<Lane>, g: Group)
    ensures SidesOf(StatsOf(lanes).Of(g)) == BothSides <==> TwoSided(lanes, g)
    ensures SidesOf(StatsOf(lanes).Of(g)) == RightSide <==> OneSided(lanes, g, Forward)
    ensures SidesOf(StatsOf(lanes).Of(g)) == LeftSide <==> OneSided(lanes, g, Backward)
  {
    var c := StatsOf(lanes).Of(g);
    assert c == CountsOf(lanes, g);
    assert c.Get(Both) == c.bothWays && c.Get(Forward) == c.forward && c.Get(Backward) == c.backward;
  }

  /** At most one of `cycleway`, `cycleway:right` and `cycleway:left` says
      "track". */
  lemma TrackOnOneKey(attrs: map<TagKey, TagValue>, s: Stats)
    ensures var r := EncodeTags(attrs, s);
            |set k | k in {CyclewayKey, CyclewayRightKey, CyclewayLeftKey} && r[k] == Text("track")| <= 1
  {
    var r := EncodeTags(attrs, s);
    var t := set k | k in {CyclewayKey, CyclewayRightKey, CyclewayLeftKey} && r[k] == Text("track");
    var side := SidesOf(s.cyclingTracks);
    if side == BothSides { assert t == {CyclewayKey}; }
    else if side == RightSide { assert t == {CyclewayRightKey}; }
    else if side == LeftSide { assert t == {CyclewayLeftKey}; }
    else { assert t == {}; }
  }

  /** The attribute dictionary of one edge, updated in place. */
  class EdgeAttributes {
    var attrs: map<TagKey, TagValue>

    constructor (initial: map<TagKey, TagValue>)
      ensures attrs == initial
    {
      attrs := initial;
    }

    /** `data.get(key, [])`: the lane list stored under key, or the empty
        list. Any other value makes the lane counting raise. */
    function LaneDescription(key: TagKey): seq<Lane>
      requires key in attrs ==> attrs[key].LaneDesc?
      reads this
    {
      if key in attrs then attrs[key].lanes else []
    }

    /** `_update_osm_tags_for_edge`: count the lanes, reset the owned keys and
      write the counts back. */
    method UpdateOsmTags(lanesKey: TagKey)
      requires Canonical(lanesKey) && forall k :: k in attrs ==> Canonical(k)
      requires lanesKey in attrs ==> attrs[lanesKey].LaneDesc?
      modifies this
      ensures attrs == EncodeTags(old(attrs), StatsOf(old(LaneDescription(lanesKey))))
      ensures forall k :: k in attrs ==> Canonical(k)
    {
      var s := ComputeLaneStats(LaneDescription(lanesKey));
      EncodeTagsCanonical(attrs, s);
      WrittenInSteps(attrs, s);
      WriteLaneCounts(s);
      WritePtLanes(s);
      WriteCycleways(s);
    }

    method WriteLaneCounts(s: Stats)
      modifies this
      ensures attrs == Written(old(attrs), s, LaneCountKeys)
    {
      var a := attrs[LanesKey := Null][LanesForwardKey := Null][LanesBackwardKey := Null][LanesBothWaysKey := Null];
      if s.nLanesMotorized > 0 {
        a := a[LanesKey := Num(s.nLanesMotorized)];
      }
      if s.motorized.forward > 0 {
        a := a[LanesForwardKey := Num(s.motorized.forward)];
      }
      if s.motorized.backward > 0 {
        a := a[LanesBackwardKey := Num(s.motorized.backward)];
      }
      if s.motorized.bothWays > 0 {
        a := a[LanesBothWaysKey := Num(s.motorized.bothWays)];
      }
      assert a.Keys == attrs.Keys + LaneCountKeys;
      attrs := a;
    }

    method WritePtLanes(s: Stats)
      modifies this
      ensures attrs == Written(old(attrs), s, PtKeys)
    {
      var a := attrs[BusLanesBackwardKey := Null][BusLanesForwardKey := Null]
                    [VehicleLanesBackwardKey := Null][VehicleLanesForwardKey := Null];
      if s.dedicatedPt.bothWays > 0 || s.dedicatedPt.backward > 0 {
        a := a[BusLanesBackwardKey := Tokens(BusLanes(s.dedicatedPt, s.privateCars, Backward))];
        a := a[VehicleLanesBackwardKey := Tokens(VehicleLanes(s.dedicatedPt, s.privateCars, Backward))];
      }
      if s.dedicatedPt.bothWays > 0 || s.dedicatedPt.forward > 0 {
        a := a[BusLanesForwardKey := Tokens(BusLanes(s.dedicatedPt, s.privateCars, Forward))];
        a := a[VehicleLanesForwardKey := Tokens(VehicleLanes(s.dedicatedPt, s.privateCars, Forward))];
      }
      assert a.Keys == attrs.Keys + PtKeys;
      WrittenByKey(attrs, s, PtKeys, a);
      attrs := a;
    }

    method WriteCycleways(s: Stats)
      modifies this
      ensures attrs == Written(old(attrs), s, CyclewayKeys)
    {
      ghost var before := attrs;
      WriteCyclingLanes(s.cyclingLanes);
      WriteCyclingTracks(s.cyclingTracks);
      CyclewayKeysEncoded(s, attrs);
      WrittenByKey(before, s, CyclewayKeys, attrs);
    }

    /** Reset the cycleway keys and describe the cycling lanes. */
    method WriteCyclingLanes(cl: DirectionCounts)
      modifies this
      ensures attrs.Keys == old(attrs).Keys + CyclewayKeys
      ensures forall k :: k in old(attrs) && k !in CyclewayKeys ==> attrs[k] == old(attrs)[k]
      ensures attrs[CyclewayKey] == (if SidesOf(cl) == BothSides then Text("lane") else Null)
      ensures attrs[CyclewayRightKey] == (if SidesOf(cl) == RightSide then Text("lane") else Null)
      ensures attrs[CyclewayLeftKey] == (if SidesOf(cl) == LeftSide then Text("lane") else Null)
      ensures attrs[CyclewayLaneKey] == (if SidesOf(cl) == BothSides then Text("advisory") else Null)
      ensures attrs[CyclewayRightLaneKey] == (if SidesOf(cl) == RightSide then Text("advisory") else Null)
      ensures attrs[CyclewayLeftLaneKey] == (if SidesOf(cl) == LeftSide then Text("advisory") else Null)
    {
      attrs := attrs[CyclewayKey := Null][CyclewayLaneKey := Null][CyclewayRightKey := Null]
                    [CyclewayRightLaneKey := Null][CyclewayLeftKey := Null][CyclewayLeftLaneKey := Null];
      if cl.bothWays > 0 || (cl.forward > 0 && cl.backward > 0) {
        attrs := attrs[CyclewayKey := Text("lane")][CyclewayLaneKey := Text("advisory")];
      } else if cl.forward > 0 {
        attrs := attrs[CyclewayRightKey := Text("lane")][CyclewayRightLaneKey := Text("advisory")];
      } else if cl.backward > 0 {
        attrs := attrs[CyclewayLeftKey := Text("lane")][CyclewayLeftLaneKey := Text("advisory")];
      }
    }

    /** Mark the sides with a cycling track, over any cycling lane. */
    method WriteCyclingTracks(ct: DirectionCounts)
      requires CyclewayKeys <= attrs.Keys
      modifies this
      ensures attrs.Keys == old(attrs).Keys
      ensures forall k :: k in old(attrs) && k !in {CyclewayKey, CyclewayRightKey, CyclewayLeftKey} ==> attrs[k] == old(attrs)[k]
      ensures SidesOf(ct) == BothSides ==> attrs[CyclewayKey] == Text("track")
      ensures SidesOf(ct) == RightSide ==> attrs[CyclewayRightKey] == Text("track")
      ensures SidesOf(ct) == LeftSide ==> attrs[CyclewayLeftKey] == Text("track")
      ensures SidesOf(ct) != BothSides ==> attrs[CyclewayKey] == old(attrs)[CyclewayKey]
      ensures SidesOf(ct) != RightSide ==> attrs[CyclewayRightKey] == old(attrs)[CyclewayRightKey]
      ensures SidesOf(ct) != LeftSide ==> attrs[CyclewayLeftKey] == old(attrs)[CyclewayLeftKey]
    {
      if ct.bothWays > 0 || (ct.forward > 0 && ct.backward > 0) {
        attrs := attrs[CyclewayKey := Text("track")];
      } else if ct.forward > 0 {
        attrs := attrs[CyclewayRightKey := Text("track")];
      } else if ct.backward > 0 {
        attrs := attrs[CyclewayLeftKey := Text("track")];
      }
    }
  }
}
