/** Small value types shared by the lane codec and the street graph. */
module Common {

  datatype Option<+T> = None | Some(value: T) {
    function GetOr(default: T): T {
      match this
      case Some(v) => v
      case None => default
    }
  }

  /** A planar point; geometry is never computed with, only stored and reordered. */
  datatype Point = Point(x: real, y: real)

  /** A polyline as its sequence of vertices. */
  type Geometry = seq<Point>

  /** The same elements in the opposite order (Python's `list.reverse()`). */
  function Reverse<T>(s: seq<T>): (r: seq<T>)
    ensures |r| == |s|
    ensures forall i :: 0 <= i < |s| ==> r[i] == s[|s| - 1 - i]
  {
    if s == [] then [] else Reverse(s[1..]) + [s[0]]
  }

  lemma {:induction false} ReverseTwice<T>(s: seq<T>)
    ensures Reverse(Reverse(s)) == s
  {
    var r := Reverse(Reverse(s));
    assert |r| == |s|;
    forall i | 0 <= i < |s| ensures r[i] == s[i] {
      assert r[i] == Reverse(s)[|s| - 1 - i];
    }
  }
}
