/** The geometry engine (src/lib/geometry.ts): viewport-adaptive sizing, axial to
    pixel conversion, the status dot, and the enumeration of a hex ring in the
    axial coordinate scheme. Pixel quantities are reals; the floating-point
    rounding of JavaScript numbers is not modelled. */
module Geometry {

  const HexStretchX: real := 1.28
  const HexStretchY: real := 0.836
  const StatusLift: real := 0.52
  const DefaultW: real := 1000.0
  const DefaultH: real := 800.0
  const MarginX: real := 70.0
  const MarginY: real := 52.0
  const FitScale: real := 0.95
  const MinSize: real := 32.0
  const MaxSize: real := 84.0
  const StatusDotRadius: real := 12.0
  /** The double closest to the square root of 3, which is what Math.sqrt(3) returns. */
  const Sqrt3: real := 1.7320508075688772

  function Min(a: real, b: real): real { if a <= b then a else b }
  function Max(a: real, b: real): real { if a >= b then a else b }

  datatype Layout = Layout(width: real, height: real, size: real, cx: real, cy: real)

  /** calculateLayout: an unmeasured (zero) side falls back to 1000 x 800, the
      size fits seven hex widths and heights, and is clamped to [32, 84]. */
  function CalculateLayout(width: real, height: real): (l: Layout)
    ensures MinSize <= l.size <= MaxSize
    ensures l.width == (if width == 0.0 then DefaultW else width)
    ensures l.height == (if height == 0.0 then DefaultH else height)
    ensures l.cx == l.width / 2.0 && l.cy == l.height / 2.0
  {
    var w := if width == 0.0 then DefaultW else width;
    var h := if height == 0.0 then DefaultH else height;
    var sizeByW := (w - MarginX * 2.0) / ((7.0 * 1.5) * HexStretchX);
    var sizeByH := (h - MarginY * 2.0) / (7.0 * (Sqrt3 / 2.0) * HexStretchY);
    var size := Min(sizeByW, sizeByH) * FitScale;
    Layout(w, h, Max(MinSize, Min(size, MaxSize)), w / 2.0, h / 2.0)
  }

  /** A wider viewport never gives smaller hexes. */
  lemma CalculateLayoutMonotoneInWidth(w1: real, w2: real, height: real)
    requires 0.0 < w1 <= w2
    ensures CalculateLayout(w1, height).size <= CalculateLayout(w2, height).size
  {
  }

  datatype Pixel = Pixel(x: real, y: real)

  /** axialToPixel: the offset of a lattice position from the grid centre. */
  function AxialToPixel(q: int, r: int, size: real): (p: Pixel)
    ensures q == 0 && r == 0 ==> p == Pixel(0.0, 0.0)
  {
    Pixel((size * HexStretchX) * (1.5 * q as real),
          (size * HexStretchY) * (Sqrt3 * r as real + (Sqrt3 / 2.0) * q as real))
  }

  /** The horizontal offset depends on q alone. */
  lemma AxialToPixelXIgnoresR(q: int, r1: int, r2: int, size: real)
    ensures AxialToPixel(q, r1, size).x == AxialToPixel(q, r2, size).x
  {
  }

  /** The conversion is linear: the offset of a sum is the sum of the offsets. */
  lemma AxialToPixelAdditive(q1: int, r1: int, q2: int, r2: int, size: real)
    ensures AxialToPixel(q1 + q2, r1 + r2, size).x == AxialToPixel(q1, r1, size).x + AxialToPixel(q2, r2, size).x
    ensures AxialToPixel(q1 + q2, r1 + r2, size).y == AxialToPixel(q1, r1, size).y + AxialToPixel(q2, r2, size).y
  {
  }

  datatype StatusDot = StatusDot(cx: real, cy: real, r: real)

  /** getStatusDotPosition: straight above the centre by a fixed share of the
      vertical extent, with radius 12. */
  function GetStatusDotPosition(cx: real, cy: real, size: real): (d: StatusDot)
    ensures d.cx == cx && d.r == StatusDotRadius
    ensures cy - d.cy == size * HexStretchY * StatusLift
    ensures size > 0.0 ==> d.cy < cy
  {
    StatusDot(cx, cy - size * HexStretchY * StatusLift, StatusDotRadius)
  }

  // ---------------------------------------------------------------------------
  // Rings in axial coordinates

  datatype Axial = Axial(q: int, r: int)

  function Add(a: Axial, b: Axial): Axial {
    Axial(a.q + b.q, a.r + b.r)
  }

  function Abs(x: int): nat { if x < 0 then -x else x }

  /** Distance from the origin on the hex lattice (cube coordinates (q, r, -q-r)). */
  function HexDistance(a: Axial): nat {
    var m := if Abs(a.q) >= Abs(a.r) then Abs(a.q) else Abs(a.r);
    if m >= Abs(a.q + a.r) then m else Abs(a.q + a.r)
  }

  /** One of the six lattice steps. */
  predicate IsUnitStep(d: Axial) {
    d == Axial(1, 0) || d == Axial(0, 1) || d == Axial(-1, 1)
    || d == Axial(-1, 0) || d == Axial(0, -1) || d == Axial(1, -1)
  }

  /** Two lattice positions are neighbours when one lattice step leads from one
      to the other. */
  predicate IsNeighbour(a: Axial, b: Axial) {
    IsUnitStep(Axial(b.q - a.q, b.r - a.r))
  }

  /** The lattice steps are exactly the offsets at hex distance 1, so neighbours
      are the positions one apart. */
  lemma NeighbourAtDistanceOne(a: Axial, b: Axial)
    ensures IsNeighbour(a, b) <==> HexDistance(Axial(b.q - a.q, b.r - a.r)) == 1
  {
    var d := Axial(b.q - a.q, b.r - a.r);
    if HexDistance(d) == 1 {
      assert -1 <= d.q <= 1 && -1 <= d.r <= 1 && -1 <= d.q + d.r <= 1;
    }
  }

  /** The six directions, in the order the walk takes them. */
  function Dir(side: nat): Axial
    requires side < 6
  {
    if side == 0 then Axial(1, 0)
    else if side == 1 then Axial(0, 1)
    else if side == 2 then Axial(-1, 1)
    else if side == 3 then Axial(-1, 0)
    else if side == 4 then Axial(0, -1)
    else Axial(1, -1)
  }

  /** Where side `side` of the ring of radius R begins; the walk starts at the top,
      (0, -R), and the seventh corner closes it. */
  function Corner(R: nat, side: nat): Axial
    requires side <= 6
  {
    var n: int := R;
    if side == 0 || side == 6 then Axial(0, -n)
    else if side == 1 then Axial(n, -n)
    else if side == 2 then Axial(n, 0)
    else if side == 3 then Axial(0, n)
    else if side == 4 then Axial(-n, n)
    else Axial(-n, 0)
  }

  /** The position t steps from the corner of side `side` along that side's
      direction, Corner(R, side) + t * Dir(side), written out per side. */
  function SidePoint(R: nat, side: nat, t: int): Axial
    requires side < 6
  {
    var n: int := R;
    if side == 0 then Axial(t, -n)
    else if side == 1 then Axial(n, t - n)
    else if side == 2 then Axial(n - t, t)
    else if side == 3 then Axial(-t, n)
    else if side == 4 then Axial(-n, n - t)
    else Axial(t - n, -t)
  }

  /** A side starts at its corner and R steps reach the next corner; after the
      sixth side the walk is back at its start. */
  lemma SideEnds(R: nat, side: nat)
    requires side < 6
    ensures SidePoint(R, side, 0) == Corner(R, side)
    ensures SidePoint(R, side, R) == Corner(R, side + 1)
  {
  }

  /** Each step along a side adds that side's direction. */
  lemma SidePointStep(R: nat, side: nat, t: int)
    requires side < 6
    ensures SidePoint(R, side, t + 1) == Add(SidePoint(R, side, t), Dir(side))
  {
  }

  /** The R positions of one side, from its corner on. */
  function Side(R: nat, side: nat): (s: seq<Axial>)
    requires side < 6
    ensures |s| == R
  {
    seq(R, t requires 0 <= t < R => SidePoint(R, side, t))
  }

  /** The first n sides of the walk. */
  function Sides(R: nat, n: nat): seq<Axial>
    requires n <= 6
    decreases n
  {
    if n == 0 then [] else Sides(R, n - 1) + Side(R, n - 1)
  }

  /** Position i of the walk around the ring of radius R, counted from the corner
      of side `side`: on that side while fewer than R steps remain (the last side
      takes the rest), otherwise further on. */
  function RingPoint(R: nat, i: nat, side: nat): Axial
    requires side < 6
    decreases 6 - side
  {
    if i < R || side == 5 then SidePoint(R, side, i)
    else RingPoint(R, i - R, side + 1)
  }

  /** The positions getRingAxialCoords returns for a radius. */
  function RingAxialCoords(radius: nat): (ring: seq<Axial>)
    ensures |ring| == if radius == 0 then 1 else 6 * radius
  {
    if radius == 0 then [Axial(0, 0)]
    else seq(6 * radius, i requires 0 <= i < 6 * radius => RingPoint(radius, i, 0))
  }

  /** One more recorded position extends the walk by the next point of the side. */
  lemma WalkStep(R: nat, side: nat, step: nat, results: seq<Axial>)
    requires side < 6 && step < R
    requires results == Sides(R, side) + Side(R, side)[..step]
    ensures results + [SidePoint(R, side, step)] == Sides(R, side) + Side(R, side)[..step + 1]
  {
    var a, b := Sides(R, side), Side(R, side);
    assert b[..step + 1] == b[..step] + [b[step]];
    assert a + b[..step] + [b[step]] == a + (b[..step] + [b[step]]);
  }

  /** A finished side completes the walk up to the next corner. */
  lemma WalkSideDone(R: nat, side: nat, results: seq<Axial>)
    requires side < 6
    requires results == Sides(R, side) + Side(R, side)[..R]
    ensures results == Sides(R, side + 1)
  {
    assert Side(R, side)[..R] == Side(R, side);
  }

  /** getRingAxialCoords: starts at (0, -radius) and, for each of the six
      directions in turn, records the position and steps `radius` times. */
  method GetRingAxialCoords(radius: nat) returns (results: seq<Axial>)
    ensures results == RingAxialCoords(radius)
  {
    if radius == 0 {
      return [Axial(0, 0)];
    }
    results := [];
    var q: int, r: int := 0, -(radius as int);
    var dirs := [Axial(1, 0), Axial(0, 1), Axial(-1, 1), Axial(-1, 0), Axial(0, -1), Axial(1, -1)];
    var side := 0;
    while side < 6
      invariant 0 <= side <= 6
      invariant results == Sides(radius, side)
      invariant Axial(q, r) == Corner(radius, side)
    {
      var dq, dr := dirs[side].q, dirs[side].r;
      assert Axial(dq, dr) == Dir(side);
      SideEnds(radius, side);
      var step := 0;
      while step < radius
        invariant 0 <= step <= radius
        invariant results == Sides(radius, side) + Side(radius, side)[..step]
        invariant Axial(q, r) == SidePoint(radius, side, step)
      {
        WalkStep(radius, side, step, results);
        results := results + [Axial(q, r)];
        SidePointStep(radius, side, step);
        q := q + dq;
        r := r + dr;
        step := step + 1;
      }
      WalkSideDone(radius, side, results);
      side := side + 1;
    }
    RingIsSides(radius);
  }

  lemma RingPointOnSide(R: nat, t: nat, side: nat)
    requires t < R && side < 6
    ensures RingPoint(R, t, side) == SidePoint(R, side, t)
  {
  }

  lemma RingPointNext(R: nat, i: nat, side: nat)
    requires R <= i && side < 5
    ensures RingPoint(R, i, side) == RingPoint(R, i - R, side + 1)
  {
  }

  lemma StepBack(k: nat, R: nat, t: nat)
    requires k > 0
    ensures k * R + t >= R && k * R + t - R == (k - 1) * R + t
  {
    assert k * R == (k - 1) * R + R;
  }

  lemma {:induction false} RingPointAt(R: nat, side: nat, t: nat, start: nat)
    requires start <= side < 6 && t < R
    ensures RingPoint(R, (side - start) * R + t, start) == SidePoint(R, side, t)
    decreases side - start
  {
    var k := side - start;
    if k == 0 {
      RingPointOnSide(R, t, side);
    } else {
      StepBack(k, R, t);
      RingPointNext(R, k * R + t, start);
      RingPointAt(R, side, t, start + 1);
    }
  }

  lemma {:induction false} SidesAsPoints(R: nat, n: nat)
    requires 0 < R && n <= 6
    ensures |Sides(R, n)| == n * R
    ensures forall i :: 0 <= i < n * R ==> Sides(R, n)[i] == RingPoint(R, i, 0)
    decreases n
  {
    if n > 0 {
      SidesAsPoints(R, n - 1);
      var a, b := Sides(R, n - 1), Side(R, n - 1);
      assert n * R == (n - 1) * R + R;
      forall i | 0 <= i < n * R ensures (a + b)[i] == RingPoint(R, i, 0) {
        if i >= (n - 1) * R {
          var t := i - (n - 1) * R;
          RingPointAt(R, n - 1, t, 0);
        }
      }
    }
  }

  /** For R >= 1 the ring is the six sides walked in order. */
  lemma RingIsSides(R: nat)
    requires R > 0
    ensures RingAxialCoords(R) == Sides(R, 6)
  {
    SidesAsPoints(R, 6);
  }

  lemma {:induction false} SidesLength(R: nat, n: nat)
    requires n <= 6
    ensures |Sides(R, n)| == n * R
    decreases n
  {
    if n > 0 {
      SidesLength(R, n - 1);
    }
  }

  /** The ring of radius 0 is the origin alone; a ring of radius R >= 1 has 6R
      positions and starts at the top, (0, -R). */
  lemma RingLength(radius: nat)
    ensures |RingAxialCoords(radius)| == if radius == 0 then 1 else 6 * radius
    ensures radius == 0 ==> RingAxialCoords(radius) == [Axial(0, 0)]
    ensures radius > 0 ==> RingAxialCoords(radius)[0] == Axial(0, -(radius as int))
  {
    if radius > 0 {
      RingIsSides(radius);
      SidesAt(radius, 6, 0, 0);
    }
  }

  lemma {:induction false} SidesAt(R: nat, n: nat, side: nat, t: nat)
    requires n <= 6 && side < n && t < R
    ensures side * R + t < |Sides(R, n)|
    ensures Sides(R, n)[side * R + t] == SidePoint(R, side, t)
    decreases n
  {
    SidesLength(R, n - 1);
    if side < n - 1 {
      SidesAt(R, n - 1, side, t);
    } else {
      assert side * R == (n - 1) * R;
    }
  }

  /** Position side*R + t of the ring is t steps along direction `side` from that
      side's corner: the sides follow the direction list in order. */
  lemma RingSideAt(R: nat, side: nat, t: nat)
    requires R > 0 && side < 6 && t < R
    ensures side * R + t < |RingAxialCoords(R)|
    ensures RingAxialCoords(R)[side * R + t] == SidePoint(R, side, t)
  {
    RingIsSides(R);
    SidesAt(R, 6, side, t);
  }

  lemma SidePositionDistance(R: nat, side: nat, t: nat)
    requires side < 6 && t < R
    ensures HexDistance(SidePoint(R, side, t)) == R
  {
  }

  /** Every position of a ring is at hex distance R from the origin. */
  lemma {:induction false} RingOnHexCircle(R: nat)
    ensures forall p :: p in RingAxialCoords(R) ==> HexDistance(p) == R
  {
    if R > 0 {
      RingIsSides(R);
      SidesOnHexCircle(R, 6);
    }
  }

  lemma {:induction false} SidesOnHexCircle(R: nat, n: nat)
    requires n <= 6
    ensures forall p :: p in Sides(R, n) ==> HexDistance(p) == R
    decreases n
  {
    if n > 0 {
      SidesOnHexCircle(R, n - 1);
      forall p | p in Side(R, n - 1) ensures HexDistance(p) == R {
        var t :| 0 <= t < R && Side(R, n - 1)[t] == p;
        SidePositionDistance(R, n - 1, t);
      }
    }
  }

  /** Which side of the ring of radius R a position on it belongs to. */
  function SideOf(R: nat, p: Axial): nat {
    var n: int := R;
    if p.r == -n && 0 <= p.q < n then 0
    else if p.q == n && p.r < 0 then 1
    else if p.q > 0 && p.r >= 0 then 2
    else if p.r == n && -n < p.q <= 0 then 3
    else if p.q == -n && p.r > 0 then 4
    else 5
  }

  lemma SideOfSide(R: nat, side: nat, t: nat)
    requires side < 6 && t < R
    ensures SideOf(R, SidePoint(R, side, t)) == side
  {
  }

  predicate Distinct<T(==)>(xs: seq<T>) {
    forall i, j :: 0 <= i < j < |xs| ==> xs[i] != xs[j]
  }

  lemma {:induction false} SidesDistinct(R: nat, n: nat)
    requires n <= 6
    ensures Distinct(Sides(R, n))
    ensures forall p :: p in Sides(R, n) ==> SideOf(R, p) < n
    decreases n
  {
    if n > 0 {
      var a, b := Sides(R, n - 1), Side(R, n - 1);
      SidesDistinct(R, n - 1);
      forall t | 0 <= t < R ensures SideOf(R, b[t]) == n - 1 {
        SideOfSide(R, n - 1, t);
      }
      forall i, j | 0 <= i < j < |a + b| ensures (a + b)[i] != (a + b)[j] {
        if j < |a| {
          assert (a + b)[i] == a[i] && (a + b)[j] == a[j];
        } else if i >= |a| {
          var d := Dir(n - 1);
          assert (a + b)[i] == b[i - |a|] && (a + b)[j] == b[j - |a|];
          assert d.q != 0 || d.r != 0;
        } else {
          assert (a + b)[i] == a[i] && (a + b)[j] == b[j - |a|];
          assert a[i] in a;
        }
      }
    }
  }

  /** A ring has no repeated position. */
  lemma RingDistinct(R: nat)
    ensures Distinct(RingAxialCoords(R))
  {
    if R > 0 {
      RingIsSides(R);
      SidesDistinct(R, 6);
    }
  }

  /** Consecutive positions are neighbours. */
  predicate IsWalk(xs: seq<Axial>) {
    forall k :: 0 <= k < |xs| - 1 ==> IsNeighbour(xs[k], xs[k + 1])
  }

  /** One step in a direction reaches a neighbour. */
  lemma StepIsNeighbour(p: Axial, side: nat)
    requires side < 6
    ensures IsNeighbour(p, Add(p, Dir(side)))
  {
    var d := Dir(side);
    assert Axial(Add(p, d).q - p.q, Add(p, d).r - p.r) == d;
  }

  lemma WalkConcat(a: seq<Axial>, b: seq<Axial>)
    requires IsWalk(a) && IsWalk(b)
    requires a != [] && b != [] && IsNeighbour(a[|a| - 1], b[0])
    ensures IsWalk(a + b)
  {
    forall k | 0 <= k < |a + b| - 1 ensures IsNeighbour((a + b)[k], (a + b)[k + 1]) {
      if k < |a| - 1 {
        assert (a + b)[k] == a[k] && (a + b)[k + 1] == a[k + 1];
      } else if k == |a| - 1 {
        assert (a + b)[k] == a[|a| - 1] && (a + b)[k + 1] == b[0];
      } else {
        assert (a + b)[k] == b[k - |a|] && (a + b)[k + 1] == b[k + 1 - |a|];
      }
    }
  }

  lemma SideWalk(R: nat, side: nat)
    requires side < 6
    ensures IsWalk(Side(R, side))
  {
    var b := Side(R, side);
    forall t | 0 <= t < R - 1 ensures IsNeighbour(b[t], b[t + 1]) {
      SideStepIsNeighbour(R, side, t);
    }
  }

  lemma SideStepIsNeighbour(R: nat, side: nat, t: int)
    requires side < 6
    ensures IsNeighbour(SidePoint(R, side, t), SidePoint(R, side, t + 1))
  {
    SidePointStep(R, side, t);
    StepIsNeighbour(SidePoint(R, side, t), side);
  }

  /** The last position of a side neighbours the first of the next one. */
  lemma SideJoin(R: nat, side: nat)
    requires R > 0 && side < 6
    ensures IsNeighbour(SidePoint(R, side, R - 1), Corner(R, side + 1))
  {
    SideStepIsNeighbour(R, side, R - 1);
    SideEnds(R, side);
  }

  /** The walk's first n sides end on the last position of side n - 1. */
  lemma SidesLast(R: nat, n: nat)
    requires R > 0 && 0 < n <= 6
    ensures |Sides(R, n)| > 0
    ensures Sides(R, n)[|Sides(R, n)| - 1] == Side(R, n - 1)[R - 1]
  {
    LastOfConcat(Sides(R, n - 1), Side(R, n - 1));
  }

  lemma LastOfConcat(a: seq<Axial>, b: seq<Axial>)
    requires b != []
    ensures (a + b)[|a + b| - 1] == b[|b| - 1]
  {
  }

  lemma {:induction false} SidesWalk(R: nat, n: nat)
    requires R > 0 && 0 < n <= 6
    ensures IsWalk(Sides(R, n))
    decreases n
  {
    var a, b := Sides(R, n - 1), Side(R, n - 1);
    SideWalk(R, n - 1);
    assert Sides(R, n) == a + b;
    if n > 1 {
      SidesWalk(R, n - 1);
      SidesJoin(R, n - 1);
      WalkConcat(a, b);
    } else {
      assert a + b == b;
    }
  }

  /** The first n sides end next to where side n begins. */
  lemma SidesJoin(R: nat, n: nat)
    requires R > 0 && 0 < n < 6
    ensures Sides(R, n) != [] && Side(R, n) != []
    ensures IsNeighbour(Sides(R, n)[|Sides(R, n)| - 1], Side(R, n)[0])
  {
    SidesLast(R, n);
    SideJoin(R, n - 1);
    SideEnds(R, n);
  }

  /** A ring of radius R >= 1 is a closed walk: each position neighbours the next,
      and the last neighbours the first. */
  lemma RingIsClosedWalk(R: nat)
    requires R > 0
    ensures IsWalk(RingAxialCoords(R))
    ensures var ring := RingAxialCoords(R); IsNeighbour(ring[|ring| - 1], ring[0])
  {
    RingIsSides(R);
    SidesWalk(R, 6);
    SidesLast(R, 6);
    RingLength(R);
    SideJoin(R, 5);
  }
}
