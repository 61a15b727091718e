/** The collision test of the tank game, over exact reals. */
module TankGeometry {
  import opened Text

  datatype Point = Point(x: real, y: real)

  /** Products by name, so that proofs can treat them as plain terms. */
  function Mul(a: real, b: real): real {
    a * b
  }

  function Dot(n: Point, p: Point): real {
    Mul(n.x, p.x) + Mul(n.y, p.y)
  }

  function Plus(p: Point, q: Point): Point {
    Point(p.x + q.x, p.y + q.y)
  }

  /** The shape of a tank around its location. */
  const TANK: seq<Point> := [Point(-25.0, -15.0), Point(25.0, -15.0), Point(25.0, 15.0), Point(-15.0, 15.0)]

  function TankAt(location: Point): (r: seq<Point>)
    ensures |r| == 4
    ensures forall i :: 0 <= i < 4 ==> r[i] == Plus(location, TANK[i])
  {
    [Plus(location, TANK[0]), Plus(location, TANK[1]), Plus(location, TANK[2]), Plus(location, TANK[3])]
  }

  /** The normal of the edge from vertex `i` to the next. */
  function Normal(shape: seq<Point>, i: nat): Point
    requires i < |shape|
  {
    var j := (i + 1) % |shape|;
    Point(shape[j].y - shape[i].y, shape[i].x - shape[j].x)
  }

  /** The least and the greatest projection; None for no points, where the source keeps NaN. */
  function MinOn(n: Point, points: seq<Point>): Option<real> {
    if points == [] then None
    else
      var rest := MinOn(n, points[..|points| - 1]);
      var p := Dot(n, points[|points| - 1]);
      if rest.None? || p < rest.value then Some(p) else rest
  }

  function MaxOn(n: Point, points: seq<Point>): Option<real> {
    if points == [] then None
    else
      var rest := MaxOn(n, points[..|points| - 1]);
      var p := Dot(n, points[|points| - 1]);
      if rest.None? || p > rest.value then Some(p) else rest
  }

  /** A comparison with NaN is false. */
  predicate Less(a: Option<real>, b: Option<real>) {
    a.Some? && b.Some? && a.value < b.value
  }

  /** The projections onto `n` leave a gap between the shapes. */
  predicate Gap(n: Point, a: seq<Point>, b: seq<Point>) {
    Less(MaxOn(n, a), MinOn(n, b)) || Less(MaxOn(n, b), MinOn(n, a))
  }

  /** What the source reports: no edge normal of the first shape leaves a gap. */
  predicate Collides(a: seq<Point>, b: seq<Point>) {
    forall i :: 0 <= i < |a| ==> !Gap(Normal(a, i), a, b)
  }

  lemma OneMore(n: Point, points: seq<Point>, i: nat)
    requires i < |points|
    ensures var lo, p := MinOn(n, points[..i]), Dot(n, points[i]);
      MinOn(n, points[..i + 1]) == if lo.None? || p < lo.value then Some(p) else lo
    ensures var hi, p := MaxOn(n, points[..i]), Dot(n, points[i]);
      MaxOn(n, points[..i + 1]) == if hi.None? || p > hi.value then Some(p) else hi
  {
    assert points[..i + 1][..i] == points[..i];
  }

  lemma DotIs(n: Point, p: Point)
    ensures Dot(n, p) == n.x * p.x + n.y * p.y
  {}

  lemma NoPoints(n: Point, points: seq<Point>)
    requires points == []
    ensures MinOn(n, points) == None && MaxOn(n, points) == None
  {}

  method Project(n: Point, points: seq<Point>) returns (min: Option<real>, max: Option<real>)
    ensures min == MinOn(n, points) && max == MaxOn(n, points)
  {
    hide MinOn, MaxOn, Dot;
    min, max := None, None;
    NoPoints(n, points[..0]);
    for i := 0 to |points|
      invariant min == MinOn(n, points[..i]) && max == MaxOn(n, points[..i])
    {
      OneMore(n, points, i);
      var projected := n.x * points[i].x + n.y * points[i].y;
      DotIs(n, points[i]);
      if min.None? || projected < min.value {
        min := Some(projected);
      }
      if max.None? || projected > max.value {
        max := Some(projected);
      }
      assert projected == Dot(n, points[i]);
      assert min == MinOn(n, points[..i + 1]);
    }
    assert points[..|points|] == points;
  }

  method Test(a: seq<Point>, b: seq<Point>) returns (collision: bool)
    ensures collision == Collides(a, b)
  {
    collision := true;
    for i1 := 0 to |a|
      invariant collision == forall i :: 0 <= i < i1 ==> !Gap(Normal(a, i), a, b)
    {
      var i2 := (i1 + 1) % |a|;
      var normal := Point(a[i2].y - a[i1].y, a[i1].x - a[i2].x);
      assert normal == Normal(a, i1);
      var minA, maxA := Project(normal, a);
      var minB, maxB := Project(normal, b);
      if Less(maxA, minB) || Less(maxB, minA) {
        collision := false;
      }
    }
  }

  // ----- Hulls

  function Sum(w: seq<real>): real {
    if w == [] then 0.0 else Sum(w[..|w| - 1]) + w[|w| - 1]
  }

  function Scale(k: real, p: Point): Point {
    Point(Mul(k, p.x), Mul(k, p.y))
  }

  function Blend(w: seq<real>, points: seq<Point>): Point
    requires |w| == |points|
  {
    if w == [] then Point(0.0, 0.0)
    else Plus(Blend(w[..|w| - 1], points[..|w| - 1]), Scale(w[|w| - 1], points[|w| - 1]))
  }

  /** `w` are convex weights that make `p` of the points. */
  ghost predicate Weights(w: seq<real>, points: seq<Point>, p: Point) {
    && |w| == |points|
    && (forall i :: 0 <= i < |w| ==> w[i] >= 0.0)
    && Sum(w) == 1.0
    && p == Blend(w, points)
  }

  ghost predicate InHull(points: seq<Point>, p: Point) {
    exists w :: Weights(w, points, p)
  }

  /** Every blend of points projects between their extremes. */
  lemma {:induction false} BlendBetween(n: Point, w: seq<real>, points: seq<Point>, lo: real, hi: real)
    requires |w| == |points| && forall i :: 0 <= i < |w| ==> w[i] >= 0.0
    requires forall i :: 0 <= i < |points| ==> lo <= Dot(n, points[i]) <= hi
    ensures Mul(lo, Sum(w)) <= Dot(n, Blend(w, points)) <= Mul(hi, Sum(w))
    decreases |w|
  {
    if w == [] {
      assert Sum(w) == 0.0 && Dot(n, Blend(w, points)) == 0.0;
    } else {
      hide Dot, Blend, Sum, Mul;
      var k := |w| - 1;
      BlendBetween(n, w[..k], points[..k], lo, hi);
      BlendLast(n, w, points);
      Grow(lo, hi, Sum(w[..k]), w[k], Dot(n, points[k]));
    }
  }

  lemma BlendLast(n: Point, w: seq<real>, points: seq<Point>)
    requires |w| == |points| && w != []
    ensures var k := |w| - 1;
      && Sum(w) == Sum(w[..k]) + w[k]
      && Dot(n, Blend(w, points)) == Dot(n, Blend(w[..k], points[..k])) + Mul(w[k], Dot(n, points[k]))
  {
    hide Mul, Dot, Plus, Scale;
    var k := |w| - 1;
    DotBlend(n, Blend(w[..k], points[..k]), w[k], points[k]);
  }

  lemma Grow(lo: real, hi: real, s: real, k: real, d: real)
    requires k >= 0.0 && lo <= d <= hi
    ensures Mul(lo, s + k) <= Mul(lo, s) + Mul(k, d) && Mul(hi, s) + Mul(k, d) <= Mul(hi, s + k)
  {
    hide Mul;
    Within(k, lo, d, hi);
    Distribute(lo, s, k);
    Distribute(hi, s, k);
  }

  lemma DotBlend(n: Point, b: Point, k: real, p: Point)
    ensures Dot(n, Plus(b, Scale(k, p))) == Dot(n, b) + Mul(k, Dot(n, p))
  {
    hide Mul;
    Distribute(n.x, b.x, Mul(k, p.x));
    Distribute(n.y, b.y, Mul(k, p.y));
    Distribute(k, Mul(n.x, p.x), Mul(n.y, p.y));
    Swap(n.x, k, p.x);
    Swap(n.y, k, p.y);
  }

  lemma Distribute(a: real, b: real, c: real)
    ensures Mul(a, b + c) == Mul(a, b) + Mul(a, c)
  {}

  lemma Swap(a: real, b: real, c: real)
    ensures Mul(a, Mul(b, c)) == Mul(b, Mul(a, c))
  {}

  lemma Within(k: real, lo: real, v: real, hi: real)
    requires k >= 0.0 && lo <= v <= hi
    ensures Mul(lo, k) <= Mul(k, v) <= Mul(hi, k)
  {}

  lemma One(a: real)
    ensures Mul(a, 1.0) == a
  {}

  lemma {:induction false} Extremes(n: Point, points: seq<Point>)
    requires points != []
    ensures MinOn(n, points).Some? && MaxOn(n, points).Some?
    ensures forall i :: 0 <= i < |points| ==> MinOn(n, points).value <= Dot(n, points[i]) <= MaxOn(n, points).value
    decreases |points|
  {
    hide Dot;
    var k := |points| - 1;
    if k > 0 {
      Extremes(n, points[..k]);
      assert forall i :: 0 <= i < k ==> points[..k][i] == points[i];
    }
  }

  /** Any gap, on any normal and between any shapes, keeps their hulls apart. */
  lemma GapSeparates(n: Point, a: seq<Point>, b: seq<Point>, p: Point)
    requires Gap(n, a, b)
    ensures !(InHull(a, p) && InHull(b, p))
  {
    hide Dot, Mul, MinOn, MaxOn, Sum, Blend;
    if InHull(a, p) && InHull(b, p) {
      InHullBetween(n, a, p);
      InHullBetween(n, b, p);
    }
  }

  lemma InHullBetween(n: Point, points: seq<Point>, p: Point)
    requires InHull(points, p)
    ensures MinOn(n, points).Some? && MaxOn(n, points).Some?
    ensures MinOn(n, points).value <= Dot(n, p) <= MaxOn(n, points).value
  {
    hide Dot, Mul, Blend, MinOn, MaxOn;
    var w :| Weights(w, points, p);
    assert points != [] by {
      assert Sum([]) == 0.0;
    }
    Extremes(n, points);
    BlendBetween(n, w, points, MinOn(n, points).value, MaxOn(n, points).value);
    One(MinOn(n, points).value);
    One(MaxOn(n, points).value);
  }

  // ----- The shape of a tank

  /** The three conditions the four edge normals come to for two tanks that lie `dx`, `dy` apart. */
  predicate Near(a: Point, b: Point) {
    var dx, dy := b.x - a.x, b.y - a.y;
    -50.0 <= dx <= 50.0 && -30.0 <= dy <= 30.0 && -150.0 <= dy - 3.0 * dx <= 150.0
  }

  /** The extremes over four points, spelled out. */
  lemma FourExtremes(n: Point, s: seq<Point>)
    requires |s| == 4
    ensures MinOn(n, s).Some? && MaxOn(n, s).Some?
    ensures exists i :: 0 <= i < 4 && MinOn(n, s).value == Dot(n, s[i])
    ensures exists i :: 0 <= i < 4 && MaxOn(n, s).value == Dot(n, s[i])
    ensures forall i :: 0 <= i < 4 ==> MinOn(n, s).value <= Dot(n, s[i]) <= MaxOn(n, s).value
  {
    hide Dot;
    NoPoints(n, s[..0]);
    OneMore(n, s, 0);
    OneMore(n, s, 1);
    OneMore(n, s, 2);
    OneMore(n, s, 3);
    assert s[..4] == s;
  }

  /** Projecting a tank shifts the projections of its shape by that of its location. */
  lemma Shifted(n: Point, c: Point, i: nat)
    requires i < 4
    ensures Dot(n, TankAt(c)[i]) == Dot(n, c) + Dot(n, TANK[i])
  {
    hide Mul;
    Distribute(n.x, c.x, TANK[i].x);
    Distribute(n.y, c.y, TANK[i].y);
  }

  lemma TankExtremes(n: Point, c: Point, i: nat, j: nat)
    requires i < 4 && j < 4 && forall k :: 0 <= k < 4 ==> Dot(n, TANK[i]) <= Dot(n, TANK[k]) <= Dot(n, TANK[j])
    ensures MinOn(n, TankAt(c)) == Some(Dot(n, c) + Dot(n, TANK[i]))
    ensures MaxOn(n, TankAt(c)) == Some(Dot(n, c) + Dot(n, TANK[j]))
  {
    hide Dot, MinOn, MaxOn;
    var s := TankAt(c);
    forall k | 0 <= k < 4
      ensures Dot(n, s[k]) == Dot(n, c) + Dot(n, TANK[k])
    {
      Shifted(n, c, k);
    }
    FourExtremes(n, s);
    assert Dot(n, s[i]) == Dot(n, c) + Dot(n, TANK[i]) && Dot(n, s[j]) == Dot(n, c) + Dot(n, TANK[j]);
  }

  lemma TankNormal(c: Point, i: nat)
    requires i < 4
    ensures Normal(TankAt(c), i) == Normal(TANK, i)
  {}

  lemma TankNormals()
    ensures Normal(TANK, 0) == Point(0.0, -50.0) && Normal(TANK, 1) == Point(30.0, 0.0)
    ensures Normal(TANK, 2) == Point(0.0, 40.0) && Normal(TANK, 3) == Point(-30.0, 10.0)
  {}

  /** What one normal decides. */
  lemma TankGap(n: Point, a: Point, b: Point, i: nat, j: nat)
    requires i < 4 && j < 4 && forall k :: 0 <= k < 4 ==> Dot(n, TANK[i]) <= Dot(n, TANK[k]) <= Dot(n, TANK[j])
    ensures var width := Dot(n, TANK[j]) - Dot(n, TANK[i]);
      Gap(n, TankAt(a), TankAt(b)) <==> !(-width <= Dot(n, b) - Dot(n, a) <= width)
  {
    TankExtremes(n, a, i, j);
    TankExtremes(n, b, i, j);
  }

  lemma Shape(n: Point)
    ensures Dot(n, TANK[0]) == -25.0 * n.x - 15.0 * n.y && Dot(n, TANK[1]) == 25.0 * n.x - 15.0 * n.y
    ensures Dot(n, TANK[2]) == 25.0 * n.x + 15.0 * n.y && Dot(n, TANK[3]) == -15.0 * n.x + 15.0 * n.y
  {}

  /** The loop over the four normals tests the three conditions. */
  lemma CollidesNear(a: Point, b: Point)
    ensures Collides(TankAt(a), TankAt(b)) <==> Near(a, b)
  {
    TankNormals();
    forall i | 0 <= i < 4
      ensures Normal(TankAt(a), i) == Normal(TANK, i)
    {
      TankNormal(a, i);
    }
    var n0, n1, n2, n3 := Point(0.0, -50.0), Point(30.0, 0.0), Point(0.0, 40.0), Point(-30.0, 10.0);
    TankGap0(n0, a, b);
    TankGap1(n1, a, b);
    TankGap0(n2, a, b);
    TankGap3(a, b);
    assert Collides(TankAt(a), TankAt(b)) <==>
      !Gap(n0, TankAt(a), TankAt(b)) && !Gap(n1, TankAt(a), TankAt(b)) && !Gap(n2, TankAt(a), TankAt(b)) && !Gap(n3, TankAt(a), TankAt(b)) by {
      hide Gap;
    }
  }

  lemma TankGap0(n: Point, a: Point, b: Point)
    requires n == Point(0.0, -50.0) || n == Point(0.0, 40.0)
    ensures Gap(n, TankAt(a), TankAt(b)) <==> !(-30.0 <= b.y - a.y <= 30.0)
  {
    Shape(n);
    if n.y > 0.0 {
      TankGap(n, a, b, 0, 2);
    } else {
      TankGap(n, a, b, 2, 0);
    }
  }

  lemma TankGap1(n: Point, a: Point, b: Point)
    requires n == Point(30.0, 0.0)
    ensures Gap(n, TankAt(a), TankAt(b)) <==> !(-50.0 <= b.x - a.x <= 50.0)
  {
    Shape(n);
    TankGap(n, a, b, 0, 1);
  }

  lemma TankGap3(a: Point, b: Point)
    ensures Gap(Point(-30.0, 10.0), TankAt(a), TankAt(b)) <==> !(-150.0 <= (b.y - a.y) - 3.0 * (b.x - a.x) <= 150.0)
  {
    var n := Point(-30.0, 10.0);
    Shape(n);
    TankGap(n, a, b, 1, 0);
  }

  /** The area of a tank by its four edges. */
  predicate Covers(c: Point, p: Point) {
    var x, y := p.x - c.x, p.y - c.y;
    -15.0 <= y <= 15.0 && x <= 25.0 && y - 3.0 * x <= 60.0
  }

  /** Convex weights for a point of the area: `t` of the way up, `s` of the way from the slanted edge to the right. */
  lemma CoveredInHull(c: Point, p: Point)
    requires Covers(c, p)
    ensures InHull(TankAt(c), p)
  {
    var x, y := p.x - c.x, p.y - c.y;
    var t := (y + 15.0) / 30.0;
    var left := 10.0 * t - 25.0;
    var width := 25.0 - left;
    var s := (x - left) / width;
    assert 0.0 <= t <= 1.0 && y == 30.0 * t - 15.0;
    assert left <= x <= 25.0 && width >= 40.0;
    Fraction(x - left, width);
    var w := [(1.0 - t) * (1.0 - s), (1.0 - t) * s, t * s, t * (1.0 - s)];
    Products(t, s);
    assert x == left + s * width;
    FourBlend(w, TankAt(c));
    assert Sum(w) == 1.0;
    BlendX(c, t, s, w);
    assert Weights(w, TankAt(c), p);
  }

  lemma Fraction(a: real, b: real)
    requires 0.0 <= a <= b && b > 0.0
    ensures 0.0 <= a / b <= 1.0 && (a / b) * b == a
  {}

  lemma Products(t: real, s: real)
    requires 0.0 <= t <= 1.0 && 0.0 <= s <= 1.0
    ensures (1.0 - t) * (1.0 - s) >= 0.0 && (1.0 - t) * s >= 0.0 && t * s >= 0.0 && t * (1.0 - s) >= 0.0
    ensures (1.0 - t) * (1.0 - s) + (1.0 - t) * s == 1.0 - t
    ensures t * s + t * (1.0 - s) == t
    ensures (1.0 - t) * s + t * s == s
  {
    NonNegative(1.0 - t, 1.0 - s);
    NonNegative(1.0 - t, s);
    NonNegative(t, s);
    NonNegative(t, 1.0 - s);
  }

  lemma NonNegative(a: real, b: real)
    requires a >= 0.0 && b >= 0.0
    ensures a * b >= 0.0
  {}

  lemma FourBlend(w: seq<real>, q: seq<Point>)
    requires |w| == 4 && |q| == 4
    ensures Sum(w) == w[0] + w[1] + w[2] + w[3]
    ensures Blend(w, q) == Point(w[0] * q[0].x + w[1] * q[1].x + w[2] * q[2].x + w[3] * q[3].x,
                                 w[0] * q[0].y + w[1] * q[1].y + w[2] * q[2].y + w[3] * q[3].y)
  {
    assert w[..4] == w && q[..4] == q;
    assert w[..4][..3] == w[..3] && w[..3][..2] == w[..2] && w[..2][..1] == w[..1] && w[..1][..0] == [];
    assert q[..4][..3] == q[..3] && q[..3][..2] == q[..2] && q[..2][..1] == q[..1] && q[..1][..0] == [];
    assert Blend(w[..1], q[..1]) == Plus(Blend([], []), Scale(w[0], q[0]));
    assert Blend(w[..2], q[..2]) == Plus(Blend(w[..1], q[..1]), Scale(w[1], q[1]));
    assert Blend(w[..3], q[..3]) == Plus(Blend(w[..2], q[..2]), Scale(w[2], q[2]));
    assert Sum(w[..1]) == w[0] && Sum(w[..2]) == w[0] + w[1] && Sum(w[..3]) == w[0] + w[1] + w[2];
  }

  lemma BlendX(c: Point, t: real, s: real, w: seq<real>)
    requires w == [(1.0 - t) * (1.0 - s), (1.0 - t) * s, t * s, t * (1.0 - s)]
    requires 0.0 <= t <= 1.0 && 0.0 <= s <= 1.0
    ensures var left := 10.0 * t - 25.0;
      Blend(w, TankAt(c)) == Point(c.x + left + s * (25.0 - left), c.y + 30.0 * t - 15.0)
  {
    Products(t, s);
    FourBlend(w, TankAt(c));
    var q := TankAt(c);
    var w0, w1, w2, w3 := w[0], w[1], w[2], w[3];
    Weighted(w0, w1, w2, w3, c.x, -25.0, 25.0, 25.0, -15.0);
    Weighted(w0, w1, w2, w3, c.y, -15.0, -15.0, 15.0, 15.0);
    assert -25.0 * w0 + 25.0 * w1 + 25.0 * w2 - 15.0 * w3 == 50.0 * (w1 + w2) - 25.0 + 10.0 * w3;
    assert s * (25.0 - (10.0 * t - 25.0)) == 50.0 * s - 10.0 * (t * s);
  }

  lemma Weighted(w0: real, w1: real, w2: real, w3: real, c: real, a0: real, a1: real, a2: real, a3: real)
    requires w0 + w1 + w2 + w3 == 1.0
    ensures w0 * (c + a0) + w1 * (c + a1) + w2 * (c + a2) + w3 * (c + a3)
         == c + (w0 * a0 + w1 * a1 + w2 * a2 + w3 * a3)
  {
    assert (w0 + w1 + w2 + w3) * c == c;
  }

  /** A point that both tanks cover. */
  function Common(a: Point, b: Point): Point {
    var dx, dy := b.x - a.x, b.y - a.y;
    Point(a.x + 25.0 + (if dx < 0.0 then dx else 0.0), a.y - 15.0 + (if dy > 0.0 then dy else 0.0))
  }

  lemma NearCovers(a: Point, b: Point)
    requires Near(a, b)
    ensures Covers(a, Common(a, b)) && Covers(b, Common(a, b))
  {}

  ghost predicate Share(a: seq<Point>, b: seq<Point>) {
    exists p :: InHull(a, p) && InHull(b, p)
  }

  /** The collision test reports two tanks exactly when they share a point. */
  lemma CollisionExact(a: Point, b: Point)
    ensures Collides(TankAt(a), TankAt(b)) <==> Share(TankAt(a), TankAt(b))
  {
    var s, t := TankAt(a), TankAt(b);
    if Collides(s, t) {
      CollidesNear(a, b);
      NearCovers(a, b);
      CoveredInHull(a, Common(a, b));
      CoveredInHull(b, Common(a, b));
      assert InHull(s, Common(a, b)) && InHull(t, Common(a, b));
    } else {
      var i :| 0 <= i < |s| && Gap(Normal(s, i), s, t);
      forall p
        ensures !(InHull(s, p) && InHull(t, p))
      {
        GapSeparates(Normal(s, i), s, t, p);
      }
    }
  }

  /** Only the first tank's normals are tested, and still the order of the tanks does not matter. */
  lemma CollisionSymmetric(a: Point, b: Point)
    ensures Collides(TankAt(a), TankAt(b)) <==> Collides(TankAt(b), TankAt(a))
  {
    CollisionExact(a, b);
    CollisionExact(b, a);
  }
}
