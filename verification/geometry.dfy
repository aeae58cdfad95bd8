/** The game world: its dimensions, clamping points into it, and moving a
    point towards (or away from) a target. Distances are supplied by the
    caller, since the program computes them with a square root. */
module Geometry {

  const Width: real := 800.0
  const Height: real := 600.0
  /** Radius of a creature, used both for collisions and for the world margin. */
  const Radius: real := 5.0

  datatype Point = Point(x: real, y: real)

  /** Inside the world, at least one radius away from each edge. */
  predicate InWorld(p: Point)
  {
    Radius <= p.x <= Width - Radius && Radius <= p.y <= Height - Radius
  }

  function Abs(r: real): real
  {
    if r < 0.0 then -r else r
  }

  /** `fit`: clamps each coordinate into the world. */
  function Fit(p: Point): (r: Point)
    ensures InWorld(r)
    ensures InWorld(p) ==> r == p
  {
    var x1 := if !(p.x >= Radius) then Radius else p.x;
    var y1 := if !(p.y >= Radius) then Radius else p.y;
    var x2 := if x1 > Width - Radius then Width - Radius else x1;
    var y2 := if y1 > Height - Radius then Height - Radius else y1;
    Point(x2, y2)
  }

  /** Fitting twice is fitting once. */
  lemma FitIdempotent(p: Point)
    ensures Fit(Fit(p)) == Fit(p)
  {
  }

  /** Fitting picks, on each axis, the point of the world nearest to the input. */
  lemma FitIsNearest(p: Point, q: Point)
    requires InWorld(q)
    ensures Abs(Fit(p).x - p.x) <= Abs(q.x - p.x)
    ensures Abs(Fit(p).y - p.y) <= Abs(q.y - p.y)
  {
  }

  /** `move` as the program writes it: `d` is the distance from `p` to `t`.
      A zero distance leaves the point in place; a speed above the distance
      lands exactly on the target; otherwise the point travels `speed` along
      the direction to the target (away from it when the speed is negative)
      and is then fitted into the world. */
  function Move(p: Point, t: Point, speed: real, d: real): (r: Point)
    ensures d == 0.0 ==> r == p
    ensures d != 0.0 && speed > d ==> r == t
    ensures d != 0.0 && speed <= d ==> InWorld(r)
  {
    if d == 0.0 then p
    else if speed > d then t
    else Fit(Toward(p, t, speed, d))
  }

  /** The point `speed` along the direction from `p` to `t`, which lie `d` apart. */
  function Toward(p: Point, t: Point, speed: real, d: real): Point
    requires d != 0.0
  {
    Point(p.x + (t.x - p.x) * speed / d, p.y + (t.y - p.y) * speed / d)
  }

  /** The landing branch of `Move` does not fit: for example, a point at
      (5, 300) reaches the target (4.999, 300), just outside the world and
      nearer than its speed, exactly. */
  lemma MoveCanLeaveWorld()
    ensures InWorld(Point(5.0, 300.0))
    ensures !InWorld(Move(Point(5.0, 300.0), Point(4.999, 300.0), 0.15625, 0.001))
  {
  }

  /** `Move` with the promise of its comment in jslife.js kept: the landing
      branch is fitted as well, so the result is always inside the world. */
  function MoveInside(p: Point, t: Point, speed: real, d: real): (r: Point)
    ensures InWorld(r) || (d == 0.0 && r == p)
    ensures InWorld(p) ==> InWorld(r)
    ensures d != 0.0 && speed > d ==> r == Fit(t)
    ensures InWorld(t) ==> r == Move(p, t, speed, d)
  {
    if d == 0.0 then p
    else if speed > d then Fit(t)
    else Fit(Toward(p, t, speed, d))
  }

  /** Moving towards a target inside the world by no more than the distance
      stays on the segment between the two points, so fitting changes nothing
      and the step is exactly `speed` along the direction. */
  lemma MoveTowardsStaysOnSegment(p: Point, t: Point, speed: real, d: real)
    requires InWorld(p) && InWorld(t)
    requires d > 0.0 && 0.0 <= speed <= d
    ensures MoveInside(p, t, speed, d) == Toward(p, t, speed, d)
  {
    var frac := speed / d;
    assert 0.0 <= frac <= 1.0;
    var q := Toward(p, t, speed, d);
    ScaleDivided(t.x - p.x, speed, d);
    ScaleDivided(t.y - p.y, speed, d);
    assert q.x == p.x + (t.x - p.x) * frac;
    assert q.y == p.y + (t.y - p.y) * frac;
    Between(p.x, t.x, frac, q.x, Radius, Width - Radius);
    Between(p.y, t.y, frac, q.y, Radius, Height - Radius);
    assert InWorld(q);
    assert !(speed > d);
  }

  lemma ScaleDivided(a: real, s: real, d: real)
    requires d != 0.0
    ensures a * s / d == a * (s / d)
  {
  }

  /** A point between two points of an interval lies in the interval. */
  lemma Between(a: real, b: real, frac: real, v: real, lo: real, hi: real)
    requires lo <= a <= hi && lo <= b <= hi
    requires 0.0 <= frac <= 1.0
    requires v == a + (b - a) * frac
    ensures lo <= v <= hi
  {
    if a <= b {
      var len := b - a;
      ScaleBelow(len, frac);
      var m := len * frac;
      assert a + (b - a) * frac == a + m;
      assert a + m <= b;
    } else {
      var len := a - b;
      ScaleBelow(len, frac);
      var m := len * frac;
      assert a + (b - a) * frac == a - m;
      assert a - m >= b;
    }
  }

  /** Scaling a non-negative length by a fraction keeps it within the length. */
  lemma ScaleBelow(len: real, frac: real)
    requires len >= 0.0 && 0.0 <= frac <= 1.0
    ensures 0.0 <= len * frac <= len
  {
    assert len - len * frac == len * (1.0 - frac);
  }

  /** The random destination `move` picks when it has no target, from two uniform draws. */
  function WanderTarget(rx: real, ry: real): (t: Point)
    requires 0.0 <= rx < 1.0 && 0.0 <= ry < 1.0
    ensures 0.0 <= t.x < Width && 0.0 <= t.y < Height
  {
    Point(rx * Width, ry * Height)
  }
}
