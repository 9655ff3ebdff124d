/** Values shared by every component: optional values, integer pixel points
    and boxes, squared Euclidean distance and the floor-division midpoint. */
module Common {

  datatype Option<+T> = None | Some(value: T)

  /** A pixel position (x, y). */
  datatype Point = Point(x: int, y: int)

  /** An axis-aligned box (x1, y1, x2, y2); degenerate boxes are allowed. */
  datatype Box = Box(x1: int, y1: int, x2: int, y2: int)

  /** A dictionary from key names to optional points, as the pose detector
      hands it to the drinking detector: a key may be missing, or present
      and bound to None. */
  type PointDict = map<string, Option<Point>>

  /** Square of the Euclidean distance between two points. Every threshold
      test on `sqrt` or `hypot` in the source is compared on squares here. */
  function SqDist(p: Point, q: Point): (r: nat)
    ensures r == 0 <==> p == q
  {
    (p.x - q.x) * (p.x - q.x) + (p.y - q.y) * (p.y - q.y)
  }

  /** A point shifted by (dx, dy). */
  function Offset(p: Point, dx: int, dy: int): Point {
    Point(p.x + dx, p.y + dy)
  }

  /** The centre `((x1 + x2) // 2, (y1 + y2) // 2)` with Python's floor
      division. Dafny's `/` by the positive divisor 2 rounds the same way,
      including for negative sums. */
  function Midpoint(b: Box): (c: Point)
    ensures 2 * c.x <= b.x1 + b.x2 < 2 * c.x + 2
    ensures 2 * c.y <= b.y1 + b.y2 < 2 * c.y + 2
  {
    Point((b.x1 + b.x2) / 2, (b.y1 + b.y2) / 2)
  }

  /** For non-negative reals, comparing two values is comparing their
      squares: this is what lets `sqrt(d2) < c` be tested as `d2 < c * c`. */
  lemma RootComparison(d: real, c: real)
    requires d >= 0.0 && c >= 0.0
    ensures d < c <==> d * d < c * c
    ensures d <= c <==> d * d <= c * c
  {
    assert c * c - d * d == (c - d) * (c + d);
    if d < c {
      PositiveProduct(c - d, c + d);
    } else if c < d {
      PositiveProduct(d - c, d + c);
    }
  }

  lemma PositiveProduct(a: real, b: real)
    requires a > 0.0 && b > 0.0
    ensures a * b > 0.0
  {
  }
}
