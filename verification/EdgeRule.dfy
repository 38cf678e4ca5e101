/** The inside of a polygon, by integer cross products of its edges and a pixel's
    centre. Everything is in half pixels, so that centres are integers. */
module EdgeRule {
  import opened Raster

  /** The edge from a to b passes the centre line of row y. */
  predicate Straddles(a: Point, b: Point, y: int) { a.y <= y < b.y || b.y <= y < a.y }

  /** The cross product of the edge and the way from a to the centre of pixel (x, y),
      in half pixels: zero exactly when the centre is on the line through a and b. */
  function Side(a: Point, b: Point, x: int, y: int): int {
    (b.x - a.x) * (2 * y + 1 - 2 * a.y) - (2 * x + 1 - 2 * a.x) * (b.y - a.y)
  }

  /** The edge passes the row to the left of the centre of pixel (x, y). */
  predicate PassesLeft(a: Point, b: Point, x: int, y: int) {
    Straddles(a, b, y) && if a.y < b.y then Side(a, b, x, y) < 0 else Side(a, b, x, y) > 0
  }

  function Start(points: seq<Point>, i: nat): Point
    requires i < |points|
  {
    points[i]
  }

  function End(points: seq<Point>, i: nat): Point
    requires i < |points|
  {
    if i + 1 < |points| then points[i + 1] else points[0]
  }

  /** Edge i passes to the left, downwards or upwards. */
  predicate IsLeftEdge(points: seq<Point>, i: nat, down: bool, x: int, y: int)
    requires i < |points|
  {
    PassesLeft(Start(points, i), End(points, i), x, y) && (Start(points, i).y < End(points, i).y) == down
  }

  /** Those among the first n edges. */
  ghost function LeftEdges(points: seq<Point>, n: nat, down: bool, x: int, y: int): set<nat>
    requires n <= |points|
  {
    set i: nat | i < n && IsLeftEdge(points, i, down, x, y)
  }

  /** The fill rules: an odd number of edges to the left (rule 0), or not as many
      downwards as upwards (any other). */
  ghost predicate InPolygon(points: seq<Point>, rule: nat, x: int, y: int) {
    var downwards := |LeftEdges(points, |points|, true, x, y)|;
    var upwards := |LeftEdges(points, |points|, false, x, y)|;
    if rule == 0 then (downwards + upwards) % 2 == 1 else downwards != upwards
  }

  /** No edge that passes the row has the pixel's centre on it. */
  predicate OffPolygon(points: seq<Point>, x: int, y: int) {
    forall i: nat | i < |points| && Straddles(Start(points, i), End(points, i), y) ::
      Side(Start(points, i), End(points, i), x, y) != 0
  }

  /** One edge more. */
  lemma LeftEdgesNext(points: seq<Point>, n: nat, down: bool, x: int, y: int)
    requires n < |points|
    ensures |LeftEdges(points, n + 1, down, x, y)| ==
            |LeftEdges(points, n, down, x, y)| + if IsLeftEdge(points, n, down, x, y) then 1 else 0
  {
    hide IsLeftEdge;
    var more, fewer := LeftEdges(points, n + 1, down, x, y), LeftEdges(points, n, down, x, y);
    if IsLeftEdge(points, n, down, x, y) {
      assert more == fewer + {n};
    } else {
      assert more == fewer;
    }
  }
}
