/** The all-octant line of core_raster.cpp and the square brush it moves. */
module Line {
  import opened Arith
  import opened Raster
  import Dashes

  /** Rows of the brush, left to right, as stored by one row of the loop. */
  function BrushRow(left: int, right: int, y: int, source: nat): seq<Drawn>
    decreases right - left
  {
    if left > right then [] else BrushRow(left, right - 1, y, source) + [Drawn(right, y, source)]
  }

  function BrushRows(left: int, right: int, top: int, bottom: int, source: nat): seq<Drawn>
    decreases bottom - top
  {
    if top > bottom then []
    else BrushRows(left, right, top, bottom - 1, source) + BrushRow(left, right, bottom, source)
  }

  /** The stores of one brush at (x, y), clipped to a surface. */
  function Brush(width: nat, height: nat, lineWidth: nat, x: int, y: int, source: nat): seq<Drawn> {
    var size := Max(1, lineWidth);
    var before, after := (size - 1) / 2, size / 2;
    BrushRows(Max(0, x - before), Min(width - 1, x + after),
              Max(0, y - before), Min(height - 1, y + after), source)
  }

  lemma {:induction false} BrushRowStores(left: int, right: int, y: int, source: nat, px: int, py: int)
    ensures Stores(BrushRow(left, right, y, source), px, py) ==
            if left <= px <= right && py == y then 1 else 0
    decreases right - left
  {
    if left <= right {
      BrushRowStores(left, right - 1, y, source, px, py);
      StoresConcat(BrushRow(left, right - 1, y, source), [Drawn(right, y, source)], px, py);
    }
  }

  lemma {:induction false} BrushRowsStores(left: int, right: int, top: int, bottom: int, source: nat, px: int, py: int)
    ensures Stores(BrushRows(left, right, top, bottom, source), px, py) ==
            if left <= px <= right && top <= py <= bottom then 1 else 0
    decreases bottom - top
  {
    if top <= bottom {
      BrushRowsStores(left, right, top, bottom - 1, source, px, py);
      BrushRowStores(left, right, bottom, source, px, py);
      StoresConcat(BrushRows(left, right, top, bottom - 1, source), BrushRow(left, right, bottom, source), px, py);
    }
  }

  /** A brush stores each on-surface pixel of its square exactly once, and no
      other pixel: the square spans `lineWidth` pixels (at least one) each way. */
  lemma BrushStores(width: nat, height: nat, lineWidth: nat, x: int, y: int, source: nat, px: int, py: int)
    ensures var size := Max(1, lineWidth);
            Stores(Brush(width, height, lineWidth, x, y, source), px, py) ==
            if 0 <= px < width && 0 <= py < height &&
               -size < 2 * (px - x) <= size && -size < 2 * (py - y) <= size
            then 1 else 0
  {
    var size := Max(1, lineWidth);
    var before, after := (size - 1) / 2, size / 2;
    BrushRowsStores(Max(0, x - before), Min(width - 1, x + after),
                    Max(0, y - before), Min(height - 1, y + after), source, px, py);
  }

  method DrawBrushRow(surface: Surface, left: int, right: int, row: int, source: nat)
    modifies surface
    ensures surface.drawn == old(surface.drawn) + BrushRow(left, right, row, source)
  {
    var column := left;
    while column <= right
      invariant left <= column <= Max(left, right + 1)
      invariant surface.drawn == old(surface.drawn) + BrushRow(left, column - 1, row, source)
    {
      surface.DrawPixel(column, row, source);
      column := column + 1;
    }
    assert BrushRow(left, column - 1, row, source) == BrushRow(left, right, row, source);
  }

  method DrawBrush(surface: Surface, g: Graphics, x: int, y: int, source: nat)
    modifies surface
    ensures surface.drawn == old(surface.drawn) + Brush(surface.width, surface.height, g.lineWidth, x, y, source)
  {
    var width := Max(1, g.lineWidth);
    var before, after := (width - 1) / 2, width / 2;
    var left, top := Max(0, x - before), Max(0, y - before);
    var right, bottom := Min(surface.width - 1, x + after), Min(surface.height - 1, y + after);
    var row := top;
    hide BrushRow, Max, Min;
    while row <= bottom
      invariant top <= row && (row <= bottom + 1 || row == top)
      invariant surface.drawn == old(surface.drawn) + BrushRows(left, right, top, row - 1, source)
    {
      DrawBrushRow(surface, left, right, row, source);
      row := row + 1;
    }
    assert BrushRows(left, right, top, row - 1, source) == BrushRows(left, right, top, bottom, source);
  }

  function Sign(from: int, to: int): int { if from < to then 1 else -1 }

  /** Steps of the line: the longer of the two coordinate distances. */
  function Steps(start: Point, end: Point): nat {
    Max(Abs(end.x - start.x), Abs(end.y - start.y))
  }

  /** Distance along the minor axis after k steps along the major one: the
      exact ratio, rounded to the nearest integer with halves rounded up. */
  function Rounded(k: nat, minor: nat, major: nat): nat {
    if major == 0 then 0 else (2 * k * minor + major) / (2 * major)
  }

  /** The k-th pixel of the ideal line. */
  function IdealX(start: Point, end: Point, k: nat): int {
    var dx, dy := Abs(end.x - start.x), Abs(end.y - start.y);
    start.x + Sign(start.x, end.x) * (if dx >= dy then k else Rounded(k, dx, dy))
  }

  function IdealY(start: Point, end: Point, k: nat): int {
    var dx, dy := Abs(end.x - start.x), Abs(end.y - start.y);
    start.y + Sign(start.y, end.y) * (if dy >= dx then k else Rounded(k, dy, dx))
  }

  /** Everything a line stores for its first n points, starting at a dash phase. */
  function LineStores(width: nat, height: nat, g: Graphics, start: Point, end: Point, phase: nat, n: nat): seq<Drawn>
    requires Dashes.WellFormed(g)
  {
    if n == 0 then []
    else
      var (draws, source) := Dashes.DashSource(g, phase + n - 1);
      LineStores(width, height, g, start, end, phase, n - 1) +
      if draws
      then Brush(width, height, g.lineWidth, IdealX(start, end, n - 1), IdealY(start, end, n - 1), source)
      else []
  }

  /** A position i along the major axis and j along the minor one is within
      half a pixel of the ideal line (and never exactly half a pixel behind). */
  predicate NearIdeal(i: nat, j: nat, minor: nat, major: nat) {
    i <= major && (major == 0 || 0 - major <= 2 * (i * minor - j * major) < major)
  }

  /** The error term after i steps along x and j steps along y. */
  ghost predicate ErrorTerm(dx: nat, dy: nat, i: nat, j: nat, error: int) {
    error == dx - dy + j * dx - i * dy
  }

  lemma RoundedUnique(k: nat, minor: nat, major: nat, j: nat)
    requires 0 < major && NearIdeal(k, j, minor, major)
    ensures j == Rounded(k, minor, major)
  {
    assert 2 * k * minor == 2 * (k * minor);
    var at := 2 * k * minor + major;
    assert j * (2 * major) == 2 * (j * major);
    DivisionUnique(at, j, 2 * major, at - j * (2 * major));
  }

  /** At the end of the major axis the minor axis is complete as well. */
  lemma RoundedEnd(minor: nat, major: nat)
    requires 0 < major
    ensures Rounded(major, minor, major) == minor && Rounded(0, minor, major) == 0
  {
    RoundedUnique(major, minor, major, minor);
    RoundedUnique(0, minor, major, 0);
  }

  /** One iteration of the loop when x is the major axis. */
  lemma StepAlongX(dx: nat, dy: nat, i: nat, j: nat, error: int)
    requires dx >= dy && i < dx && ErrorTerm(dx, dy, i, j, error) && NearIdeal(i, j, dy, dx)
    ensures 2 * error >= 0 - dy
    ensures if 2 * error <= dx
            then ErrorTerm(dx, dy, i + 1, j + 1, error - dy + dx) && NearIdeal(i + 1, j + 1, dy, dx)
            else ErrorTerm(dx, dy, i + 1, j, error - dy) && NearIdeal(i + 1, j, dy, dx)
  {
    assert (i + 1) * dy == i * dy + dy && (j + 1) * dx == j * dx + dx;
  }

  /** One iteration of the loop when y is the longer axis. */
  lemma StepAlongY(dx: nat, dy: nat, i: nat, j: nat, error: int)
    requires dx < dy && j < dy && ErrorTerm(dx, dy, i, j, error) && NearIdeal(j, i, dx, dy)
    ensures 2 * error <= dx
    ensures if 2 * error >= 0 - dy
            then ErrorTerm(dx, dy, i + 1, j + 1, error - dy + dx) && NearIdeal(j + 1, i + 1, dx, dy)
            else ErrorTerm(dx, dy, i, j + 1, error + dx) && NearIdeal(j + 1, i, dx, dy)
  {
    assert (i + 1) * dy == i * dy + dy && (j + 1) * dx == j * dx + dx;
  }

  lemma DiagonalIsExact(k: nat, j: nat, major: nat)
    requires 0 < major && NearIdeal(k, j, major, major)
    ensures j == k
  {
    assert k * major - j * major == (k - j) * major;
    MultipleIsFar(k - j, major);
  }

  /** The variables the loop carries from one point to the next. */
  datatype Pen = Pen(x: int, y: int, error: int)

  /** Where the pen is after k steps along the longer axis and m along the other. */
  ghost predicate AtStep(start: Point, end: Point, k: nat, m: nat, pen: Pen) {
    var dx, dy := Abs(end.x - start.x), Abs(end.y - start.y);
    var sx, sy := Sign(start.x, end.x), Sign(start.y, end.y);
    && k <= Steps(start, end)
    && (if dx >= dy
        then NearIdeal(k, m, dy, dx) && ErrorTerm(dx, dy, k, m, pen.error) &&
             pen.x == start.x + sx * k && pen.y == start.y + sy * m
        else NearIdeal(k, m, dx, dy) && ErrorTerm(dx, dy, m, k, pen.error) &&
             pen.x == start.x + sx * m && pen.y == start.y + sy * k)
    && (dx == dy == 0 ==> m == 0)
  }

  predicate StepsX(start: Point, end: Point, error: int) { 2 * error >= 0 - Abs(end.y - start.y) }

  predicate StepsY(start: Point, end: Point, error: int) { 2 * error <= Abs(end.x - start.x) }

  /** One iteration of the loop. */
  function Advance(start: Point, end: Point, pen: Pen): Pen {
    var dx, dy := Abs(end.x - start.x), Abs(end.y - start.y);
    var xs, ys := StepsX(start, end, pen.error), StepsY(start, end, pen.error);
    Pen(if xs then pen.x + Sign(start.x, end.x) else pen.x,
        if ys then pen.y + Sign(start.y, end.y) else pen.y,
        pen.error - (if xs then dy else 0) + (if ys then dx else 0))
  }

  function FirstPen(start: Point, end: Point): Pen {
    Pen(start.x, start.y, Abs(end.x - start.x) - Abs(end.y - start.y))
  }

  lemma AtStart(start: Point, end: Point)
    ensures AtStep(start, end, 0, 0, FirstPen(start, end))
  {
  }

  lemma AtStepIsIdeal(start: Point, end: Point, k: nat, m: nat, pen: Pen)
    requires AtStep(start, end, k, m, pen)
    ensures pen.x == IdealX(start, end, k) && pen.y == IdealY(start, end, k)
    ensures pen.x == end.x && pen.y == end.y <==> k == Steps(start, end)
  {
    var dx, dy := Abs(end.x - start.x), Abs(end.y - start.y);
    if dx > dy {
      RoundedUnique(k, dy, dx, m);
      RoundedEnd(dy, dx);
    } else if dx < dy {
      RoundedUnique(k, dx, dy, m);
      RoundedEnd(dx, dy);
    } else if dx > 0 {
      DiagonalIsExact(k, m, dx);
    }
    hide NearIdeal, ErrorTerm, Rounded;
  }

  /** The body of the loop advances the longer axis by one and keeps AtStep. */
  lemma LineStep(start: Point, end: Point, k: nat, m: nat, pen: Pen) returns (m': nat)
    requires AtStep(start, end, k, m, pen) && k < Steps(start, end)
    ensures AtStep(start, end, k + 1, m', Advance(start, end, pen))
  {
    m' := if StepsX(start, end, pen.error) && StepsY(start, end, pen.error) then m + 1 else m;
    if Abs(end.x - start.x) >= Abs(end.y - start.y) {
      LineStepAlongX(start, end, k, m, pen);
    } else {
      LineStepAlongY(start, end, k, m, pen);
    }
    hide AtStep, Advance;
  }

  lemma LineStepAlongX(start: Point, end: Point, k: nat, m: nat, pen: Pen)
    requires AtStep(start, end, k, m, pen) && k < Steps(start, end)
    requires Abs(end.x - start.x) >= Abs(end.y - start.y)
    ensures AtStep(start, end, k + 1, if StepsY(start, end, pen.error) then m + 1 else m, Advance(start, end, pen))
    ensures StepsX(start, end, pen.error)
  {
    var dx, dy := Abs(end.x - start.x), Abs(end.y - start.y);
    StepAlongX(dx, dy, k, m, pen.error);
    NextMultiple(Sign(start.x, end.x), k);
    NextMultiple(Sign(start.y, end.y), m);
    hide NearIdeal, ErrorTerm, Sign;
  }

  lemma LineStepAlongY(start: Point, end: Point, k: nat, m: nat, pen: Pen)
    requires AtStep(start, end, k, m, pen) && k < Steps(start, end)
    requires Abs(end.x - start.x) < Abs(end.y - start.y)
    ensures AtStep(start, end, k + 1, if StepsX(start, end, pen.error) then m + 1 else m, Advance(start, end, pen))
    ensures StepsY(start, end, pen.error)
  {
    var dx, dy := Abs(end.x - start.x), Abs(end.y - start.y);
    StepAlongY(dx, dy, m, k, pen.error);
    NextMultiple(Sign(start.x, end.x), m);
    NextMultiple(Sign(start.y, end.y), k);
    hide NearIdeal, ErrorTerm, Sign;
  }

  lemma NextMultiple(s: int, n: nat)
    ensures s * (n + 1) == s * n + s
  {
  }

  // ---- What a line stores, by points

  /** One side of a square of this size around x, cut to the surface. */
  predicate OnSide(extent: nat, size: int, x: int, px: int) {
    0 <= px < extent && -size < 2 * (px - x) <= size
  }

  /** The square of the line width (one at least) around (x, y), cut to the surface. */
  predicate InSquare(width: nat, height: nat, lineWidth: nat, x: int, y: int, px: int, py: int) {
    var size := if lineWidth == 0 then 1 else lineWidth;
    OnSide(width, size, x, px) && OnSide(height, size, y, py)
  }

  /** Point k of the line stores d. */
  predicate PointStores(width: nat, height: nat, g: Graphics, list: seq<nat>, start: Point, end: Point, phase: nat,
                        k: nat, d: Drawn)
    requires 0 < Dashes.Sum(list)
  {
    && InSquare(width, height, g.lineWidth, IdealX(start, end, k), IdealY(start, end, k), d.x, d.y)
    && Dashes.DrawnWith(g, list, phase + k, d.source)
  }

  ghost function StoringPoints(width: nat, height: nat, g: Graphics, list: seq<nat>, start: Point, end: Point,
                               phase: nat, n: nat, d: Drawn): set<nat>
    requires 0 < Dashes.Sum(list)
  {
    set k: nat | k < n && PointStores(width, height, g, list, start, end, phase, k, d)
  }

  /** Each store was made once for every one of the first n points that makes it. */
  ghost predicate LineStored(before: seq<Drawn>, after: seq<Drawn>, width: nat, height: nat, g: Graphics,
                             list: seq<nat>, start: Point, end: Point, phase: nat, n: nat) {
    && 0 < Dashes.Sum(list)
    && forall d: Drawn :: multiset(after)[d] ==
         multiset(before)[d] + |StoringPoints(width, height, g, list, start, end, phase, n, d)|
  }

  lemma {:induction false} BrushRowHolds(left: int, right: int, y: int, source: nat, d: Drawn)
    ensures multiset(BrushRow(left, right, y, source))[d] ==
            if left <= d.x <= right && d.y == y && d.source == source then 1 else 0
    decreases right - left
  {
    if left <= right {
      BrushRowHolds(left, right - 1, y, source, d);
    }
  }

  lemma {:induction false} BrushRowsHold(left: int, right: int, top: int, bottom: int, source: nat, d: Drawn)
    ensures multiset(BrushRows(left, right, top, bottom, source))[d] ==
            if left <= d.x <= right && top <= d.y <= bottom && d.source == source then 1 else 0
    decreases bottom - top
  {
    if top <= bottom {
      BrushRowsHold(left, right, top, bottom - 1, source, d);
      BrushRowHolds(left, right, bottom, source, d);
      hide BrushRow;
    }
  }

  lemma {:induction false} BrushHolds(width: nat, height: nat, lineWidth: nat, x: int, y: int, source: nat, d: Drawn)
    ensures multiset(Brush(width, height, lineWidth, x, y, source))[d] ==
            if InSquare(width, height, lineWidth, x, y, d.x, d.y) && d.source == source then 1 else 0
  {
    var left, right, top, bottom := BrushBox(width, height, lineWidth, x, y, source, d);
    hide Brush, BrushRows, InSquare;
    BrushRowsHold(left, right, top, bottom, source, d);
  }

  lemma BrushBox(width: nat, height: nat, lineWidth: nat, x: int, y: int, source: nat, d: Drawn)
    returns (left: int, right: int, top: int, bottom: int)
    ensures Brush(width, height, lineWidth, x, y, source) == BrushRows(left, right, top, bottom, source)
    ensures left <= d.x <= right && top <= d.y <= bottom <==> InSquare(width, height, lineWidth, x, y, d.x, d.y)
  {
    var size := Max(1, lineWidth);
    left, right := Clip(width, size, x, d.x);
    top, bottom := Clip(height, size, y, d.y);
    hide BrushRows, OnSide;
  }

  /** The sides of the brush, cut to the surface. */
  lemma Clip(extent: nat, size: int, x: int, px: int) returns (low: int, high: int)
    requires 0 < size
    ensures low == Max(0, x - (size - 1) / 2) && high == Min(extent - 1, x + size / 2)
    ensures low <= px <= high <==> OnSide(extent, size, x, px)
  {
    low, high := Max(0, x - (size - 1) / 2), Min(extent - 1, x + size / 2);
  }

  lemma {:induction false} NextStoringPoint(width: nat, height: nat, g: Graphics, list: seq<nat>, start: Point,
                                            end: Point, phase: nat, n: nat, d: Drawn)
    requires 0 < Dashes.Sum(list)
    ensures |StoringPoints(width, height, g, list, start, end, phase, n + 1, d)| ==
            |StoringPoints(width, height, g, list, start, end, phase, n, d)| +
            if PointStores(width, height, g, list, start, end, phase, n, d) then 1 else 0
  {
    hide PointStores;
    var more := StoringPoints(width, height, g, list, start, end, phase, n + 1, d);
    var fewer := StoringPoints(width, height, g, list, start, end, phase, n, d);
    if PointStores(width, height, g, list, start, end, phase, n, d) {
      assert more == fewer + {n};
    } else {
      assert more == fewer;
    }
  }

  lemma {:induction false} StoresOfPoints(width: nat, height: nat, g: Graphics, list: seq<nat>, start: Point,
                                          end: Point, phase: nat, n: nat, d: Drawn)
    requires Dashes.WellFormed(g) && Dashes.Pattern(g) == Dashes.Doubled(list) && 0 < Dashes.Sum(list)
    ensures multiset(LineStores(width, height, g, start, end, phase, n))[d] ==
            |StoringPoints(width, height, g, list, start, end, phase, n, d)|
  {
    hide *;
    if n == 0 {
      NoPoints(width, height, g, list, start, end, phase, d);
    } else {
      StoresOfPoints(width, height, g, list, start, end, phase, n - 1, d);
      NextStoringPoint(width, height, g, list, start, end, phase, n - 1, d);
      LastPointStores(width, height, g, list, start, end, phase, n - 1, d);
    }
  }

  lemma {:induction false} LastPointStores(width: nat, height: nat, g: Graphics, list: seq<nat>, start: Point,
                                           end: Point, phase: nat, n: nat, d: Drawn)
    requires Dashes.WellFormed(g) && Dashes.Pattern(g) == Dashes.Doubled(list) && 0 < Dashes.Sum(list)
    ensures multiset(LineStores(width, height, g, start, end, phase, n + 1))[d] ==
            multiset(LineStores(width, height, g, start, end, phase, n))[d] +
            if PointStores(width, height, g, list, start, end, phase, n, d) then 1 else 0
  {
    hide Dashes.DashSource, Dashes.DrawnWith, Dashes.WellFormed, Dashes.Doubled, Brush, InSquare, IdealX, IdealY;
    Dashes.DashesFollowTheList(g, list, phase + n);
    var (draws, source) := Dashes.DashSource(g, phase + n);
    BrushHolds(width, height, g.lineWidth, IdealX(start, end, n), IdealY(start, end, n), source, d);
  }

  lemma NoPoints(width: nat, height: nat, g: Graphics, list: seq<nat>, start: Point, end: Point, phase: nat, d: Drawn)
    requires Dashes.WellFormed(g) && 0 < Dashes.Sum(list)
    ensures StoringPoints(width, height, g, list, start, end, phase, 0, d) == {}
    ensures LineStores(width, height, g, start, end, phase, 0) == []
  {
  }

  lemma {:induction false} LineIsStored(before: seq<Drawn>, width: nat, height: nat, g: Graphics, list: seq<nat>,
                                        start: Point, end: Point, phase: nat, n: nat)
    requires Dashes.WellFormed(g) && Dashes.Pattern(g) == Dashes.Doubled(list)
    ensures LineStored(before, before + LineStores(width, height, g, start, end, phase, n), width, height, g, list,
                       start, end, phase, n)
  {
    hide LineStores, StoringPoints, Dashes.WellFormed, Dashes.DashSource, Dashes.DrawnWith;
    Dashes.DashesFollowTheList(g, list, phase);
    var stores := LineStores(width, height, g, start, end, phase, n);
    forall d: Drawn
      ensures multiset(before + stores)[d] ==
              multiset(before)[d] + |StoringPoints(width, height, g, list, start, end, phase, n, d)|
    {
      StoresOfPoints(width, height, g, list, start, end, phase, n, d);
    }
  }

  lemma StepsAre(start: Point, end: Point)
    ensures Steps(start, end) == Max(Abs(end.x - start.x), Abs(end.y - start.y))
  {
  }

  lemma LineIsStoredAlways(before: seq<Drawn>, width: nat, height: nat, g: Graphics, start: Point, end: Point,
                           phase: nat, n: nat)
    requires Dashes.WellFormed(g)
    ensures forall list: seq<nat> | Dashes.Pattern(g) == Dashes.Doubled(list) ::
              LineStored(before, before + LineStores(width, height, g, start, end, phase, n), width, height, g, list,
                         start, end, phase, n)
  {
    hide LineStored, LineStores, Dashes.WellFormed, Dashes.Doubled, Dashes.Pattern;
    forall list: seq<nat> | Dashes.Pattern(g) == Dashes.Doubled(list)
      ensures LineStored(before, before + LineStores(width, height, g, start, end, phase, n), width, height, g, list,
                         start, end, phase, n)
    {
      LineIsStored(before, width, height, g, list, start, end, phase, n);
    }
  }

  /** The line loop, point by point in order. */
  method DrawPoints(surface: Surface, g: Graphics, start: Point, end: Point, phase: nat) returns (nextPhase: nat)
    requires Dashes.WellFormed(g)
    modifies surface
    ensures nextPhase == phase + Steps(start, end) + 1
    ensures surface.drawn == old(surface.drawn) +
            LineStores(surface.width, surface.height, g, start, end, phase, Steps(start, end) + 1)
  {
    hide AtStep, IdealX, IdealY, Brush, Dashes.DashSource, Dashes.WellFormed;
    var x: int, y: int := start.x, start.y;
    var endX: int, endY: int := end.x, end.y;
    var deltaX, stepX := Abs(endX - x), if x < endX then 1 else -1;
    var deltaY, stepY := 0 - Abs(endY - y), if y < endY then 1 else -1;
    var error := deltaX + deltaY;
    nextPhase := phase;
    ghost var k, m := 0, 0;
    AtStart(start, end);
    while true
      invariant AtStep(start, end, k, m, Pen(x, y, error))
      invariant k <= Steps(start, end) && nextPhase == phase + k
      invariant surface.drawn == old(surface.drawn) + LineStores(surface.width, surface.height, g, start, end, phase, k)
      decreases Steps(start, end) - k
    {
      AtStepIsIdeal(start, end, k, m, Pen(x, y, error));
      IdealIsCoordinate(start, end, k);
      ghost var pen := Pen(x, y, error);
      var draws, source := Dashes.LineSource(g, nextPhase);
      nextPhase := nextPhase + 1;
      if draws && INT32_MIN <= x <= INT32_MAX && INT32_MIN <= y <= INT32_MAX {
        DrawBrush(surface, g, x, y, source);
      }
      if x == endX && y == endY {
        break;
      }
      m := LineStep(start, end, k, m, Pen(x, y, error));
      k := k + 1;
      var twiceError := error * 2;
      if twiceError >= deltaY {
        error := error + deltaY;
        x := x + stepX;
      }
      if twiceError <= deltaX {
        error := error + deltaX;
        y := y + stepY;
      }
      assert Pen(x, y, error) == Advance(start, end, pen);
    }
  }

  /** Whatever list the dashes stand for, a line stores every pixel once for each of its
      points whose square of the line width holds it and which the dashes draw, in
      that point's own source, and stores nothing else; the phase advances by the
      number of points. */
  method DrawLine(surface: Surface, g: Graphics, start: Point, end: Point, phase: nat) returns (nextPhase: nat)
    requires Dashes.WellFormed(g)
    modifies surface
    ensures nextPhase == phase + Max(Abs(end.x - start.x), Abs(end.y - start.y)) + 1
    ensures old(surface.drawn) <= surface.drawn
    ensures forall list: seq<nat> | Dashes.Pattern(g) == Dashes.Doubled(list) ::
              LineStored(old(surface.drawn), surface.drawn, surface.width, surface.height, g, list, start, end, phase,
                         Max(Abs(end.x - start.x), Abs(end.y - start.y)) + 1)
  {
    hide *;
    ghost var n := Max(Abs(end.x - start.x), Abs(end.y - start.y)) + 1;
    StepsAre(start, end);
    nextPhase := DrawPoints(surface, g, start, end, phase);
    LineIsStoredAlways(old(surface.drawn), surface.width, surface.height, g, start, end, phase, n);
  }

  lemma RoundedBound(k: nat, minor: nat, major: nat)
    requires k <= major && minor <= major && 0 < major
    ensures Rounded(k, minor, major) <= minor
  {
    ProductBound(k, minor, major, minor);
    var at, q := 2 * k * minor + major, Rounded(k, minor, major);
    assert q * (2 * major) + at % (2 * major) == at;
    assert (q - minor) * (2 * major) == q * (2 * major) - 2 * (minor * major);
    MultipleIsFar(q - minor, 2 * major);
  }

  /** No point of the line leaves the bounding box of its endpoints, so the
      loop's 32-bit range test never drops one. */
  lemma IdealIsCoordinate(start: Point, end: Point, k: nat)
    requires k <= Steps(start, end)
    ensures Min(start.x, end.x) <= IdealX(start, end, k) <= Max(start.x, end.x)
    ensures Min(start.y, end.y) <= IdealY(start, end, k) <= Max(start.y, end.y)
  {
    var dx, dy := Abs(end.x - start.x), Abs(end.y - start.y);
    if dx > dy {
      RoundedBound(k, dy, dx);
    } else if dx < dy {
      RoundedBound(k, dx, dy);
    }
  }

  /** The states of the loop, replayed without the drawing. */
  function PenAt(start: Point, end: Point, k: nat): Pen {
    if k == 0 then FirstPen(start, end) else Advance(start, end, PenAt(start, end, k - 1))
  }

  lemma {:induction false} Replay(start: Point, end: Point, k: nat) returns (m: nat)
    requires k <= Steps(start, end)
    ensures AtStep(start, end, k, m, PenAt(start, end, k))
  {
    hide AtStep;
    if k == 0 {
      AtStart(start, end);
      m := 0;
    } else {
      m := Replay(start, end, k - 1);
      m := LineStep(start, end, k - 1, m, PenAt(start, end, k - 1));
    }
  }

  lemma MinorIsShorter(k: nat, m: nat, minor: nat, major: nat)
    requires 0 < major && minor <= major && NearIdeal(k, m, minor, major)
    ensures m <= k
  {
    assert k * minor <= k * major;
    assert (m - k) * major == m * major - k * major;
    MultipleIsFar(m - k, major);
  }

  /** Mirroring either axis does not change how far a point is from the line. */
  lemma MirroredCross(sx: int, sy: int, k: nat, m: nat, dx: nat, dy: nat)
    requires (sx == 1 || sx == -1) && (sy == 1 || sy == -1)
    ensures Abs((sx * k) * (sy * dy) - (sy * m) * (sx * dx)) == Abs(k * dy - m * dx)
  {
  }

  /** The line visits both endpoints, and after k steps it is k pixels along
      its longer axis and within half a pixel of the ideal line. */
  lemma LineIsFaithful(start: Point, end: Point, k: nat)
    requires k <= Steps(start, end)
    ensures IdealX(start, end, 0) == start.x && IdealY(start, end, 0) == start.y
    ensures IdealX(start, end, Steps(start, end)) == end.x && IdealY(start, end, Steps(start, end)) == end.y
    ensures var i, j := IdealX(start, end, k) - start.x, IdealY(start, end, k) - start.y;
            Max(Abs(i), Abs(j)) == k &&
            2 * Abs(i * (end.y - start.y) - j * (end.x - start.x)) <= Steps(start, end)
  {
    hide AtStep, IdealX, IdealY;
    var m := Replay(start, end, 0);
    AtStepIsIdeal(start, end, 0, m, PenAt(start, end, 0));
    m := Replay(start, end, Steps(start, end));
    AtStepIsIdeal(start, end, Steps(start, end), m, PenAt(start, end, Steps(start, end)));
    m := Replay(start, end, k);
    AtStepIsIdeal(start, end, k, m, PenAt(start, end, k));
    WithinHalfPixel(start, end, k, m, PenAt(start, end, k));
  }

  lemma WithinHalfPixel(start: Point, end: Point, k: nat, m: nat, pen: Pen)
    requires AtStep(start, end, k, m, pen)
    ensures var i, j := pen.x - start.x, pen.y - start.y;
            Max(Abs(i), Abs(j)) == k &&
            2 * Abs(i * (end.y - start.y) - j * (end.x - start.x)) <= Steps(start, end)
  {
    var dx, dy := Abs(end.x - start.x), Abs(end.y - start.y);
    var sx, sy := Sign(start.x, end.x), Sign(start.y, end.y);
    SignedDistance(start.x, end.x);
    SignedDistance(start.y, end.y);
    if dx >= dy {
      Mirrored(sx, k);
      Mirrored(sy, m);
      NearCross(sx, sy, k, m, dx, dy);
    } else {
      Mirrored(sx, m);
      Mirrored(sy, k);
      NearCross(sy, sx, k, m, dy, dx);
      Swapped(sx * m, sy * k, sx * dx, sy * dy);
    }
  }

  lemma SignedDistance(from: int, to: int)
    ensures to - from == Sign(from, to) * Abs(to - from)
  {
  }

  lemma Mirrored(s: int, n: nat)
    requires s == 1 || s == -1
    ensures Abs(s * n) == n
  {
  }

  lemma Swapped(i: int, j: int, dx: int, dy: int)
    ensures Abs(i * dy - j * dx) == Abs(j * dx - i * dy)
  {
  }

  /** Mirroring both axes keeps the distance to the line. */
  lemma NearCross(sx: int, sy: int, k: nat, m: nat, major: nat, minor: nat)
    requires (sx == 1 || sx == -1) && (sy == 1 || sy == -1) && minor <= major
    requires NearIdeal(k, m, minor, major) && (major == 0 ==> m == 0)
    ensures m <= k
    ensures 2 * Abs((sx * k) * (sy * minor) - (sy * m) * (sx * major)) <= major
  {
    MirroredCross(sx, sy, k, m, major, minor);
    if major > 0 {
      MinorIsShorter(k, m, minor, major);
    }
  }
}
