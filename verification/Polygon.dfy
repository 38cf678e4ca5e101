/** fill_gc_polygon of core_raster.cpp, with exact rational crossings. */
module Polygon {
  import opened Options
  import opened Arith
  import opened Raster
  import opened Fill
  import opened EdgeRule

  datatype Crossing = Crossing(x: real, sign: int)

  function Scan(y: int): real { y as real + 0.5 }

  predicate Crosses(a: Point, b: Point, y: int) {
    || (a.y as real <= Scan(y) && b.y as real > Scan(y))
    || (b.y as real <= Scan(y) && a.y as real > Scan(y))
  }

  function CrossingOf(a: Point, b: Point, y: int): Crossing
    requires Crosses(a, b, y)
  {
    Crossing(a.x as real + (Scan(y) - a.y as real) * (b.x - a.x) as real / (b.y - a.y) as real,
             if b.y > a.y then 1 else -1)
  }

  function Successor(points: seq<Point>, index: nat): Point
    requires index < |points|
  {
    points[(index + 1) % |points|]
  }

  /** The crossings of the first n edges with the centre line of row y. */
  function EdgeCrossings(points: seq<Point>, y: int, n: nat): seq<Crossing>
    requires n <= |points|
  {
    if n == 0 then []
    else EdgeCrossings(points, y, n - 1) +
         if Crosses(points[n - 1], Successor(points, n - 1), y)
         then [CrossingOf(points[n - 1], Successor(points, n - 1), y)] else []
  }

  function RowCrossings(points: seq<Point>, y: int): seq<Crossing> {
    EdgeCrossings(points, y, |points|)
  }

  function SignSum(cs: seq<Crossing>): int {
    if cs == [] then 0 else cs[0].sign + SignSum(cs[1..])
  }

  lemma {:induction false} SignSumConcat(a: seq<Crossing>, b: seq<Crossing>)
    ensures SignSum(a + b) == SignSum(a) + SignSum(b)
  {
    if a == [] {
      assert a + b == b;
    } else {
      assert (a + b)[1..] == a[1..] + b;
      SignSumConcat(a[1..], b);
    }
  }

  function Beyond(p: Point, y: int): int { if p.y as real > Scan(y) then 1 else 0 }

  /** An edge that crosses the row contributes the change it makes in `Beyond`. */
  lemma CrossingSign(a: Point, b: Point, y: int)
    ensures Crosses(a, b, y) <==> Beyond(a, y) != Beyond(b, y)
    ensures Crosses(a, b, y) ==> CrossingOf(a, b, y).sign == Beyond(b, y) - Beyond(a, y)
  {
  }

  lemma {:induction false} SignsTelescope(points: seq<Point>, y: int, n: nat)
    requires n < |points|
    ensures SignSum(EdgeCrossings(points, y, n)) == Beyond(points[n], y) - Beyond(points[0], y)
  {
    if n > 0 {
      SignsTelescope(points, y, n - 1);
      NextIndex(n - 1, |points|);
      AddEdge(points, y, n);
    }
  }

  lemma AddEdge(points: seq<Point>, y: int, n: nat)
    requires 0 < n <= |points|
    ensures SignSum(EdgeCrossings(points, y, n)) == SignSum(EdgeCrossings(points, y, n - 1)) +
            Beyond(Successor(points, n - 1), y) - Beyond(points[n - 1], y)
  {
    hide CrossingOf, Crosses, Beyond;
    var a, b := points[n - 1], Successor(points, n - 1);
    CrossingSign(a, b, y);
    if Crosses(a, b, y) {
      SignSumConcat(EdgeCrossings(points, y, n - 1), [CrossingOf(a, b, y)]);
    } else {
      assert EdgeCrossings(points, y, n) == EdgeCrossings(points, y, n - 1);
    }
  }

  /** A list of signs has the parity of its length. */
  lemma {:induction false} SignParity(cs: seq<Crossing>)
    requires forall c :: c in cs ==> c.sign == 1 || c.sign == -1
    ensures (|cs| - SignSum(cs)) % 2 == 0
  {
    if cs != [] {
      assert cs[0] in cs;
      SignParity(cs[1..]);
    }
  }

  lemma {:induction false} CrossingsAreSigned(points: seq<Point>, y: int, n: nat)
    requires n <= |points|
    ensures forall c :: c in EdgeCrossings(points, y, n) ==> c.sign == 1 || c.sign == -1
  {
    if n > 0 {
      CrossingsAreSigned(points, y, n - 1);
    }
  }

  lemma AllSignsCancel(points: seq<Point>, y: int)
    requires points != []
    ensures SignSum(RowCrossings(points, y)) == 0
  {
    var n := |points|;
    SignsTelescope(points, y, n - 1);
    NextIndex(n - 1, n);
    assert Successor(points, n - 1) == points[0];
    hide Successor, SignSum, EdgeCrossings, Beyond;
    AddEdge(points, y, n);
  }

  /** Around a closed vertex list the signed crossings of a row cancel, so
      every span that opens on it closes. */
  lemma ClosedPolygonBalances(points: seq<Point>, y: int)
    ensures SignSum(RowCrossings(points, y)) == 0 && |RowCrossings(points, y)| % 2 == 0
  {
    if points != [] {
      AllSignsCancel(points, y);
      CrossingsAreSigned(points, y, |points|);
      SignParity(RowCrossings(points, y));
    }
  }

  /** The two fill rules, on the number and the signed sum of crossings passed. */
  predicate Covered(rule: nat, count: nat, winding: int) {
    if rule == 0 then count % 2 == 1 else winding != 0
  }

  function Centre(x: int): real { x as real + 0.5 }

  /** The crossings strictly to the left of a position. */
  function LeftOf(cs: seq<Crossing>, at: real): (left: seq<Crossing>)
    ensures |left| <= |cs|
  {
    if cs == [] then []
    else (if cs[0].x < at then [cs[0]] else []) + LeftOf(cs[1..], at)
  }

  /** The fill rule, read off the definition: crossings to the pixel's left. */
  predicate Inside(points: seq<Point>, rule: nat, x: int, y: int) {
    var left := LeftOf(RowCrossings(points, y), Centre(x));
    Covered(rule, |left|, SignSum(left))
  }

  /** No edge passes exactly through the centre of the pixel. */
  predicate OffEdges(points: seq<Point>, x: int, y: int) {
    forall c :: c in RowCrossings(points, y) ==> c.x != Centre(x)
  }

  predicate Sorted(cs: seq<Crossing>) {
    forall i, j :: 0 <= i < j < |cs| ==> cs[i].x <= cs[j].x
  }

  // ---- Order of the crossings: the sort may place ties in any order

  lemma LeftOfConcat(a: seq<Crossing>, b: seq<Crossing>, at: real)
    ensures LeftOf(a + b, at) == LeftOf(a, at) + LeftOf(b, at)
  {
    if a == [] {
      assert a + b == b;
    } else {
      assert (a + b)[1..] == a[1..] + b;
      LeftOfConcat(a[1..], b, at);
    }
  }

  function Without(b: seq<Crossing>, k: nat): seq<Crossing>
    requires k < |b|
  {
    b[..k] + b[k + 1..]
  }

  lemma LeftOfWithout(b: seq<Crossing>, k: nat, at: real)
    requires k < |b|
    ensures |LeftOf(b, at)| == |LeftOf(Without(b, k), at)| + |LeftOf([b[k]], at)|
    ensures SignSum(LeftOf(b, at)) == SignSum(LeftOf(Without(b, k), at)) + SignSum(LeftOf([b[k]], at))
  {
    hide LeftOf, SignSum;
    var left, right := b[..k], b[k + 1..];
    assert b == left + ([b[k]] + right);
    LeftOfConcat(left, right, at);
    LeftOfConcat(left, [b[k]] + right, at);
    LeftOfConcat([b[k]], right, at);
    SignSumConcat(LeftOf(left, at), LeftOf(right, at));
    SignSumConcat(LeftOf(left, at), LeftOf([b[k]], at) + LeftOf(right, at));
    SignSumConcat(LeftOf([b[k]], at), LeftOf(right, at));
  }

  lemma WithoutMultiset(a: seq<Crossing>, b: seq<Crossing>, k: nat)
    requires a != [] && multiset(a) == multiset(b) && k < |b| && b[k] == a[0]
    ensures multiset(a[1..]) == multiset(Without(b, k))
  {
    assert a == [a[0]] + a[1..];
    assert b == b[..k] + [b[k]] + b[k + 1..];
    assert multiset(a[1..]) == multiset(a) - multiset{a[0]};
    assert multiset(Without(b, k)) == multiset(b) - multiset{b[k]};
  }

  /** Counts and signed sums to the left do not depend on the order. */
  lemma {:induction false} LeftOfPermutation(a: seq<Crossing>, b: seq<Crossing>, at: real)
    requires multiset(a) == multiset(b)
    ensures |LeftOf(a, at)| == |LeftOf(b, at)| && SignSum(LeftOf(a, at)) == SignSum(LeftOf(b, at))
  {
    if a == [] {
      assert |multiset(b)| == |b|;
    } else {
      hide LeftOf, SignSum;
      assert a[0] in multiset(b);
      var k :| 0 <= k < |b| && b[k] == a[0];
      WithoutMultiset(a, b, k);
      LeftOfPermutation(a[1..], Without(b, k), at);
      LeftOfWithout(b, k, at);
      assert Without(a, 0) == a[1..];
      LeftOfWithout(a, 0, at);
    }
  }

  /** How many crossings of a sorted list lie to the left of a position. */
  function Rank(cs: seq<Crossing>, at: real): nat { |LeftOf(cs, at)| }

  lemma {:induction false} NoneLeft(cs: seq<Crossing>, at: real)
    requires forall i :: 0 <= i < |cs| ==> cs[i].x >= at
    ensures LeftOf(cs, at) == []
  {
    if cs != [] {
      NoneLeft(cs[1..], at);
    }
  }

  lemma {:induction false} RankSplits(cs: seq<Crossing>, at: real)
    requires Sorted(cs)
    ensures LeftOf(cs, at) == cs[..Rank(cs, at)]
    ensures forall i :: 0 <= i < |cs| ==> (cs[i].x < at <==> i < Rank(cs, at))
  {
    if cs == [] || cs[0].x >= at {
      NoneLeft(cs, at);
    } else {
      var rest := cs[1..];
      RankSplits(rest, at);
      var k := Rank(rest, at);
      assert LeftOf(cs, at) == [cs[0]] + rest[..k];
      assert cs[..k + 1] == [cs[0]] + rest[..k];
      hide LeftOf;
      forall i | 0 <= i < |cs|
        ensures cs[i].x < at <==> i < k + 1
      {
        assert i > 0 ==> cs[i] == rest[i - 1];
      }
    }
  }

  /** The fill rule applied to the first k crossings of a list. */
  predicate InsideAfter(rule: nat, cs: seq<Crossing>, k: nat)
    requires k <= |cs|
  {
    Covered(rule, k, SignSum(cs[..k]))
  }

  lemma InsideAfterNext(rule: nat, cs: seq<Crossing>, k: nat)
    requires k < |cs|
    ensures SignSum(cs[..k + 1]) == SignSum(cs[..k]) + cs[k].sign
  {
    assert cs[..k + 1] == cs[..k] + [cs[k]];
    SignSumConcat(cs[..k], [cs[k]]);
  }

  // ---- The methods

  /** Has the sweep, having passed j crossings with the last span opened at
      `first`, already stored pixel x? */
  predicate Swept(width: nat, rule: nat, cs: seq<Crossing>, j: nat, first: nat, x: int)
    requires j <= |cs|
  {
    && 0 <= x < width
    && Rank(cs, Centre(x)) < (if InsideAfter(rule, cs, j) then first else j)
    && InsideAfter(rule, cs, Rank(cs, Centre(x)))
  }

  /** What one call of fill_pixel adds to the stores of its own pixel. */
  function Once(g: Graphics, x: int, y: int): nat { if FillSource(g, x, y).Some? then 1 else 0 }

  /** Everything stored since `before` lies on the surface (rows from `top` to
      `bottom`) and carries the source the fill style gives its pixel. */
  ghost predicate Filled(before: seq<Drawn>, after: seq<Drawn>, g: Graphics, width: nat, top: int, bottom: int) {
    && before <= after
    && forall k :: |before| <= k < |after| ==>
         0 <= after[k].x < width && top <= after[k].y <= bottom &&
         FillSource(g, after[k].x, after[k].y) == Some(after[k].source)
  }

  function Ceiling(r: real): int { -((-r).Floor) }

  /** Only the pixels of row y with centres in [start, stop] were stored, once each. */
  ghost predicate SpanStored(before: seq<Drawn>, after: seq<Drawn>, g: Graphics, width: nat,
                             start: real, stop: real, y: int) {
    forall px, py :: Stores(after, px, py) == Stores(before, px, py) +
      if py == y && 0 <= px < width && start <= Centre(px) <= stop then Once(g, px, py) else 0
  }

  method FillSpan(surface: Surface, g: Graphics, start: real, stop: real, y: int)
    modifies surface
    ensures SpanStored(old(surface.drawn), surface.drawn, g, surface.width, start, stop, y)
    ensures Filled(old(surface.drawn), surface.drawn, g, surface.width, y, y)
  {
    var firstX := Max(0, Ceiling(start - 0.5));
    var lastX := Min(surface.width - 1, (stop - 0.5).Floor);
    var x := firstX;
    while x <= lastX
      invariant firstX <= x
      invariant Filled(old(surface.drawn), surface.drawn, g, surface.width, y, y)
      invariant forall px, py :: Stores(surface.drawn, px, py) == Stores(old(surface.drawn), px, py) +
                  if py == y && firstX <= px < x && px <= lastX then Once(g, px, py) else 0
    {
      ghost var before := surface.drawn;
      FillPixel(surface, g, x, y);
      FilledOnce(before, surface.drawn, g, x, y);
      x := x + 1;
    }
  }

  lemma FilledOnce(before: seq<Drawn>, after: seq<Drawn>, g: Graphics, x: int, y: int)
    requires after == before + match FillSource(g, x, y) { case Some(source) => [Drawn(x, y, source)] case None => [] }
    ensures forall px, py :: Stores(after, px, py) ==
              Stores(before, px, py) + if px == x && py == y then Once(g, x, y) else 0
  {
    forall px, py
      ensures Stores(after, px, py) == Stores(before, px, py) + if px == x && py == y then Once(g, x, y) else 0
    {
      StoresConcat(before, match FillSource(g, x, y) { case Some(source) => [Drawn(x, y, source)] case None => [] },
                   px, py);
    }
  }

  /** No crossing of the list passes exactly through the pixel's centre. */
  predicate OffList(cs: seq<Crossing>, x: int) {
    forall c :: c in cs ==> c.x != Centre(x)
  }

  /** `first` is where the span that crossing j is still inside was opened. */
  ghost predicate OpenedAt(rule: nat, cs: seq<Crossing>, j: nat, first: nat) {
    && first <= j <= |cs|
    && (InsideAfter(rule, cs, j) ==>
          first < j && !InsideAfter(rule, cs, first) &&
          forall k :: first < k <= j ==> InsideAfter(rule, cs, k))
  }

  /** Passing crossing j extends what is swept by the span it closes, if any. */
  lemma SweptNext(width: nat, rule: nat, cs: seq<Crossing>, j: nat, first: nat, x: int)
    requires Sorted(cs) && j < |cs| && OpenedAt(rule, cs, j, first) && OffList(cs, x)
    ensures Swept(width, rule, cs, j + 1, if InsideAfter(rule, cs, j) then first else j, x) <==>
            Swept(width, rule, cs, j, first, x) ||
            (InsideAfter(rule, cs, j) && !InsideAfter(rule, cs, j + 1) && 0 <= x < width &&
             cs[first].x <= Centre(x) <= cs[j].x)
  {
    RankSplits(cs, Centre(x));
    assert cs[j] in cs && cs[first] in cs;
  }

  /** After the last crossing the swept pixels are exactly the inside ones. */
  lemma SweptAll(width: nat, rule: nat, cs: seq<Crossing>, first: nat, x: int)
    requires Sorted(cs) && SignSum(cs) == 0 && |cs| % 2 == 0
    ensures !InsideAfter(rule, cs, |cs|)
    ensures Swept(width, rule, cs, |cs|, first, x) <==>
            0 <= x < width && Covered(rule, Rank(cs, Centre(x)), SignSum(LeftOf(cs, Centre(x))))
  {
    hide LeftOf, SignSum, Sorted, Centre;
    assert cs[..|cs|] == cs;
    RankSplits(cs, Centre(x));
  }

  /** The row's off-edge pixels stored so far are exactly the swept ones, once each. */
  ghost predicate RowStored(before: seq<Drawn>, after: seq<Drawn>, g: Graphics, width: nat,
                            cs: seq<Crossing>, j: nat, first: nat, y: int)
    requires j <= |cs|
  {
    forall px, py | py != y || OffList(cs, px) :: Stores(after, px, py) == Stores(before, px, py) +
      if py == y && Swept(width, g.fillRule, cs, j, first, px) then Once(g, px, py) else 0
  }

  lemma RowStoredNext(before: seq<Drawn>, middle: seq<Drawn>, after: seq<Drawn>, g: Graphics, width: nat,
                      cs: seq<Crossing>, j: nat, first: nat, y: int)
    requires Sorted(cs) && j < |cs| && OpenedAt(g.fillRule, cs, j, first)
    requires RowStored(before, middle, g, width, cs, j, first, y)
    requires if InsideAfter(g.fillRule, cs, j) && !InsideAfter(g.fillRule, cs, j + 1)
             then SpanStored(middle, after, g, width, cs[first].x, cs[j].x, y)
             else after == middle
    ensures RowStored(before, after, g, width, cs, j + 1, if InsideAfter(g.fillRule, cs, j) then first else j, y)
  {
    hide Swept, InsideAfter, OpenedAt, Once, OffList;
    var next := if InsideAfter(g.fillRule, cs, j) then first else j;
    forall px, py | py != y || OffList(cs, px)
      ensures Stores(after, px, py) == Stores(before, px, py) +
        if py == y && Swept(width, g.fillRule, cs, j + 1, next, px) then Once(g, px, py) else 0
    {
      if py == y {
        SweptNext(width, g.fillRule, cs, j, first, px);
        SweptExcludes(width, g.fillRule, cs, j, first, px);
      }
    }
  }

  /** A pixel swept earlier is not under the span being closed. */
  lemma SweptExcludes(width: nat, rule: nat, cs: seq<Crossing>, j: nat, first: nat, x: int)
    requires Sorted(cs) && j < |cs| && OpenedAt(rule, cs, j, first) && OffList(cs, x)
    ensures !(Swept(width, rule, cs, j, first, x) && InsideAfter(rule, cs, j) && cs[first].x <= Centre(x))
  {
    RankSplits(cs, Centre(x));
    assert cs[first] in cs;
  }

  lemma OpenedNext(rule: nat, cs: seq<Crossing>, j: nat, first: nat)
    requires j < |cs| && OpenedAt(rule, cs, j, first)
    ensures OpenedAt(rule, cs, j + 1, if InsideAfter(rule, cs, j) then first else j)
  {
  }

  lemma RowStoredAll(before: seq<Drawn>, after: seq<Drawn>, g: Graphics, width: nat,
                     cs: seq<Crossing>, first: nat, y: int, px: int, py: int)
    requires Sorted(cs) && SignSum(cs) == 0 && |cs| % 2 == 0
    requires RowStored(before, after, g, width, cs, |cs|, first, y)
    requires py != y || OffList(cs, px)
    ensures Stores(after, px, py) == Stores(before, px, py) +
            if py == y && 0 <= px < width && Covered(g.fillRule, Rank(cs, Centre(px)), SignSum(LeftOf(cs, Centre(px))))
            then Once(g, px, py) else 0
  {
    SweptAll(width, g.fillRule, cs, first, px);
  }

  // ---- Centres on an edge as well

  /** The crossing that opened the span the row is in, or was last in, after j crossings. */
  function Opening(rule: nat, cs: seq<Crossing>, j: nat): (k: nat)
    requires j <= |cs|
    ensures k < j || k == j == 0
  {
    if j == 0 then 0 else if InsideAfter(rule, cs, j - 1) then Opening(rule, cs, j - 1) else j - 1
  }

  /** How many of the closed spans among the first j crossings contain a pixel's centre. */
  function Spans(rule: nat, cs: seq<Crossing>, j: nat, x: int): nat
    requires j <= |cs|
  {
    if j == 0 then 0
    else
      Spans(rule, cs, j - 1, x) +
      if InsideAfter(rule, cs, j - 1) && !InsideAfter(rule, cs, j)
         && cs[Opening(rule, cs, j - 1)].x <= Centre(x) <= cs[j - 1].x then 1 else 0
  }

  /** Every pixel of the row was stored once for each such span, whether or not its
      centre lies on an edge. */
  ghost predicate SpansStored(before: seq<Drawn>, after: seq<Drawn>, g: Graphics, width: nat, cs: seq<Crossing>,
                              j: nat, y: int)
    requires j <= |cs|
  {
    forall px, py :: Stores(after, px, py) == Stores(before, px, py) +
      if py == y && 0 <= px < width then Times(Spans(g.fillRule, cs, j, px), Once(g, px, py)) else 0
  }

  /** A number of stores of one or none each. */
  function Times(n: nat, once: nat): nat { if once == 0 then 0 else n }

  lemma SpansStoredNext(before: seq<Drawn>, middle: seq<Drawn>, after: seq<Drawn>, g: Graphics, width: nat,
                        cs: seq<Crossing>, j: nat, y: int)
    requires j < |cs| && SpansStored(before, middle, g, width, cs, j, y)
    requires if InsideAfter(g.fillRule, cs, j) && !InsideAfter(g.fillRule, cs, j + 1)
             then SpanStored(middle, after, g, width, cs[Opening(g.fillRule, cs, j)].x, cs[j].x, y)
             else after == middle
    ensures SpansStored(before, after, g, width, cs, j + 1, y)
  {
    hide InsideAfter, Opening, FillSource;
  }

  lemma NoSpans(before: seq<Drawn>, g: Graphics, width: nat, cs: seq<Crossing>, y: int)
    ensures SpansStored(before, before, g, width, cs, 0, y)
  {
  }

  method SweepRow(surface: Surface, g: Graphics, cs: seq<Crossing>, y: int) returns (ghost first: nat)
    requires Sorted(cs)
    modifies surface
    ensures SpansStored(old(surface.drawn), surface.drawn, g, surface.width, cs, |cs|, y)
    ensures RowStored(old(surface.drawn), surface.drawn, g, surface.width, cs, |cs|, first, y)
    ensures Filled(old(surface.drawn), surface.drawn, g, surface.width, y, y)
  {
    hide RowStored, SpanStored, SpansStored, InsideAfter, OpenedAt, LeftOf;
    var winding, inside, start := 0, false, 0.0;
    first := 0;
    StartOfRow(surface.drawn, g, surface.width, cs, y);
    NoSpans(surface.drawn, g, surface.width, cs, y);
    for j := 0 to |cs|
      invariant g.fillRule == 0 ==> inside == InsideAfter(g.fillRule, cs, j)
      invariant g.fillRule != 0 ==> winding == SignSum(cs[..j])
      invariant InsideAfter(g.fillRule, cs, j) ==> first < j && start == cs[first].x
      invariant OpenedAt(g.fillRule, cs, j, first) && first == Opening(g.fillRule, cs, j)
      invariant SpansStored(old(surface.drawn), surface.drawn, g, surface.width, cs, j, y)
      invariant RowStored(old(surface.drawn), surface.drawn, g, surface.width, cs, j, first, y)
      invariant Filled(old(surface.drawn), surface.drawn, g, surface.width, y, y)
    {
      ghost var middle := surface.drawn;
      var crossing := cs[j];
      Toggles(g.fillRule, cs, j);
      var wasInside := if g.fillRule == 0 then inside else winding != 0;
      if g.fillRule == 0 {
        inside := !inside;
      } else {
        winding := winding + crossing.sign;
      }
      var nowInside := if g.fillRule == 0 then inside else winding != 0;
      if !wasInside && nowInside {
        start := crossing.x;
      } else if wasInside && !nowInside {
        FillSpan(surface, g, start, crossing.x, y);
      }
      RowStoredNext(old(surface.drawn), middle, surface.drawn, g, surface.width, cs, j, first, y);
      SpansStoredNext(old(surface.drawn), middle, surface.drawn, g, surface.width, cs, j, y);
      OpenedNext(g.fillRule, cs, j, first);
      first := if wasInside then first else j;
    }
  }

  lemma StartOfRow(before: seq<Drawn>, g: Graphics, width: nat, cs: seq<Crossing>, y: int)
    ensures !InsideAfter(g.fillRule, cs, 0) && OpenedAt(g.fillRule, cs, 0, 0)
    ensures RowStored(before, before, g, width, cs, 0, 0, y)
  {
  }

  lemma Toggles(rule: nat, cs: seq<Crossing>, j: nat)
    requires j < |cs|
    ensures SignSum(cs[..j + 1]) == SignSum(cs[..j]) + cs[j].sign
    ensures rule == 0 ==> InsideAfter(rule, cs, j + 1) == !InsideAfter(rule, cs, j)
    ensures rule != 0 ==> InsideAfter(rule, cs, j) == (SignSum(cs[..j]) != 0)
    ensures rule != 0 ==> InsideAfter(rule, cs, j + 1) == (SignSum(cs[..j]) + cs[j].sign != 0)
  {
    InsideAfterNext(rule, cs, j);
  }

  method CollectCrossings(points: seq<Point>, y: int) returns (crossings: seq<Crossing>)
    ensures crossings == RowCrossings(points, y)
  {
    crossings := [];
    for index := 0 to |points|
      invariant crossings == EdgeCrossings(points, y, index)
    {
      var a, b := points[index], points[(index + 1) % |points|];
      if Crosses(a, b, y) {
        crossings := crossings + [CrossingOf(a, b, y)];
      }
    }
  }

  /** The library sort: ordered by x, ties in any order. */
  method SortCrossings(cs: seq<Crossing>) returns (sorted: seq<Crossing>)
    ensures Sorted(sorted) && multiset(sorted) == multiset(cs)
  {
    sorted := [];
    for i := 0 to |cs|
      invariant Sorted(sorted) && multiset(sorted) == multiset(cs[..i])
    {
      var k := |sorted|;
      while k > 0 && cs[i].x < sorted[k - 1].x
        invariant 0 <= k <= |sorted|
        invariant forall m :: k <= m < |sorted| ==> cs[i].x < sorted[m].x
      {
        k := k - 1;
      }
      InsertedSorted(sorted, cs[i], k);
      InsertedMultiset(sorted, cs[i], k);
      assert cs[..i + 1] == cs[..i] + [cs[i]];
      sorted := sorted[..k] + [cs[i]] + sorted[k..];
    }
    assert cs[..|cs|] == cs;
  }

  lemma InsertedSorted(sorted: seq<Crossing>, c: Crossing, k: nat)
    requires Sorted(sorted) && k <= |sorted|
    requires k > 0 ==> sorted[k - 1].x <= c.x
    requires forall m :: k <= m < |sorted| ==> c.x < sorted[m].x
    ensures Sorted(sorted[..k] + [c] + sorted[k..])
  {
    var left, right := sorted[..k] + [c], sorted[k..];
    assert Sorted(left) && Sorted(right);
    forall i, j | 0 <= i < |left| && 0 <= j < |right|
      ensures left[i].x <= right[j].x
    {
      assert left[i].x <= c.x && right[j] == sorted[k + j];
    }
    JoinedSorted(left, right);
  }

  lemma JoinedSorted(left: seq<Crossing>, right: seq<Crossing>)
    requires Sorted(left) && Sorted(right)
    requires forall i, j :: 0 <= i < |left| && 0 <= j < |right| ==> left[i].x <= right[j].x
    ensures Sorted(left + right)
  {
  }

  lemma InsertedMultiset(sorted: seq<Crossing>, c: Crossing, k: nat)
    requires k <= |sorted|
    ensures multiset(sorted[..k] + [c] + sorted[k..]) == multiset(sorted) + multiset{c}
  {
    assert sorted == sorted[..k] + sorted[k..];
  }

  method Bounds(points: seq<Point>) returns (low: int, high: int)
    requires points != []
    ensures forall p :: p in points ==> low <= p.y <= high
    ensures exists p, q :: p in points && q in points && p.y == low && q.y == high
  {
    var lowest, highest := points[0], points[0];
    for i := 0 to |points|
      invariant lowest in points && highest in points
      invariant forall k :: 0 <= k < i ==> lowest.y <= points[k].y <= highest.y
    {
      if points[i].y < lowest.y {
        lowest := points[i];
      }
      if highest.y < points[i].y {
        highest := points[i];
      }
    }
    low, high := lowest.y, highest.y;
  }

  /** What a filled polygon adds to the stores of one off-edge pixel. */
  function PolygonStores(points: seq<Point>, g: Graphics, width: nat, height: nat, x: int, y: int): nat {
    if 0 <= x < width && 0 <= y < height && Inside(points, g.fillRule, x, y) then Once(g, x, y) else 0
  }

  /** Sorting first does not change what is inside a row. */
  lemma RowIsPolygonRow(before: seq<Drawn>, after: seq<Drawn>, points: seq<Point>, g: Graphics, width: nat,
                        cs: seq<Crossing>, first: nat, y: int, px: int, py: int)
    requires Sorted(cs) && multiset(cs) == multiset(RowCrossings(points, y))
    requires RowStored(before, after, g, width, cs, |cs|, first, y)
    requires OffEdges(points, px, py)
    ensures Stores(after, px, py) == Stores(before, px, py) +
            if py == y && 0 <= px < width && Inside(points, g.fillRule, px, y) then Once(g, px, py) else 0
  {
    hide RowStored, EdgeCrossings, LeftOf;
    var edges := RowCrossings(points, y);
    ClosedPolygonBalances(points, y);
    assert |multiset(cs)| == |cs| && |multiset(edges)| == |edges|;
    LeftOfAll(cs, edges);
    LeftOfPermutation(cs, edges, Centre(px));
    forall c | c in cs && py == y ensures c.x != Centre(px) {
      assert c in multiset(edges);
    }
    RowStoredAll(before, after, g, width, cs, first, y, px, py);
  }

  /** A permutation keeps the signed sum of the whole row. */
  lemma LeftOfAll(a: seq<Crossing>, b: seq<Crossing>)
    requires multiset(a) == multiset(b)
    ensures SignSum(a) == SignSum(b)
  {
    if a == [] {
      assert |multiset(b)| == |b|;
    } else {
      assert a[0] in multiset(b);
      var k :| 0 <= k < |b| && b[k] == a[0];
      WithoutMultiset(a, b, k);
      LeftOfAll(a[1..], Without(b, k));
      assert b == b[..k] + ([b[k]] + b[k + 1..]);
      SignSumConcat(b[..k], b[k + 1..]);
      SignSumConcat(b[..k], [b[k]] + b[k + 1..]);
      SignSumConcat([b[k]], b[k + 1..]);
    }
  }

  /** A row above or below every vertex has no crossings. */
  lemma {:induction false} NoCrossings(points: seq<Point>, y: int, n: nat)
    requires n <= |points|
    requires (forall p :: p in points ==> p.y > y) || (forall p :: p in points ==> p.y <= y)
    ensures EdgeCrossings(points, y, n) == []
  {
    if n > 0 {
      NoCrossings(points, y, n - 1);
      assert points[n - 1] in points && Successor(points, n - 1) in points;
    }
  }

  /** With fewer than three vertices nothing off the edges is inside. */
  lemma DegeneratePolygon(points: seq<Point>, g: Graphics, width: nat, height: nat, x: int, y: int)
    requires |points| < 3 && OffEdges(points, x, y)
    ensures PolygonStores(points, g, width, height, x, y) == 0
  {
    if |points| == 1 {
      NoCrossings(points, y, 1);
    } else if |points| == 2 {
      DegenerateEdge(points, y);
      var edges := RowCrossings(points, y);
      if edges != [] {
        var one := edges[1..];
        assert one == [edges[1]] && one[1..] == [];
        assert LeftOf(one, Centre(x)) == if edges[1].x < Centre(x) then [edges[1]] else [];
        assert LeftOf(edges, Centre(x)) == if edges[0].x < Centre(x) then [edges[0], edges[1]] else [];
        assert [edges[0], edges[1]][1..] == one;
        assert SignSum(one) == edges[1].sign;
      }
    }
  }

  lemma DegenerateEdge(points: seq<Point>, y: int)
    requires |points| == 2
    ensures var edges := RowCrossings(points, y);
            edges == [] || (|edges| == 2 && edges[0].x == edges[1].x && edges[0].sign == -edges[1].sign)
  {
    var a, b := points[0], points[1];
    assert EdgeCrossings(points, y, 0) == [];
    assert Successor(points, 0) == b && Successor(points, 1) == a;
    CrossingSign(a, b, y);
    CrossingSign(b, a, y);
    if Crosses(a, b, y) {
      SameCrossing(a, b, y);
      assert EdgeCrossings(points, y, 1) == [CrossingOf(a, b, y)];
      assert EdgeCrossings(points, y, 2) == [CrossingOf(a, b, y), CrossingOf(b, a, y)];
    } else {
      assert EdgeCrossings(points, y, 1) == [];
      assert EdgeCrossings(points, y, 2) == [];
    }
  }

  lemma SameCrossing(a: Point, b: Point, y: int)
    requires Crosses(a, b, y)
    ensures Crosses(b, a, y) && CrossingOf(a, b, y).x == CrossingOf(b, a, y).x
  {
    var dy, dx := (b.y - a.y) as real, (b.x - a.x) as real;
    var s, t := Scan(y) - a.y as real, Scan(y) - b.y as real;
    assert s == t + dy;
    assert (t * (0.0 - dx)) / (0.0 - dy) == (t * dx) / dy;
    assert (s * dx) / dy == (t * dx + dy * dx) / dy == (t * dx) / dy + dx;
  }

  /** Rows `top` up to but not including `y` are painted, row by row. */
  ghost predicate RowsStored(before: seq<Drawn>, after: seq<Drawn>, points: seq<Point>, g: Graphics,
                             width: nat, height: nat, top: int, y: int) {
    forall px, py | OffEdges(points, px, py) :: Stores(after, px, py) ==
      Stores(before, px, py) + if top <= py < y then PolygonStores(points, g, width, height, px, py) else 0
  }

  lemma RowsStoredNext(before: seq<Drawn>, middle: seq<Drawn>, after: seq<Drawn>, points: seq<Point>, g: Graphics,
                       width: nat, height: nat, top: int, cs: seq<Crossing>, first: nat, y: int)
    requires top <= y && 0 <= y < height
    requires RowsStored(before, middle, points, g, width, height, top, y)
    requires Sorted(cs) && multiset(cs) == multiset(RowCrossings(points, y))
    requires RowStored(middle, after, g, width, cs, |cs|, first, y)
    ensures RowsStored(before, after, points, g, width, height, top, y + 1)
  {
    hide RowStored, Inside, Once;
    forall px, py | OffEdges(points, px, py)
      ensures Stores(after, px, py) ==
        Stores(before, px, py) + if top <= py < y + 1 then PolygonStores(points, g, width, height, px, py) else 0
    {
      RowIsPolygonRow(middle, after, points, g, width, cs, first, y, px, py);
    }
  }

  lemma FilledNext(before: seq<Drawn>, middle: seq<Drawn>, after: seq<Drawn>, g: Graphics, width: nat, height: nat,
                   y: int)
    requires Filled(before, middle, g, width, 0, height - 1)
    requires Filled(middle, after, g, width, y, y) && 0 <= y < height
    ensures Filled(before, after, g, width, 0, height - 1)
  {
  }

  /** The sorted crossings of each row that is swept; the others have none. */
  ghost predicate RowsOf(rows: map<int, seq<Crossing>>, points: seq<Point>, height: nat) {
    && (forall y :: y in rows ==>
          0 <= y < height && Sorted(rows[y]) && multiset(rows[y]) == multiset(RowCrossings(points, y)))
    && (|points| >= 3 ==> forall y :: 0 <= y < height && y !in rows ==> RowCrossings(points, y) == [])
  }

  /** Every pixel is stored once for each closed span of its row that contains its centre. */
  ghost predicate AllSpansStored(before: seq<Drawn>, after: seq<Drawn>, g: Graphics, width: nat,
                                 rows: map<int, seq<Crossing>>) {
    forall px, py :: Stores(after, px, py) == Stores(before, px, py) +
      if py in rows && 0 <= px < width then Times(Spans(g.fillRule, rows[py], |rows[py]|, px), Once(g, px, py)) else 0
  }

  lemma NextSpans(before: seq<Drawn>, middle: seq<Drawn>, after: seq<Drawn>, g: Graphics, width: nat,
                  rows: map<int, seq<Crossing>>, cs: seq<Crossing>, y: int)
    requires y !in rows && AllSpansStored(before, middle, g, width, rows)
    requires SpansStored(middle, after, g, width, cs, |cs|, y)
    ensures AllSpansStored(before, after, g, width, rows[y := cs])
  {
    hide Spans, Once, Times;
  }

  /** The same, by the crossings of each row. */
  method FillInside(surface: Surface, g: Graphics, points: seq<Point>) returns (ghost rows: map<int, seq<Crossing>>)
    modifies surface
    ensures RowsOf(rows, points, surface.height)
    ensures AllSpansStored(old(surface.drawn), surface.drawn, g, surface.width, rows)
    ensures forall px, py | OffEdges(points, px, py) :: Stores(surface.drawn, px, py) ==
              Stores(old(surface.drawn), px, py) + PolygonStores(points, g, surface.width, surface.height, px, py)
    ensures Filled(old(surface.drawn), surface.drawn, g, surface.width, 0, surface.height - 1)
  {
    rows := map[];
    if |points| < 3 {
      forall px, py | OffEdges(points, px, py)
        ensures PolygonStores(points, g, surface.width, surface.height, px, py) == 0
      {
        DegeneratePolygon(points, g, surface.width, surface.height, px, py);
      }
      return;
    }
    var low, high := Bounds(points);
    var firstY, lastY := Max(0, low), Min(surface.height - 1, high);
    hide RowsOf, SweptRows, RowsStored, Filled, PolygonStores, AllSpansStored, OffEdges;
    ghost var y;
    rows, y := FillRows(surface, g, points, firstY, lastY);
    AllRowsSwept(rows, points, surface.height, low, high, y);
    forall px, py | OffEdges(points, px, py)
      ensures Stores(surface.drawn, px, py) ==
        Stores(old(surface.drawn), px, py) + PolygonStores(points, g, surface.width, surface.height, px, py)
    {
      AllRowsStored(old(surface.drawn), surface.drawn, points, g, surface.width, surface.height, low, high, y, px, py);
    }
  }

  // ---- The crossings, and the edges they come from

  /** A crossing lies on its edge. */
  lemma CrossingIsOnEdge(a: Point, b: Point, y: int)
    requires Crosses(a, b, y)
    ensures (CrossingOf(a, b, y).x - a.x as real) * (b.y - a.y) as real == (Scan(y) - a.y as real) * (b.x - a.x) as real
  {
  }

  /** It is left of a centre exactly when the cross product says so. */
  lemma CrossingSide(a: Point, b: Point, x: int, y: int)
    ensures Crosses(a, b, y) <==> Straddles(a, b, y)
    ensures Crosses(a, b, y) ==> (CrossingOf(a, b, y).x < Centre(x) <==> PassesLeft(a, b, x, y))
    ensures Crosses(a, b, y) ==> (CrossingOf(a, b, y).x == Centre(x) <==> Side(a, b, x, y) == 0)
    ensures Crosses(a, b, y) ==> CrossingOf(a, b, y).sign == if a.y < b.y then 1 else -1
  {
    if Crosses(a, b, y) {
      CrossingIsOnEdge(a, b, y);
      SideOf(a, b, x, y, CrossingOf(a, b, y).x);
    }
  }

  lemma SideOf(a: Point, b: Point, x: int, y: int, at: real)
    requires a.y != b.y
    requires (at - a.x as real) * (b.y - a.y) as real == (Scan(y) - a.y as real) * (b.x - a.x) as real
    ensures at == Centre(x) <==> Side(a, b, x, y) == 0
    ensures at < Centre(x) <==> if a.y < b.y then Side(a, b, x, y) < 0 else Side(a, b, x, y) > 0
  {
    var dx, dy := (b.x - a.x) as real, (b.y - a.y) as real;
    var distance := at - Centre(x);
    SideReal(a, b, x, y);
    assert (at - a.x as real) * dy == distance * dy + (Centre(x) - a.x as real) * dy;
    SignOfProduct(distance, dy);
  }

  lemma SideReal(a: Point, b: Point, x: int, y: int)
    ensures Side(a, b, x, y) as real ==
            2.0 * ((Scan(y) - a.y as real) * (b.x - a.x) as real - (Centre(x) - a.x as real) * (b.y - a.y) as real)
  {
  }

  lemma SignOfProduct(r: real, d: real)
    requires d != 0.0
    ensures r * d == 0.0 <==> r == 0.0
    ensures r < 0.0 <==> if d > 0.0 then r * d < 0.0 else r * d > 0.0
  {
  }

  lemma {:induction false} OffEdgesUpTo(points: seq<Point>, x: int, y: int, n: nat)
    requires n <= |points| && OffPolygon(points, x, y)
    ensures forall c :: c in EdgeCrossings(points, y, n) ==> c.x != Centre(x)
  {
    hide Crosses, CrossingOf, Side, Straddles;
    if n > 0 {
      OffEdgesUpTo(points, x, y, n - 1);
      SameEdge(points, n - 1);
      CrossingSide(Start(points, n - 1), End(points, n - 1), x, y);
    }
  }

  lemma OffEdgesIff(points: seq<Point>, x: int, y: int)
    requires OffPolygon(points, x, y)
    ensures OffEdges(points, x, y)
  {
    OffEdgesUpTo(points, x, y, |points|);
  }

  lemma SameEdge(points: seq<Point>, i: nat)
    requires i < |points|
    ensures points[i] == Start(points, i) && Successor(points, i) == End(points, i)
  {
    NextIndex(i, |points|);
  }

  /** Crossings to the left of a centre count the edges that pass there. */
  lemma {:induction false} CrossingsAreEdges(points: seq<Point>, x: int, y: int, n: nat)
    requires n <= |points|
    ensures var left := LeftOf(EdgeCrossings(points, y, n), Centre(x));
            var downwards := |LeftEdges(points, n, true, x, y)|;
            var upwards := |LeftEdges(points, n, false, x, y)|;
            |left| == downwards + upwards && SignSum(left) == downwards - upwards
  {
    hide LeftEdges, PassesLeft, Crosses, CrossingOf, Straddles, LeftOf, SignSum, Centre;
    if n > 0 {
      CrossingsAreEdges(points, x, y, n - 1);
      LeftEdgesNext(points, n - 1, true, x, y);
      LeftEdgesNext(points, n - 1, false, x, y);
      NextCrossing(points, x, y, n);
    } else {
      NoEdges(points, x, y);
    }
  }

  lemma NoEdges(points: seq<Point>, x: int, y: int)
    ensures LeftEdges(points, 0, true, x, y) == {} && LeftEdges(points, 0, false, x, y) == {}
    ensures SignSum([]) == 0 && LeftOf([], Centre(x)) == []
  {
  }

  lemma NextCrossing(points: seq<Point>, x: int, y: int, n: nat)
    requires 0 < n <= |points|
    ensures var before := LeftOf(EdgeCrossings(points, y, n - 1), Centre(x));
            var after := LeftOf(EdgeCrossings(points, y, n), Centre(x));
            var a, b := Start(points, n - 1), End(points, n - 1);
            if PassesLeft(a, b, x, y)
            then |after| == |before| + 1 && SignSum(after) == SignSum(before) + if a.y < b.y then 1 else -1
            else after == before
  {
    hide Crosses, CrossingOf, Straddles, Side, Centre, LeftOf;
    var a, b := Start(points, n - 1), End(points, n - 1);
    SameEdge(points, n - 1);
    CrossingSide(a, b, x, y);
    var earlier := EdgeCrossings(points, y, n - 1);
    if Crosses(a, b, y) {
      var c := CrossingOf(a, b, y);
      LeftOfConcat(earlier, [c], Centre(x));
      OneLeft(c, Centre(x));
      if c.x < Centre(x) {
        SignSumConcat(LeftOf(earlier, Centre(x)), [c]);
      } else {
        assert LeftOf(earlier, Centre(x)) + [] == LeftOf(earlier, Centre(x));
      }
    } else {
      assert EdgeCrossings(points, y, n) == earlier;
    }
  }

  lemma OneLeft(c: Crossing, at: real)
    ensures LeftOf([c], at) == if c.x < at then [c] else []
    ensures SignSum([c]) == c.sign
  {
    assert LeftOf([c][1..], at) == [];
    assert SignSum([c][1..]) == 0;
  }

  lemma InsideIff(points: seq<Point>, g: Graphics, width: nat, height: nat, x: int, y: int)
    ensures Inside(points, g.fillRule, x, y) <==> InPolygon(points, g.fillRule, x, y)
    ensures PolygonStores(points, g, width, height, x, y) ==
            if 0 <= x < width && 0 <= y < height && InPolygon(points, g.fillRule, x, y) && FillSource(g, x, y).Some?
            then 1 else 0
  {
    hide LeftEdges, LeftOf, EdgeCrossings, SignSum;
    CrossingsAreEdges(points, x, y, |points|);
  }

  /** Filling a polygon stores every off-edge pixel of the surface exactly once
      when the fill rule says it is inside (and the stipple lets it through),
      never otherwise, and stores nothing outside the surface. A pixel whose
      centre lies on an edge is stored once for each closed span that holds it. */
  method FillPolygon(surface: Surface, g: Graphics, points: seq<Point>) returns (ghost rows: map<int, seq<Crossing>>)
    modifies surface
    ensures RowsOf(rows, points, surface.height)
    ensures AllSpansStored(old(surface.drawn), surface.drawn, g, surface.width, rows)
    ensures forall px, py | OffPolygon(points, px, py) ::
              Stores(surface.drawn, px, py) == Stores(old(surface.drawn), px, py) +
              if 0 <= px < surface.width && 0 <= py < surface.height && InPolygon(points, g.fillRule, px, py) &&
                 FillSource(g, px, py).Some?
              then 1 else 0
    ensures Filled(old(surface.drawn), surface.drawn, g, surface.width, 0, surface.height - 1)
  {
    hide RowsOf, Filled, PolygonStores, AllSpansStored, OffEdges, OffPolygon, InPolygon, FillSource;
    rows := FillInside(surface, g, points);
    forall px, py | OffPolygon(points, px, py)
      ensures Stores(surface.drawn, px, py) == Stores(old(surface.drawn), px, py) +
              if 0 <= px < surface.width && 0 <= py < surface.height && InPolygon(points, g.fillRule, px, py) &&
                 FillSource(g, px, py).Some?
              then 1 else 0
    {
      OffEdgesIff(points, px, py);
      InsideIff(points, g, surface.width, surface.height, px, py);
    }
  }

  /** The rows swept so far, with their crossings sorted. */
  ghost predicate SweptRows(rows: map<int, seq<Crossing>>, points: seq<Point>, top: int, y: int) {
    && (forall k :: k in rows <==> top <= k < y)
    && forall k :: k in rows ==> Sorted(rows[k]) && multiset(rows[k]) == multiset(RowCrossings(points, k))
  }

  lemma SweptRowsNext(rows: map<int, seq<Crossing>>, points: seq<Point>, top: int, y: int, cs: seq<Crossing>)
    requires SweptRows(rows, points, top, y) && top <= y
    requires Sorted(cs) && multiset(cs) == multiset(RowCrossings(points, y))
    ensures y !in rows && SweptRows(rows[y := cs], points, top, y + 1)
  {
    hide Sorted, RowCrossings;
  }

  /** The loop over the rows between the topmost and the lowest vertex. */
  method FillRows(surface: Surface, g: Graphics, points: seq<Point>, firstY: int, lastY: int)
    returns (ghost rows: map<int, seq<Crossing>>, ghost end: int)
    requires 0 <= firstY && lastY < surface.height
    modifies surface
    ensures firstY <= end && lastY < end && (end <= lastY + 1 || end == firstY)
    ensures SweptRows(rows, points, firstY, end)
    ensures RowsStored(old(surface.drawn), surface.drawn, points, g, surface.width, surface.height, firstY, end)
    ensures Filled(old(surface.drawn), surface.drawn, g, surface.width, 0, surface.height - 1)
    ensures AllSpansStored(old(surface.drawn), surface.drawn, g, surface.width, rows)
  {
    rows := map[];
    NothingSpanned(surface.drawn, g, surface.width);
    NothingFilled(surface.drawn, g, surface.width, surface.height);
    NoRowsStored(surface.drawn, points, g, surface.width, surface.height, firstY);
    hide RowStored, RowsStored, Filled, SpansStored, AllSpansStored, SweptRows, Sorted;
    var y := firstY;
    while y <= lastY
      invariant firstY <= y && (y <= lastY + 1 || y == firstY)
      invariant SweptRows(rows, points, firstY, y)
      invariant RowsStored(old(surface.drawn), surface.drawn, points, g, surface.width, surface.height, firstY, y)
      invariant Filled(old(surface.drawn), surface.drawn, g, surface.width, 0, surface.height - 1)
      invariant AllSpansStored(old(surface.drawn), surface.drawn, g, surface.width, rows)
    {
      ghost var middle := surface.drawn;
      var crossings := CollectCrossings(points, y);
      var sorted := SortCrossings(crossings);
      ghost var first := SweepRow(surface, g, sorted, y);
      RowsStoredNext(old(surface.drawn), middle, surface.drawn, points, g, surface.width, surface.height,
                     firstY, sorted, first, y);
      FilledNext(old(surface.drawn), middle, surface.drawn, g, surface.width, surface.height, y);
      SweptRowsNext(rows, points, firstY, y, sorted);
      NextSpans(old(surface.drawn), middle, surface.drawn, g, surface.width, rows, sorted, y);
      rows := rows[y := sorted];
      y := y + 1;
    }
    end := y;
  }

  lemma NoRowsStored(before: seq<Drawn>, points: seq<Point>, g: Graphics, width: nat, height: nat, top: int)
    ensures RowsStored(before, before, points, g, width, height, top, top) && SweptRows(map[], points, top, top)
  {
  }

  /** Rows that are not swept have no crossings. */
  lemma AllRowsSwept(rows: map<int, seq<Crossing>>, points: seq<Point>, height: nat, low: int, high: int, end: int)
    requires SweptRows(rows, points, Max(0, low), end) && (forall p :: p in points ==> low <= p.y <= high)
    requires Min(height - 1, high) < end && (end <= Min(height - 1, high) + 1 || end == Max(0, low))
    ensures RowsOf(rows, points, height)
  {
    hide Sorted, Crosses;
    forall k | 0 <= k < height && k !in rows ensures RowCrossings(points, k) == [] {
      NoCrossings(points, k, |points|);
    }
  }

  lemma AllRowsStored(before: seq<Drawn>, after: seq<Drawn>, points: seq<Point>, g: Graphics, width: nat, height: nat,
                      low: int, high: int, end: int, px: int, py: int)
    requires RowsStored(before, after, points, g, width, height, Max(0, low), end) && OffEdges(points, px, py)
    requires forall p :: p in points ==> low <= p.y <= high
    requires Min(height - 1, high) < end
    ensures Stores(after, px, py) == Stores(before, px, py) + PolygonStores(points, g, width, height, px, py)
  {
    hide OffEdges, PolygonStores;
    if !(Max(0, low) <= py < end) {
      OutsideRows(points, g, width, height, low, high, px, py);
    }
  }

  lemma NothingSpanned(before: seq<Drawn>, g: Graphics, width: nat)
    ensures AllSpansStored(before, before, g, width, map[])
  {
  }

  lemma NothingFilled(before: seq<Drawn>, g: Graphics, width: nat, height: nat)
    ensures Filled(before, before, g, width, 0, height - 1)
  {
  }

  lemma OutsideRows(points: seq<Point>, g: Graphics, width: nat, height: nat, low: int, high: int, x: int, y: int)
    requires forall p :: p in points ==> low <= p.y <= high
    requires y < Max(0, low) || y > Min(height - 1, high)
    ensures PolygonStores(points, g, width, height, x, y) == 0
  {
    if y < low || y > high {
      NoCrossings(points, y, |points|);
    }
  }

  // ---- A pixel stored twice

  /** Crossings at the same place are the same. */
  predicate Unambiguous(a: seq<Crossing>) { forall i, j :: 0 <= i < j < |a| && a[i].x == a[j].x ==> a[i] == a[j] }

  /** Sorted lists of the same crossings are equal when crossings at the same place are. */
  lemma {:induction false} SortedUnique(a: seq<Crossing>, b: seq<Crossing>)
    requires Sorted(a) && Sorted(b) && multiset(a) == multiset(b)
    requires Unambiguous(a)
    ensures a == b
  {
    hide Sorted, Unambiguous;
    assert |multiset(a)| == |a| && |multiset(b)| == |b|;
    if a != [] {
      SameFirst(a, b);
      Peeled(a);
      Peeled(b);
      SortedUnique(a[1..], b[1..]);
      assert a == [a[0]] + a[1..] && b == [b[0]] + b[1..];
    }
  }

  lemma {:induction false} SameFirst(a: seq<Crossing>, b: seq<Crossing>)
    requires Sorted(a) && Sorted(b) && multiset(a) == multiset(b) && a != [] && b != []
    requires Unambiguous(a)
    ensures a[0] == b[0]
  {
    assert a[0] in multiset(b) && b[0] in multiset(a);
    var i :| 0 <= i < |b| && b[i] == a[0];
    var k :| 0 <= k < |a| && a[k] == b[0];
  }

  lemma {:induction false} Peeled(a: seq<Crossing>)
    requires a != []
    ensures multiset(a[1..]) == multiset(a) - multiset{a[0]}
    ensures Sorted(a) ==> Sorted(a[1..])
    ensures Unambiguous(a) ==> Unambiguous(a[1..])
  {
    assert a == [a[0]] + a[1..];
  }

  /** Two triangles whose slanted sides cross at the centre of pixel (1, 0). */
  function Crossed(): seq<Point> { [Point(1, 0), Point(2, 1), Point(4, 0), Point(2, 0), Point(1, 1), Point(0, 0)] }

  lemma CrossedRow()
    ensures RowCrossings(Crossed(), 0) == [Crossing(1.5, 1), Crossing(3.0, -1), Crossing(1.5, 1), Crossing(0.5, -1)]
  {
    var p := Crossed();
    assert Successor(p, 0) == p[1] && Successor(p, 1) == p[2] && Successor(p, 2) == p[3];
    assert Successor(p, 3) == p[4] && Successor(p, 4) == p[5] && Successor(p, 5) == p[0];
    assert EdgeCrossings(p, 0, 0) == [];
    assert EdgeCrossings(p, 0, 1) == [Crossing(1.5, 1)];
    assert EdgeCrossings(p, 0, 2) == [Crossing(1.5, 1), Crossing(3.0, -1)];
    assert EdgeCrossings(p, 0, 3) == [Crossing(1.5, 1), Crossing(3.0, -1)];
    assert EdgeCrossings(p, 0, 4) == [Crossing(1.5, 1), Crossing(3.0, -1), Crossing(1.5, 1)];
    assert EdgeCrossings(p, 0, 5) == [Crossing(1.5, 1), Crossing(3.0, -1), Crossing(1.5, 1), Crossing(0.5, -1)];
  }

  lemma {:induction false} CrossedSpans(cs: seq<Crossing>)
    requires Sorted(cs) && multiset(cs) == multiset(RowCrossings(Crossed(), 0))
    ensures |cs| == 4 && Spans(0, cs, 4, 1) == 2
  {
    var row := [Crossing(0.5, -1), Crossing(1.5, 1), Crossing(1.5, 1), Crossing(3.0, -1)];
    RowInOrder(row);
    SortedUnique(row, cs);
    RowSpans(row);
  }

  lemma {:induction false} RowInOrder(row: seq<Crossing>)
    requires row == [Crossing(0.5, -1), Crossing(1.5, 1), Crossing(1.5, 1), Crossing(3.0, -1)]
    ensures Sorted(row) && multiset(row) == multiset(RowCrossings(Crossed(), 0))
    ensures Unambiguous(row)
  {
    CrossedRow();
    hide RowCrossings, Sorted, Unambiguous;
    SameFour(row[0], row[1], row[3]);
    FourInOrder(row);
  }

  lemma FourInOrder(row: seq<Crossing>)
    requires |row| == 4 && row[0].x < row[1].x == row[2].x < row[3].x && row[1] == row[2]
    ensures Sorted(row) && Unambiguous(row)
  {
  }

  lemma SameFour(a: Crossing, b: Crossing, c: Crossing)
    ensures multiset([a, b, b, c]) == multiset([b, c, b, a])
  {
  }

  lemma {:induction false} RowSpans(row: seq<Crossing>)
    requires row == [Crossing(0.5, -1), Crossing(1.5, 1), Crossing(1.5, 1), Crossing(3.0, -1)]
    ensures Spans(0, row, 4, 1) == 2
  {
    hide SignSum;
    assert Opening(0, row, 0) == 0 && Opening(0, row, 1) == 0;
    assert Opening(0, row, 2) == 0 && Opening(0, row, 3) == 2;
    assert Spans(0, row, 0, 1) == 0 && Spans(0, row, 1, 1) == 0;
    assert Spans(0, row, 2, 1) == 1 && Spans(0, row, 3, 1) == 1;
  }

  /** Filled by the even-odd rule, they store that pixel twice. */
  method CrossedStoresTwice(surface: Surface, g: Graphics)
    requires g.fillRule == 0 && g.fillStyle == 0 && 2 <= surface.width && 1 <= surface.height
    modifies surface
    ensures Stores(surface.drawn, 1, 0) == Stores(old(surface.drawn), 1, 0) + 2
  {
    ghost var rows := FillPolygon(surface, g, Crossed());
    CrossedRow();
    hide Spans, RowCrossings;
    CrossedSpans(rows[0]);
  }
}
