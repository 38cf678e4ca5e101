/** Where composite_glyphs of render.cpp puts its glyphs, and the box of the mask
    that it gathers them in. */
module GlyphRuns {
  import opened Options

  const INT32_MIN: int := -0x8000_0000
  const INT32_MAX: int := 0x7fff_ffff
  const MASK_PIXELS: nat := 0x40_0000

  type Word16 = w: int | 0 <= w < 0x1_0000
  type Int16 = w: int | -0x8000 <= w <= 0x7fff

  datatype Glyph = Glyph(width: Word16, height: Word16, x: Int16, y: Int16, xOffset: Int16, yOffset: Int16)

  /** A run names a glyph set, if it exists, and the glyphs to take from it. */
  datatype Run = Run(glyphs: Option<map<nat, Glyph>>, xOffset: Int16, yOffset: Int16, ids: seq<nat>)

  datatype Placement = Placement(glyph: Glyph, x: int, y: int)

  datatype Status = Success | BadGlyphSet | BadMatch | BadAlloc

  // ---- Moves of the pen

  /** The pen's moves: a run's offset, then every glyph that exists. */
  datatype Move = Offset(dx: Int16, dy: Int16) | Draw(glyph: Glyph)

  function Dx(m: Move): int { if m.Offset? then m.dx else m.glyph.xOffset }
  function Dy(m: Move): int { if m.Offset? then m.dy else m.glyph.yOffset }

  function GlyphMoves(glyphs: map<nat, Glyph>, ids: seq<nat>): seq<Move> {
    if ids == [] then []
    else
      var n := |ids| - 1;
      GlyphMoves(glyphs, ids[..n]) + if ids[n] in glyphs then [Draw(glyphs[ids[n]])] else []
  }

  function RunMoves(run: Run): seq<Move> {
    [Offset(run.xOffset, run.yOffset)] + if run.glyphs.Some? then GlyphMoves(run.glyphs.value, run.ids) else []
  }

  function Moves(runs: seq<Run>): seq<Move> {
    if runs == [] then [] else Moves(runs[..|runs| - 1]) + RunMoves(runs[|runs| - 1])
  }

  function PenX(moves: seq<Move>): int {
    if moves == [] then 0 else PenX(moves[..|moves| - 1]) + Dx(moves[|moves| - 1])
  }
  function PenY(moves: seq<Move>): int {
    if moves == [] then 0 else PenY(moves[..|moves| - 1]) + Dy(moves[|moves| - 1])
  }

  /** Each glyph is placed where the moves before it left the pen. */
  function Placements(moves: seq<Move>): seq<Placement> {
    if moves == [] then []
    else
      var n := |moves| - 1;
      Placements(moves[..n]) + if moves[n].Draw? then [Placement(moves[n].glyph, PenX(moves[..n]), PenY(moves[..n]))]
        else []
  }

  predicate InInt32(v: int) { INT32_MIN <= v <= INT32_MAX }

  /** The pen never leaves the 32-bit coordinates. */
  predicate PenFits(moves: seq<Move>) {
    forall k :: 0 <= k <= |moves| ==> InInt32(PenX(moves[..k])) && InInt32(PenY(moves[..k]))
  }

  predicate SetsExist(runs: seq<Run>) { forall i :: 0 <= i < |runs| ==> runs[i].glyphs.Some? }

  lemma {:induction false} NextMove(moves: seq<Move>, m: Move)
    ensures PenX(moves + [m]) == PenX(moves) + Dx(m) && PenY(moves + [m]) == PenY(moves) + Dy(m)
    ensures Placements(moves + [m]) ==
            Placements(moves) + if m.Draw? then [Placement(m.glyph, PenX(moves), PenY(moves))] else []
    ensures PenFits(moves + [m]) <==> PenFits(moves) && InInt32(PenX(moves + [m])) && InInt32(PenY(moves + [m]))
  {
    var more := moves + [m];
    assert more[..|moves|] == moves && more[..|more|] == more && moves[..|moves|] == moves;
    forall k | 0 <= k <= |moves| ensures more[..k] == moves[..k] {
    }
  }

  lemma {:induction false} PrefixFits(moves: seq<Move>, more: seq<Move>)
    requires PenFits(moves + more)
    ensures PenFits(moves)
  {
    forall k | 0 <= k <= |moves| ensures InInt32(PenX(moves[..k])) && InInt32(PenY(moves[..k])) {
      assert (moves + more)[..k] == moves[..k];
    }
  }

  lemma {:induction false} MovesBegin(runs: seq<Run>, n: nat) returns (rest: seq<Move>)
    requires n <= |runs|
    ensures Moves(runs) == Moves(runs[..n]) + rest
  {
    if n == |runs| {
      assert runs[..n] == runs;
      rest := [];
    } else {
      var last := |runs| - 1;
      rest := MovesBegin(runs[..last], n);
      assert runs[..last][..n] == runs[..n];
      rest := rest + RunMoves(runs[last]);
    }
  }

  lemma {:induction false} GlyphMovesBegin(glyphs: map<nat, Glyph>, ids: seq<nat>, n: nat) returns (rest: seq<Move>)
    requires n <= |ids|
    ensures GlyphMoves(glyphs, ids) == GlyphMoves(glyphs, ids[..n]) + rest
  {
    if n == |ids| {
      assert ids[..n] == ids;
      rest := [];
    } else {
      var last := |ids| - 1;
      rest := GlyphMovesBegin(glyphs, ids[..last], n);
      assert ids[..last][..n] == ids[..n];
      rest := rest + if ids[last] in glyphs then [Draw(glyphs[ids[last]])] else [];
    }
  }

  /** The pen after some moves that all fit. */
  predicate At(moves: seq<Move>, x: int, y: int, placements: seq<Placement>) {
    x == PenX(moves) && y == PenY(moves) && PenFits(moves) && placements == Placements(moves)
  }

  /** One move: a glyph is placed before its offset is added. */
  method Advance(ghost moves: seq<Move>, m: Move, startX: int, startY: int, placed: seq<Placement>)
    returns (ok: bool, x: int, y: int, placements: seq<Placement>)
    requires At(moves, startX, startY, placed)
    ensures ok <==> PenFits(moves + [m])
    ensures ok ==> At(moves + [m], x, y, placements)
  {
    NextMove(moves, m);
    hide PenFits, PenX, PenY, Placements;
    placements := if m.Draw? then placed + [Placement(m.glyph, startX, startY)] else placed;
    x, y := startX + Dx(m), startY + Dy(m);
    ok := !(x < INT32_MIN || x > INT32_MAX || y < INT32_MIN || y > INT32_MAX);
  }

  /** The moves of a run up to its n-th glyph. */
  function RunSoFar(run: Run, n: nat): seq<Move>
    requires run.glyphs.Some? && n <= |run.ids|
  {
    [Offset(run.xOffset, run.yOffset)] + GlyphMoves(run.glyphs.value, run.ids[..n])
  }

  lemma RunGoesOn(before: seq<Move>, run: Run, n: nat)
    requires run.glyphs.Some? && n <= |run.ids|
    ensures RunSoFar(run, |run.ids|) == RunMoves(run)
    ensures PenFits(before + RunMoves(run)) ==> PenFits(before + RunSoFar(run, n))
    ensures n == 0 ==> before + RunSoFar(run, n) == before + [Offset(run.xOffset, run.yOffset)]
    ensures n < |run.ids| ==> before + RunSoFar(run, n + 1) ==
                              if run.ids[n] in run.glyphs.value then before + RunSoFar(run, n) +
                                 [Draw(run.glyphs.value[run.ids[n]])]
                              else before + RunSoFar(run, n)
  {
    hide PenFits;
    assert run.ids[..|run.ids|] == run.ids;
    var rest := GlyphMovesBegin(run.glyphs.value, run.ids, n);
    assert before + RunMoves(run) == before + RunSoFar(run, n) + rest;
    if PenFits(before + RunMoves(run)) {
      PrefixFits(before + RunSoFar(run, n), rest);
    }
    if n < |run.ids| {
      assert run.ids[..n + 1][..n] == run.ids[..n];
    }
  }

  /** Takes the glyphs of one run. */
  method PlaceRun(ghost before: seq<Move>, run: Run, startX: int, startY: int, placed: seq<Placement>)
    returns (ok: bool, x: int, y: int, placements: seq<Placement>)
    requires run.glyphs.Some? && At(before, startX, startY, placed)
    ensures ok <==> PenFits(before + RunMoves(run))
    ensures ok ==> At(before + RunMoves(run), x, y, placements)
  {
    hide At, PenFits, PenX, PenY, Placements, GlyphMoves, RunMoves, RunSoFar;
    var glyphs := run.glyphs.value;
    RunGoesOn(before, run, 0);
    ok, x, y, placements := Advance(before, Offset(run.xOffset, run.yOffset), startX, startY, placed);
    if !ok {
      return;
    }
    for n := 0 to |run.ids|
      invariant ok && At(before + RunSoFar(run, n), x, y, placements)
    {
      RunGoesOn(before, run, n);
      RunGoesOn(before, run, n + 1);
      if run.ids[n] in glyphs {
        ok, x, y, placements := Advance(before + RunSoFar(run, n), Draw(glyphs[run.ids[n]]), x, y, placements);
        if !ok {
          return;
        }
      }
    }
    RunGoesOn(before, run, 0);
    AtFits(before + RunMoves(run), x, y, placements);
  }

  lemma AtFits(moves: seq<Move>, x: int, y: int, placements: seq<Placement>)
    requires At(moves, x, y, placements)
    ensures PenFits(moves)
  {
  }

  /** Places every glyph of every run. It succeeds exactly when all the glyph sets
      exist and the pen stays in range, and then each glyph stands where the
      moves before it lead. */
  method Place(runs: seq<Run>) returns (status: Status, placements: seq<Placement>)
    ensures status == Success <==> SetsExist(runs) && PenFits(Moves(runs))
    ensures status == Success ==> placements == Placements(Moves(runs))
    ensures status == BadGlyphSet <==> MissesSet(runs)
    ensures status in {Success, BadGlyphSet, BadMatch}
  {
    placements := [];
    var x, y := 0, 0;
    hide PenX, PenY, Placements, RunMoves;
    NoMoves();
    for n := 0 to |runs|
      invariant At(Moves(runs[..n]), x, y, placements)
      invariant SetsExist(runs[..n])
    {
      assert runs[..n + 1][..n] == runs[..n];
      if runs[n].glyphs.None? {
        assert MissesSetAt(runs, n);
        return BadGlyphSet, placements;
      }
      var ok;
      ok, x, y, placements := PlaceRun(Moves(runs[..n]), runs[n], x, y, placements);
      if !ok {
        ghost var rest := MovesBegin(runs, n + 1);
        if PenFits(Moves(runs)) {
          PrefixFits(Moves(runs[..n + 1]), rest);
        }
        NoneMissed(runs, n + 1);
        return BadMatch, placements;
      }
    }
    assert runs[..|runs|] == runs;
    return Success, placements;
  }

  /** A run is met whose glyph set does not exist, the pen in range up to it. */
  ghost predicate MissesSet(runs: seq<Run>) { exists i :: 0 <= i < |runs| && MissesSetAt(runs, i) }

  ghost predicate MissesSetAt(runs: seq<Run>, i: nat)
    requires i < |runs|
  {
    runs[i].glyphs.None? && SetsExist(runs[..i]) && PenFits(Moves(runs[..i]))
  }

  /** The pen left its range first. */
  lemma {:induction false} NoneMissed(runs: seq<Run>, n: nat)
    requires n <= |runs| && SetsExist(runs[..n]) && !PenFits(Moves(runs[..n]))
    ensures !MissesSet(runs)
  {
    hide PenFits, Moves;
    forall i | 0 <= i < |runs| ensures !MissesSetAt(runs, i) {
      if i < n {
        assert runs[..n][i] == runs[i];
      } else if PenFits(Moves(runs[..i])) {
        var rest := MovesBegin(runs[..i], n);
        assert runs[..i][..n] == runs[..n];
        PrefixFits(Moves(runs[..n]), rest);
      }
    }
  }

  lemma NoMoves()
    ensures At([], 0, 0, [])
  {
  }

  // ---- The mask

  datatype Box = Box(left: int, top: int, right: int, bottom: int)

  function GlyphBox(p: Placement): Box {
    var left, top := p.x - p.glyph.x, p.y - p.glyph.y;
    Box(left, top, left + p.glyph.width, top + p.glyph.height)
  }

  predicate Contains(box: Box, inner: Box) {
    box.left <= inner.left && box.top <= inner.top && inner.right <= box.right && inner.bottom <= box.bottom
  }

  /** The least box around all glyphs: it holds each and each side touches one. A glyph
      lies to the right of and below its place, less its own origin. */
  ghost predicate LeastBox(box: Box, placements: seq<Placement>) {
    && (forall k :: 0 <= k < |placements| ==>
          && box.left <= placements[k].x - placements[k].glyph.x
          && placements[k].x - placements[k].glyph.x + placements[k].glyph.width <= box.right
          && box.top <= placements[k].y - placements[k].glyph.y
          && placements[k].y - placements[k].glyph.y + placements[k].glyph.height <= box.bottom)
    && (exists k :: 0 <= k < |placements| && placements[k].x - placements[k].glyph.x == box.left)
    && (exists k :: 0 <= k < |placements| && placements[k].y - placements[k].glyph.y == box.top)
    && (exists k :: 0 <= k < |placements| &&
                    placements[k].x - placements[k].glyph.x + placements[k].glyph.width == box.right)
    && (exists k :: 0 <= k < |placements| &&
                    placements[k].y - placements[k].glyph.y + placements[k].glyph.height == box.bottom)
  }

  /** Each side is that of some glyph, or still the value the loop started with. */
  ghost predicate Sides(box: Box, placements: seq<Placement>, n: nat)
    requires n <= |placements|
  {
    && (forall k :: 0 <= k < n ==> Contains(box, GlyphBox(placements[k])))
    && (box.left == INT32_MAX || exists k :: 0 <= k < n && GlyphBox(placements[k]).left == box.left)
    && (box.top == INT32_MAX || exists k :: 0 <= k < n && GlyphBox(placements[k]).top == box.top)
    && (box.right == INT32_MIN || exists k :: 0 <= k < n && GlyphBox(placements[k]).right == box.right)
    && (box.bottom == INT32_MIN || exists k :: 0 <= k < n && GlyphBox(placements[k]).bottom == box.bottom)
  }

  function Joined(box: Box, inner: Box): Box {
    Box(if inner.left < box.left then inner.left else box.left, if inner.top < box.top then inner.top else box.top,
        if inner.right > box.right then inner.right else box.right, if inner.bottom > box.bottom then inner.bottom
           else box.bottom)
  }

  lemma NextSides(box: Box, placements: seq<Placement>, n: nat)
    requires n < |placements| && Sides(box, placements, n)
    ensures Sides(Joined(box, GlyphBox(placements[n])), placements, n + 1)
  {
  }

  predicate InRange(box: Box) { InInt32(box.left) && InInt32(box.top) && InInt32(box.right) && InInt32(box.bottom) }

  /** What becomes of a box: nothing to draw, too much, or a mask. */
  function MaskOf(box: Box): (Status, Option<Box>) {
    var width, height := box.right - box.left, box.bottom - box.top;
    if width <= 0 || height <= 0 then (Success, None)
    else if !InRange(box) || width > INT32_MAX || height > INT32_MAX || width * height > MASK_PIXELS then
              (BadAlloc, None)
    else (Success, Some(box))
  }

  /** The box the loop arrives at: the extremes its sides start from cut off what
      lies beyond them. */
  function Seen(box: Box): Box {
    Box(if box.left < INT32_MAX then box.left else INT32_MAX, if box.top < INT32_MAX then box.top else INT32_MAX,
        if box.right > INT32_MIN then box.right else INT32_MIN, if box.bottom > INT32_MIN then box.bottom
           else INT32_MIN)
  }

  /** The start values change the outcome exactly for a box that is empty, out of
      range and seen as one that is not empty: nothing to draw is then answered
      as too much. A mask is never affected. */
  lemma SeenMattersIff(b: Box)
    ensures MaskOf(Seen(b)) != MaskOf(b) <==>
            && (b.right <= b.left || b.bottom <= b.top)
            && Seen(b).left < Seen(b).right && Seen(b).top < Seen(b).bottom
    ensures MaskOf(Seen(b)) != MaskOf(b) ==>
              !InRange(b) && MaskOf(b) == (Success, None) && MaskOf(Seen(b)) == (BadAlloc, None)
  {
    var width, height := Seen(b).right - Seen(b).left, Seen(b).bottom - Seen(b).top;
    if InRange(b) {
      assert Seen(b) == b;
    }
  }

  lemma OneIsLeast(p: Placement)
    ensures LeastBox(GlyphBox(p), [p])
  {
    assert [p][0] == p;
  }

  /** An empty box just beyond the right end of the coordinates. */
  lemma FarBox(b: Box)
    requires b.left == b.right == INT32_MAX + 1 && b.top == 0 && b.bottom == 1
    ensures MaskOf(b) == (Success, None) && MaskOf(Seen(b)) == (BadAlloc, None)
  {
    assert Seen(b).left == INT32_MAX && Seen(b).right == INT32_MAX + 1;
    assert !InRange(Seen(b));
  }

  lemma FarGlyphBox(p: Placement)
    requires p.x == INT32_MAX && p.y == 0 && p.glyph.x == -1 && p.glyph.y == 0
    requires p.glyph.width == 0 && p.glyph.height == 1
    ensures GlyphBox(p).left == GlyphBox(p).right == INT32_MAX + 1 && GlyphBox(p).top == 0 && GlyphBox(p).bottom == 1
  {
  }

  /** A glyph without width to the right of all 32-bit coordinates is such a case. */
  lemma EmptyGlyphFarOut()
    ensures var p := Placement(FAR_GLYPH, INT32_MAX, 0);
            LeastBox(GlyphBox(p), [p]) && MaskOf(GlyphBox(p)) == (Success, None) &&
              MaskOf(Seen(GlyphBox(p))) == (BadAlloc, None)
  {
    hide LeastBox, MaskOf, Seen, Contains, InRange, GlyphBox;
    var p := Placement(FAR_GLYPH, INT32_MAX, 0);
    OneIsLeast(p);
    FarGlyphBox(p);
    FarBox(GlyphBox(p));
  }

  // ---- Runs that reach such a glyph

  /** Many runs of one offset and no glyphs. */
  function Strides(n: nat): seq<Run> { seq(n, _ => Run(Some(map[]), 0x7fff, 0, [])) }

  lemma {:induction false} StridesMove(n: nat)
    requires n <= 65538
    ensures PenX(Moves(Strides(n))) == n * 0x7fff && PenY(Moves(Strides(n))) == 0
    ensures Placements(Moves(Strides(n))) == [] && PenFits(Moves(Strides(n)))
  {
    hide PenX, PenY, Placements, PenFits;
    if n == 0 {
      NoMoves();
    } else {
      StridesMove(n - 1);
      assert Strides(n)[..n - 1] == Strides(n - 1) && Strides(n)[n - 1] == Run(Some(map[]), 0x7fff, 0, []);
      assert RunMoves(Strides(n)[n - 1]) == [Offset(0x7fff, 0)];
      NextMove(Moves(Strides(n - 1)), Offset(0x7fff, 0));
    }
  }

  /** The glyph of EmptyGlyphFarOut. */
  const FAR_GLYPH: Glyph := Glyph(0, 1, -1, 0, 0, 0)

  /** 65538 runs without glyphs and one that places it, the pen in range throughout. */
  lemma RunsReachFarOut()
    ensures var runs := Strides(65538) + [Run(Some(map[0 := FAR_GLYPH]), 1, 0, [0])];
            && SetsExist(runs) && PenFits(Moves(runs))
            && Placements(Moves(runs)) == [Placement(FAR_GLYPH, INT32_MAX, 0)]
  {
    var last := Run(Some(map[0 := FAR_GLYPH]), 1, 0, [0]);
    var before := Moves(Strides(65538));
    StridesMove(65538);
    LastRunMoves();
    NextRun(Strides(65538), last);
    hide PenX, PenY, Placements, PenFits, Moves, RunMoves, Strides;
    NextMove(before, Offset(1, 0));
    NextMove(before + [Offset(1, 0)], Draw(FAR_GLYPH));
    assert before + [Offset(1, 0), Draw(FAR_GLYPH)] == before + [Offset(1, 0)] + [Draw(FAR_GLYPH)];
  }

  lemma LastRunMoves()
    ensures RunMoves(Run(Some(map[0 := FAR_GLYPH]), 1, 0, [0])) == [Offset(1, 0), Draw(FAR_GLYPH)]
  {
    assert [0][..0] == [] && GlyphMoves(map[0 := FAR_GLYPH], [0]) == [Draw(FAR_GLYPH)];
  }

  lemma NextRun(runs: seq<Run>, last: Run)
    ensures Moves(runs + [last]) == Moves(runs) + RunMoves(last)
    ensures SetsExist(runs) && last.glyphs.Some? ==> SetsExist(runs + [last])
  {
    assert (runs + [last])[..|runs|] == runs;
  }

  /** The loop around all glyphs. */
  method SeenBox(placements: seq<Placement>) returns (all: Box)
    requires placements != []
    ensures Sides(all, placements, |placements|)
    ensures forall b :: LeastBox(b, placements) ==> Seen(b) == all
  {
    all := Box(INT32_MAX, INT32_MAX, INT32_MIN, INT32_MIN);
    for n := 0 to |placements|
      invariant Sides(all, placements, n)
      invariant all.left <= INT32_MAX && all.top <= INT32_MAX && INT32_MIN <= all.right && INT32_MIN <= all.bottom
    {
      NextSides(all, placements, n);
      all := Joined(all, GlyphBox(placements[n]));
    }
    hide Joined, GlyphBox, LeastBox, Seen;
    forall b | LeastBox(b, placements) ensures Seen(b) == all {
      LeastIs(b, all, placements);
    }
  }

  /** The mask covers the least box around the glyphs, as the loop sees it; a mask
      that is drawn is always that box itself. */
  method MaskBox(placements: seq<Placement>) returns (status: Status, box: Option<Box>)
    requires placements != []
    ensures forall b :: LeastBox(b, placements) ==> (status, box) == MaskOf(Seen(b))
    ensures box.Some? ==> LeastBox(box.value, placements) && InRange(box.value)
  {
    hide LeastBox, Seen, Sides;
    var all := SeenBox(placements);
    var width, height := all.right - all.left, all.bottom - all.top;
    if width <= 0 || height <= 0 {
      return Success, None;
    }
    if all.left < INT32_MIN || all.top < INT32_MIN || all.right > INT32_MAX || all.bottom > INT32_MAX
       || width > INT32_MAX || height > INT32_MAX || width * height > MASK_PIXELS {
      return BadAlloc, None;
    }
    SidesAreReal(all, placements);
    return Success, Some(all);
  }

  lemma LeastIs(b: Box, all: Box, placements: seq<Placement>)
    requires placements != [] && LeastBox(b, placements) && Sides(all, placements, |placements|)
    requires all.left <= INT32_MAX && all.top <= INT32_MAX && INT32_MIN <= all.right && INT32_MIN <= all.bottom
    ensures Seen(b) == all
  {
    var first := GlyphBox(placements[0]);
    assert Contains(b, first) && Contains(all, first);
  }

  lemma SidesAreReal(box: Box, placements: seq<Placement>)
    requires placements != [] && Sides(box, placements, |placements|)
    requires INT32_MIN <= box.left < box.right <= INT32_MAX && INT32_MIN <= box.top < box.bottom <= INT32_MAX
    ensures LeastBox(box, placements)
  {
    var first := GlyphBox(placements[0]);
    assert Contains(box, first);
  }

  /** Place and MaskBox answer those runs as too large, though nothing is to be drawn. */
  method FarOutIsRefused() returns (status: Status)
    ensures status == BadAlloc
    ensures MaskOf(GlyphBox(Placement(FAR_GLYPH, INT32_MAX, 0))) == (Success, None)
  {
    hide Strides, Moves, RunMoves, GlyphMoves, PenFits, PenX, PenY, Placements, SetsExist, LeastBox, GlyphBox, MaskOf,
         Seen;
    RunsReachFarOut();
    EmptyGlyphFarOut();
    var runs := Strides(65538) + [Run(Some(map[0 := FAR_GLYPH]), 1, 0, [0])];
    var placed, placements := Place(runs);
    var box;
    status, box := MaskBox(placements);
  }
}
