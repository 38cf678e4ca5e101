/** Every glyph of composite_glyphs, one by one. */
module GlyphRunLaws {
  import opened Options
  import opened GlyphRuns

  /** The glyphs a run draws: those of its ids that the set has. */
  function DrawnBy(glyphs: map<nat, Glyph>, ids: seq<nat>): seq<Glyph> {
    if ids == [] then []
    else if ids[0] in glyphs then [glyphs[ids[0]]] + DrawnBy(glyphs, ids[1..])
    else DrawnBy(glyphs, ids[1..])
  }

  function Drawn(run: Run): seq<Glyph> { if run.glyphs.Some? then DrawnBy(run.glyphs.value, run.ids) else [] }

  function SumX(glyphs: seq<Glyph>): int { if glyphs == [] then 0 else glyphs[0].xOffset + SumX(glyphs[1..]) }

  function SumY(glyphs: seq<Glyph>): int { if glyphs == [] then 0 else glyphs[0].yOffset + SumY(glyphs[1..]) }

  function Count(runs: seq<Run>): nat { if runs == [] then 0 else |Drawn(runs[0])| + Count(runs[1..]) }

  /** What whole runs move the pen: their own offsets and those of their glyphs. */
  function RunsX(runs: seq<Run>): int {
    if runs == [] then 0 else runs[0].xOffset + SumX(Drawn(runs[0])) + RunsX(runs[1..])
  }

  function RunsY(runs: seq<Run>): int {
    if runs == [] then 0 else runs[0].yOffset + SumY(Drawn(runs[0])) + RunsY(runs[1..])
  }

  // ---- Some moves behind others

  /** Moves that start with the pen at (x, y) place glyphs and leave the pen. */
  ghost predicate Continues(before: seq<Move>, more: seq<Move>, placed: seq<Placement>, dx: int, dy: int) {
    && PenX(before + more) == PenX(before) + dx && PenY(before + more) == PenY(before) + dy
    && Placements(before + more) == Placements(before) + placed
  }

  lemma Joins(before: seq<Move>, a: seq<Move>, b: seq<Move>, placedA: seq<Placement>, placedB: seq<Placement>,
              dx: int, dy: int, dx2: int, dy2: int)
    requires Continues(before, a, placedA, dx, dy) && Continues(before + a, b, placedB, dx2, dy2)
    ensures Continues(before, a + b, placedA + placedB, dx + dx2, dy + dy2)
  {
    hide PenX, PenY, Placements;
    assert before + (a + b) == (before + a) + b;
  }

  /** Glyph j of some drawn from (x, y) on. */
  function PlacedFrom(glyphs: seq<Glyph>, x: int, y: int): seq<Placement> {
    if glyphs == [] then []
    else [Placement(glyphs[0], x, y)] + PlacedFrom(glyphs[1..], x + glyphs[0].xOffset, y + glyphs[0].yOffset)
  }

  lemma {:induction false} PlacedAt(glyphs: seq<Glyph>, x: int, y: int, j: nat)
    requires j < |glyphs|
    ensures |PlacedFrom(glyphs, x, y)| == |glyphs|
    ensures PlacedFrom(glyphs, x, y)[j] == Placement(glyphs[j], x + SumX(glyphs[..j]), y + SumY(glyphs[..j]))
  {
    var rest := glyphs[1..];
    PlacedSize(glyphs, x, y);
    if j > 0 {
      PlacedAt(rest, x + glyphs[0].xOffset, y + glyphs[0].yOffset, j - 1);
      assert glyphs[..j][1..] == rest[..j - 1];
    }
  }

  lemma {:induction false} PlacedSize(glyphs: seq<Glyph>, x: int, y: int)
    ensures |PlacedFrom(glyphs, x, y)| == |glyphs|
  {
    if glyphs != [] {
      PlacedSize(glyphs[1..], x + glyphs[0].xOffset, y + glyphs[0].yOffset);
    }
  }

  lemma OneGlyph(before: seq<Move>, glyph: Glyph)
    ensures Continues(before, [Draw(glyph)], [Placement(glyph, PenX(before), PenY(before))], glyph.xOffset,
                      glyph.yOffset)
  {
    NextMove(before, Draw(glyph));
  }

  lemma {:induction false} GlyphMovesFirst(glyphs: map<nat, Glyph>, ids: seq<nat>)
    requires ids != []
    ensures GlyphMoves(glyphs, ids) ==
            (if ids[0] in glyphs then [Draw(glyphs[ids[0]])] else []) + GlyphMoves(glyphs, ids[1..])
  {
    var n := |ids| - 1;
    if n > 0 {
      GlyphMovesFirst(glyphs, ids[..n]);
      assert ids[..n][1..] == ids[1..][..n - 1];
    } else {
      assert ids[..0] == [] && ids[1..] == [];
    }
  }

  lemma {:induction false} GlyphsContinue(before: seq<Move>, glyphs: map<nat, Glyph>, ids: seq<nat>)
    ensures var drawn := DrawnBy(glyphs, ids);
            Continues(before, GlyphMoves(glyphs, ids), PlacedFrom(drawn, PenX(before), PenY(before)), SumX(drawn),
                      SumY(drawn))
    decreases |ids|
  {
    hide PenX, PenY, Placements;
    if ids == [] {
      assert before + [] == before && Placements(before) + [] == Placements(before);
    } else {
      GlyphMovesFirst(glyphs, ids);
      if ids[0] in glyphs {
        var g, drawn := glyphs[ids[0]], DrawnBy(glyphs, ids[1..]);
        OneGlyph(before, g);
        GlyphsContinue(before + [Draw(g)], glyphs, ids[1..]);
        Joins(before, [Draw(g)], GlyphMoves(glyphs, ids[1..]), [Placement(g, PenX(before), PenY(before))],
              PlacedFrom(drawn, PenX(before + [Draw(g)]), PenY(before + [Draw(g)])), g.xOffset, g.yOffset,
              SumX(drawn), SumY(drawn));
        assert ([g] + drawn)[1..] == drawn;
      } else {
        GlyphsContinue(before, glyphs, ids[1..]);
        assert [] + GlyphMoves(glyphs, ids[1..]) == GlyphMoves(glyphs, ids[1..]);
      }
    }
  }

  lemma RunContinues(before: seq<Move>, run: Run)
    ensures var x, y := PenX(before) + run.xOffset, PenY(before) + run.yOffset;
            Continues(before, RunMoves(run), PlacedFrom(Drawn(run), x, y), run.xOffset + SumX(Drawn(run)),
                      run.yOffset + SumY(Drawn(run)))
  {
    var offset := Offset(run.xOffset, run.yOffset);
    var middle := before + [offset];
    OnlyMoves(before, run.xOffset, run.yOffset);
    hide PenX, PenY, Placements, GlyphMoves, DrawnBy, PlacedFrom, SumX, SumY, Continues;
    if run.glyphs.Some? {
      var placed := PlacedFrom(Drawn(run), PenX(middle), PenY(middle));
      GlyphsContinue(middle, run.glyphs.value, run.ids);
      Joins(before, [offset], GlyphMoves(run.glyphs.value, run.ids), [], placed, run.xOffset, run.yOffset,
            SumX(Drawn(run)), SumY(Drawn(run)));
      assert [] + placed == placed;
    } else {
      NothingDrawn(PenX(before) + run.xOffset, PenY(before) + run.yOffset);
      assert [offset] + [] == [offset];
    }
  }

  lemma OnlyMoves(before: seq<Move>, dx: Int16, dy: Int16)
    ensures Continues(before, [Offset(dx, dy)], [], dx, dy)
    ensures PenX(before + [Offset(dx, dy)]) == PenX(before) + dx && PenY(before + [Offset(dx, dy)]) == PenY(before) + dy
  {
    NextMove(before, Offset(dx, dy));
    hide PenX, PenY, Placements;
  }

  lemma NothingDrawn(x: int, y: int)
    ensures PlacedFrom([], x, y) == [] && SumX([]) == 0 && SumY([]) == 0
  {
  }

  // ---- Runs

  lemma {:induction false} RunsAdd(runs: seq<Run>, last: Run)
    ensures RunsX(runs + [last]) == RunsX(runs) + last.xOffset + SumX(Drawn(last))
    ensures RunsY(runs + [last]) == RunsY(runs) + last.yOffset + SumY(Drawn(last))
    ensures Count(runs + [last]) == Count(runs) + |Drawn(last)|
  {
    hide Drawn, SumX, SumY;
    if runs == [] {
      assert [last][1..] == [];
      assert runs + [last] == [last];
    } else {
      assert (runs + [last])[1..] == runs[1..] + [last];
      RunsAdd(runs[1..], last);
    }
  }

  /** The last of some runs. */
  lemma LastRun(runs: seq<Run>)
    requires runs != []
    ensures var before, last := runs[..|runs| - 1], runs[|runs| - 1];
            var x, y := PenX(Moves(before)) + last.xOffset, PenY(Moves(before)) + last.yOffset;
            && PenX(Moves(runs)) == x + SumX(Drawn(last)) && PenY(Moves(runs)) == y + SumY(Drawn(last))
            && Placements(Moves(runs)) == Placements(Moves(before)) + PlacedFrom(Drawn(last), x, y)
            && RunsX(runs) == RunsX(before) + last.xOffset + SumX(Drawn(last))
            && RunsY(runs) == RunsY(before) + last.yOffset + SumY(Drawn(last))
            && Count(runs) == Count(before) + |Drawn(last)| == Count(before) + |PlacedFrom(Drawn(last), x, y)|
  {
    hide PenX, PenY, Placements, RunMoves, Drawn, SumX, SumY;
    var n := |runs| - 1;
    RunContinues(Moves(runs[..n]), runs[n]);
    RunsAdd(runs[..n], runs[n]);
    assert runs[..n] + [runs[n]] == runs;
    PlacedSize(Drawn(runs[n]), PenX(Moves(runs[..n])) + runs[n].xOffset, PenY(Moves(runs[..n])) + runs[n].yOffset);
  }

  /** After whole runs the pen has moved by all their offsets and those of their glyphs. */
  lemma {:induction false} AfterRuns(runs: seq<Run>)
    ensures PenX(Moves(runs)) == RunsX(runs) && PenY(Moves(runs)) == RunsY(runs)
    ensures |Placements(Moves(runs))| == Count(runs)
  {
    if runs != [] {
      hide PenX, PenY, Placements, Moves, Drawn, SumX, SumY, RunsX, RunsY, Count, PlacedFrom;
      AfterRuns(runs[..|runs| - 1]);
      LastRun(runs);
    }
  }

  /** Glyph j of run i stands where all earlier runs, the run's own offset and the offsets
      of the glyphs before it in the run lead, across and down. */
  lemma {:induction false} GlyphStandsAt(runs: seq<Run>, i: nat, j: nat)
    requires i < |runs| && j < |Drawn(runs[i])|
    ensures |Placements(Moves(runs))| == Count(runs) && Count(runs[..i]) + j < Count(runs)
    ensures Placements(Moves(runs))[Count(runs[..i]) + j] ==
            Placement(Drawn(runs[i])[j],
                      RunsX(runs[..i]) + runs[i].xOffset + SumX(Drawn(runs[i])[..j]),
                      RunsY(runs[..i]) + runs[i].yOffset + SumY(Drawn(runs[i])[..j]))
    decreases |runs|
  {
    hide PenX, PenY, Placements, Moves, Drawn, SumX, SumY, RunsX, RunsY, Count, PlacedFrom;
    var n := |runs| - 1;
    var before := runs[..n];
    AfterRuns(before);
    LastRun(runs);
    if i == n {
      PlacedAt(Drawn(runs[n]), PenX(Moves(before)) + runs[n].xOffset, PenY(Moves(before)) + runs[n].yOffset, j);
    } else {
      GlyphStandsAt(before, i, j);
      assert before[..i] == runs[..i];
    }
  }
}
