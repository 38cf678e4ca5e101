/** fill_pixel of core_raster.cpp: solid, tiled and stippled sources. */
module Fill {
  import opened Options
  import opened Arith
  import opened Raster

  /** The remainder of C++, which truncates toward zero. */
  function TruncatedRemainder(value: int, divisor: nat): int
    requires 0 < divisor
  {
    if value >= 0 then value % divisor else -((-value) % divisor)
  }

  function PositiveModulo(value: int, divisor: nat): (r: nat)
    requires 0 < divisor
    ensures r < divisor && r == value % divisor
  {
    var result := TruncatedRemainder(value, divisor);
    NegativeRemainder(value, divisor);
    if result < 0 then result + divisor else result
  }

  lemma NegativeRemainder(value: int, divisor: nat)
    requires 0 < divisor
    ensures value % divisor ==
            if value >= 0 || (-value) % divisor == 0 then TruncatedRemainder(value, divisor)
            else TruncatedRemainder(value, divisor) + divisor
  {
    if value < 0 {
      var q, r := (-value) / divisor, (-value) % divisor;
      assert -value == q * divisor + r;
      if r == 0 {
        DivisionUnique(value, -q, divisor, 0);
      } else {
        assert (-q - 1) * divisor == -(q * divisor) - divisor;
        DivisionUnique(value, -q - 1, divisor, divisor - r);
      }
    }
  }

  function PixmapAt(p: Pixmap, x: int, y: int): nat {
    var column, row := PositiveModulo(x, p.width), PositiveModulo(y, p.height);
    RowMajor(row, p.height, column, p.width);
    p.pixels[row * p.width + column]
  }

  /** The source fill_pixel uses at (x, y), or nothing where a transparent
      stipple leaves the pixel alone. */
  function FillSource(g: Graphics, x: int, y: int): Option<nat> {
    if g.fillStyle == 1 && g.tile.Some? then
      Some(PixmapAt(g.tile.value, x - g.tileXOrigin, y - g.tileYOrigin))
    else if (g.fillStyle == 2 || g.fillStyle == 3) && g.stipple.Some? then
      if PixmapAt(g.stipple.value, x - g.tileXOrigin, y - g.tileYOrigin) != 0 then Some(g.foreground)
      else if g.fillStyle == 2 then None
      else Some(g.background)
    else Some(g.foreground)
  }

  /** A tile or stipple repeats in both directions from its origin, also to
      the left of and above it. */
  lemma PixmapRepeats(p: Pixmap, x: int, y: int, across: int, down: int)
    ensures PixmapAt(p, x + across * p.width, y + down * p.height) == PixmapAt(p, x, y)
  {
    ShiftedRemainder(x, across, p.width);
    ShiftedRemainder(y, down, p.height);
  }

  /** The pixel at a column and row of any copy of a tile or stipple laid out from the
      origin: a tile gives its own pixel there, a stipple the foreground where its
      pixel is set and elsewhere the background (opaque, style 3) or nothing (2); any
      other style, or a missing pixmap, the foreground. */
  lemma PixmapTilesThePlane(g: Graphics, p: Pixmap, column: nat, row: nat, across: int, down: int)
    requires column < p.width && row < p.height
    ensures 0 <= row * p.width + column < |p.pixels|
    ensures var source := FillSource(g, g.tileXOrigin + column + across * p.width,
                                     g.tileYOrigin + row + down * p.height);
            var pixel := p.pixels[row * p.width + column];
            && (g.fillStyle == 1 && g.tile == Some(p) ==> source == Some(pixel))
            && (g.fillStyle == 2 && g.stipple == Some(p) ==>
                  source == if pixel != 0 then Some(g.foreground) else None)
            && (g.fillStyle == 3 && g.stipple == Some(p) ==>
                  source == Some(if pixel != 0 then g.foreground else g.background))
  {
    PixmapRepeats(p, column, row, across, down);
    RowMajor(row, p.height, column, p.width);
    DivisionUnique(column, 0, p.width, column);
    DivisionUnique(row, 0, p.height, row);
  }

  lemma OtherwiseForeground(g: Graphics, x: int, y: int)
    requires g.fillStyle == 0 || g.fillStyle > 3 || (g.fillStyle == 1 && g.tile.None?) ||
             (g.fillStyle in {2, 3} && g.stipple.None?)
    ensures FillSource(g, x, y) == Some(g.foreground)
  {
  }

  lemma ShiftedRemainder(value: int, periods: int, divisor: nat)
    requires 0 < divisor
    ensures (value + periods * divisor) % divisor == value % divisor
  {
    var q, r := value / divisor, value % divisor;
    assert (q + periods) * divisor == q * divisor + periods * divisor;
    DivisionUnique(value + periods * divisor, q + periods, divisor, r);
  }

  method FillPixel(surface: Surface, g: Graphics, x: int, y: int)
    modifies surface
    ensures surface.drawn == old(surface.drawn) +
            match FillSource(g, x, y) { case Some(source) => [Drawn(x, y, source)] case None => [] }
  {
    var source := g.foreground;
    if g.fillStyle == 1 && g.tile.Some? {
      source := PixmapAt(g.tile.value, x - g.tileXOrigin, y - g.tileYOrigin);
    } else if (g.fillStyle == 2 || g.fillStyle == 3) && g.stipple.Some? {
      var bit := PixmapAt(g.stipple.value, x - g.tileXOrigin, y - g.tileYOrigin) != 0;
      if !bit && g.fillStyle == 2 {
        return;
      }
      source := if bit then g.foreground else g.background;
    }
    surface.DrawPixel(x, y, source);
  }
}
