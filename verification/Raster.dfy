/** The drawing target and the graphics context shared by the scan converters
    of core_raster.cpp. */
module Raster {
  import opened Options

  const INT32_MIN: int := -0x8000_0000
  const INT32_MAX: int := 0x7fff_ffff

  /** A 32-bit signed coordinate, as stored in a raster point. */
  type Coordinate = x: int | INT32_MIN <= x <= INT32_MAX

  datatype Point = Point(x: Coordinate, y: Coordinate)

  /** One call of the surface's pixel store: where, and with which source. */
  datatype Drawn = Drawn(x: int, y: int, source: nat)

  /** A tile or stipple: a nonempty rectangle of pixels, row by row. */
  datatype PixmapRecord = PixmapRecord(width: nat, height: nat, pixels: seq<nat>)

  type Pixmap = p: PixmapRecord | 0 < p.width && 0 < p.height && |p.pixels| == p.width * p.height
    witness PixmapRecord(1, 1, [0])

  datatype Graphics = Graphics(
    foreground: nat,
    background: nat,
    lineWidth: nat,
    lineStyle: nat,
    fillStyle: nat,
    fillRule: nat,
    tile: Option<Pixmap>,
    stipple: Option<Pixmap>,
    tileXOrigin: int,
    tileYOrigin: int,
    dashOffset: nat,
    dashes: seq<nat>,
    dashCount: nat)

  function Max(a: int, b: int): int { if a < b then b else a }

  function Min(a: int, b: int): int { if a < b then a else b }

  function Abs(a: int): nat { if a < 0 then -a else a }

  /** A surface, seen through the order in which its pixels are stored. */
  class Surface {
    const width: nat
    const height: nat
    var drawn: seq<Drawn>

    constructor (width: nat, height: nat)
      ensures this.width == width && this.height == height && drawn == []
    {
      this.width := width;
      this.height := height;
      drawn := [];
    }

    method DrawPixel(x: int, y: int, source: nat)
      modifies this
      ensures drawn == old(drawn) + [Drawn(x, y, source)]
    {
      drawn := drawn + [Drawn(x, y, source)];
    }
  }

  /** How often the pixel (x, y) occurs in a list of stores. */
  function Stores(calls: seq<Drawn>, x: int, y: int): nat {
    if calls == [] then 0
    else (if calls[0].x == x && calls[0].y == y then 1 else 0) + Stores(calls[1..], x, y)
  }

  lemma {:induction false} StoresConcat(a: seq<Drawn>, b: seq<Drawn>, x: int, y: int)
    ensures Stores(a + b, x, y) == Stores(a, x, y) + Stores(b, x, y)
  {
    if a == [] {
      assert a + b == b;
    } else {
      assert (a + b)[1..] == a[1..] + b;
      StoresConcat(a[1..], b, x, y);
    }
  }
}
