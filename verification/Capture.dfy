/** The screen capture of xminctl.cpp: an image fetched in tiles of rows, and the
    reading of its pixels. */
module Capture {
  import opened Options
  import opened Arith
  import opened Shm

  type Height = n: int | 0 <= n < 0x1_0000

  const TILE_BYTES: nat := 0x8_0000

  // ---- Tiles

  /** Bytes in a row: bits padded to whole scanline units. */
  function RowStride(width: nat, bitsPerPixel: nat, pad: nat): nat
    requires pad > 0
  {
    (width * bitsPerPixel + pad - 1) / pad * (pad / 8)
  }

  function RowsPerTile(stride: nat): nat
    requires stride > 0
  {
    if TILE_BYTES / stride == 0 then 1 else TILE_BYTES / stride
  }

  /** A row is the fewest scanline units that hold its bits, each of pad / 8 bytes; with a
      pad of whole bytes, that is the least multiple of the pad with room for them. */
  lemma StrideIsLeast(width: nat, bitsPerPixel: nat, pad: nat) returns (units: nat)
    requires pad > 0
    ensures RowStride(width, bitsPerPixel, pad) == units * (pad / 8)
    ensures units * pad - pad < width * bitsPerPixel <= units * pad
    ensures pad % 8 == 0 ==> 8 * RowStride(width, bitsPerPixel, pad) == units * pad
  {
    var bits := width * bitsPerPixel;
    ProductBound(width, bitsPerPixel, width, bitsPerPixel);
    units := (bits + pad - 1) / pad;
    assert units * pad + (bits + pad - 1) % pad == bits + pad - 1;
    if pad % 8 == 0 {
      assert 8 * (units * (pad / 8)) == units * (8 * (pad / 8));
    }
  }

  /** A tile is as many rows as fit half a MiB, but at least one. */
  lemma TileIsMost(stride: nat)
    requires stride > 0
    ensures var rows := RowsPerTile(stride);
            rows >= 1 && (rows > 1 ==> rows * stride <= 0x8_0000) && (rows + 1) * stride > 0x8_0000
  {
    var q := 0x8_0000 / stride;
    assert q * stride + 0x8_0000 % stride == 0x8_0000;
    assert (q + 1) * stride == q * stride + stride;
  }

  /** A row number as a 16-bit signed coordinate. */
  function Signed16(y: Height): int { if y < 0x8000 then y else y - 0x1_0000 }

  type Bytes = seq<bv8>

  function Concat(rows: seq<Bytes>): Bytes {
    if rows == [] then [] else Concat(rows[..|rows| - 1]) + rows[|rows| - 1]
  }

  /** A server answers a request for rows with some bytes, or with an error. */
  type ImageServer = (int, nat) -> Option<Bytes>

  /** A server that shows an image sends the rows asked for and what pads the
      reply, or an error when they are not all inside. */
  ghost predicate Shows(server: ImageServer, rows: seq<Bytes>) {
    forall y: int, count: nat :: SendsRows(server(y, count), rows, y, count)
  }

  predicate SendsRows(reply: Option<Bytes>, rows: seq<Bytes>, y: int, count: nat) {
    if 0 <= y && y + count <= |rows| then reply.Some? && Concat(rows[y..y + count]) <= reply.value else reply.None?
  }

  ghost predicate Shaped(rows: seq<Bytes>, stride: nat) { forall y :: 0 <= y < |rows| ==> |rows[y]| == stride }

  lemma {:induction false} ConcatSize(rows: seq<Bytes>, stride: nat)
    requires Shaped(rows, stride)
    ensures |Concat(rows)| == stride * |rows|
  {
    if rows != [] {
      ConcatSize(rows[..|rows| - 1], stride);
      NextRow(stride, |rows| - 1, |rows|);
    }
  }

  lemma {:induction false} ConcatSplit(a: seq<Bytes>, b: seq<Bytes>)
    ensures Concat(a + b) == Concat(a) + Concat(b)
  {
    if b == [] {
      assert a + b == a;
    } else {
      var n := |b| - 1;
      ConcatSplit(a, b[..n]);
      var all := a + b;
      assert all[..|all| - 1] == a + b[..n] && all[|all| - 1] == b[n];
      assert Concat(all) == Concat(a + b[..n]) + b[n];
    }
  }

  datatype Tile = Tile(start: Height, rows: nat)

  /** The tiles follow one another from row 0 up to `end`, none empty. */
  ghost predicate Partition(tiles: seq<Tile>, end: nat) {
    if tiles == [] then end == 0
    else
      var last := tiles[|tiles| - 1];
      last.rows > 0 && last.start + last.rows == end && Partition(tiles[..|tiles| - 1], last.start)
  }

  /** In a partition every row lies in exactly one tile. */
  lemma {:induction false} EachRowOnce(tiles: seq<Tile>, end: nat, y: nat)
    requires Partition(tiles, end)
    ensures y < end <==> exists k :: 0 <= k < |tiles| && Covers(tiles[k], y)
    ensures forall j, k :: 0 <= j < k < |tiles| && Covers(tiles[j], y) ==> !Covers(tiles[k], y)
  {
    if tiles != [] {
      var n := |tiles| - 1;
      EachRowOnce(tiles[..n], tiles[n].start, y);
      if y < tiles[n].start {
        var k :| 0 <= k < n && Covers(tiles[..n][k], y);
        assert Covers(tiles[k], y);
      } else if y < end {
        assert Covers(tiles[n], y);
      }
      forall k | 0 <= k < n && Covers(tiles[k], y) ensures y < tiles[n].start {
        assert Covers(tiles[..n][k], y);
      }
      forall j, k | 0 <= j < k < |tiles| && Covers(tiles[j], y) ensures !Covers(tiles[k], y) {
        assert Covers(tiles[..n][j], y);
        if k < n {
          assert tiles[..n][k] == tiles[k];
        }
      }
    }
  }

  predicate Covers(tile: Tile, y: nat) { tile.start <= y < tile.start + tile.rows }

  /** The first row of the tile that a row belongs to. */
  function TileStart(y: nat, perTile: nat): nat
    requires perTile > 0
  {
    y / perTile * perTile
  }

  /** All tiles start below 2^15, so their rows are asked for as they are. */
  predicate StartsFit(height: Height, perTile: nat)
    requires perTile > 0
  {
    height == 0 || TileStart(height - 1, perTile) < 0x8000
  }

  /** Up to 32768 rows every tile start fits, and beyond that it depends on where
      the last tile starts. */
  lemma LowImagesFit(height: Height, perTile: nat)
    requires perTile > 0
    ensures height <= 0x8000 ==> StartsFit(height, perTile)
    ensures height > 0x8000 && perTile <= height - 0x8000 ==> !StartsFit(height, perTile)
  {
    if height > 0 {
      var start := TileStart(height - 1, perTile);
      assert height - 1 == (height - 1) / perTile * perTile + (height - 1) % perTile;
      assert start <= height - 1 < start + perTile;
    }
  }

  /** The loop's tile boundaries are the multiples of the tile height. */
  lemma StartOfTile(y: nat, perTile: nat, tiles: nat)
    requires perTile > 0 && y == tiles * perTile
    ensures TileStart(y, perTile) == y
    ensures forall z: nat :: y <= z < y + perTile ==> TileStart(z, perTile) == y
  {
    forall z: nat | y <= z < y + perTile ensures TileStart(z, perTile) == y {
      DivisionUnique(z, tiles, perTile, z - y);
    }
  }

  lemma StartsGrow(y: nat, z: nat, perTile: nat)
    requires perTile > 0 && y <= z
    ensures TileStart(y, perTile) <= TileStart(z, perTile)
  {
    var p, q := y / perTile, z / perTile;
    assert y == p * perTile + y % perTile && z == q * perTile + z % perTile;
    assert (p - q) * perTile == p * perTile - q * perTile;
    MultipleIsFar(p - q, perTile);
  }

  /** Copies a block of bytes into a buffer. */
  method CopyInto(buffer: array<bv8>, at: nat, data: Bytes)
    requires at + |data| <= buffer.Length
    modifies buffer
    ensures buffer[..] == old(buffer[..at]) + data + old(buffer[at + |data|..])
  {
    forall k | 0 <= k < |data| {
      buffer[at + k] := data[k];
    }
  }

  /** Rows in the tile that starts at a row. */
  function TileRows(y: nat, perTile: nat, height: nat): nat
    requires y <= height
  {
    if perTile < height - y then perTile else height - y
  }

  /** The rows from `y` on, as the server's answers to the remaining tiles spell
      them: nothing if one of them is an error or too short. */
  function Fetched(server: ImageServer, stride: nat, perTile: nat, y: Height, height: Height): Option<Bytes>
    requires perTile > 0 && y <= height
    decreases height - y
  {
    if y == height then Some([])
    else
      var n := TileRows(y, perTile, height);
      var reply := server(Signed16(y), n);
      if reply.None? || |reply.value| < Offset(stride, n) then None
      else
        var rest := Fetched(server, stride, perTile, y + n, height);
        if rest.None? then None else Some(reply.value[..Offset(stride, n)] + rest.value)
  }

  /** What the server answers to some tiles, each answer cut to its rows, one behind
      the other: nothing if one of them is an error or too short. */
  function Answers(server: ImageServer, stride: nat, tiles: seq<Tile>): Option<Bytes> {
    if tiles == [] then Some([])
    else
      var last := tiles[|tiles| - 1];
      var before := Answers(server, stride, tiles[..|tiles| - 1]);
      var reply := server(Signed16(last.start), last.rows);
      if before.None? || reply.None? || |reply.value| < Offset(stride, last.rows) then None
      else Some(before.value + reply.value[..Offset(stride, last.rows)])
  }

  /** Fetches the image tile by tile into one buffer, whatever the server sends. It
      gives the answers' bytes, one tile behind the other, exactly when every
      tile is answered in full; the tiles it asked for partition the rows. */
  method GetImageTiled(server: ImageServer, width: Height, height: Height, bitsPerPixel: nat, pad: nat)
    returns (pixels: Option<array<bv8>>, ghost tiles: seq<Tile>)
    requires bitsPerPixel < 256 && pad < 256
    ensures pixels.Some? <==>
            && pad > 0 && RowStride(width, bitsPerPixel, pad) > 0
            && Fetched(server, RowStride(width, bitsPerPixel, pad), RowsPerTile(RowStride(width, bitsPerPixel, pad)),
                       0, height).Some?
    ensures pixels.Some? ==>
              && fresh(pixels.value) && Partition(tiles, height)
              && Answers(server, RowStride(width, bitsPerPixel, pad), tiles) == Some(pixels.value[..])
              && Some(pixels.value[..]) ==
                Fetched(server, RowStride(width, bitsPerPixel, pad), RowsPerTile(RowStride(width, bitsPerPixel, pad)),
                        0, height)
  {
    tiles := [];
    if pad == 0 {
      return None, tiles;
    }
    var stride := RowStride(width, bitsPerPixel, pad);
    StrideFits(width, bitsPerPixel, pad, height);
    if stride == 0 || !Addressable(height, stride) {
      return None, tiles;
    }
    var perTile := RowsPerTile(stride);
    hide RowsPerTile, RowStride, Addressable, Offset, Fetched, Partition, Answers, Progress;
    var buffer := new bv8[Offset(stride, height)];
    var fetched;
    fetched, tiles := FetchTiles(server, buffer, stride, perTile, height);
    pixels := if fetched then Some(buffer) else None;
  }

  /** The loop over the tiles. */
  method FetchTiles(server: ImageServer, buffer: array<bv8>, stride: nat, perTile: nat, height: Height)
    returns (ok: bool, ghost tiles: seq<Tile>)
    requires perTile > 0 && buffer.Length == Offset(stride, height)
    modifies buffer
    ensures ok <==> Fetched(server, stride, perTile, 0, height).Some?
    ensures ok ==>
              && Partition(tiles, height) && Answers(server, stride, tiles) == Some(buffer[..])
              && Fetched(server, stride, perTile, 0, height) == Some(buffer[..])
  {
    hide Offset, Fetched, Partition, Answers, Progress, TileRows, Behind;
    tiles := [];
    OffsetsGrow(stride, 0, height);
    StartOfTiles(server, stride, perTile, height);
    var y: nat := 0;
    while y < height
      invariant 0 <= y <= height && Offset(stride, y) <= buffer.Length
      invariant Progress(server, stride, perTile, y, height, buffer[..Offset(stride, y)], tiles)
    {
      var n := TileRows(y, perTile, height);
      NextProgress(server, stride, perTile, y, height, buffer[..Offset(stride, y)], tiles);
      OffsetsAdd(stride, y, n, height);
      var fetched := FetchTile(server, buffer, stride, y, n);
      if !fetched {
        return false, tiles;
      }
      tiles := tiles + [Tile(y, n)];
      y := y + n;
    }
    EndOfTiles(server, stride, perTile, height, buffer[..Offset(stride, y)], tiles);
    assert buffer[..buffer.Length] == buffer[..];
    return true, tiles;
  }

  /** The rows before `y` are done: their bytes are the answers to the tiles so far, and with
      what is still to come they are what all the answers spell. */
  ghost predicate Progress(server: ImageServer, stride: nat, perTile: nat, y: Height, height: Height, done: Bytes,
                           tiles: seq<Tile>)
    requires perTile > 0 && y <= height
  {
    && Fetched(server, stride, perTile, 0, height) == Behind(done, Fetched(server, stride, perTile, y, height))
    && Partition(tiles, y) && Answers(server, stride, tiles) == Some(done)
  }

  lemma StartOfTiles(server: ImageServer, stride: nat, perTile: nat, height: Height)
    requires perTile > 0
    ensures Progress(server, stride, perTile, 0, height, [], [])
  {
    NoTiles(server, stride);
    NothingBehind(Fetched(server, stride, perTile, 0, height));
    hide Fetched, Behind, Partition, Answers;
  }

  lemma NextProgress(server: ImageServer, stride: nat, perTile: nat, y: Height, height: Height, done: Bytes,
                     tiles: seq<Tile>)
    requires perTile > 0 && y < height && Progress(server, stride, perTile, y, height, done, tiles)
    ensures var n := TileRows(y, perTile, height);
            var reply := server(Signed16(y), n);
            && 0 < n <= height - y
            && if reply.None? || |reply.value| < Offset(stride, n)
               then Fetched(server, stride, perTile, 0, height) == None
               else Progress(server, stride, perTile, y + n, height, done + reply.value[..Offset(stride, n)],
                             tiles + [Tile(y, n)])
  {
    hide Fetched, Behind, Partition, Answers, Offset, TileRows;
    FetchedNext(server, stride, perTile, y, height, done);
    OneTileMore(server, stride, tiles, y, TileRows(y, perTile, height));
  }

  lemma EndOfTiles(server: ImageServer, stride: nat, perTile: nat, height: Height, done: Bytes, tiles: seq<Tile>)
    requires perTile > 0 && Progress(server, stride, perTile, height, height, done, tiles)
    ensures Fetched(server, stride, perTile, 0, height) == Some(done)
    ensures Partition(tiles, height) && Answers(server, stride, tiles) == Some(done)
  {
    FetchedEnd(server, stride, perTile, height, done);
    hide Fetched, Behind, Partition, Answers;
  }

  lemma NoTiles(server: ImageServer, stride: nat)
    ensures Partition([], 0) && Answers(server, stride, []) == Some([])
  {
  }

  lemma OneTileMore(server: ImageServer, stride: nat, tiles: seq<Tile>, y: Height, n: nat)
    requires Partition(tiles, y) && 0 < n
    ensures Partition(tiles + [Tile(y, n)], y + n)
    ensures var before, reply := Answers(server, stride, tiles), server(Signed16(y), n);
            Answers(server, stride, tiles + [Tile(y, n)]) ==
            if before.None? || reply.None? || |reply.value| < Offset(stride, n) then None
            else Some(before.value + reply.value[..Offset(stride, n)])
  {
    hide Offset;
    assert (tiles + [Tile(y, n)])[..|tiles|] == tiles;
  }

  /** Bytes that come behind others. */
  function Behind(done: Bytes, rest: Option<Bytes>): Option<Bytes> {
    if rest.None? then None else Some(done + rest.value)
  }

  lemma NothingBehind(rest: Option<Bytes>)
    ensures Behind([], rest) == rest
  {
    assert rest.Some? ==> [] + rest.value == rest.value;
  }

  lemma FetchedEnd(server: ImageServer, stride: nat, perTile: nat, height: Height, done: Bytes)
    requires perTile > 0
    ensures Behind(done, Fetched(server, stride, perTile, height, height)) == Some(done)
  {
    assert done + [] == done;
  }

  /** One tile's answer comes behind what is there, in front of the rest. */
  lemma FetchedNext(server: ImageServer, stride: nat, perTile: nat, y: Height, height: Height, done: Bytes)
    requires perTile > 0 && y < height
    ensures 0 < TileRows(y, perTile, height) <= height - y
    ensures var n := TileRows(y, perTile, height);
            var reply := server(Signed16(y), n);
            Behind(done, Fetched(server, stride, perTile, y, height)) ==
            if reply.None? || |reply.value| < Offset(stride, n) then None
            else Behind(done + reply.value[..Offset(stride, n)], Fetched(server, stride, perTile, y + n, height))
  {
    hide Offset;
    var n := TileRows(y, perTile, height);
    var reply := server(Signed16(y), n);
    var rest := Fetched(server, stride, perTile, y + n, height);
    if reply.Some? && Offset(stride, n) <= |reply.value| && rest.Some? {
      var tile := reply.value[..Offset(stride, n)];
      assert done + (tile + rest.value) == (done + tile) + rest.value;
    }
  }

  /** Where a row starts in the buffer. */
  function Offset(stride: nat, y: nat): nat { stride * y }

  predicate Addressable(height: nat, stride: nat)
    requires stride > 0
  {
    height <= SIZE_MAX / stride
  }

  lemma OffsetsGrow(stride: nat, y: nat, height: nat)
    requires y <= height
    ensures Offset(stride, y) <= Offset(stride, height) && Offset(stride, 0) == 0
  {
    RowsInside(stride, y, 0, height);
  }

  lemma OffsetsAdd(stride: nat, y: nat, n: nat, height: nat)
    requires y + n <= height
    ensures Offset(stride, y) + Offset(stride, n) == Offset(stride, y + n) <= Offset(stride, height)
  {
    RowsInside(stride, y, n, height);
  }

  /** Asks for one tile and stores it behind the rows already there. */
  method FetchTile(server: ImageServer, buffer: array<bv8>, stride: nat, y: Height, n: nat) returns (ok: bool)
    requires Offset(stride, y) + Offset(stride, n) <= buffer.Length
    modifies buffer
    ensures var reply := server(Signed16(y), n);
            && (ok <==> reply.Some? && Offset(stride, n) <= |reply.value|)
            && (ok ==>
                  buffer[..Offset(stride, y) + Offset(stride, n)] ==
                  old(buffer[..Offset(stride, y)]) + reply.value[..Offset(stride, n)])
  {
    hide Offset;
    var reply := server(Signed16(y), n);
    if reply.None? || |reply.value| < Offset(stride, n) {
      return false;
    }
    CopyInto(buffer, Offset(stride, y), reply.value[..Offset(stride, n)]);
    return true;
  }

  // ---- Against one request for the whole image

  predicate OnTile(y: nat, perTile: nat)
    requires perTile > 0
  {
    TileStart(y, perTile) == y
  }

  /** The next tile starts at a multiple of the tile height and ends at the next
      one or at the bottom. */
  lemma NextTile(y: nat, perTile: nat, height: nat)
    requires perTile > 0 && OnTile(y, perTile) && y < height
    ensures var n := TileRows(y, perTile, height);
            && n > 0 && (y + n == height || OnTile(y + n, perTile))
            && TileStart(y + n - 1, perTile) == y && y <= TileStart(height - 1, perTile)
  {
    var tiles := y / perTile;
    StartOfTile(y, perTile, tiles);
    StartsGrow(y, height - 1, perTile);
    DivisionUnique(y + perTile, tiles + 1, perTile, 0);
  }

  lemma RowsInside(stride: nat, y: nat, n: nat, height: nat)
    requires y + n <= height
    ensures 0 <= stride * n && stride * y + stride * n == stride * (y + n) <= stride * height
  {
    assert 0 <= stride * (height - y - n) == stride * height - stride * y - stride * n;
  }

  /** From a server that shows an image, the remaining tiles are its remaining rows,
      or nothing if the last of them starts at a row that a 16-bit coordinate
      cannot name. */
  lemma {:induction false} ShownIsFetched(server: ImageServer, rows: seq<Bytes>, stride: nat, perTile: nat, y: Height)
    requires perTile > 0 && y <= |rows| < 0x1_0000 && Shaped(rows, stride) && Shows(server, rows)
    requires y == |rows| || OnTile(y, perTile)
    ensures Fetched(server, stride, perTile, y, |rows|) ==
            if y == |rows| || StartsFit(|rows|, perTile) then Some(Concat(rows[y..])) else None
    decreases |rows| - y
  {
    if y < |rows| {
      var height := |rows|;
      var n := TileRows(y, perTile, height);
      NextTile(y, perTile, height);
      ShownIsFetched(server, rows, stride, perTile, y + n);
      FetchedNext(server, stride, perTile, y, height, []);
      NothingBehind(Fetched(server, stride, perTile, y, height));
      hide TileStart, Fetched, TileRows, OnTile;
      ShownTile(server, rows, stride, y, n);
      if y < 0x8000 {
        var tile := server(Signed16(y), n).value[..Offset(stride, n)];
        assert tile + Concat(rows[y + n..]) == Concat(rows[y..]);
        assert [] + tile == tile;
      }
    } else {
      assert rows[y..] == [];
    }
  }

  /** Such a server answers a tile in full exactly when its first row can be named. */
  lemma ShownTile(server: ImageServer, rows: seq<Bytes>, stride: nat, y: Height, n: nat)
    requires y + n <= |rows| && Shaped(rows, stride) && Shows(server, rows)
    ensures var reply := server(Signed16(y), n);
            && (reply.Some? <==> y < 0x8000)
            && (reply.Some? ==>
                  && Offset(stride, n) <= |reply.value|
                  && reply.value[..Offset(stride, n)] + Concat(rows[y + n..]) == Concat(rows[y..]))
  {
    var reply, part := server(Signed16(y), n), rows[y..y + n];
    assert SendsRows(reply, rows, Signed16(y), n);
    PartSize(rows, stride, y, n);
    ConcatSplit(part, rows[y + n..]);
    assert part + rows[y + n..] == rows[y..];
    hide Concat, Shows, Offset, Shaped;
    assert reply.Some? ==> reply.value[..|Concat(part)|] == Concat(part);
  }

  lemma PartSize(rows: seq<Bytes>, stride: nat, y: nat, n: nat)
    requires y + n <= |rows| && Shaped(rows, stride)
    ensures |Concat(rows[y..y + n])| == Offset(stride, n)
  {
    ConcatSize(rows[y..y + n], stride);
  }

  /** A server that shows an image yields it whole exactly when every tile starts at
      a row that a 16-bit coordinate can name. */
  lemma TilesAreTheImage(server: ImageServer, rows: seq<Bytes>, stride: nat, perTile: nat)
    requires perTile > 0 && |rows| < 0x1_0000 && Shaped(rows, stride) && Shows(server, rows)
    ensures Fetched(server, stride, perTile, 0, |rows|) == if StartsFit(|rows|, perTile) then Some(Concat(rows))
            else None
  {
    DivisionUnique(0, 0, perTile, 0);
    ShownIsFetched(server, rows, stride, perTile, 0);
    assert rows[0..] == rows;
  }

  /** 40000 rows of 100 pixels of 32 bits: the last tile starts at row 39300. */
  lemma TallImageFails(server: ImageServer, rows: seq<Bytes>)
    requires |rows| == 40000 && Shaped(rows, RowStride(100, 32, 32)) && Shows(server, rows)
    ensures Fetched(server, RowStride(100, 32, 32), RowsPerTile(RowStride(100, 32, 32)), 0, 40000) == None
  {
    assert RowStride(100, 32, 32) == 400 && RowsPerTile(400) == 1310 && TileStart(39999, 1310) == 39300;
    TilesAreTheImage(server, rows, 400, 1310);
  }

  lemma StrideFits(width: Height, bitsPerPixel: nat, pad: nat, height: Height)
    requires 0 < pad < 256 && bitsPerPixel < 256
    ensures RowStride(width, bitsPerPixel, pad) > 0 ==> Addressable(height, RowStride(width, bitsPerPixel, pad))
  {
    var bits := width * bitsPerPixel + pad - 1;
    ProductBound(width, bitsPerPixel, 65535, 255);
    var units, stride := bits / pad, RowStride(width, bitsPerPixel, pad);
    assert units * pad + bits % pad == bits;
    ProductBound(units, pad / 8, units, pad);
    hide RowStride;
    ProductBound(stride, height, 17_000_000, 65535);
    if stride > 0 && height > SIZE_MAX / stride {
      ProductTooLarge(stride, height, SIZE_MAX);
    }
  }
}
