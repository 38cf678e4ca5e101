/** GetImage into a shared segment, shm_protocol.cpp: the size of an image and
    the two loops that fill it. */
module Shm {
  import opened Options
  import opened Arith

  const SIZE_MAX: nat := 0xffff_ffff_ffff_ffff
  const SIZE_MAX_32: nat := 0xffff_ffff

  type Side = n: int | 0 <= n < 0x1_0000

  // ---- Sizes

  function CheckedAdd(left: nat, right: nat, limit: nat): (r: Option<nat>)
    requires left <= limit
    ensures r == if left + right <= limit then Some(left + right) else None
  {
    if right > limit - left then None else Some(left + right)
  }

  /** A multiplication checked by a division gives the product or notices that it
      does not fit. */
  function CheckedMultiply(left: nat, right: nat, limit: nat): (r: Option<nat>)
    ensures r == if left * right <= limit then Some(left * right) else None
  {
    if left != 0 && right > limit / left then
      ProductTooLarge(left, right, limit);
      None
    else
      ProductFits(left, right, limit);
      Some(left * right)
  }

  function BitsPerPixel(depth: nat): nat { if depth == 1 then 1 else if depth <= 8 then 8 else 32 }

  /** Bytes in a row: whole bytes, then whole words. */
  function Stride(width: Side, depth: nat): nat { ((width * BitsPerPixel(depth) + 7) / 8 + 3) / 4 * 4 }

  /** Each step is checked against the widest size. */
  method ZPixmapSize(width: Side, height: Side, depth: nat, limit: nat) returns (size: Option<nat>)
    requires limit >= SIZE_MAX_32
    ensures size == if Stride(width, depth) * height <= limit then Some(Stride(width, depth) * height) else None
  {
    var rowBits := CheckedMultiply(width, BitsPerPixel(depth), limit);
    assert width * BitsPerPixel(depth) <= 65535 * 32;
    var rounded := CheckedAdd(rowBits.value, 7, limit);
    var sum := CheckedAdd(rounded.value / 8, 3, limit);
    size := CheckedMultiply(sum.value / 4 * 4, height, limit);
  }

  /** With 64-bit sizes no image of the protocol overflows. */
  lemma SizesFit(width: Side, height: Side, depth: nat)
    ensures 0 <= Stride(width, depth) * height <= 65535 * 262140 < SIZE_MAX
  {
    var stride := Stride(width, depth);
    assert stride <= 262140;
    hide Stride;
    ProductBound(stride, height, 262140, 65535);
  }

  lemma LargestImageNeeds64Bits()
    ensures Stride(65535, 32) * 65535 > SIZE_MAX_32
  {
    assert Stride(65535, 32) == 262140;
  }

  // ---- Bytes of an image

  /** The rows of the rectangle read, each as wide as the image. */
  type Rows = seq<seq<bv32>>

  /** A pixel's bits in the planes asked for. */
  function Shown(pixel: bv32, planes: bv32): bv32 { pixel & planes }

  /** Byte `index` of a 32-bit pixel as the host stores it. */
  function PixelByte(pixel: bv32, index: nat, little: bool): bv8
    requires index < 4
  {
    Narrow(Field(pixel, if little then index else 3 - index))
  }

  /** Bits 8 * i to 8 * i + 7, and what lies above them. */
  function Field(pixel: bv32, i: nat): bv32 {
    match i
    case 0 => pixel
    case 1 => pixel >> 8
    case 2 => pixel >> 16
    case _ => pixel >> 24
  }

  function Narrow(byte: bv32): bv8 { (byte & 0xff) as bv8 }

  function LowByte(pixel: bv32): bv8 { (pixel & 0xff) as bv8 }

  /** The bit a depth-1 pixel contributes to its byte. */
  function PixelBit(pixel: bv32, column: nat, little: bool): bv8 {
    ((pixel & 1) as bv8) << (if little then column % 8 else 7 - column % 8)
  }

  /** Byte `i` of a depth-1 row once the columns below `upTo` are in. */
  function BitsByte(row: seq<bv32>, planes: bv32, little: bool, i: nat, upTo: nat): bv8
    requires upTo <= |row|
  {
    if upTo <= 8 * i then 0
    else if upTo > 8 * i + 8 then BitsByte(row, planes, little, i, upTo - 1)
    else Both(BitsByte(row, planes, little, i, upTo - 1), PixelBit(Shown(row[upTo - 1], planes), upTo - 1, little))
  }

  function Both(byte: bv8, bit: bv8): bv8 { byte | bit }

  /** Byte `i` of a row once the columns below `upTo` are in: pixels in their
      places and zeros elsewhere. */
  function RowByte(row: seq<bv32>, planes: bv32, depth: nat, little: bool, i: nat, upTo: nat): bv8
    requires upTo <= |row|
  {
    if depth == 1 then BitsByte(row, planes, little, i, upTo)
    else if depth <= 8 then (if i < upTo then LowByte(Shown(row[i], planes)) else 0)
    else if i / 4 < upTo then PixelByte(Shown(row[i / 4], planes), i % 4, little)
    else 0
  }

  type Row = r: seq<bv32> | |r| < 0x1_0000

  function RowSoFar(row: Row, planes: bv32, depth: nat, little: bool, upTo: nat): (bytes: seq<bv8>)
    requires upTo <= |row|
    ensures |bytes| == Stride(|row|, depth)
    ensures forall i :: 0 <= i < |bytes| ==> bytes[i] == RowByte(row, planes, depth, little, i, upTo)
  {
    seq(Stride(|row|, depth), i requires 0 <= i < Stride(|row|, depth) => RowByte(row, planes, depth, little, i, upTo))
  }

  /** The image that GetImage describes: its rows one after the other. */
  function Image(rows: seq<Row>, planes: bv32, depth: nat, little: bool): seq<bv8> {
    if rows == [] then []
    else
      var n := |rows| - 1;
      Image(rows[..n], planes, depth, little) + RowSoFar(rows[n], planes, depth, little, |rows[n]|)
  }

  ghost predicate Shaped(rows: seq<Row>, width: Side) {
    forall y :: 0 <= y < |rows| ==> |rows[y]| == width
  }

  lemma {:induction false} ImageSize(rows: seq<Row>, width: Side, planes: bv32, depth: nat, little: bool)
    requires Shaped(rows, width)
    ensures |Image(rows, planes, depth, little)| == Stride(width, depth) * |rows|
  {
    hide Stride, RowByte, RowSoFar, Shown;
    if rows != [] {
      ImageSize(rows[..|rows| - 1], width, planes, depth, little);
      assert Stride(width, depth) * |rows| == Stride(width, depth) * (|rows| - 1) + Stride(width, depth);
    }
  }

  /** A byte of the image is the byte of its row and column. */
  lemma {:induction false} ImageAt(rows: seq<Row>, width: Side, planes: bv32, depth: nat, little: bool, y: nat, i: nat)
    requires Shaped(rows, width) && y < |rows| && i < Stride(width, depth)
    ensures 0 <= Stride(width, depth) * y + i < |Image(rows, planes, depth, little)|
    ensures Image(rows, planes, depth, little)[Stride(width, depth) * y + i] ==
            RowByte(rows[y], planes, depth, little, i, width)
  {
    var n := |rows| - 1;
    ImageSize(rows[..n], width, planes, depth, little);
    if y < n {
      ImageAt(rows[..n], width, planes, depth, little, y, i);
    } else {
      assert 0 <= Stride(width, depth) * y;
    }
  }

  /** The planes a surface of this depth has, for depths from 24 on. */
  function DepthMask(depth: nat): bv32 { if depth == 32 then 0xffff_ffff else 0x00ff_ffff }

  // ---- Filling the segment

  lemma Splice<T>(before: seq<T>, middle: seq<T>, after: seq<T>, j: nat, x: T)
    requires j < |middle|
    ensures (before + middle + after)[|before| + j := x] == before + middle[j := x] + after
  {
  }

  lemma SpliceFour<T>(before: seq<T>, middle: seq<T>, after: seq<T>, j: nat, four: seq<T>)
    requires |four| == 4 && j + 4 <= |middle|
    ensures var all := before + middle + after;
            all[..|before| + j] + four + all[|before| + j + 4..] ==
              before + (middle[..j] + four + middle[j + 4..]) + after
  {
  }

  function PixelBytes(pixel: bv32, little: bool): (bytes: seq<bv8>)
    ensures |bytes| == 4 && forall i :: 0 <= i < 4 ==> bytes[i] == PixelByte(pixel, i, little)
  {
    [PixelByte(pixel, 0, little), PixelByte(pixel, 1, little), PixelByte(pixel, 2, little), PixelByte(pixel, 3, little)]
  }

  /** How one more pixel extends a row. */
  lemma NextPixel(row: Row, planes: bv32, depth: nat, little: bool, column: nat)
    requires column < |row| && depth > 8
    ensures Stride(|row|, depth) == 4 * |row|
    ensures RowSoFar(row, planes, depth, little, column + 1) ==
            RowSoFar(row, planes, depth, little, column)[..4 * column] + PixelBytes(Shown(row[column], planes), little)
            + RowSoFar(row, planes, depth, little, column)[4 * column + 4..]
  {
    WidePixels(|row|, depth);
    hide PixelByte, Stride, RowSoFar, Shown, PixelBytes;
    var line := RowSoFar(row, planes, depth, little, column);
    var next := line[..4 * column] + PixelBytes(Shown(row[column], planes), little) + line[4 * column + 4..];
    forall i | 0 <= i < |line| ensures next[i] == RowByte(row, planes, depth, little, i, column + 1) {
      if 4 * column <= i < 4 * column + 4 {
        assert i / 4 == column && i % 4 == i - 4 * column;
      } else {
        assert i / 4 < column <==> i < 4 * column;
      }
    }
  }

  lemma NextByte(row: Row, planes: bv32, depth: nat, little: bool, column: nat)
    requires column < |row| && 1 < depth <= 8
    ensures column < Stride(|row|, depth)
    ensures RowSoFar(row, planes, depth, little, column + 1) ==
            RowSoFar(row, planes, depth, little, column)[column := LowByte(Shown(row[column], planes))]
  {
    hide LowByte, Shown;
  }

  lemma NextBit(row: Row, planes: bv32, little: bool, column: nat)
    requires column < |row|
    ensures column / 8 < Stride(|row|, 1)
    ensures var line := RowSoFar(row, planes, 1, little, column);
            RowSoFar(row, planes, 1, little, column + 1) ==
              line[column / 8 := Both(line[column / 8], PixelBit(Shown(row[column], planes), column, little))]
  {
    hide PixelBit, Both, Shown;
    var line := RowSoFar(row, planes, 1, little, column);
    var next := line[column / 8 := Both(line[column / 8], PixelBit(Shown(row[column], planes), column, little))];
    forall i | 0 <= i < Stride(|row|, 1) ensures next[i] == BitsByte(row, planes, little, i, column + 1) {
      if i > column / 8 {
        assert column + 1 <= 8 * i;
      } else if i < column / 8 {
        assert column + 1 > 8 * i + 8;
      }
    }
  }

  class Segment {
    var memory: seq<bv8>

    constructor (memory: seq<bv8>)
      ensures this.memory == memory
    {
      this.memory := memory;
    }

    /** Stores a pixel byte by byte in the host's order. */
    method PutPixel(at: nat, pixel: bv32, little: bool)
      requires at + 4 <= |memory|
      modifies this
      ensures memory == old(memory)[..at] + PixelBytes(pixel, little) + old(memory)[at + 4..]
    {
      hide PixelByte;
      for index := 0 to 4
        invariant memory == old(memory)[..at] + PixelBytes(pixel, little)[..index] + old(memory)[at + index..]
      {
        memory := memory[at + index := PixelByte(pixel, index, little)];
      }
    }

    /** Copies whole 32-bit pixels of one row. */
    method CopyRow(at: nat, row: Row, mask: bv32, depth: nat)
      requires depth > 8 && at + 4 * |row| <= |memory|
      modifies this
      ensures memory == old(memory)[..at] + RowSoFar(row, mask, depth, true, |row|) + old(memory)[at + 4 * |row|..]
    {
      hide RowByte, Shown, PixelByte, RowSoFar, Stride, PixelBytes;
      WidePixels(|row|, depth);
      for column := 0 to |row|
        invariant |memory| == |old(memory)|
        invariant memory == old(memory)[..at] + RowSoFar(row, mask, depth, true, column)[..4 * column] +
                  old(memory)[at + 4 * column..]
      {
        NextPixel(row, mask, depth, true, column);
        PutPixel(at + 4 * column, Shown(row[column], mask), true);
      }
    }

    /** Encodes one pixel of a row that holds the columns before it. */
    method EncodePixel(ghost before: seq<bv8>, at: nat, row: Row, planes: bv32, depth: nat, little: bool, column: nat,
                       ghost after: seq<bv8>)
      requires column < |row| && depth > 0 && at == |before|
      requires memory == before + RowSoFar(row, planes, depth, little, column) + after
      modifies this
      ensures memory == before + RowSoFar(row, planes, depth, little, column + 1) + after
    {
      hide RowByte, Shown, PixelByte, LowByte, PixelBit, Both, RowSoFar, Stride;
      ghost var line := RowSoFar(row, planes, depth, little, column);
      var pixel := Shown(row[column], planes);
      if depth == 1 {
        NextBit(row, planes, little, column);
        Splice(before, line, after, column / 8, Both(line[column / 8], PixelBit(pixel, column, little)));
        memory := memory[at + column / 8 := Both(memory[at + column / 8], PixelBit(pixel, column, little))];
      } else if depth <= 8 {
        NextByte(row, planes, depth, little, column);
        Splice(before, line, after, column, LowByte(pixel));
        memory := memory[at + column := LowByte(pixel)];
      } else {
        EncodeWidePixel(before, at, row, planes, depth, little, column, after);
      }
    }

    method EncodeWidePixel(ghost before: seq<bv8>, at: nat, row: Row, planes: bv32, depth: nat, little: bool,
                           column: nat, ghost after: seq<bv8>)
      requires column < |row| && depth > 8 && at == |before|
      requires memory == before + RowSoFar(row, planes, depth, little, column) + after
      modifies this
      ensures memory == before + RowSoFar(row, planes, depth, little, column + 1) + after
    {
      hide RowByte, Shown, PixelByte, RowSoFar, Stride, PixelBytes;
      WidePixels(|row|, depth);
      var pixel := Shown(row[column], planes);
      NextPixel(row, planes, depth, little, column);
      SpliceFour(before, RowSoFar(row, planes, depth, little, column), after, 4 * column, PixelBytes(pixel, little));
      PutPixel(at + 4 * column, pixel, little);
    }

    /** Encodes one row into zeroed bytes, whatever the depth and the host. */
    method EncodeRow(ghost before: seq<bv8>, at: nat, row: Row, planes: bv32, depth: nat, little: bool,
                     ghost after: seq<bv8>)
      requires depth > 0 && at == |before|
      requires memory == before + seq(Stride(|row|, depth), _ => 0) + after
      modifies this
      ensures memory == before + RowSoFar(row, planes, depth, little, |row|) + after
    {
      NothingSoFar(row, planes, depth, little);
      hide RowByte, Shown, RowSoFar, Stride;
      for column := 0 to |row|
        invariant memory == before + RowSoFar(row, planes, depth, little, column) + after
      {
        EncodePixel(before, at, row, planes, depth, little, column, after);
      }
    }

    /** The loop for 32-bit pixels in little-endian order: every byte of the image
        is written, and none outside it. */
    method CopyRows(offset: nat, rows: seq<Row>, width: Side, mask: bv32, depth: nat)
      requires depth > 8 && Shaped(rows, width) && offset + Stride(width, depth) * |rows| <= |memory|
      modifies this
      ensures memory == old(memory)[..offset] + Image(rows, mask, depth, true) +
              old(memory)[offset + Stride(width, depth) * |rows|..]
    {
      hide RowByte, Shown, RowSoFar, Stride;
      var stride := Stride(width, depth);
      WidePixels(width, depth);
      for y := 0 to |rows|
        invariant 0 <= stride * y <= stride * |rows| && |memory| == |old(memory)|
        invariant |Image(rows[..y], mask, depth, true)| == stride * y
        invariant memory == old(memory)[..offset] + Image(rows[..y], mask, depth, true) +
                  old(memory)[offset + stride * y..]
      {
        NextRow(stride, y, |rows|);
        assert rows[..y + 1][..y] == rows[..y];
        CopyRow(offset + stride * y, rows[y], mask, depth);
      }
      assert rows[..|rows|] == rows;
    }

    /** The loop for every depth and host: zeros first, then pixel by pixel. */
    method EncodeRows(offset: nat, rows: seq<Row>, width: Side, planes: bv32, depth: nat, little: bool)
      requires depth > 0 && Shaped(rows, width) && offset + Stride(width, depth) * |rows| <= |memory|
      modifies this
      ensures memory == old(memory)[..offset] + Image(rows, planes, depth, little) +
              old(memory)[offset + Stride(width, depth) * |rows|..]
    {
      hide RowByte, Shown, RowSoFar, Stride, Image;
      var stride := Stride(width, depth);
      var size := stride * |rows|;
      NextRow(stride, 0, |rows| + 1);
      ghost var before, after := memory[..offset], memory[offset + size..];
      memory := memory[..offset] + seq(size, _ => 0) + memory[offset + size..];
      NoRows(rows, planes, depth, little);
      for y := 0 to |rows|
        invariant 0 <= stride * y <= size
        invariant |Image(rows[..y], planes, depth, little)| == stride * y
        invariant memory == before + Image(rows[..y], planes, depth, little) + seq(size - stride * y, _ => 0) + after
      {
        NextRow(stride, y, |rows|);
        ImageNext(rows, y, planes, depth, little);
        ghost var done := before + Image(rows[..y], planes, depth, little);
        ghost var left := seq(size - stride * (y + 1), _ => 0) + after;
        ZerosSplit(stride, size - stride * (y + 1));
        EncodeRow(done, offset + stride * y, rows[y], planes, depth, little, left);
      }
      assert rows[..|rows|] == rows;
    }
  }

  lemma NoRows(rows: seq<Row>, planes: bv32, depth: nat, little: bool)
    ensures Image(rows[..0], planes, depth, little) == []
  {
  }

  lemma ImageNext(rows: seq<Row>, y: nat, planes: bv32, depth: nat, little: bool)
    requires y < |rows|
    ensures Image(rows[..y + 1], planes, depth, little) ==
            Image(rows[..y], planes, depth, little) + RowSoFar(rows[y], planes, depth, little, |rows[y]|)
  {
    assert rows[..y + 1][..y] == rows[..y];
  }

  lemma ZerosSplit(a: nat, b: nat)
    ensures seq<bv8>(a + b, _ => 0) == seq<bv8>(a, _ => 0) + seq<bv8>(b, _ => 0)
  {
  }

  lemma WidePixels(width: Side, depth: nat)
    requires depth > 8
    ensures Stride(width, depth) == 4 * width
  {
  }

  lemma NothingSoFar(row: Row, planes: bv32, depth: nat, little: bool)
    ensures RowSoFar(row, planes, depth, little, 0) == seq(Stride(|row|, depth), _ => 0)
  {
  }

  // ---- One bit per pixel

  function Place(column: nat, little: bool): nat { if little then column % 8 else 7 - column % 8 }

  predicate HasBit(byte: bv8, place: nat)
    requires place < 8
  {
    byte & (1 << place) != 0
  }

  predicate Odd(pixel: bv32) { pixel & 1 == 1 }

  lemma BothHas(byte: bv8, bit: bv8, place: nat)
    requires place < 8
    ensures HasBit(Both(byte, bit), place) == (HasBit(byte, place) || HasBit(bit, place))
  {
  }

  lemma PixelBitHas(pixel: bv32, column: nat, little: bool, place: nat)
    requires place < 8
    ensures HasBit(PixelBit(pixel, column, little), place) == (Odd(pixel) && place == Place(column, little))
  {
  }

  /** In a depth-1 image each column has a bit of its own, which is the pixel's,
      and the bits no column has are zero. */
  lemma {:induction false} ColumnsHaveTheirBits(row: seq<bv32>, planes: bv32, little: bool, i: nat, upTo: nat,
                                                column: nat)
    requires upTo <= |row| && 8 * i <= column < 8 * i + 8
    ensures HasBit(BitsByte(row, planes, little, i, upTo), Place(column, little)) ==
            (column < upTo && Odd(Shown(row[column], planes)))
  {
    hide HasBit, Both, PixelBit, Odd, Shown;
    if upTo > 8 * i {
      ColumnsHaveTheirBits(row, planes, little, i, upTo - 1, column);
      if upTo <= 8 * i + 8 {
        var pixel := Shown(row[upTo - 1], planes);
        BothHas(BitsByte(row, planes, little, i, upTo - 1), PixelBit(pixel, upTo - 1, little), Place(column, little));
        PixelBitHas(pixel, upTo - 1, little, Place(column, little));
      }
    } else {
      NoBits(Place(column, little));
    }
  }

  lemma NoBits(place: nat)
    requires place < 8
    ensures !HasBit(0, place)
  {
  }

  // ---- The two loops against each other

  predicate SameField(p: bv32, q: bv32, i: nat) { Field(p, i) & 0xff == Field(q, i) & 0xff }

  lemma FieldsTell(p: bv32, q: bv32)
    requires SameField(p, q, 0) && SameField(p, q, 1) && SameField(p, q, 2) && SameField(p, q, 3)
    ensures p == q
  {
    hide SameField;
    LowHalf(p, q);
    HighHalf(p, q);
    Halves(p, q);
  }

  lemma LowHalf(p: bv32, q: bv32)
    requires SameField(p, q, 0) && SameField(p, q, 1)
    ensures p & 0xffff == q & 0xffff
  {
  }

  lemma HighHalf(p: bv32, q: bv32)
    requires SameField(p, q, 2) && SameField(p, q, 3)
    ensures p & 0xffff_0000 == q & 0xffff_0000
  {
  }

  lemma Halves(p: bv32, q: bv32)
    requires p & 0xffff == q & 0xffff && p & 0xffff_0000 == q & 0xffff_0000
    ensures p == q
  {
  }

  lemma ByteTellsField(p: bv32, q: bv32, i: nat)
    requires i < 4 && PixelByte(p, i, true) == PixelByte(q, i, true)
    ensures SameField(p, q, i)
  {
    hide Field;
  }

  /** The four bytes of a pixel determine it. */
  lemma BytesTellPixels(p: bv32, q: bv32)
    requires PixelByte(p, 0, true) == PixelByte(q, 0, true) && PixelByte(p, 1, true) == PixelByte(q, 1, true)
    requires PixelByte(p, 2, true) == PixelByte(q, 2, true) && PixelByte(p, 3, true) == PixelByte(q, 3, true)
    ensures p == q
  {
    hide PixelByte, SameField, Field, Narrow;
    ByteTellsField(p, q, 0);
    ByteTellsField(p, q, 1);
    ByteTellsField(p, q, 2);
    ByteTellsField(p, q, 3);
    FieldsTell(p, q);
  }

  /** Storage that has no bits, among the planes asked for, above its depth. */
  predicate Masked(pixel: bv32, planes: bv32, depth: nat) {
    Shown(pixel, planes) == Shown(pixel, planes & DepthMask(depth))
  }

  /** The masked copy and the generic encoding of an image agree exactly when no
      pixel shows a plane its surface does not have. */
  lemma FastEqualsGenericIff(rows: seq<Row>, width: Side, planes: bv32, depth: nat)
    requires Shaped(rows, width) && depth > 8
    ensures Image(rows, planes & DepthMask(depth), depth, true) == Image(rows, planes, depth, true) <==>
            forall y, x :: 0 <= y < |rows| && 0 <= x < width ==> Masked(rows[y][x], planes, depth)
  {
    var mask := planes & DepthMask(depth);
    if forall y, x :: 0 <= y < |rows| && 0 <= x < width ==> Masked(rows[y][x], planes, depth) {
      MaskedAgrees(rows, width, planes, depth);
    }
    if Image(rows, mask, depth, true) == Image(rows, planes, depth, true) {
      forall y, x | 0 <= y < |rows| && 0 <= x < width ensures Masked(rows[y][x], planes, depth) {
        AgreeingPixel(rows, width, planes, depth, y, x);
      }
    }
  }

  lemma {:induction false} MaskedAgrees(rows: seq<Row>, width: Side, planes: bv32, depth: nat)
    requires Shaped(rows, width) && depth > 8
    requires forall y, x :: 0 <= y < |rows| && 0 <= x < width ==> Masked(rows[y][x], planes, depth)
    ensures Image(rows, planes & DepthMask(depth), depth, true) == Image(rows, planes, depth, true)
  {
    if rows != [] {
      var n := |rows| - 1;
      MaskedAgrees(rows[..n], width, planes, depth);
      hide PixelByte, DepthMask, Stride, Shown;
      assert RowSoFar(rows[n], planes & DepthMask(depth), depth, true, width) ==
             RowSoFar(rows[n], planes, depth, true, width);
    }
  }

  lemma {:induction false} AgreeingPixel(rows: seq<Row>, width: Side, planes: bv32, depth: nat, y: nat, x: nat)
    requires Shaped(rows, width) && depth > 8 && y < |rows| && x < width
    requires Image(rows, planes & DepthMask(depth), depth, true) == Image(rows, planes, depth, true)
    ensures Masked(rows[y][x], planes, depth)
  {
    var mask := planes & DepthMask(depth);
    hide DepthMask, Image, Shown, PixelByte;
    AgreeingBytes(rows, width, mask, planes, depth, y, x, 0);
    AgreeingBytes(rows, width, mask, planes, depth, y, x, 1);
    AgreeingBytes(rows, width, mask, planes, depth, y, x, 2);
    AgreeingBytes(rows, width, mask, planes, depth, y, x, 3);
    BytesTellPixels(Shown(rows[y][x], mask), Shown(rows[y][x], planes));
  }

  lemma AgreeingBytes(rows: seq<Row>, width: Side, mask: bv32, planes: bv32, depth: nat, y: nat, x: nat, i: nat)
    requires Shaped(rows, width) && depth > 8 && y < |rows| && x < width && i < 4
    requires Image(rows, mask, depth, true) == Image(rows, planes, depth, true)
    ensures PixelByte(Shown(rows[y][x], mask), i, true) == PixelByte(Shown(rows[y][x], planes), i, true)
  {
    hide PixelByte, DepthMask, Image, Stride, Shown;
    WidePixels(width, depth);
    ImageAt(rows, width, mask, depth, true, y, 4 * x + i);
    ImageAt(rows, width, planes, depth, true, y, 4 * x + i);
    assert (4 * x + i) / 4 == x && (4 * x + i) % 4 == i;
  }

  /** One stored bit above the depth, and the two loops differ. */
  lemma UnmaskedStorageShows()
    ensures Image([[0xff00_0000]], 0xffff_ffff & DepthMask(24), 24, true) !=
            Image([[0xff00_0000]], 0xffff_ffff, 24, true)
  {
    var rows: seq<Row> := [[0xff00_0000]];
    FastEqualsGenericIff(rows, 1, 0xffff_ffff, 24);
    assert !Masked(rows[0][0], 0xffff_ffff, 24);
  }

  // ---- What the bytes of a row mean

  /** A row's bytes are the fewest whole words that hold its pixels. A depth-1 pixel
      is the bit of its column, a pixel of depth 2 to 8 the byte of its column (its
      value modulo 256), any other the four bytes of its column, whose values add up
      to it. Bits and bytes that no column has are zero. */
  ghost predicate RowShows(bytes: seq<bv8>, row: seq<bv32>, planes: bv32, depth: nat, little: bool) {
    var bits := if depth == 1 then 1 else if depth <= 8 then 8 else 32;
    && |bytes| % 4 == 0 && 8 * |bytes| - 32 < bits * |row| <= 8 * |bytes|
    && (depth == 1 ==> BitsShow(bytes, row, planes, little))
    && (1 < depth <= 8 ==>
          && (forall x :: 0 <= x < |row| ==> bytes[x] as bv32 == (row[x] & planes) % 256)
          && (forall i :: |row| <= i < |bytes| ==> bytes[i] == 0))
    && (depth > 8 ==> forall x :: 0 <= x < |row| ==>
          Value(bytes[4 * x], bytes[4 * x + 1], bytes[4 * x + 2], bytes[4 * x + 3], little) == row[x] & planes)
  }

  ghost predicate BitsShow(bytes: seq<bv8>, row: seq<bv32>, planes: bv32, little: bool)
    requires |row| <= 8 * |bytes|
  {
    forall x: nat :: x < 8 * |bytes| ==>
      (HasBit(bytes[x / 8], Place(x, little)) <==> x < |row| && (row[x] & planes) % 2 == 1)
  }

  /** The number that four bytes spell, least or most significant first. */
  function Value(a: bv8, b: bv8, c: bv8, d: bv8, little: bool): bv32 {
    if little then a as bv32 + (b as bv32) * 0x100 + (c as bv32) * 0x1_0000 + (d as bv32) * 0x100_0000
    else d as bv32 + (c as bv32) * 0x100 + (b as bv32) * 0x1_0000 + (a as bv32) * 0x100_0000
  }

  lemma LowByteValue(pixel: bv32)
    ensures LowByte(pixel) as bv32 == pixel % 256
  {
  }

  lemma OddValue(pixel: bv32)
    ensures Odd(pixel) <==> pixel % 2 == 1
  {
  }

  lemma BytesValue(pixel: bv32, little: bool)
    ensures Value(PixelByte(pixel, 0, little), PixelByte(pixel, 1, little), PixelByte(pixel, 2, little),
                  PixelByte(pixel, 3, little), little) == pixel
  {
  }

  lemma BitsRow(row: Row, planes: bv32, little: bool)
    ensures 8 * Stride(|row|, 1) - 32 < |row| <= 8 * Stride(|row|, 1)
    ensures BitsShow(RowSoFar(row, planes, 1, little, |row|), row, planes, little)
  {
    hide Odd, HasBit, BitsByte;
    var bytes := RowSoFar(row, planes, 1, little, |row|);
    forall x: nat | x < 8 * |bytes|
      ensures HasBit(bytes[x / 8], Place(x, little)) <==> x < |row| && (row[x] & planes) % 2 == 1
    {
      ColumnsHaveTheirBits(row, planes, little, x / 8, |row|, x);
      if x < |row| {
        OddValue(row[x] & planes);
      }
    }
  }

  lemma BytesRow(row: Row, planes: bv32, depth: nat, little: bool)
    requires 1 < depth <= 8
    ensures RowShows(RowSoFar(row, planes, depth, little, |row|), row, planes, depth, little)
  {
    var bytes := RowSoFar(row, planes, depth, little, |row|);
    ByteColumns(|row|, depth);
    hide LowByte, BitsShow, RowByte, Shown, Stride;
    forall i: nat | i < |bytes|
      ensures if i < |row| then bytes[i] as bv32 == (row[i] & planes) % 256 else bytes[i] == 0
    {
      ByteOfRow(row, planes, depth, little, i);
    }
  }

  lemma ByteColumns(width: Side, depth: nat)
    requires 1 < depth <= 8
    ensures Stride(width, depth) % 4 == 0 && 8 * Stride(width, depth) - 32 < 8 * width <= 8 * Stride(width, depth)
  {
  }

  lemma ByteOfRow(row: Row, planes: bv32, depth: nat, little: bool, i: nat)
    requires 1 < depth <= 8
    ensures var byte := RowByte(row, planes, depth, little, i, |row|);
            if i < |row| then byte as bv32 == (row[i] & planes) % 256 else byte == 0
  {
    hide LowByte, BitsByte;
    if i < |row| {
      LowByteValue(row[i] & planes);
    }
  }

  lemma FourOfOne(x: nat)
    ensures 4 * x / 4 == (4 * x + 1) / 4 == (4 * x + 2) / 4 == (4 * x + 3) / 4 == x
    ensures 4 * x % 4 == 0 && (4 * x + 1) % 4 == 1 && (4 * x + 2) % 4 == 2 && (4 * x + 3) % 4 == 3
  {
  }

  lemma WideRow(row: Row, planes: bv32, depth: nat, little: bool)
    requires depth > 8
    ensures RowShows(RowSoFar(row, planes, depth, little, |row|), row, planes, depth, little)
  {
    hide PixelByte, BitsShow, Value, BitsByte, Stride;
    WidePixels(|row|, depth);
    var bytes := RowSoFar(row, planes, depth, little, |row|);
    forall x | 0 <= x < |row|
      ensures Value(bytes[4 * x], bytes[4 * x + 1], bytes[4 * x + 2], bytes[4 * x + 3], little) == row[x] & planes
    {
      FourOfOne(x);
      BytesValue(row[x] & planes, little);
    }
  }

  lemma RowIsShown(row: Row, planes: bv32, depth: nat, little: bool)
    requires depth > 0
    ensures RowShows(RowSoFar(row, planes, depth, little, |row|), row, planes, depth, little)
  {
    if depth == 1 {
      BitsRow(row, planes, little);
    } else if depth <= 8 {
      BytesRow(row, planes, depth, little);
    } else {
      WideRow(row, planes, depth, little);
    }
  }

  /** Row y of an image that starts at `offset`. */
  function RowAt(memory: seq<bv8>, offset: nat, stride: nat, y: nat): seq<bv8> {
    var from := offset + stride * y;
    if 0 <= from <= from + stride <= |memory| then memory[from..from + stride] else []
  }

  /** Every row of an image, wherever in a memory the image is. */
  lemma {:induction false} RowOfImage(before: seq<bv8>, rows: seq<Row>, after: seq<bv8>, width: Side, planes: bv32,
                                      depth: nat, little: bool, y: nat)
    requires Shaped(rows, width) && y < |rows| && depth > 0
    ensures RowShows(RowAt(before + Image(rows, planes, depth, little) + after, |before|, Stride(width, depth), y),
                     rows[y], planes, depth, little)
  {
    hide RowShows, Stride, RowByte, Image;
    var stride := Stride(width, depth);
    var memory, from := before + Image(rows, planes, depth, little) + after, |before| + stride * y;
    ImageSize(rows, width, planes, depth, little);
    NextRow(stride, y, |rows|);
    var line := RowSoFar(rows[y], planes, depth, little, width);
    forall i | 0 <= i < stride ensures memory[from + i] == line[i] {
      ImageAt(rows, width, planes, depth, little, y, i);
    }
    assert memory[from..from + stride] == line;
    RowIsShown(rows[y], planes, depth, little);
  }

  lemma RowsOfImage(before: seq<bv8>, rows: seq<Row>, after: seq<bv8>, width: Side, planes: bv32, depth: nat,
                    little: bool)
    requires Shaped(rows, width) && depth > 0
    ensures forall y: nat :: y < |rows| ==>
              RowShows(RowAt(before + Image(rows, planes, depth, little) + after, |before|, Stride(width, depth), y),
                       rows[y], planes, depth, little)
  {
    hide RowShows, Stride, Image, RowAt;
    forall y: nat | y < |rows|
      ensures RowShows(RowAt(before + Image(rows, planes, depth, little) + after, |before|, Stride(width, depth), y),
                       rows[y], planes, depth, little)
    {
      RowOfImage(before, rows, after, width, planes, depth, little, y);
    }
  }

  // ---- The request

  /** A drawable's pixels, row by row. */
  datatype Readable = Readable(pixels: seq<Row>, width: Side, depth: nat, contiguous: bool)

  datatype Status = Done(size: nat) | BadDrawable | BadValue | BadMatch | BadSegment | BadAccess

  /** The rectangle of pixels asked for. */
  function Rectangle(pixels: seq<Row>, x: nat, y: nat, width: nat, height: nat): (rows: seq<Row>)
    requires y + height <= |pixels| && forall k :: 0 <= k < |pixels| ==> x + width <= |pixels[k]|
    ensures |rows| == height && forall k :: 0 <= k < height ==> rows[k] == pixels[y + k][x..x + width]
  {
    seq(height, k requires 0 <= k < height => pixels[y + k][x..x + width])
  }

  predicate Inside(d: Readable, x: int, y: int, width: Side, height: Side) {
    width != 0 && height != 0 && 0 <= x && 0 <= y && x + width <= d.width && y + height <= |d.pixels|
  }

  /** The planes that the loops let through: the copying one masks to the depth. */
  function Mask(planes: bv32, depth: nat, little: bool, contiguous: bool): bv32 {
    if little && depth >= 24 && contiguous then planes & DepthMask(depth) else planes
  }

  lemma MaskWritten(planes: bv32, depth: nat, little: bool, contiguous: bool)
    ensures Mask(planes, depth, little, contiguous) ==
            if little && depth >= 24 && contiguous then planes & (if depth == 32 then 0xffff_ffff else 0x00ff_ffff)
            else planes
  {
  }

  /** Picks the loop that writes the image. */
  method WriteRows(segment: Segment, offset: nat, rows: seq<Row>, width: Side, planes: bv32, depth: nat, little: bool,
                   contiguous: bool)
    requires depth > 0 && Shaped(rows, width) && offset + Stride(width, depth) * |rows| <= |segment.memory|
    modifies segment
    ensures segment.memory ==
            old(segment.memory)[..offset] + Image(rows, Mask(planes, depth, little, contiguous), depth, little) +
            old(segment.memory)[offset + Stride(width, depth) * |rows|..]
    ensures forall y: nat :: y < |rows| ==>
              RowShows(RowAt(segment.memory, offset, Stride(width, depth), y), rows[y],
                       Mask(planes, depth, little, contiguous), depth, little)
  {
    hide Stride, Image, RowShows, RowAt;
    NextRow(Stride(width, depth), 0, |rows| + 1);
    ghost var before, after := segment.memory[..offset], segment.memory[offset + Stride(width, depth) * |rows|..];
    if little && depth >= 24 && contiguous {
      segment.CopyRows(offset, rows, width, planes & DepthMask(depth), depth);
    } else {
      segment.EncodeRows(offset, rows, width, planes, depth, little);
    }
    hide Mask;
    RowsOfImage(before, rows, after, width, Mask(planes, depth, little, contiguous), depth, little);
  }

  /** GetImage: an error leaves the segment alone; otherwise the segment differs
      exactly by the image at the offset, in whatever loop wrote it, and each of its
      rows shows the pixels of the drawable in the planes asked for (in the copying
      loop without the planes above the depth). */
  method GetImage(drawable: Option<Readable>, format: nat, x: int, y: int, width: Side, height: Side, planes: bv32,
                  segment: Option<Segment>, writable: bool, offset: nat, little: bool) returns (status: Status)
    requires drawable.Some? ==> drawable.value.depth > 0 && Shaped(drawable.value.pixels, drawable.value.width)
    requires offset <= SIZE_MAX_32
    modifies if segment.Some? then {segment.value} else {}
    ensures status.Done? <==>
            && drawable.Some? && format == 2 && Inside(drawable.value, x, y, width, height)
            && segment.Some? && writable
            && offset + Stride(width, drawable.value.depth) * height <= |old(segment.value.memory)|
    ensures !status.Done? && segment.Some? ==> segment.value.memory == old(segment.value.memory)
    ensures status.Done? ==>
              var d := drawable.value;
              var rows := Rectangle(d.pixels, x, y, width, height);
              && status.size == Stride(width, d.depth) * height
              && segment.value.memory ==
                old(segment.value.memory)[..offset] +
                  Image(rows, Mask(planes, d.depth, little, d.contiguous), d.depth, little) +
                  old(segment.value.memory)[offset + status.size..]
    ensures status.Done? ==>
              forall k: nat :: k < height ==>
                RowShows(RowAt(segment.value.memory, offset, Stride(width, drawable.value.depth), k),
                         drawable.value.pixels[y + k][x..x + width],
                         if little && drawable.value.depth >= 24 && drawable.value.contiguous
                         then planes & (if drawable.value.depth == 32 then 0xffff_ffff else 0x00ff_ffff) else planes,
                         drawable.value.depth, little)
  {
    hide Stride, Image, RowShows, RowAt, Mask;
    if drawable.None? {
      return BadDrawable;
    }
    var d := drawable.value;
    if format != 2 {
      return BadValue;
    }
    if width == 0 || height == 0 || x < 0 || y < 0 || x + width > d.width || y + height > |d.pixels| {
      return BadMatch;
    }
    if segment.None? {
      return BadSegment;
    }
    if !writable {
      return BadAccess;
    }
    SizesFit(width, height, d.depth);
    var size := ZPixmapSize(width, height, d.depth, SIZE_MAX);
    var end := if size.Some? then CheckedAdd(offset, size.value, SIZE_MAX) else None;
    if end.None? || end.value > |segment.value.memory| {
      return BadAccess;
    }
    var rows := Rectangle(d.pixels, x, y, width, height);
    WriteRows(segment.value, offset, rows, width, planes, d.depth, little, d.contiguous);
    MaskWritten(planes, d.depth, little, d.contiguous);
    return Done(size.value);
  }
}
