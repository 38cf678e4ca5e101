/** GetImage from a pixmap that lies in the very segment it is read into,
    shm_protocol.cpp: each pixel is read from what the earlier ones have left. */
module SharedImage {
  import opened Arith
  import opened Shm
  import opened Pixels

  type Bytes = seq<bv8>

  /** The pixel stored at a byte position. */
  function PixelAt(memory: Bytes, at: nat, little: bool): bv32
    requires at + 4 <= |memory|
  {
    Spelled(memory[at..at + 4], little)
  }

  // ---- What the loops do

  /** The positions the loops read, row by row. */
  function RowPlaces(first: nat, width: nat): (places: seq<nat>)
    ensures |places| == width && forall k :: 0 <= k < width ==> places[k] == first + 4 * k
  {
    seq(width, k requires 0 <= k < width => first + 4 * k)
  }

  function Places(first: nat, step: nat, width: nat, height: nat): seq<nat> {
    if height == 0 then [] else Places(first, step, width, height - 1) + RowPlaces(first + step * (height - 1), width)
  }

  lemma {:induction false} PlaceCount(first: nat, step: nat, width: nat, height: nat)
    ensures |Places(first, step, width, height)| == Area(width, height)
  {
    if height > 0 {
      PlaceCount(first, step, width, height - 1);
      NextRow(width, height - 1, height);
    }
  }

  /** All positions lie inside a memory. */
  predicate Readable(places: seq<nat>, size: nat) { forall k :: 0 <= k < |places| ==> places[k] + 4 <= size }

  /** The memory after n pixels were read one by one and written behind each other. */
  function AfterCopy(memory: Bytes, offset: nat, places: seq<nat>, mask: bv32, little: bool, n: nat): (after: Bytes)
    requires n <= |places| && Readable(places, |memory|) && offset + 4 * n <= |memory|
    ensures |after| == |memory|
  {
    if n == 0 then memory
    else
      var m := AfterCopy(memory, offset, places, mask, little, n - 1);
      Put(m, offset + 4 * (n - 1), PixelBytes(Shown(PixelAt(m, places[n - 1], little), mask), little))
  }

  /** A memory with some bytes written at a position. */
  function Put(memory: Bytes, at: nat, bytes: Bytes): (after: Bytes)
    requires at + |bytes| <= |memory|
    ensures |after| == |memory|
  {
    memory[..at] + bytes + memory[at + |bytes|..]
  }

  /** Pixels in so many rows. */
  function Area(width: nat, rows: nat): nat { width * rows }

  lemma AreaGrows(width: nat, y: nat, height: nat)
    requires y < height
    ensures Area(width, 0) == 0 && Area(width, y + 1) == Area(width, y) + width <= Area(width, height)
  {
    NextRow(width, y, height);
  }

  /** Reads one pixel and writes it behind the others. */
  method CopyPixel(segment: Segment, ghost start: Bytes, offset: nat, ghost places: seq<nat>, mask: bv32, little: bool,
                   ghost n: nat, from: nat, to: nat)
    requires n < |places| && Readable(places, |start|) && offset + 4 * |places| <= |start|
    requires from == places[n] && to == offset + 4 * n
    requires segment.memory == AfterCopy(start, offset, places, mask, little, n)
    modifies segment
    ensures segment.memory == AfterCopy(start, offset, places, mask, little, n + 1)
  {
    hide PixelAt, PixelBytes;
    segment.PutPixel(to, Shown(PixelAt(segment.memory, from, little), mask), little);
  }

  /** The loops of GetImage over a pixmap in the segment itself: pixels of `step`
      bytes a row from `first` on. On a big-endian host the range written is
      zeroed beforehand. */
  method CopyShared(segment: Segment, first: nat, step: nat, width: nat, height: nat, offset: nat, mask: bv32,
                    little: bool)
    requires Readable(Places(first, step, width, height), |segment.memory|)
    requires offset + 4 * Area(width, height) <= |segment.memory|
    modifies segment
    ensures var places := Places(first, step, width, height);
            |places| == Area(width, height) &&
            segment.memory ==
            AfterCopy(if little then old(segment.memory) else Zeroed(old(segment.memory), offset, 4 * |places|),
                      offset, places, mask, little, |places|)
  {
    ghost var places := Places(first, step, width, height);
    PlaceCount(first, step, width, height);
    hide PixelAt, PixelBytes, Places, Readable, AfterCopy, Area, Zeroed;
    var size := 4 * Area(width, height);
    if !little {
      segment.memory := Zeroed(segment.memory, offset, size);
    }
    ghost var start := segment.memory;
    NothingCopied(start, offset, places, mask, little);
    NoArea(width);
    var to := offset;
    for y := 0 to height
      invariant to == offset + 4 * Area(width, y) && Area(width, y) <= |places|
      invariant segment.memory == AfterCopy(start, offset, places, mask, little, Area(width, y))
    {
      AreaGrows(width, y, height);
      for x := 0 to width
        invariant to == offset + 4 * (Area(width, y) + x)
        invariant segment.memory == AfterCopy(start, offset, places, mask, little, Area(width, y) + x)
      {
        PlaceOf(first, step, width, height, y, x);
        CopyPixel(segment, start, offset, places, mask, little, Area(width, y) + x, first + step * y + 4 * x, to);
        to := to + 4;
      }
    }
  }

  lemma NothingCopied(memory: Bytes, offset: nat, places: seq<nat>, mask: bv32, little: bool)
    requires Readable(places, |memory|) && offset <= |memory|
    ensures AfterCopy(memory, offset, places, mask, little, 0) == memory
  {
  }

  lemma NoArea(width: nat)
    ensures Area(width, 0) == 0
  {
  }

  lemma {:induction false} PlaceOf(first: nat, step: nat, width: nat, height: nat, y: nat, x: nat)
    requires y < height && x < width
    ensures Area(width, y) + x < |Places(first, step, width, height)| == Area(width, height)
    ensures 0 <= step * y && Places(first, step, width, height)[Area(width, y) + x] == first + step * y + 4 * x
  {
    PlaceCount(first, step, width, height);
    PlaceCount(first, step, width, height - 1);
    NextRow(width, y, height);
    NextRow(width, height - 1, height);
    NextRow(step, y, height);
    if y < height - 1 {
      NextRow(width, y, height - 1);
      PlaceOf(first, step, width, height - 1, y, x);
    }
  }

  function Zeroed(memory: Bytes, offset: nat, size: nat): (zeroed: Bytes)
    requires offset + size <= |memory|
    ensures |zeroed| == |memory|
  {
    memory[..offset] + seq(size, _ => 0) + memory[offset + size..]
  }

  // ---- When that is the image

  /** The pixels of some bytes. */
  function PixelsAt(memory: Bytes, places: seq<nat>, little: bool): (pixels: seq<bv32>)
    requires Readable(places, |memory|)
    ensures |pixels| == |places| && forall k :: 0 <= k < |places| ==> pixels[k] == PixelAt(memory, places[k], little)
  {
    seq(|places|, k requires 0 <= k < |places| => PixelAt(memory, places[k], little))
  }

  /** The bytes of some pixels, masked. */
  function Encoded(pixels: seq<bv32>, mask: bv32, little: bool): (bytes: Bytes)
    ensures |bytes| == 4 * |pixels|
  {
    if pixels == [] then []
    else
      var n := |pixels| - 1;
      Encoded(pixels[..n], mask, little) + PixelBytes(Shown(pixels[n], mask), little)
  }

  lemma {:induction false} EncodedConcat(a: seq<bv32>, b: seq<bv32>, mask: bv32, little: bool)
    ensures Encoded(a + b, mask, little) == Encoded(a, mask, little) + Encoded(b, mask, little)
  {
    hide PixelBytes, Shown;
    if b == [] {
      assert a + b == a;
    } else {
      var n := |b| - 1;
      EncodedConcat(a, b[..n], mask, little);
      assert (a + b)[..|a| + n] == a + b[..n];
    }
  }

  lemma {:induction false} EncodedRow(row: Row, mask: bv32, depth: nat, little: bool, n: nat)
    requires depth > 8 && n <= |row|
    ensures Stride(|row|, depth) == 4 * |row|
    ensures RowSoFar(row, mask, depth, little, n)[..4 * n] == Encoded(row[..n], mask, little)
  {
    WidePixels(|row|, depth);
    hide PixelBytes, Shown, RowSoFar, Stride;
    if n > 0 {
      EncodedRow(row, mask, depth, little, n - 1);
      NextPixel(row, mask, depth, little, n - 1);
      EncodedNext(row, mask, little, n);
    }
  }

  function Flat(rows: seq<Row>): seq<bv32> { if rows == [] then [] else Flat(rows[..|rows| - 1]) + rows[|rows| - 1] }

  /** Those bytes are the image of GetImage, for pixels of 32 bits. */
  lemma {:induction false} EncodedIsImage(rows: seq<Row>, mask: bv32, depth: nat, little: bool)
    requires depth > 8
    ensures Encoded(Flat(rows), mask, little) == Image(rows, mask, depth, little)
  {
    hide PixelBytes, Shown, RowSoFar, Stride, Encoded;
    if rows == [] {
      NothingPut([], 0, [], mask, little);
      assert [][..0] == Flat(rows);
    } else {
      var last := rows[|rows| - 1];
      EncodedIsImage(rows[..|rows| - 1], mask, depth, little);
      EncodedConcat(Flat(rows[..|rows| - 1]), last, mask, little);
      EncodedRow(last, mask, depth, little, |last|);
      assert last[..|last|] == last;
    }
  }

  /** No pixel is read from what was written for an earlier one: it lies before the
      image or not yet behind the place being written. */
  predicate ReadsAhead(offset: nat, places: seq<nat>) {
    forall k :: 0 < k < |places| ==> places[k] + 4 <= offset || offset + 4 * k <= places[k]
  }

  /** Then the result is the image of the pixels as they were. */
  lemma {:induction false} AheadIsImage(memory: Bytes, offset: nat, places: seq<nat>, mask: bv32, little: bool, n: nat)
    requires n <= |places| && Readable(places, |memory|) && offset + 4 * n <= |memory| && ReadsAhead(offset, places)
    ensures AfterCopy(memory, offset, places, mask, little, n) ==
            Put(memory, offset, Encoded(PixelsAt(memory, places, little)[..n], mask, little))
  {
    hide PixelBytes, PixelAt, Shown, Put, Encoded, PixelsAt;
    var pixels := PixelsAt(memory, places, little);
    if n > 0 {
      AheadIsImage(memory, offset, places, mask, little, n - 1);
      EncodedNext(pixels, mask, little, n);
      NextPut(memory, offset, Encoded(pixels[..n - 1], mask, little),
              PixelBytes(Shown(pixels[n - 1], mask), little), places[n - 1], little);
    } else {
      NothingPut(memory, offset, pixels, mask, little);
    }
  }

  lemma NothingPut(memory: Bytes, offset: nat, pixels: seq<bv32>, mask: bv32, little: bool)
    requires offset <= |memory|
    ensures Encoded(pixels[..0], mask, little) == [] && Put(memory, offset, []) == memory
  {
  }

  lemma EncodedNext(pixels: seq<bv32>, mask: bv32, little: bool, n: nat)
    requires 0 < n <= |pixels|
    ensures Encoded(pixels[..n], mask, little) ==
            Encoded(pixels[..n - 1], mask, little) + PixelBytes(Shown(pixels[n - 1], mask), little)
  {
    assert pixels[..n][..n - 1] == pixels[..n - 1];
  }

  /** One pixel more behind those done, read from where nothing was written. */
  lemma NextPut(memory: Bytes, offset: nat, done: Bytes, bytes: Bytes, at: nat, little: bool)
    requires |bytes| == 4 && offset + |done| + 4 <= |memory| && at + 4 <= |memory|
    requires done == [] || at + 4 <= offset || offset + |done| <= at
    ensures PixelAt(Put(memory, offset, done), at, little) == PixelAt(memory, at, little)
    ensures Put(Put(memory, offset, done), offset + |done|, bytes) == Put(memory, offset, done + bytes)
  {
    hide Spelled;
    assert Put(memory, offset, done)[at..at + 4] == memory[at..at + 4];
  }

  /** A pixmap outside the range written: the image, on either host. */
  lemma DisjointIsImage(memory: Bytes, offset: nat, places: seq<nat>, mask: bv32, little: bool)
    requires Readable(places, |memory|) && offset + 4 * |places| <= |memory|
    requires forall k :: 0 <= k < |places| ==> places[k] + 4 <= offset || offset + 4 * |places| <= places[k]
    ensures var start := if little then memory else Zeroed(memory, offset, 4 * |places|);
            AfterCopy(start, offset, places, mask, little, |places|) ==
            Put(memory, offset, Encoded(PixelsAt(memory, places, little), mask, little))
  {
    var size := 4 * |places|;
    var start := if little then memory else Zeroed(memory, offset, size);
    AheadIsImage(start, offset, places, mask, little, |places|);
    SamePixels(memory, offset, places, little, size);
    hide Encoded, AfterCopy, PixelsAt, Zeroed;
    var pixels := PixelsAt(memory, places, little);
    assert pixels[..|places|] == pixels;
    PutOver(memory, offset, Encoded(pixels, mask, little));
  }

  lemma SamePixels(memory: Bytes, offset: nat, places: seq<nat>, little: bool, size: nat)
    requires Readable(places, |memory|) && offset + size <= |memory|
    requires forall k :: 0 <= k < |places| ==> places[k] + 4 <= offset || offset + size <= places[k]
    ensures PixelsAt(Zeroed(memory, offset, size), places, little) == PixelsAt(memory, places, little)
  {
    hide Spelled;
    var zeroed := Zeroed(memory, offset, size);
    forall k | 0 <= k < |places| ensures PixelAt(zeroed, places[k], little) == PixelAt(memory, places[k], little) {
      assert zeroed[places[k]..places[k] + 4] == memory[places[k]..places[k] + 4];
    }
  }

  lemma PutOver(memory: Bytes, offset: nat, bytes: Bytes)
    requires offset + |bytes| <= |memory|
    ensures Put(Zeroed(memory, offset, |bytes|), offset, bytes) == Put(memory, offset, bytes)
  {
  }

  /** On a big-endian host a pixmap inside the range written is zeroed before it is
      read: the image is zero whatever the pixmap showed. */
  lemma {:induction false} ZeroedPixmapIsLost(memory: Bytes, offset: nat, places: seq<nat>, mask: bv32, n: nat)
    requires n <= |places| && Readable(places, |memory|) && offset + 4 * |places| <= |memory|
    requires forall k :: 0 <= k < |places| ==> offset <= places[k] && places[k] + 4 <= offset + 4 * |places|
    ensures AfterCopy(Zeroed(memory, offset, 4 * |places|), offset, places, mask, false, n) ==
            Zeroed(memory, offset, 4 * |places|)
  {
    hide PixelBytes, Spelled, Shown, Put, Zeroed;
    if n > 0 {
      ZeroedPixmapIsLost(memory, offset, places, mask, n - 1);
      ZeroPixels(mask, false);
      ZerosInside(memory, offset, 4 * |places|, places[n - 1], offset + 4 * (n - 1));
    }
  }

  /** Zeros read and written inside a zeroed range change nothing. */
  lemma ZerosInside(memory: Bytes, offset: nat, size: nat, from: nat, to: nat)
    requires offset + size <= |memory|
    requires offset <= from && from + 4 <= offset + size && offset <= to && to + 4 <= offset + size
    ensures Zeroed(memory, offset, size)[from..from + 4] == [0, 0, 0, 0]
    ensures Put(Zeroed(memory, offset, size), to, [0, 0, 0, 0]) == Zeroed(memory, offset, size)
  {
  }

  lemma ZeroJoined()
    ensures Joined(0, 0, 0, 0) == 0
  {
  }

  lemma ZeroShown(mask: bv32)
    ensures Shown(0, mask) == 0
  {
  }

  lemma ZeroBytes(little: bool)
    ensures PixelBytes(0, little) == [0, 0, 0, 0]
  {
  }

  /** A pixmap that is copied onto itself is masked in place, and changed exactly
      where it shows a plane that is not asked for. */
  lemma InPlaceIsMasked(memory: Bytes, offset: nat, places: seq<nat>, mask: bv32)
    requires places == RowPlaces(offset, |places|) && offset + 4 * |places| <= |memory|
    ensures Readable(places, |memory|)
    ensures AfterCopy(memory, offset, places, mask, true, |places|) ==
            Put(memory, offset, Encoded(PixelsAt(memory, places, true), mask, true))
  {
    AheadIsImage(memory, offset, places, mask, true, |places|);
    assert PixelsAt(memory, places, true)[..|places|] == PixelsAt(memory, places, true);
  }

  /** A row shifted one pixel up by a copy onto itself: the first pixel spreads over
      the second, where the image shows the second pixel as it was. */
  lemma ShiftedCopySpreads(a: bv32, b: bv32)
    ensures var memory := PixelBytes(a, true) + PixelBytes(b, true) + [0, 0, 0, 0];
            var places := [0, 4];
            && Readable(places, |memory|)
            && AfterCopy(memory, 4, places, 0xffff_ffff, true, 2) ==
              PixelBytes(a, true) + PixelBytes(a, true) + PixelBytes(a, true)
  {
    hide PixelBytes, Spelled, Shown;
    var pa, pb := PixelBytes(a, true), PixelBytes(b, true);
    var memory := pa + pb + [0, 0, 0, 0];
    ReadsWhatWasEncoded(a, true);
    AllPlanes(a);
    var one := AfterCopy(memory, 4, [0, 4], 0xffff_ffff, true, 1);
    assert AfterCopy(memory, 4, [0, 4], 0xffff_ffff, true, 0) == memory;
    assert memory[0..4] == pa;
    assert one == pa + pa + [0, 0, 0, 0];
    assert one[4..8] == pa;
  }

  lemma AllPlanes(a: bv32)
    ensures Shown(a, 0xffff_ffff) == a
  {
  }

  // ---- When exactly it is the image

  const ALL_PLANES: bv32 := 0xffff_ffff

  /** Pixels in the order the loops read them: none before the end of the last. */
  predicate Rising(places: seq<nat>) {
    forall j, k :: 0 <= j < k < |places| ==> places[j] + 4 * (k - j) <= places[k]
  }

  /** What the loops leave is the image of what was there. */
  ghost predicate IsImage(memory: Bytes, offset: nat, places: seq<nat>, little: bool) {
    && Readable(places, |memory|) && offset + 4 * |places| <= |memory|
    && var start := if little then memory else Zeroed(memory, offset, 4 * |places|);
    AfterCopy(start, offset, places, ALL_PLANES, little, |places|) ==
    Put(memory, offset, Encoded(PixelsAt(memory, places, little), ALL_PLANES, little))
  }

  /** On a little-endian host, whatever the memory holds, exactly when no pixel is
      read from what was written before it. */
  lemma {:induction false} LittleIff(size: nat, offset: nat, places: seq<nat>)
    requires Readable(places, size) && offset + 4 * |places| <= size && Rising(places)
    ensures (forall memory: Bytes :: |memory| == size ==> IsImage(memory, offset, places, true)) <==>
            ReadsAhead(offset, places)
  {
    hide AfterCopy, Encoded;
    if ReadsAhead(offset, places) {
      forall memory: Bytes | |memory| == size ensures IsImage(memory, offset, places, true) {
        AheadIsImage(memory, offset, places, ALL_PLANES, true, |places|);
        assert PixelsAt(memory, places, true)[..|places|] == PixelsAt(memory, places, true);
      }
    } else {
      var k := Behind(offset, places);
      var b := if offset <= places[k] then places[k] else offset;
      forall j | 0 <= j < k ensures places[j] + 4 <= b {
        assert places[j] + 4 * (k - j) <= places[k];
      }
      CopiedZeros(size, offset, places, b, k);
      ByteZeroed(size, offset, 4 * k, b);
      StayZero(OneByte(size, b), offset, places, true, k, |places|);
      LostPixel(size, offset, places, true, k, b);
    }
  }

  /** On a big-endian host exactly when the whole pixmap lies outside the range. */
  lemma {:induction false} BigIff(size: nat, offset: nat, places: seq<nat>)
    requires Readable(places, size) && offset + 4 * |places| <= size
    ensures (forall memory: Bytes :: |memory| == size ==> IsImage(memory, offset, places, false)) <==>
            forall k :: 0 <= k < |places| ==> places[k] + 4 <= offset || offset + 4 * |places| <= places[k]
  {
    hide AfterCopy, Encoded;
    if forall k :: 0 <= k < |places| ==> places[k] + 4 <= offset || offset + 4 * |places| <= places[k] {
      forall memory: Bytes | |memory| == size ensures IsImage(memory, offset, places, false) {
        DisjointIsImage(memory, offset, places, ALL_PLANES, false);
      }
    } else {
      var k: nat :| k < |places| && offset < places[k] + 4 && places[k] < offset + 4 * |places|;
      var b := if offset <= places[k] then places[k] else offset;
      ByteZeroed(size, offset, 4 * |places|, b);
      NothingCopied(Zeros(size), offset, places, ALL_PLANES, false);
      StayZero(Zeros(size), offset, places, false, 0, |places|);
      LostPixel(size, offset, places, false, k, b);
    }
  }

  lemma {:induction false} Behind(offset: nat, places: seq<nat>) returns (k: nat)
    requires !ReadsAhead(offset, places)
    ensures 0 < k < |places| && offset < places[k] + 4 && places[k] < offset + 4 * k
  {
    k :| 0 < k < |places| && !(places[k] + 4 <= offset || offset + 4 * k <= places[k]);
  }

  function Zeros(size: nat): Bytes { seq(size, _ => 0) }

  /** A memory of zeros but for one byte. */
  function OneByte(size: nat, b: nat): Bytes { seq(size, k => if k == b then 1 else 0) }

  lemma ByteZeroed(size: nat, offset: nat, count: nat, b: nat)
    requires offset + count <= size && offset <= b < offset + count
    ensures Zeroed(OneByte(size, b), offset, count) == Zeros(size)
  {
  }

  lemma ZeroPixels(mask: bv32, little: bool)
    ensures PixelBytes(Shown(Spelled([0, 0, 0, 0], little), mask), little) == [0, 0, 0, 0]
  {
    FourSpelled(0, 0, 0, 0);
    ZeroJoined();
    ZeroShown(mask);
    ZeroBytes(little);
  }

  /** As long as the one byte is not read, zeros are written over it. */
  lemma {:induction false} CopiedZeros(size: nat, offset: nat, places: seq<nat>, b: nat, n: nat)
    requires Readable(places, size) && offset + 4 * |places| <= size && n <= |places|
    requires forall j :: 0 <= j < n ==> places[j] + 4 <= b
    ensures AfterCopy(OneByte(size, b), offset, places, ALL_PLANES, true, n) == Zeroed(OneByte(size, b), offset, 4 * n)
  {
    hide PixelBytes, Spelled, Shown, Put, Zeroed, OneByte;
    var memory := OneByte(size, b);
    OneByteSize(size, b);
    if n == 0 {
      NothingZeroed(memory, offset);
    } else {
      CopiedZeros(size, offset, places, b, n - 1);
      ZeroPixels(ALL_PLANES, true);
      NextZeroed(size, offset, 4 * (n - 1), b, places[n - 1]);
    }
  }

  lemma OneByteSize(size: nat, b: nat)
    ensures |OneByte(size, b)| == size
  {
  }

  lemma NothingZeroed(memory: Bytes, offset: nat)
    requires offset <= |memory|
    ensures Zeroed(memory, offset, 0) == memory
  {
  }

  lemma NextZeroed(size: nat, offset: nat, count: nat, b: nat, at: nat)
    requires offset + count + 4 <= size && at + 4 <= size && at + 4 <= b
    ensures var m := Zeroed(OneByte(size, b), offset, count);
            && m[at..at + 4] == [0, 0, 0, 0]
            && Put(m, offset + count, [0, 0, 0, 0]) == Zeroed(OneByte(size, b), offset, count + 4)
  {
    var m := Zeroed(OneByte(size, b), offset, count);
    assert m[at] == m[at + 1] == m[at + 2] == m[at + 3] == 0;
    assert m[at..at + 4] == [m[at], m[at + 1], m[at + 2], m[at + 3]];
  }

  /** Once everything is zero, it stays so. */
  lemma {:induction false} StayZero(memory: Bytes, offset: nat, places: seq<nat>, little: bool, k: nat, n: nat)
    requires k <= n <= |places| && Readable(places, |memory|) && offset + 4 * |places| <= |memory|
    requires AfterCopy(memory, offset, places, ALL_PLANES, little, k) == Zeros(|memory|)
    ensures AfterCopy(memory, offset, places, ALL_PLANES, little, n) == Zeros(|memory|)
  {
    hide PixelBytes, Spelled, Shown, Put, Zeros;
    if k < n {
      StayZero(memory, offset, places, little, k, n - 1);
      ZeroPixels(ALL_PLANES, little);
      ZerosStay(|memory|, places[n - 1], offset + 4 * (n - 1));
    }
  }

  lemma ZerosStay(size: nat, from: nat, to: nat)
    requires from + 4 <= size && to + 4 <= size
    ensures |Zeros(size)| == size && Zeros(size)[from..from + 4] == [0, 0, 0, 0]
    ensures Put(Zeros(size), to, [0, 0, 0, 0]) == Zeros(size)
  {
  }

  /** A result of zeros is not the image of a pixmap that shows the byte. */
  lemma LostPixel(size: nat, offset: nat, places: seq<nat>, little: bool, k: nat, b: nat)
    requires Readable(places, size) && offset + 4 * |places| <= size && k < |places|
    requires places[k] <= b < places[k] + 4
    requires var memory := OneByte(size, b);
             |memory| == size &&
             AfterCopy(if little then memory else Zeroed(memory, offset, 4 * |places|), offset, places, ALL_PLANES,
                       little, |places|) == Zeros(size)
    ensures |OneByte(size, b)| == size && !IsImage(OneByte(size, b), offset, places, little)
  {
    hide AfterCopy, Zeroed, Spelled, PixelBytes, Shown;
    var memory := OneByte(size, b);
    var pixels := PixelsAt(memory, places, little);
    var image := Put(memory, offset, Encoded(pixels, ALL_PLANES, little));
    EncodedAt(pixels, ALL_PLANES, little, k, b - places[k]);
    SpelledBytes(memory[places[k]..places[k] + 4], little);
    AllPlanes(pixels[k]);
    assert memory[places[k]..places[k] + 4][b - places[k]] == 1;
    assert image[offset + 4 * k + (b - places[k])] == 1;
    assert Zeros(size)[offset + 4 * k + (b - places[k])] == 0;
  }

  lemma {:induction false} EncodedAt(pixels: seq<bv32>, mask: bv32, little: bool, k: nat, r: nat)
    requires k < |pixels| && r < 4
    ensures Encoded(pixels, mask, little)[4 * k + r] == PixelBytes(Shown(pixels[k], mask), little)[r]
  {
    hide PixelBytes, Shown;
    var n := |pixels| - 1;
    if k < n {
      EncodedAt(pixels[..n], mask, little, k, r);
    }
  }

  /** Four bytes are those of the pixel they spell. */
  lemma SpelledBytes(bytes: Bytes, little: bool)
    requires |bytes| == 4
    ensures PixelBytes(Spelled(bytes, little), little) == bytes
  {
    hide Spelled, PixelByte, Joined;
    if little {
      assert bytes == [bytes[0], bytes[1], bytes[2], bytes[3]];
      FourSpelled(bytes[0], bytes[1], bytes[2], bytes[3]);
      JoinedBytes(bytes[0], bytes[1], bytes[2], bytes[3]);
    } else {
      assert bytes == [bytes[0], bytes[1], bytes[2], bytes[3]];
      FourSpelled(bytes[3], bytes[2], bytes[1], bytes[0]);
      JoinedBytes(bytes[3], bytes[2], bytes[1], bytes[0]);
    }
  }

  lemma JoinedBytes(a: bv8, b: bv8, c: bv8, d: bv8)
    ensures PixelByte(Joined(a, b, c, d), 0, true) == PixelByte(Joined(a, b, c, d), 3, false) == a
    ensures PixelByte(Joined(a, b, c, d), 1, true) == PixelByte(Joined(a, b, c, d), 2, false) == b
    ensures PixelByte(Joined(a, b, c, d), 2, true) == PixelByte(Joined(a, b, c, d), 1, false) == c
    ensures PixelByte(Joined(a, b, c, d), 3, true) == PixelByte(Joined(a, b, c, d), 0, false) == d
  {
  }
}
