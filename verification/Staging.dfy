/** The staging copies that render.cpp draws depth-1 and depth-8 pictures in: a
    surface is packed into words or bytes and written back when the view ends. */
module Staging {
  import opened Arith
  import opened Wire

  datatype HostOrder = LittleHost | BigHost

  // ---- One bit per pixel

  /** A row takes whole 32-bit words. */
  function RowWords(width: nat): nat { (width + 31) / 32 }

  function WordAt(width: nat, x: nat, y: nat): nat { y * RowWords(width) + x / 32 }

  function OneHot(bit: nat): bv32
    requires bit < 32
  {
    (1 as bv32) << bit
  }

  function Mask(order: HostOrder, x: nat): bv32 {
    OneHot(if order == LittleHost then x % 32 else 31 - x % 32)
  }

  predicate Has(word: bv32, mask: bv32) { word & mask != 0 }

  predicate Disjoint(mask: bv32, other: bv32) { mask & other == 0 }

  function With(word: bv32, mask: bv32): bv32 { word | mask }

  /** The words differ at most inside the mask. */
  predicate SameOutside(was: bv32, now: bv32, mask: bv32) { now & !mask == was & !mask }

  predicate Fits(words: seq<bv32>, width: nat, height: nat) { |words| == height * RowWords(width) }

  lemma WordInside(width: nat, height: nat, x: nat, y: nat)
    requires x < width && y < height
    ensures WordAt(width, x, y) < height * RowWords(width)
  {
    RowMajor(y, height, x / 32, RowWords(width));
  }

  /** Whether the staging shows pixel (x, y) set. */
  predicate Lit(words: seq<bv32>, width: nat, order: HostOrder, x: nat, y: nat) {
    WordAt(width, x, y) < |words| && Has(words[WordAt(width, x, y)], Mask(order, x))
  }

  lemma OneHotsDiffer(a: nat, b: nat)
    requires a < 32 && b < 32 && a != b
    ensures Disjoint(OneHot(a), OneHot(b)) && OneHot(a) != 0
  {
  }

  /** Different pixels of a row-padded bitmap have different bits: their words
      differ or their masks are disjoint. */
  lemma BitsAreDistinct(width: nat, order: HostOrder, x: nat, y: nat, x': nat, y': nat)
    requires x < width && x' < width && (x, y) != (x', y')
    ensures WordAt(width, x, y) != WordAt(width, x', y') || Disjoint(Mask(order, x), Mask(order, x'))
  {
    if WordAt(width, x, y) == WordAt(width, x', y') {
      DivisionUnique(WordAt(width, x, y), y, RowWords(width), x / 32);
      DivisionUnique(WordAt(width, x, y), y', RowWords(width), x' / 32);
      assert x % 32 != x' % 32;
      if order == LittleHost {
        OneHotsDiffer(x % 32, x' % 32);
      } else {
        OneHotsDiffer(31 - x % 32, 31 - x' % 32);
      }
    }
  }

  lemma MaskAlgebra(was: bv32, now: bv32, mask: bv32, other: bv32)
    requires mask & other == 0 && now & !mask == was & !mask
    ensures now & other == was & other
  {
  }

  lemma DisjointMasks(was: bv32, now: bv32, mask: bv32, other: bv32)
    requires Disjoint(mask, other) && SameOutside(was, now, mask)
    ensures Has(now, other) == Has(was, other)
  {
    MaskAlgebra(was, now, mask, other);
  }

  /** Any change of a word inside one pixel's mask changes no other pixel. */
  lemma OtherPixelStays(words: seq<bv32>, width: nat, height: nat, order: HostOrder, x: nat, y: nat, now: bv32,
                        x': nat, y': nat)
    requires Fits(words, width, height) && x < width && y < height && WordAt(width, x, y) < |words|
    requires SameOutside(words[WordAt(width, x, y)], now, Mask(order, x))
    requires x' < width && y' < height && (x', y') != (x, y)
    ensures Lit(words[WordAt(width, x, y) := now], width, order, x', y') == Lit(words, width, order, x', y')
  {
    hide WordAt, Mask, Has, Disjoint, SameOutside, Fits;
    BitsAreDistinct(width, order, x, y, x', y');
    if WordAt(width, x, y) == WordAt(width, x', y') {
      DisjointMasks(words[WordAt(width, x, y)], now, Mask(order, x), Mask(order, x'));
    }
  }

  /** The staging with pixel (x, y) set. */
  function WithPixel(words: seq<bv32>, width: nat, order: HostOrder, x: nat, y: nat): (r: seq<bv32>)
    requires WordAt(width, x, y) < |words|
    ensures |r| == |words|
  {
    words[WordAt(width, x, y) := With(words[WordAt(width, x, y)], Mask(order, x))]
  }

  lemma WithPixelSetsOne(words: seq<bv32>, width: nat, height: nat, order: HostOrder, x: nat, y: nat)
    requires Fits(words, width, height) && x < width && y < height && WordAt(width, x, y) < |words|
    ensures forall x', y' :: 0 <= x' < width && 0 <= y' < height ==>
              Lit(WithPixel(words, width, order, x, y), width, order, x', y') ==
                ((x', y') == (x, y) || Lit(words, width, order, x', y'))
  {
    hide Has, With, SameOutside, Mask;
    var was, mask := words[WordAt(width, x, y)], Mask(order, x);
    MaskNotZero(order, x);
    SetBit(was, mask);
    assert Lit(WithPixel(words, width, order, x, y), width, order, x, y);
    hide WordAt, Lit;
    forall x', y' | 0 <= x' < width && 0 <= y' < height && (x', y') != (x, y)
      ensures Lit(WithPixel(words, width, order, x, y), width, order, x', y') == Lit(words, width, order, x', y')
    {
      OtherPixelStays(words, width, height, order, x, y, With(was, mask), x', y');
    }
  }

  /** The layout of a one-bit image: rows of whole 32-bit words, each the fewest that hold
      the width, and in a word the bit of a column counted from the least significant
      end on a little-endian host and from the most significant on a big-endian one. */
  lemma LitIsBit(words: seq<bv32>, width: nat, height: nat, order: HostOrder, x: nat, y: nat) returns (stride: nat)
    requires Fits(words, width, height) && x < width && y < height
    ensures 32 * stride - 32 < width <= 32 * stride && 0 <= y * stride + x / 32 < |words| == height * stride
    ensures Lit(words, width, order, x, y) <==>
            BitOf(words[y * stride + x / 32], if order == LittleHost then x % 32 else 31 - x % 32)
  {
    stride := RowWords(width);
    WordInside(width, height, x, y);
    RowMajor(y, height, x / 32, stride);
    hide RowWords;
    HasIsBit(words[y * stride + x / 32], if order == LittleHost then x % 32 else 31 - x % 32);
  }

  /** Bit number k of a word, by division. */
  predicate BitOf(word: bv32, k: nat)
    requires k < 32
  {
    (word >> k) % 2 == 1
  }

  lemma HasIsBit(word: bv32, k: nat)
    requires k < 32
    ensures Has(word, OneHot(k)) <==> BitOf(word, k)
  {
  }

  /** Pixels come before others in the order the loops visit them. */
  predicate Visited(x: nat, y: nat, atX: nat, atY: nat) { y < atY || (y == atY && x < atX) }

  /** A depth-1 surface and its staging words. */
  class BitmapView {
    const surface: array2<nat>
    const order: HostOrder
    var words: seq<bv32>

    /** Packs the surface: a bit is set exactly for a nonzero pixel. */
    constructor (surface: array2<nat>, order: HostOrder)
      ensures this.surface == surface && this.order == order
      ensures Fits(words, surface.Length1, surface.Length0)
      ensures forall x, y :: 0 <= x < surface.Length1 && 0 <= y < surface.Length0 ==>
                Lit(words, surface.Length1, order, x, y) == (surface[y, x] != 0)
    {
      this.surface := surface;
      this.order := order;
      var width, height := surface.Length1, surface.Length0;
      words := seq(height * RowWords(width), _ => 0);
      new;
      NothingLit(words, width, order);
      hide WordAt, Mask, Lit, WithPixel;
      for y := 0 to height
        invariant this.surface == surface && this.order == order && Fits(words, width, height)
        invariant forall x', y' :: 0 <= x' < width && 0 <= y' < height ==>
                    Lit(words, width, order, x', y') == (Visited(x', y', 0, y) && surface[y', x'] != 0)
      {
        for x := 0 to width
          invariant this.surface == surface && this.order == order && Fits(words, width, height)
          invariant forall x', y' :: 0 <= x' < width && 0 <= y' < height ==>
                      Lit(words, width, order, x', y') == (Visited(x', y', x, y) && surface[y', x'] != 0)
        {
          if surface[y, x] != 0 {
            WordInside(width, height, x, y);
            WithPixelSetsOne(words, width, height, order, x, y);
            words := WithPixel(words, width, order, x, y);
          }
        }
      }
    }

    /** Writes the staging back: every pixel becomes what its bit says. */
    method WriteBack()
      requires Fits(words, surface.Length1, surface.Length0)
      modifies surface
      ensures forall x, y :: 0 <= x < surface.Length1 && 0 <= y < surface.Length0 ==>
                surface[y, x] == if Lit(words, surface.Length1, order, x, y) then 1 else 0
    {
      var width := surface.Length1;
      hide WordAt, Mask;
      for y := 0 to surface.Length0
        invariant forall x', y' :: 0 <= x' < width && 0 <= y' < y ==>
                    surface[y', x'] == if Lit(words, width, order, x', y') then 1 else 0
      {
        for x := 0 to width
          invariant forall x', y' :: 0 <= x' < width && 0 <= y' <= y && Visited(x', y', x, y) ==>
                      surface[y', x'] == if Lit(words, width, order, x', y') then 1 else 0
        {
          WordInside(width, surface.Length0, x, y);
          var value := if Has(words[WordAt(width, x, y)], Mask(order, x)) then 1 else 0;
          surface[y, x] := value;
        }
      }
    }
  }

  lemma NothingLit(words: seq<bv32>, width: nat, order: HostOrder)
    requires forall k :: 0 <= k < |words| ==> words[k] == 0
    ensures forall x, y :: !Lit(words, width, order, x, y)
  {
  }

  lemma SetBit(word: bv32, mask: bv32)
    requires Has(mask, mask)
    ensures SameOutside(word, With(word, mask), mask) && Has(With(word, mask), mask)
  {
  }

  lemma MaskNotZero(order: HostOrder, x: nat)
    ensures Has(Mask(order, x), Mask(order, x))
  {
    var bit := if order == LittleHost then x % 32 else 31 - x % 32;
    OneHotsDiffer(bit, if bit == 0 then 1 else 0);
  }

  /** Staging a bitmap, changing some of its pixels there and writing back changes
      exactly those pixels of the surface; with none changed, nothing is, as
      long as the surface holds masked pixels, and only then. */
  method StageBitmap(surface: array2<nat>, order: HostOrder, change: seq<bv32> -> seq<bv32>)
    returns (staged: seq<bv32>, changed: seq<bv32>)
    requires forall words :: |change(words)| == |words|
    modifies surface
    ensures changed == change(staged)
    ensures forall x, y :: 0 <= x < surface.Length1 && 0 <= y < surface.Length0 ==>
              (Lit(changed, surface.Length1, order, x, y) == Lit(staged, surface.Length1, order, x, y)
               ==> (surface[y, x] == old(surface[y, x]) <==> old(surface[y, x]) <= 1))
    ensures forall x, y :: 0 <= x < surface.Length1 && 0 <= y < surface.Length0 ==>
              (Lit(changed, surface.Length1, order, x, y) != Lit(staged, surface.Length1, order, x, y)
               ==> surface[y, x] == if old(surface[y, x]) == 0 then 1 else 0)
  {
    var view := new BitmapView(surface, order);
    staged := view.words;
    view.words := change(view.words);
    changed := view.words;
    view.WriteBack();
  }

  // ---- One byte per pixel

  /** A row takes whole words of four bytes. */
  function RowBytes(width: nat): nat { (width + 3) / 4 * 4 }

  function ByteAt(width: nat, x: nat, y: nat): nat { y * RowBytes(width) + x }

  lemma ByteInside(width: nat, height: nat, x: nat, y: nat)
    requires x < width && y < height
    ensures ByteAt(width, x, y) < height * RowBytes(width)
  {
    RowMajor(y, height, x, RowBytes(width));
  }

  /** Different pixels have different bytes. */
  lemma BytesAreDistinct(width: nat, x: nat, y: nat, x': nat, y': nat)
    requires x < width && x' < width && (x, y) != (x', y')
    ensures ByteAt(width, x, y) != ByteAt(width, x', y')
  {
    if ByteAt(width, x, y) == ByteAt(width, x', y') {
      DivisionUnique(ByteAt(width, x, y), y, RowBytes(width), x);
      DivisionUnique(ByteAt(width, x, y), y', RowBytes(width), x');
    }
  }

  /** The byte the staging holds for pixel (x, y). */
  function ByteOf(bytes: seq<Byte>, width: nat, x: nat, y: nat): Byte {
    if ByteAt(width, x, y) < |bytes| then bytes[ByteAt(width, x, y)] else 0
  }

  /** The layout of an eight-bit image: rows of the fewest whole words that hold the width. */
  lemma ByteLayout(bytes: seq<Byte>, width: nat, height: nat, x: nat, y: nat) returns (stride: nat)
    requires |bytes| == height * RowBytes(width) && x < width && y < height
    ensures stride % 4 == 0 && stride - 4 < width <= stride && |bytes| == height * stride
    ensures 0 <= y * stride + x < |bytes| && ByteOf(bytes, width, x, y) == bytes[y * stride + x]
  {
    stride := RowBytes(width);
    RowMajor(y, height, x, stride);
  }

  lemma OtherBytesStay(bytes: seq<Byte>, width: nat, height: nat, x: nat, y: nat, now: Byte)
    requires |bytes| == height * RowBytes(width) && x < width && y < height && ByteAt(width, x, y) < |bytes|
    ensures forall x', y' :: 0 <= x' < width && 0 <= y' < height ==>
              ByteOf(bytes[ByteAt(width, x, y) := now], width, x', y') ==
              if (x', y') == (x, y) then now else ByteOf(bytes, width, x', y')
  {
    hide ByteAt;
    forall x', y' | 0 <= x' < width && 0 <= y' < height
      ensures ByteOf(bytes[ByteAt(width, x, y) := now], width, x', y') ==
              if (x', y') == (x, y) then now else ByteOf(bytes, width, x', y')
    {
      if (x', y') != (x, y) {
        BytesAreDistinct(width, x, y, x', y');
      }
    }
  }

  /** A depth-8 surface and its staging bytes. */
  class BytemapView {
    const surface: array2<nat>
    var bytes: seq<Byte>

    /** Packs the surface: each pixel's low byte. */
    constructor (surface: array2<nat>)
      ensures this.surface == surface
      ensures |bytes| == surface.Length0 * RowBytes(surface.Length1)
      ensures forall x, y :: 0 <= x < surface.Length1 && 0 <= y < surface.Length0 ==>
                ByteOf(bytes, surface.Length1, x, y) == surface[y, x] % 256
    {
      this.surface := surface;
      var width, height := surface.Length1, surface.Length0;
      bytes := seq(height * RowBytes(width), _ => 0);
      new;
      hide ByteAt;
      for y := 0 to height
        invariant this.surface == surface && |bytes| == height * RowBytes(width)
        invariant forall x', y' :: 0 <= x' < width && 0 <= y' < height && Visited(x', y', 0, y) ==>
                    ByteOf(bytes, width, x', y') == surface[y', x'] % 256
      {
        for x := 0 to width
          invariant this.surface == surface && |bytes| == height * RowBytes(width)
          invariant forall x', y' :: 0 <= x' < width && 0 <= y' < height && Visited(x', y', x, y) ==>
                      ByteOf(bytes, width, x', y') == surface[y', x'] % 256
        {
          ByteInside(width, height, x, y);
          OtherBytesStay(bytes, width, height, x, y, surface[y, x] % 256);
          bytes := bytes[ByteAt(width, x, y) := surface[y, x] % 256];
        }
      }
    }

    /** Writes the staging back: every pixel becomes its byte. */
    method WriteBack()
      requires |bytes| == surface.Length0 * RowBytes(surface.Length1)
      modifies surface
      ensures forall x, y :: 0 <= x < surface.Length1 && 0 <= y < surface.Length0 ==>
                surface[y, x] == ByteOf(bytes, surface.Length1, x, y)
    {
      var width := surface.Length1;
      hide ByteAt;
      for y := 0 to surface.Length0
        invariant forall x', y' :: 0 <= x' < width && 0 <= y' < y ==> surface[y', x'] == ByteOf(bytes, width, x', y')
      {
        for x := 0 to width
          invariant forall x', y' :: 0 <= x' < width && 0 <= y' <= y && Visited(x', y', x, y) ==>
                      surface[y', x'] == ByteOf(bytes, width, x', y')
        {
          ByteInside(width, surface.Length0, x, y);
          surface[y, x] := bytes[ByteAt(width, x, y)];
        }
      }
    }
  }

  /** As StageBitmap, for bytes: untouched pixels keep their value exactly when it
      fits a byte, and a touched pixel becomes its new byte. */
  method StageBytemap(surface: array2<nat>, change: seq<Byte> -> seq<Byte>)
    returns (staged: seq<Byte>, changed: seq<Byte>)
    requires forall bytes :: |change(bytes)| == |bytes|
    modifies surface
    ensures changed == change(staged)
    ensures forall x, y :: 0 <= x < surface.Length1 && 0 <= y < surface.Length0 ==>
              && surface[y, x] == ByteOf(changed, surface.Length1, x, y)
              && (ByteOf(changed, surface.Length1, x, y) == ByteOf(staged, surface.Length1, x, y)
                  ==> (surface[y, x] == old(surface[y, x]) <==> old(surface[y, x]) < 256))
  {
    var view := new BytemapView(surface);
    staged := view.bytes;
    view.bytes := change(view.bytes);
    changed := view.bytes;
    view.WriteBack();
  }
}
