/** Reading a pixel and one of its colour channels, xminctl.cpp. */
module Pixels {
  import opened Arith
  import opened Shm

  // ---- Bytes to pixel

  /** The pixel that some bytes spell, least or most significant first. */
  function Spelled(bytes: seq<bv8>, lsbFirst: bool): bv32
    requires |bytes| <= 4
  {
    if bytes == [] then 0
    else
      var n := |bytes| - 1;
      if lsbFirst then Placed(Spelled(bytes[..n], true), bytes[n], n) else Pushed(Spelled(bytes[..n], false), bytes[n])
  }

  function Placed(pixel: bv32, byte: bv8, index: nat): bv32
    requires index < 4
  {
    var wide := byte as bv32;
    match index
    case 0 => pixel | wide
    case 1 => pixel | (wide << 8)
    case 2 => pixel | (wide << 16)
    case _ => pixel | (wide << 24)
  }

  function Pushed(pixel: bv32, byte: bv8): bv32 { (pixel << 8) | (byte as bv32) }

  method ReadPixel(bytes: seq<bv8>, lsbFirst: bool) returns (pixel: bv32)
    requires |bytes| <= 4
    ensures pixel == Spelled(bytes, lsbFirst)
  {
    pixel := 0;
    for index := 0 to |bytes|
      invariant pixel == Spelled(bytes[..index], lsbFirst)
    {
      assert bytes[..index + 1][..index] == bytes[..index];
      pixel := if lsbFirst then Placed(pixel, bytes[index], index) else Pushed(pixel, bytes[index]);
    }
    assert bytes[..|bytes|] == bytes;
  }

  /** A client reads back the pixel that the server encoded, in either order. */
  lemma ReadsWhatWasEncoded(pixel: bv32, little: bool)
    ensures Spelled(PixelBytes(pixel, little), little) == pixel
  {
    var a, b, c, d := PixelByte(pixel, 0, true), PixelByte(pixel, 1, true), PixelByte(pixel, 2,
                                                                                      true), PixelByte(pixel, 3, true);
    FourSpelled(a, b, c, d);
    Reassembled(pixel);
    if little {
      assert PixelBytes(pixel, true) == [a, b, c, d];
    } else {
      assert PixelBytes(pixel, false) == [d, c, b, a];
    }
  }

  function Joined(a: bv8, b: bv8, c: bv8, d: bv8): bv32 {
    (a as bv32) | ((b as bv32) << 8) | ((c as bv32) << 16) | ((d as bv32) << 24)
  }

  lemma FourSpelled(a: bv8, b: bv8, c: bv8, d: bv8)
    ensures Spelled([a, b, c, d], true) == Joined(a, b, c, d)
    ensures Spelled([d, c, b, a], false) == Joined(a, b, c, d)
  {
    UpSpelled(a, b, c, d);
    DownSpelled(a, b, c, d);
    hide Placed, Pushed, Joined, Spelled;
    FourPlaced(a, b, c, d);
    FourPushed(a, b, c, d);
  }

  lemma UpSpelled(a: bv8, b: bv8, c: bv8, d: bv8)
    ensures Spelled([a, b, c, d], true) == Placed(Placed(Placed(Placed(0, a, 0), b, 1), c, 2), d, 3)
  {
    assert Spelled([], true) == 0;
    hide Placed, Pushed, Spelled;
    assert [] + [a] == [a] && [a] + [b] == [a, b] && [a, b] + [c] == [a, b, c] && [a, b, c] + [d] == [a, b, c, d];
    LastSpelled([], a, true);
    LastSpelled([a], b, true);
    LastSpelled([a, b], c, true);
    LastSpelled([a, b, c], d, true);
  }

  lemma DownSpelled(a: bv8, b: bv8, c: bv8, d: bv8)
    ensures Spelled([d, c, b, a], false) == Pushed(Pushed(Pushed(Pushed(0, d), c), b), a)
  {
    assert Spelled([], false) == 0;
    hide Placed, Pushed, Spelled;
    assert [] + [d] == [d] && [d] + [c] == [d, c] && [d, c] + [b] == [d, c, b] && [d, c, b] + [a] == [d, c, b, a];
    LastSpelled([], d, false);
    LastSpelled([d], c, false);
    LastSpelled([d, c], b, false);
    LastSpelled([d, c, b], a, false);
  }

  lemma LastSpelled(bytes: seq<bv8>, last: bv8, lsbFirst: bool)
    requires |bytes| < 4
    ensures Spelled(bytes + [last], lsbFirst) == if lsbFirst then Placed(Spelled(bytes, true), last, |bytes|)
            else Pushed(Spelled(bytes, false), last)
  {
    hide Placed, Pushed;
    assert (bytes + [last])[..|bytes|] == bytes;
  }

  lemma FourPlaced(a: bv8, b: bv8, c: bv8, d: bv8)
    ensures Placed(Placed(Placed(Placed(0, a, 0), b, 1), c, 2), d, 3) == Joined(a, b, c, d)
  {
  }

  lemma FourPushed(a: bv8, b: bv8, c: bv8, d: bv8)
    ensures Pushed(Pushed(Pushed(Pushed(0, d), c), b), a) == Joined(a, b, c, d)
  {
  }

  lemma Reassembled(pixel: bv32)
    ensures Joined(PixelByte(pixel, 0, true), PixelByte(pixel, 1, true), PixelByte(pixel, 2, true),
                   PixelByte(pixel, 3, true)) == pixel
  {
  }

  // ---- Channels

  type Word = w: int | 0 <= w < 0x1_0000_0000

  /** Bitwise and. */
  function And(a: nat, b: nat): (r: nat)
    ensures r <= b
  {
    if a == 0 || b == 0 then 0 else 2 * And(a / 2, b / 2) + (if a % 2 == 1 && b % 2 == 1 then 1 else 0)
  }

  /** A right shift. */
  function ShiftRight(a: nat, places: nat): (r: nat)
    ensures r <= a
  {
    if places == 0 then a else ShiftRight(a / 2, places - 1)
  }

  /** The place of the lowest bit of a mask. */
  function LowestBit(mask: nat): nat {
    if mask == 0 || mask % 2 == 1 then 0 else 1 + LowestBit(mask / 2)
  }

  /** An intensity of `maximum`, as one of 255, in 32-bit arithmetic. */
  function Scaled(value: nat, maximum: nat): nat
    requires maximum > 0
  {
    (value * 255 + maximum / 2) % 0x1_0000_0000 / maximum % 256
  }

  /** Bit number k. */
  predicate Bit(a: nat, k: nat) {
    if k == 0 then a % 2 == 1 else Bit(a / 2, k - 1)
  }

  /** The bits of the masked value: those the pixel and the mask share. */
  lemma {:induction false} AndBits(a: nat, b: nat, k: nat)
    ensures Bit(And(a, b), k) <==> Bit(a, k) && Bit(b, k)
  {
    if a == 0 {
      NoBits(k);
    } else if b == 0 {
      NoBits(k);
    } else {
      var low := if a % 2 == 1 && b % 2 == 1 then 1 else 0;
      assert And(a, b) == 2 * And(a / 2, b / 2) + low;
      if k > 0 {
        AndBits(a / 2, b / 2, k - 1);
        assert And(a, b) / 2 == And(a / 2, b / 2);
      }
    }
  }

  lemma {:induction false} NoBits(k: nat)
    ensures !Bit(0, k)
  {
    if k > 0 {
      NoBits(k - 1);
    }
  }

  lemma {:induction false} ShiftedBits(a: nat, places: nat, k: nat)
    ensures Bit(ShiftRight(a, places), k) <==> Bit(a, places + k)
  {
    if places > 0 {
      ShiftedBits(a / 2, places - 1, k);
    }
  }

  /** The place found holds a bit of the mask, and no lower one does. */
  lemma {:induction false} LowestBitIs(mask: nat, k: nat)
    requires mask > 0
    ensures Bit(mask, LowestBit(mask)) && (k < LowestBit(mask) ==> !Bit(mask, k))
  {
    if mask % 2 == 0 {
      LowestBitIs(mask / 2, if k == 0 then 0 else k - 1);
    }
  }

  method MaskShift(mask: nat) returns (shift: nat)
    ensures shift == LowestBit(mask)
  {
    var left := mask;
    shift := 0;
    while left != 0 && left % 2 == 0
      invariant shift + LowestBit(left) == LowestBit(mask)
    {
      left := left / 2;
      shift := shift + 1;
    }
  }

  lemma {:induction false} ShiftedMask(mask: nat)
    requires mask > 0
    ensures ShiftRight(mask, LowestBit(mask)) % 2 == 1
  {
    if mask % 2 == 0 {
      ShiftedMask(mask / 2);
    }
  }

  method PixelChannel(pixel: Word, mask: Word) returns (channel: nat)
    ensures channel == Channel(pixel, mask)
  {
    if mask == 0 {
      return 0;
    }
    var shift := MaskShift(mask);
    ShiftedMask(mask);
    var maximum := ShiftRight(mask, shift);
    var value := ShiftRight(And(pixel, mask), shift);
    ShiftTogether(pixel, mask);
    hide Scaled;
    channel := Scaled(value, maximum);
  }

  /** The channel, one mask bit at a time: low bits outside the mask do not count. */
  function Channel(pixel: nat, mask: nat): nat {
    if mask == 0 then 0
    else if mask % 2 == 0 then Channel(pixel / 2, mask / 2)
    else Scaled(And(pixel, mask), mask)
  }

  lemma {:induction false} ShiftTogether(pixel: nat, mask: nat)
    requires mask > 0
    ensures var shift := LowestBit(mask);
            ShiftRight(mask, shift) > 0 &&
              Channel(pixel, mask) == Scaled(ShiftRight(And(pixel, mask), shift), ShiftRight(mask, shift))
  {
    if mask % 2 == 0 {
      ShiftTogether(pixel / 2, mask / 2);
      assert pixel == 0 || And(pixel, mask) == 2 * And(pixel / 2, mask / 2);
      assert And(pixel, mask) / 2 == And(pixel / 2, mask / 2);
    }
  }

  /** The 32-bit sum of the scaling does not wrap for any value of the channel. */
  predicate NoWrap(maximum: nat) { maximum * 255 + maximum / 2 < 0x1_0000_0000 }

  /** Where the sum cannot wrap, none of a channel gives 0, all of it 255, and more
      of it never less. */
  lemma ScaledRange(value: nat, more: nat, maximum: nat)
    requires 0 < maximum && NoWrap(maximum) && value <= more <= maximum
    ensures Scaled(0, maximum) == 0 && Scaled(maximum, maximum) == 255
    ensures Scaled(value, maximum) <= Scaled(more, maximum) <= 255
  {
    hide Scaled;
    ScaledEnds(maximum);
    ScaledIs(value, maximum);
    ScaledIs(more, maximum);
    hide Quotient, NoWrap;
    QuotientsGrow(value * 255 + maximum / 2, more * 255 + maximum / 2, maximum);
  }

  /** There it is the nearest intensity of 255, halves rounded up. */
  lemma ScaledIsNearest(value: nat, maximum: nat)
    requires 0 < maximum && NoWrap(maximum) && value <= maximum
    ensures var scaled := Scaled(value, maximum);
            2 * (value * 255) - maximum < 2 * (scaled * maximum) <= 2 * (value * 255) + maximum
  {
    ScaledIs(value, maximum);
    var n, q := value * 255 + maximum / 2, Scaled(value, maximum);
    assert q * maximum + n % maximum == n;
    hide Scaled, NoWrap;
  }

  /** And only there: the whole of a mask reads as 255 exactly when the sum of its
      bits, shifted down, does not wrap. */
  lemma {:induction false} FullIntensityIff(mask: Word)
    requires 0 < mask
    ensures var maximum := ShiftRight(mask, LowestBit(mask));
            Channel(mask, mask) == 255 <==> NoWrap(maximum)
  {
    if mask % 2 == 0 {
      FullIntensityIff(mask / 2);
    } else {
      AndWithItself(mask);
      if NoWrap(mask) {
        ScaledEnds(mask);
      } else {
        WrappedIsLess(mask);
      }
      hide And, Scaled;
    }
  }

  lemma WrappedIsLess(maximum: Word)
    requires 0 < maximum && !NoWrap(maximum)
    ensures Scaled(maximum, maximum) < 255
  {
    var half := maximum / 2;
    var n := maximum * 255 + half;
    var wrapped := n % 0x1_0000_0000;
    assert wrapped <= n - 0x1_0000_0000 < maximum * 254 + half;
    WrappedQuotient(wrapped, maximum, half);
  }

  lemma WrappedQuotient(wrapped: nat, maximum: nat, half: nat)
    requires 0 < maximum && half < maximum && wrapped <= maximum * 254 + half
    ensures wrapped / maximum % 256 <= 254
  {
    QuotientsGrow(wrapped, maximum * 254 + half, maximum);
    DivisionUnique(maximum * 254 + half, 254, maximum, half);
    var q := wrapped / maximum;
    assert q % 256 == q;
  }

  /** A mask of 25 bits wraps: all of it does not read as 255. */
  lemma WideMaskIsDimmed()
    ensures Channel(0x1ff_ffff, 0x1ff_ffff) != 255
  {
    FullIntensityIff(0x1ff_ffff);
    hide Channel, And;
  }

  lemma {:induction false} AndWithItself(a: nat)
    ensures And(a, a) == a
  {
    if a > 0 {
      AndWithItself(a / 2);
    }
  }

  lemma ScaledEnds(maximum: nat)
    requires 0 < maximum && NoWrap(maximum)
    ensures Scaled(0, maximum) == 0 && Scaled(maximum, maximum) == 255
  {
    hide Scaled;
    ScaledIs(0, maximum);
    ScaledIs(maximum, maximum);
    hide NoWrap;
    DivisionUnique(maximum / 2, 0, maximum, maximum / 2);
    DivisionUnique(maximum * 255 + maximum / 2, 255, maximum, maximum / 2);
  }

  function Quotient(a: nat, n: nat): nat
    requires n > 0
  {
    a / n
  }

  lemma ScaledIs(value: nat, maximum: nat)
    requires 0 < maximum && NoWrap(maximum) && value <= maximum
    ensures Scaled(value, maximum) == Quotient(value * 255 + maximum / 2, maximum) <= 255
  {
    var half := maximum / 2;
    var n := value * 255 + half;
    assert n % 0x1_0000_0000 == n;
    QuotientsGrow(n, maximum * 255 + half, maximum);
    DivisionUnique(maximum * 255 + half, 255, maximum, half);
    var q := n / maximum;
    assert q % 256 == q;
  }

  lemma QuotientsGrow(a: nat, b: nat, n: nat)
    requires n > 0 && a <= b
    ensures Quotient(a, n) <= Quotient(b, n)
  {
    var p, q := a / n, b / n;
    assert a == p * n + a % n && b == q * n + b % n;
    assert (p - q) * n == p * n - q * n;
    MultipleIsFar(p - q, n);
  }
}
