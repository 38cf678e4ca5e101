/** property_data.cpp: property values between wire and canonical byte order. */
module PropertyData {
  import opened Options
  import opened Arith
  import opened Wire

  predicate ValidFormat(format: int) { format == 8 || format == 16 || format == 32 }

  /** Bytes of one unit. */
  function Unit(format: int): nat
    requires ValidFormat(format)
  {
    format / 8
  }

  /** A length that is a whole number of units. */
  predicate Whole(length: nat, unit: nat) {
    unit == 1 || (unit == 2 && length % 2 == 0) || (unit == 4 && length % 4 == 0)
  }

  /** The value's bytes in the other representation: canonical values are
      little-endian, so each unit is reversed on a big-endian connection. */
  function Swapped(data: seq<Byte>, unit: nat, order: ByteOrder): (r: seq<Byte>)
    requires 0 < unit
    ensures |r| == |data|
  {
    if order.Little? || |data| < unit then data
    else Reverse(data[..unit]) + Swapped(data[unit..], unit, order)
  }

  lemma {:induction false} SwappedConcat(a: seq<Byte>, b: seq<Byte>, unit: nat, order: ByteOrder)
    requires Whole(|a|, unit)
    ensures Swapped(a + b, unit, order) == Swapped(a, unit, order) + Swapped(b, unit, order)
  {
    if a == [] {
      assert a + b == b;
    } else if order.Big? {
      LessIsWhole(|a|, unit);
      hide Reverse, Whole;
      assert (a + b)[..unit] == a[..unit];
      assert (a + b)[unit..] == a[unit..] + b;
      SwappedConcat(a[unit..], b, unit, order);
    }
  }

  lemma LessIsWhole(length: nat, unit: nat)
    requires Whole(length, unit) && 0 < length
    ensures 0 < unit <= length && Whole(length - unit, unit)
  {
    DivisionUnique(unit, 1, unit, 0);
    WholeSums(length, unit, unit);
  }

  /** Sums and differences of whole lengths are whole. */
  lemma WholeSums(a: nat, b: nat, unit: nat)
    requires Whole(a, unit) && Whole(b, unit)
    ensures Whole(a + b, unit) && (b <= a ==> Whole(a - b, unit))
  {
    if unit == 2 {
      DivisionUnique(a + b, a / 2 + b / 2, 2, 0);
      DivisionUnique(a - b, a / 2 - b / 2, 2, 0);
    } else if unit == 4 {
      DivisionUnique(a + b, a / 4 + b / 4, 4, 0);
      DivisionUnique(a - b, a / 4 - b / 4, 4, 0);
    }
  }

  /** On a little-endian connection every byte stays; on a big-endian one byte k of
      each unit comes from the k-th place from its end. */
  lemma {:induction false} SwappedAt(data: seq<Byte>, unit: nat, order: ByteOrder, u: nat, k: nat)
    requires 0 < unit && k < unit && unit * u + unit <= |data|
    ensures 0 <= unit * u
    ensures order.Little? ==> Swapped(data, unit, order)[unit * u + k] == data[unit * u + k]
    ensures order.Big? ==> Swapped(data, unit, order)[unit * u + k] == data[unit * u + (unit - 1 - k)]
  {
    hide Reverse;
    assert 0 <= unit * u;
    if order.Big? {
      var swapped := Swapped(data, unit, order);
      if u == 0 {
        ReverseAt(data[..unit], k);
        assert swapped[k] == Reverse(data[..unit])[k];
      } else {
        assert unit * u == unit * (u - 1) + unit;
        SwappedAt(data[unit..], unit, order, u - 1, k);
        assert swapped[unit * u + k] == Swapped(data[unit..], unit, order)[unit * (u - 1) + k];
      }
    }
  }

  /** Both conversions exchange bytes within units, so each undoes the other. */
  lemma {:induction false} SwappedTwice(data: seq<Byte>, unit: nat, order: ByteOrder)
    requires 0 < unit
    ensures Swapped(Swapped(data, unit, order), unit, order) == data
  {
    if order.Big? && |data| >= unit {
      var head, tail := data[..unit], data[unit..];
      var swapped := Swapped(data, unit, order);
      assert swapped[..unit] == Reverse(head) && swapped[unit..] == Swapped(tail, unit, order);
      ReverseTwice(head);
      SwappedTwice(tail, unit, order);
      assert data == head + tail;
    }
  }

  /** Canonical form of wire data; nothing when the data ends inside a unit. */
  method CanonicalPropertyData(data: seq<Byte>, format: int, order: ByteOrder) returns (result: Option<seq<Byte>>)
    requires ValidFormat(format)
    ensures result == if Whole(|data|, Unit(format)) then Some(Swapped(data, Unit(format), order)) else None
  {
    if format == 8 {
      SwapBytes(data, order);
      return Some(data);
    }
    hide Swapped, Whole, Encode16, Encode32, Decode16, Decode32;
    NothingIsWhole(Unit(format), order);
    var reader := new WireReader(data, order);
    var canonical: seq<Byte> := [];
    ghost var unit := Unit(format);
    while reader.Remaining() != 0
      invariant reader.Valid() && Whole(reader.offset, unit)
      invariant canonical == Swapped(data[..reader.offset], unit, order)
      decreases reader.Remaining()
    {
      ghost var start := reader.offset;
      if format == 16 {
        var value := reader.U16();
        if value == None {
          PartialUnit(start, |data| - start, unit);
          return None;
        }
        canonical := canonical + Encode16(Little, value.value);
      } else {
        var value := reader.U32();
        if value == None {
          PartialUnit(start, |data| - start, unit);
          return None;
        }
        canonical := canonical + Encode32(Little, value.value);
      }
      NextUnit(data, start, unit, order);
      ConvertUnit(data[start..start + unit], order);
    }
    assert data[..reader.offset] == data;
    return Some(canonical);
  }

  /** Whole units followed by part of one are not whole units. */
  lemma PartialUnit(start: nat, rest: nat, unit: nat)
    requires (unit == 2 || unit == 4) && Whole(start, unit) && 0 < rest < unit
    ensures !Whole(start + rest, unit)
  {
  }

  lemma NothingIsWhole(unit: nat, order: ByteOrder)
    requires unit == 1 || unit == 2 || unit == 4
    ensures Whole(0, unit) && Swapped([], unit, order) == []
  {
  }

  lemma WholeLeavesUnit(start: nat, length: nat, unit: nat)
    requires Whole(start, unit) && Whole(length, unit) && start < length
    ensures start + unit <= length
  {
  }

  lemma SwapBytes(data: seq<Byte>, order: ByteOrder)
    ensures Swapped(data, 1, order) == data
  {
    if order.Big? && data != [] {
      SwapBytes(data[1..], order);
      assert data[..1] == [data[0]] && Reverse([data[0]]) == [data[0]];
    }
  }

  /** Decoding a unit in one order and encoding it in the other swaps it. */
  lemma ConvertUnit(piece: seq<Byte>, order: ByteOrder)
    requires |piece| == 2 || |piece| == 4
    ensures |piece| == 2 ==>
              Encode16(Little, Decode16(order, piece)) == Swapped(piece, 2, order) &&
              Encode16(order, Decode16(Little, piece)) == Swapped(piece, 2, order)
    ensures |piece| == 4 ==>
              Encode32(Little, Decode32(order, piece)) == Swapped(piece, 4, order) &&
              Encode32(order, Decode32(Little, piece)) == Swapped(piece, 4, order)
  {
    var unit := |piece|;
    assert piece[..unit] == piece && piece[unit..] == [];
    assert Swapped(piece, unit, order) == if order.Little? then piece else Reverse(piece);
    hide Swapped, Reverse, Encode16, Encode32, Decode16, Decode32;
    if unit == 2 {
      Decode16Inverts(order, 0, piece);
      OppositeOrders16(piece);
    } else {
      Decode32Inverts(order, 0, piece);
      OppositeOrders32(piece);
    }
  }

  /** One more unit extends what is already swapped. */
  lemma NextUnit(data: seq<Byte>, start: nat, unit: nat, order: ByteOrder)
    requires (unit == 2 || unit == 4) && Whole(start, unit) && start + unit <= |data|
    ensures Whole(start + unit, unit)
    ensures Swapped(data[..start + unit], unit, order) ==
            Swapped(data[..start], unit, order) + Swapped(data[start..start + unit], unit, order)
  {
    DivisionUnique(unit, 1, unit, 0);
    WholeSums(start, unit, unit);
    hide Swapped, Whole;
    assert data[..start + unit] == data[..start] + data[start..start + unit];
    SwappedConcat(data[..start], data[start..start + unit], unit, order);
  }

  /** Wire form of a canonical value that is a whole number of units. */
  method WirePropertyData(data: seq<Byte>, format: int, order: ByteOrder) returns (bytes: seq<Byte>)
    requires ValidFormat(format) && Whole(|data|, Unit(format))
    ensures bytes == Swapped(data, Unit(format), order)
  {
    if format == 8 {
      SwapBytes(data, order);
      return data;
    }
    hide Swapped, Whole, Encode16, Encode32, Decode16, Decode32;
    NothingIsWhole(Unit(format), order);
    bytes := [];
    var unit := format / 8;
    var offset := 0;
    while offset < |data|
      invariant offset <= |data| && Whole(offset, unit)
      invariant bytes == Swapped(data[..offset], unit, order)
    {
      WholeLeavesUnit(offset, |data|, unit);
      NextUnit(data, offset, unit, order);
      ConvertUnit(data[offset..offset + unit], order);
      if format == 16 {
        bytes := bytes + Encode16(order, Decode16(Little, data[offset..offset + 2]));
      } else {
        bytes := bytes + Encode32(order, Decode32(Little, data[offset..offset + 4]));
      }
      offset := offset + unit;
    }
    assert data[..offset] == data;
  }
}
