/** The byte streams of wire.cpp, in either byte order. */
module Wire {
  import opened Options

  type Byte = b: int | 0 <= b < 256

  type Word16 = w: int | 0 <= w < 0x1_0000

  type Word32 = w: int | 0 <= w < 0x1_0000_0000

  datatype ByteOrder = Little | Big

  function Encode16(order: ByteOrder, w: Word16): (bytes: seq<Byte>)
    ensures |bytes| == 2
  {
    if order.Little? then [w % 256, w / 256] else [w / 256, w % 256]
  }

  function Encode32(order: ByteOrder, w: Word32): (bytes: seq<Byte>)
    ensures |bytes| == 4
  {
    var low, high := w % 0x1_0000, w / 0x1_0000;
    if order.Little? then Encode16(order, low) + Encode16(order, high)
    else Encode16(order, high) + Encode16(order, low)
  }

  function Decode16(order: ByteOrder, bytes: seq<Byte>): Word16
    requires |bytes| == 2
  {
    var first: int, second: int := bytes[0], bytes[1];
    if order.Little? then first + 256 * second else 256 * first + second
  }

  function Decode32(order: ByteOrder, bytes: seq<Byte>): Word32
    requires |bytes| == 4
  {
    var first: int, second: int := Decode16(order, bytes[..2]), Decode16(order, bytes[2..]);
    if order.Little? then first + 0x1_0000 * second else 0x1_0000 * first + second
  }

  lemma Decode16Inverts(order: ByteOrder, w: Word16, bytes: seq<Byte>)
    requires |bytes| == 2
    ensures Decode16(order, Encode16(order, w)) == w
    ensures Encode16(order, Decode16(order, bytes)) == bytes
  {
  }

  lemma Decode32Inverts(order: ByteOrder, w: Word32, bytes: seq<Byte>)
    requires |bytes| == 4
    ensures Decode32(order, Encode32(order, w)) == w
    ensures Encode32(order, Decode32(order, bytes)) == bytes
  {
    hide Encode16, Decode16;
    var low, high := w % 0x1_0000, w / 0x1_0000;
    var first := if order.Little? then low else high;
    var second := if order.Little? then high else low;
    assert Encode32(order, w)[..2] == Encode16(order, first);
    assert Encode32(order, w)[2..] == Encode16(order, second);
    Decode16Inverts(order, first, bytes[..2]);
    Decode16Inverts(order, second, bytes[2..]);
    assert bytes == bytes[..2] + bytes[2..];
  }

  lemma Opposite(low: Byte, high: Byte)
    ensures Decode16(Little, [low, high]) == Decode16(Big, [high, low])
    ensures Encode16(Little, Decode16(Little, [low, high])) == [low, high]
    ensures Encode16(Big, Decode16(Little, [low, high])) == [high, low]
  {
  }

  lemma OppositeOrders16(bytes: seq<Byte>)
    requires |bytes| == 2
    ensures Encode16(Little, Decode16(Big, bytes)) == Reverse(bytes)
    ensures Encode16(Big, Decode16(Little, bytes)) == Reverse(bytes)
  {
    hide Encode16, Decode16, Reverse;
    var low, high := bytes[0], bytes[1];
    assert bytes == [low, high];
    ReverseTwo(bytes);
    Opposite(low, high);
    Opposite(high, low);
  }

  /** A word written in one order and read in the other has its bytes reversed. */
  lemma OppositeOrders32(bytes: seq<Byte>)
    requires |bytes| == 4
    ensures Encode32(Little, Decode32(Big, bytes)) == Reverse(bytes)
    ensures Encode32(Big, Decode32(Little, bytes)) == Reverse(bytes)
  {
    hide Encode16, Decode16, Reverse;
    var a, b := bytes[..2], bytes[2..];
    assert bytes == a + b;
    ReverseConcat(a, b);
    OppositeOrders16(a);
    OppositeOrders16(b);
  }

  function Reverse(bytes: seq<Byte>): (r: seq<Byte>)
    ensures |r| == |bytes|
  {
    if bytes == [] then [] else Reverse(bytes[1..]) + [bytes[0]]
  }

  lemma {:induction false} ReverseAt(bytes: seq<Byte>, k: nat)
    requires k < |bytes|
    ensures Reverse(bytes)[k] == bytes[|bytes| - 1 - k]
  {
    if k < |bytes| - 1 {
      ReverseAt(bytes[1..], k);
    }
  }

  lemma ReverseTwo(bytes: seq<Byte>)
    requires |bytes| == 2
    ensures Reverse(bytes) == [bytes[1], bytes[0]]
  {
    assert bytes[1..][1..] == [];
    assert Reverse(bytes[1..]) == [bytes[1]];
  }

  lemma {:induction false} ReverseConcat(a: seq<Byte>, b: seq<Byte>)
    ensures Reverse(a + b) == Reverse(b) + Reverse(a)
  {
    if a == [] {
      assert a + b == b;
    } else {
      assert (a + b)[1..] == a[1..] + b;
      ReverseConcat(a[1..], b);
    }
  }

  lemma {:induction false} ReverseTwice(bytes: seq<Byte>)
    ensures Reverse(Reverse(bytes)) == bytes
  {
    if bytes != [] {
      ReverseConcat(Reverse(bytes[1..]), [bytes[0]]);
      ReverseTwice(bytes[1..]);
      assert Reverse([bytes[0]]) == [bytes[0]];
    }
  }

  class WireReader {
    const data: seq<Byte>
    const order: ByteOrder
    var offset: nat

    constructor (data: seq<Byte>, order: ByteOrder)
      ensures this.data == data && this.order == order && offset == 0
    {
      this.data := data;
      this.order := order;
      offset := 0;
    }

    ghost predicate Valid()
      reads this
    {
      offset <= |data|
    }

    function Remaining(): (r: nat)
      requires Valid()
      reads this
    {
      |data| - offset
    }

    method U16() returns (value: Option<Word16>)
      requires Valid()
      modifies this
      ensures Valid()
      ensures if old(Remaining()) < 2 then value == None && offset == old(offset)
              else value == Some(Decode16(order, data[old(offset)..old(offset) + 2])) && offset == old(offset) + 2
    {
      if Remaining() < 2 {
        return None;
      }
      value := Some(Decode16(order, data[offset..offset + 2]));
      offset := offset + 2;
    }

    method U32() returns (value: Option<Word32>)
      requires Valid()
      modifies this
      ensures Valid()
      ensures if old(Remaining()) < 4 then value == None && offset == old(offset)
              else value == Some(Decode32(order, data[old(offset)..old(offset) + 4])) && offset == old(offset) + 4
    {
      if Remaining() < 4 {
        return None;
      }
      value := Some(Decode32(order, data[offset..offset + 4]));
      offset := offset + 4;
    }
  }
}
