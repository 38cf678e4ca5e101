/** The client's reading of bytes, xmin_client.cpp, on a connection that may have
    failed: where one packet ends decides what the next one is. */
module ReplyBytes {
  import opened Options
  import opened Wire

  const HEADER: nat := 32
  const MAXIMUM_EXTRA: nat := 0x100_0000

  type Bytes = seq<Byte>

  function Type(header: Bytes): nat
    requires HEADER <= |header|
  {
    var first: int := header[0];
    first % 128
  }

  function Number(order: ByteOrder, header: Bytes): Word16
    requires HEADER <= |header|
  {
    Decode16(order, header[2..4])
  }

  /** Bytes that a header announces behind itself. */
  function Extra(order: ByteOrder, header: Bytes): nat
    requires HEADER <= |header|
  {
    if Type(header) == 1 || Type(header) == 35 then Decode32(order, header[4..8]) * 4 else 0
  }

  /** The connection: what is still to be read, and what is held. */
  datatype Connection = Connection(order: ByteOrder, rest: Bytes, replies: map<Word16, Bytes>, errors: map<Word16,
                                   Bytes>,
                                   events: seq<Bytes>, failed: bool)

  function Filed(c: Connection, packet: Bytes): Connection
    requires HEADER <= |packet|
  {
    if Type(packet) == 0 then c.(errors := c.errors[Number(c.order, packet) := packet])
    else if Type(packet) == 1 then c.(replies := c.replies[Number(c.order, packet) := packet])
    else c.(events := c.events + [packet])
  }

  /** One packet read and filed, or a failure: a header or a body that does not
      come uses up what is there, and a body announced too large is left unread. */
  function ReadOne(c: Connection): (r: (Connection, bool))
    ensures r.1 ==> |r.0.rest| < |c.rest|
    ensures !r.1 ==> r.0.failed && r.0.replies == c.replies && r.0.errors == c.errors
  {
    if |c.rest| < HEADER then (c.(rest := [], failed := true), false)
    else if Extra(c.order, c.rest) > MAXIMUM_EXTRA then (c.(rest := c.rest[HEADER..], failed := true), false)
    else if |c.rest| < HEADER + Extra(c.order, c.rest) then (c.(rest := [], failed := true), false)
    else
      var size := HEADER + Extra(c.order, c.rest);
      (Filed(c, c.rest[..size]).(rest := c.rest[size..]), true)
  }

  /** Waiting for a number: what is held first, then packet after packet. */
  function Wait(c: Connection, key: Word16): (Connection, Option<Bytes>)
    decreases |c.rest|
  {
    if key in c.replies then (c.(replies := c.replies - {key}), Some(c.replies[key]))
    else if key in c.errors then (c.(errors := c.errors - {key}), Some(c.errors[key]))
    else
      var (next, ok) := ReadOne(c);
      if ok then Wait(next, key) else (next, None)
  }

  class ByteClient {
    var state: Connection

    constructor (order: ByteOrder, rest: Bytes)
      ensures state == Connection(order, rest, map[], map[], [], false)
    {
      state := Connection(order, rest, map[], map[], [], false);
    }

    method ReadPacket() returns (ok: bool)
      modifies this
      ensures (state, ok) == ReadOne(old(state))
    {
      if |state.rest| < HEADER {
        state := state.(rest := [], failed := true);
        return false;
      }
      var packet := state.rest[..HEADER];
      assert packet[0] == state.rest[0] && packet[2..4] == state.rest[2..4] && packet[4..8] == state.rest[4..8];
      var left := state.rest[HEADER..];
      if Type(packet) == 1 || Type(packet) == 35 {
        var extra := Extra(state.order, packet);
        if extra > MAXIMUM_EXTRA {
          state := state.(rest := left, failed := true);
          return false;
        }
        if |left| < extra {
          state := state.(rest := [], failed := true);
          return false;
        }
        assert state.rest[..HEADER + extra] == packet + left[..extra];
        assert state.rest[HEADER + extra..] == left[extra..];
        packet := packet + left[..extra];
        left := left[extra..];
      }
      var read := state.rest[..|packet|];
      assert read == packet;
      state := Filed(state, packet).(rest := left);
      return true;
    }

    /** Waits on whatever state the connection is in: nothing asks whether an
        earlier read has failed. */
    method WaitReply(key: Word16) returns (packet: Option<Bytes>)
      modifies this
      ensures (state, packet) == Wait(old(state), key)
    {
      hide ReadOne;
      while true
        invariant Wait(old(state), key) == Wait(state, key)
        decreases |state.rest|
      {
        if key in state.replies {
          packet := Some(state.replies[key]);
          state := state.(replies := state.replies - {key});
          return;
        }
        if key in state.errors {
          packet := Some(state.errors[key]);
          state := state.(errors := state.errors - {key});
          return;
        }
        var ok := ReadPacket();
        if !ok {
          return None;
        }
      }
    }
  }

  // ---- Streams of whole packets

  /** The number that two or four bytes spell in the connection's order. */
  function Spelled(order: ByteOrder, bytes: Bytes): nat {
    if bytes == [] then 0
    else if order.Little? then bytes[0] + 0x100 * Spelled(order, bytes[1..])
    else 0x100 * Spelled(order, bytes[..|bytes| - 1]) + bytes[|bytes| - 1]
  }

  /** A packet as the protocol has it: 32 bytes, and for replies and generic events as many
      words more as its second word says, up to 16 MiB. */
  predicate IsPacket(order: ByteOrder, p: Bytes) {
    && 32 <= |p| <= 32 + 0x100_0000
    && |p| == 32 + if Kind(p) == 1 || Kind(p) == 35 then 4 * Spelled(order, p[4..8]) else 0
  }

  /** Its first byte without the mark of events that clients send. */
  function Kind(p: Bytes): nat { if p == [] then 0 else if p[0] < 128 then p[0] else p[0] - 128 }

  lemma SpelledTwo(order: ByteOrder, b: Bytes)
    requires |b| == 2
    ensures Spelled(order, b) == Decode16(order, b)
  {
    assert b[1..] == [b[1]] && b[..1] == [b[0]] && [b[1]][1..] == [] && [b[0]][..0] == [];
    assert Spelled(order, [b[1]]) == b[1] && Spelled(order, [b[0]]) == b[0];
  }

  lemma SpelledFour(order: ByteOrder, b: Bytes)
    requires |b| == 4
    ensures Spelled(order, b) == Decode32(order, b)
  {
    SpelledTwo(order, b[..2]);
    SpelledTwo(order, b[2..]);
    hide Decode16;
    if order.Little? {
      assert b[1..][1..] == b[2..] && b[..2][1..] == [b[1]] && b[..2][0] == b[0];
      assert [b[1]][1..] == [] && Spelled(order, [b[1]]) == b[1];
    } else {
      assert b[..3][..2] == b[..2] && b[2..][..1] == [b[2]] && b[2..][1] == b[3];
      assert [b[2]][..0] == [] && Spelled(order, [b[2]]) == b[2];
    }
  }

  /** A packet at the head of the stream is read whole and filed by its kind: an error or
      a reply under its number, anything else behind the events held. */
  lemma PacketIsFiled(c: Connection, p: Bytes, rest: Bytes)
    requires IsPacket(c.order, p) && c.rest == p + rest
    ensures var number := Spelled(c.order, p[2..4]);
            && number < 0x1_0000
            && ReadOne(c) == (Connection(c.order, rest,
                                         if Kind(p) == 1 then c.replies[number := p] else c.replies,
                                         if Kind(p) == 0 then c.errors[number := p] else c.errors,
                                         if Kind(p) == 0 || Kind(p) == 1 then c.events else c.events + [p],
                                         c.failed), true)
  {
    HeadOfPacket(c.order, p, rest);
    hide Spelled, IsPacket, Extra, Number, Type;
    assert c.rest[..|p|] == p && c.rest[|p|..] == rest;
  }

  lemma HeadOfPacket(order: ByteOrder, p: Bytes, rest: Bytes)
    requires IsPacket(order, p)
    ensures Type(p) == Kind(p) && Number(order, p) == Spelled(order, p[2..4])
    ensures HEADER <= |p| && Extra(order, p + rest) == |p| - HEADER <= MAXIMUM_EXTRA
  {
    SpelledTwo(order, p[2..4]);
    SpelledFour(order, p[4..8]);
    hide Spelled, Decode16, Decode32;
    var all := p + rest;
    assert all[0] == p[0] && all[4..8] == p[4..8];
  }

  function Joined(packets: seq<Bytes>): Bytes { if packets == [] then [] else packets[0] + Joined(packets[1..]) }

  /** A reply or error with this number. */
  predicate Answers(order: ByteOrder, p: Bytes, key: Word16) {
    (Kind(p) == 0 || Kind(p) == 1) && 4 <= |p| && Spelled(order, p[2..4]) == key
  }

  function EventsOf(packets: seq<Bytes>): seq<Bytes> {
    if packets == [] then []
    else (if Kind(packets[0]) == 0 || Kind(packets[0]) == 1 then [] else [packets[0]]) + EventsOf(packets[1..])
  }

  /** Packet i is the first of some whole packets to answer a number. */
  predicate FirstAnswer(order: ByteOrder, packets: seq<Bytes>, key: Word16, i: nat) {
    && i < |packets| && (forall k :: 0 <= k < |packets| ==> IsPacket(order, packets[k]))
    && Answers(order, packets[i], key) && forall k :: 0 <= k < i ==> !Answers(order, packets[k], key)
  }

  /** On a stream of whole packets, waiting for a number that is not held hands over the
      first reply or error with that number, leaves everything behind it unread and
      has queued the events before it in order. */
  lemma {:induction false} WaitFindsFirst(c: Connection, packets: seq<Bytes>, after: Bytes, key: Word16, i: nat)
    requires c.rest == Joined(packets) + after && key !in c.replies && key !in c.errors
    requires FirstAnswer(c.order, packets, key, i)
    ensures i < |packets| && Wait(c, key).1 == Some(packets[i])
    ensures Wait(c, key).0.rest == Joined(packets[i + 1..]) + after
    ensures Wait(c, key).0.events == c.events + EventsOf(packets[..i])
    decreases i
  {
    hide ReadOne, IsPacket, Answers, Wait, FirstAnswer, EventsOf, Kind;
    FirstGoesOn(c.order, packets, key, i);
    var p, rest := packets[0], Joined(packets[1..]) + after;
    JoinedGoesOn(packets, after);
    hide Joined;
    OnePacketOn(c, p, rest, key);
    EventsGoOn(packets, i);
    if i > 0 {
      var next := ReadOne(c).0;
      WaitFindsFirst(next, packets[1..], after, key, i - 1);
      assert packets[1..][i..] == packets[i + 1..];
      Grouped(c.events, if Kind(p) == 0 || Kind(p) == 1 then [] else [p], EventsOf(packets[1..][..i - 1]));
    } else {
      assert c.events + [] == c.events;
    }
  }

  lemma FirstGoesOn(order: ByteOrder, packets: seq<Bytes>, key: Word16, i: nat)
    requires FirstAnswer(order, packets, key, i)
    ensures i < |packets| && IsPacket(order, packets[0]) && (Answers(order, packets[0], key) <==> i == 0)
    ensures i > 0 ==> FirstAnswer(order, packets[1..], key, i - 1)
  {
    hide IsPacket, Answers;
  }

  lemma JoinedGoesOn(packets: seq<Bytes>, after: Bytes)
    requires packets != []
    ensures Joined(packets) + after == packets[0] + (Joined(packets[1..]) + after)
  {
  }

  lemma Grouped(a: seq<Bytes>, b: seq<Bytes>, c: seq<Bytes>)
    ensures (a + b) + c == a + (b + c)
  {
  }

  lemma EventsGoOn(packets: seq<Bytes>, i: nat)
    requires i < |packets|
    ensures EventsOf(packets[..0]) == []
    ensures i > 0 ==> EventsOf(packets[..i]) ==
                      (if Kind(packets[0]) == 0 || Kind(packets[0]) == 1 then [] else [packets[0]]) +
                      EventsOf(packets[1..][..i - 1])
  {
    if i > 0 {
      assert packets[..i][1..] == packets[1..][..i - 1];
    }
  }

  /** One packet of the wait: it is handed over, or filed and the wait goes on. */
  lemma OnePacketOn(c: Connection, p: Bytes, rest: Bytes, key: Word16)
    requires IsPacket(c.order, p) && c.rest == p + rest && key !in c.replies && key !in c.errors
    ensures var next := ReadOne(c).0;
            && next.order == c.order && next.rest == rest
            && (Answers(c.order, p, key) ==>
                  && Wait(c, key).1 == Some(p) && Wait(c, key).0.rest == rest && Wait(c, key).0.events == c.events)
            && (!Answers(c.order, p, key) ==>
                  && Wait(c, key) == Wait(next, key) && key !in next.replies && key !in next.errors
                  && next.events == c.events + if Kind(p) == 0 || Kind(p) == 1 then [] else [p])
  {
    PacketIsFiled(c, p, rest);
    var next := ReadOne(c).0;
    hide ReadOne, IsPacket, Spelled;
    assert Wait(c, key) == Wait(next, key);
    if Answers(c.order, p, key) {
      HeldIsHandedOver(next, key, p);
    } else {
      assert c.events + [] == c.events;
    }
  }

  lemma HeldIsHandedOver(c: Connection, key: Word16, p: Bytes)
    requires key in c.replies ==> c.replies[key] == p
    requires key !in c.replies ==> key in c.errors && c.errors[key] == p
    ensures Wait(c, key).1 == Some(p) && Wait(c, key).0.rest == c.rest && Wait(c, key).0.events == c.events
  {
  }

  // ---- After a failure

  function Fresh(order: ByteOrder, rest: Bytes): Connection { Connection(order, rest, map[], map[], [], false) }

  /** What the second of two waits hands over, when the server sent some bytes. */
  function Second(order: ByteOrder, sent: Bytes, first: Word16, second: Word16): Option<Bytes> {
    Wait(Wait(Fresh(order, sent), first).0, second).1
  }

  /** The server sent one packet, header and body; the second wait hands over that
      packet or nothing. */
  predicate OnlyThePacket(order: ByteOrder, header: Bytes, body: Bytes, first: Word16, second: Word16) {
    Second(order, header + body, first, second) in {None, Some(header + body)}
  }

  /** Whatever the body and the numbers waited for, only the server's packet is
      handed over, exactly when its header announces no more than the limit.
      Beyond the limit a later wait reads the body as packets. */
  lemma OversizedIff(order: ByteOrder, header: Bytes)
    requires |header| == HEADER
    ensures (forall body: Bytes, first: Word16, second: Word16 ::
               |body| == Extra(order, header) ==> OnlyThePacket(order, header, body, first, second))
            <==> Extra(order, header) <= MAXIMUM_EXTRA
  {
    if Extra(order, header) <= MAXIMUM_EXTRA {
      forall body: Bytes, first: Word16, second: Word16 | |body| == Extra(order, header)
        ensures OnlyThePacket(order, header, body, first, second)
      {
        WholePacketIsRead(order, header, body, first, second);
      }
    } else {
      var body: Bytes := Forged(order) + seq(Extra(order, header) - HEADER, _ => 0);
      assert |body| == Extra(order, header);
      BodyIsHandedOver(order, header, body);
      assert !OnlyThePacket(order, header, body, 0, 7);
    }
  }

  /** A reply to request 7 that no server sent as a packet. */
  function Forged(order: ByteOrder): (packet: Bytes)
    ensures |packet| == HEADER
  {
    [1, 0] + Encode16(order, 7) + seq(28, _ => 0)
  }

  lemma BodyIsHandedOver(order: ByteOrder, header: Bytes, body: Bytes)
    requires |header| == HEADER && Extra(order, header) > MAXIMUM_EXTRA && |body| >= HEADER &&
             body[..HEADER] == Forged(order)
    ensures Second(order, header + body, 0, 7) == Some(Forged(order))
  {
    var sent := header + body;
    assert sent[0] == header[0] && sent[2..4] == header[2..4] && sent[4..8] == header[4..8];
    var failed := Connection(order, body, map[], map[], [], true);
    assert sent[HEADER..] == body;
    assert ReadOne(Fresh(order, sent)) == (failed, false);
    assert Wait(Fresh(order, sent), 0) == (failed, None);
    ForgedIsReply(order, body);
    var next := ReadOne(failed).0;
    assert next.replies == map[7 := Forged(order)];
    assert Wait(next, 7).1 == Some(Forged(order));
  }

  lemma ForgedIsReply(order: ByteOrder, body: Bytes)
    requires |body| >= HEADER && body[..HEADER] == Forged(order)
    ensures Type(body) == 1 && Number(order, Forged(order)) == 7 && Type(Forged(order)) == 1 && Extra(order, body) == 0
  {
    var f := Forged(order);
    assert f[0] == 1 && f[2..4] == Encode16(order, 7) && f[4..8] == [0, 0, 0, 0];
    Decode16Inverts(order, 7, f[2..4]);
    assert body[0] == body[..HEADER][0] && body[4..8] == body[..HEADER][4..8];
  }

  lemma WholePacketIsRead(order: ByteOrder, header: Bytes, body: Bytes, first: Word16, second: Word16)
    requires |header| == HEADER && |body| == Extra(order, header) <= MAXIMUM_EXTRA
    ensures OnlyThePacket(order, header, body, first, second)
  {
    var sent := header + body;
    assert sent[0] == header[0] && sent[2..4] == header[2..4] && sent[4..8] == header[4..8];
    assert Extra(order, sent) == Extra(order, header) &&
           sent[..HEADER + Extra(order, sent)] == sent && sent[HEADER + Extra(order, sent)..] == [];
    var one := Filed(Fresh(order, sent), sent).(rest := []);
    assert ReadOne(Fresh(order, sent)) == (one, true);
    assert Wait(Fresh(order, sent), first) == Wait(one, first);
    HoldsOnly(one, sent, first);
    HoldsOnly(Wait(one, first).0, sent, second);
  }

  /** A connection with nothing left to read that holds at most one packet. */
  predicate AtMost(c: Connection, packet: Bytes) {
    && c.rest == [] && (forall k :: k in c.replies ==> c.replies[k] == packet)
    && forall k :: k in c.errors ==> c.errors[k] == packet
  }

  lemma HoldsOnly(c: Connection, packet: Bytes, key: Word16)
    requires AtMost(c, packet)
    ensures Wait(c, key).1 in {None, Some(packet)} && AtMost(Wait(c, key).0, packet)
  {
  }
}
