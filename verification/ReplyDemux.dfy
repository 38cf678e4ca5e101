/** The control client's reply demultiplexer (ClientConnection in xmin_client.cpp). */
module ReplyDemux {
  import opened Options
  import opened Wire

  const SEQUENCES: nat := 0x1_0000
  const MAXIMUM_EXTRA: nat := 0x100_0000
  const RESOURCE_MASK: nat := 0x1f_ffff

  /** One packet: its first byte, its sequence field, the words after the first
      32 bytes that its length field announces, and its contents. */
  datatype Packet = Packet(kind: Byte, sequence: Word16, extraWords: Word32, contents: seq<Byte>)

  function Type(p: Packet): nat { p.kind % 128 }

  /** The top bit of the first byte only marks events that clients sent. */
  predicate IsError(p: Packet) { p.kind == 0 || p.kind == 0x80 }

  predicate IsReply(p: Packet) { p.kind == 1 || p.kind == 0x81 }

  predicate IsEvent(p: Packet) { !IsError(p) && !IsReply(p) }

  /** A reply or generic event whose announced body the client refuses to read. */
  predicate Oversized(p: Packet) {
    p.kind in {1, 0x81, 35, 0xa3} && 4 * p.extraWords > 0x100_0000
  }

  function Events(packets: seq<Packet>): seq<Packet> {
    if packets == [] then []
    else (if IsEvent(packets[0]) then [packets[0]] else []) + Events(packets[1..])
  }

  function Responses(packets: seq<Packet>): seq<Packet> {
    if packets == [] then []
    else (if IsEvent(packets[0]) then [] else [packets[0]]) + Responses(packets[1..])
  }

  lemma {:induction false} EventsConcat(a: seq<Packet>, b: seq<Packet>)
    ensures Events(a + b) == Events(a) + Events(b)
  {
    hide IsEvent;
    if a == [] {
      assert a + b == b;
    } else {
      assert (a + b)[0] == a[0] && (a + b)[1..] == a[1..] + b;
      EventsConcat(a[1..], b);
    }
  }

  lemma {:induction false} ResponsesConcat(a: seq<Packet>, b: seq<Packet>)
    ensures Responses(a + b) == Responses(a) + Responses(b)
  {
    hide IsEvent;
    if a == [] {
      assert a + b == b;
    } else {
      assert (a + b)[0] == a[0] && (a + b)[1..] == a[1..] + b;
      ResponsesConcat(a[1..], b);
    }
  }

  lemma SplitConcat(a: seq<Packet>, b: seq<Packet>)
    ensures Events(a + b) == Events(a) + Events(b)
    ensures Responses(a + b) == Responses(a) + Responses(b)
  {
    EventsConcat(a, b);
    ResponsesConcat(a, b);
  }

  lemma {:induction false} ResponsesMember(packets: seq<Packet>, p: Packet)
    ensures p in Responses(packets) <==> p in packets && !IsEvent(p)
  {
    if packets != [] {
      ResponsesMember(packets[1..], p);
      assert packets == [packets[0]] + packets[1..];
    }
  }

  /** What the server does with one request: answer it, refuse it, or neither. */
  datatype Answer = Nothing | Replies(packet: Packet) | Raises(packet: Packet)

  /** The packet that answers request n (numbered from 1) carries its number. */
  predicate Numbered(answers: seq<Answer>) {
    forall n :: 0 <= n < |answers| ==>
      match answers[n]
      case Nothing => true
      case Replies(p) => IsReply(p) && p.sequence == (n + 1) % SEQUENCES
      case Raises(p) => IsError(p) && p.sequence == (n + 1) % SEQUENCES
  }

  /** The responses of a server that handles requests in order. */
  function InOrder(answers: seq<Answer>): seq<Packet> {
    if answers == [] then []
    else
      var last := answers[|answers| - 1];
      InOrder(answers[..|answers| - 1]) + if last == Nothing then [] else [last.packet]
  }

  lemma {:induction false} InOrderMember(answers: seq<Answer>, p: Packet)
    ensures p in InOrder(answers) <==> exists n :: 0 <= n < |answers| && answers[n] != Nothing && answers[n].packet == p
  {
    if answers != [] {
      var n := |answers| - 1;
      InOrderMember(answers[..n], p);
      assert answers == answers[..n] + [answers[n]];
    }
  }

  /** With fewer than 65536 requests no two responses share a sequence number. */
  lemma {:induction false} InOrderDistinct(answers: seq<Answer>)
    requires Numbered(answers) && |answers| < SEQUENCES
    ensures forall i, j :: 0 <= i < j < |InOrder(answers)| ==>
              InOrder(answers)[i].sequence != InOrder(answers)[j].sequence
  {
    if answers != [] {
      var n := |answers| - 1;
      var before, all := InOrder(answers[..n]), InOrder(answers);
      InOrderDistinct(answers[..n]);
      forall i, j | 0 <= i < j < |all|
        ensures all[i].sequence != all[j].sequence
      {
        if j == |before| {
          assert all[i] in before;
          InOrderMember(answers[..n], all[i]);
        }
      }
    }
  }

  /** A prefix that holds the last response of all holds every response. */
  lemma {:induction false} PrefixWithLast(read: seq<Packet>, rest: seq<Packet>, answers: seq<Answer>)
    requires Numbered(answers) && 0 < |answers| < SEQUENCES && answers[|answers| - 1] != Nothing
    requires Responses(read) + Responses(rest) == InOrder(answers)
    requires answers[|answers| - 1].packet in read
    ensures Responses(read) == InOrder(answers)
  {
    var last, all, prefix := answers[|answers| - 1].packet, InOrder(answers), Responses(read);
    InOrderDistinct(answers);
    ResponsesMember(read, last);
    assert all[|all| - 1] == last;
    var i :| 0 <= i < |prefix| && prefix[i] == last;
    assert all[i] == last;
    assert prefix == all[..|prefix|];
  }

  /** Nothing is sent twice: a response about to be read was not read before. */
  lemma {:induction false} NotReadBefore(stream: seq<Packet>, position: nat, answers: seq<Answer>)
    requires position < |stream| && !IsEvent(stream[position])
    requires Responses(stream) == InOrder(answers) && Numbered(answers) && |answers| < SEQUENCES
    ensures stream[position] !in stream[..position]
  {
    var p, before, after := stream[position], stream[..position], stream[position + 1..];
    assert stream == before + ([p] + after);
    SplitConcat(before, [p] + after);
    SplitConcat([p], after);
    InOrderDistinct(answers);
    ResponsesMember(before, p);
    var all, at := InOrder(answers), |Responses(before)|;
    assert all[at] == p;
    forall i | 0 <= i < at
      ensures Responses(before)[i] != p
    {
      assert Responses(before)[i] == all[i];
    }
  }

  lemma InOrderAppend(answers: seq<Answer>, answer: Answer)
    ensures InOrder(answers + [answer]) == InOrder(answers) + InOrder([answer])
  {
    assert (answers + [answer])[..|answers|] == answers;
    assert [answer][..0] == [];
  }

  // ---- Where each response is

  /** The response to request n is among the packets read. */
  ghost predicate Arrived(read: seq<Packet>, answers: seq<Answer>, n: nat) {
    1 <= n <= |answers| && answers[n - 1] != Nothing && answers[n - 1].packet in read
  }

  /** Every response read is in exactly one place: taken by the caller, held as
      a reply, or held as an error. */
  ghost predicate Filed(read: seq<Packet>, answers: seq<Answer>, taken: set<Word16>,
                  replies: map<Word16, Packet>, errors: map<Word16, Packet>) {
    && (forall k :: k in replies <==> Arrived(read, answers, k) && answers[k - 1].Replies? && k !in taken)
    && (forall k :: k in errors <==> Arrived(read, answers, k) && answers[k - 1].Raises? && k !in taken)
    && (forall k :: k in replies ==> replies[k] == answers[k - 1].packet)
    && (forall k :: k in errors ==> errors[k] == answers[k - 1].packet)
    && (forall k :: k in taken ==> Arrived(read, answers, k))
  }

  /** The packets read hold only responses to requests already sent. */
  lemma {:induction false} ReadMember(stream: seq<Packet>, position: nat, answers: seq<Answer>, p: Packet)
    requires position <= |stream| && Responses(stream) == InOrder(answers) && Numbered(answers) && |answers| < SEQUENCES
    requires p in stream && !IsEvent(p)
    ensures 1 <= p.sequence <= |answers| && answers[p.sequence - 1] != Nothing && answers[p.sequence - 1].packet == p
  {
    ResponsesMember(stream, p);
    InOrderMember(answers, p);
  }

  /** A request just sent has no response among the packets read before. */
  lemma {:induction false} FiledAppend(stream: seq<Packet>, position: nat, answers: seq<Answer>, answer: Answer,
                                       taken: set<Word16>,
                    replies: map<Word16, Packet>, errors: map<Word16, Packet>)
    requires position <= |stream| && Responses(stream) == InOrder(answers)
    requires Numbered(answers + [answer]) && |answers| + 1 < SEQUENCES
    requires Filed(stream[..position], answers, taken, replies, errors)
    ensures Filed(stream[..position], answers + [answer], taken, replies, errors)
  {
    var n, longer, read := |answers| + 1, answers + [answer], stream[..position];
    forall k | 0 <= k < |answers| ensures longer[k] == answers[k] {}
    assert Numbered(answers);
    assert !Arrived(read, longer, n) by {
      if answer != Nothing && answer.packet in read {
        assert longer[n - 1] == answer && !IsEvent(answer.packet);
        ReadMember(stream, position, answers, answer.packet);
      }
    }
    forall k: nat ensures Arrived(read, longer, k) <==> Arrived(read, answers, k) {
      if k != n {
        assert 1 <= k <= |answers| ==> longer[k - 1] == answers[k - 1];
      }
    }
  }

  /** Reading one more packet makes one more response arrive, unless it is an event. */
  lemma {:induction false} ArrivedNext(stream: seq<Packet>, position: nat, answers: seq<Answer>, k: nat)
    requires position < |stream| && Responses(stream) == InOrder(answers) && Numbered(answers) && |answers| < SEQUENCES
    ensures var p := stream[position];
            && (Arrived(stream[..position + 1], answers, k) <==>
                Arrived(stream[..position], answers, k) || (!IsEvent(p) && k == p.sequence))
            && (!IsEvent(p) ==> !Arrived(stream[..position], answers, p.sequence))
            && (!IsEvent(p) ==> 1 <= p.sequence <= |answers| &&
                                answers[p.sequence - 1] == if IsReply(p) then Replies(p) else Raises(p))
  {
    var p, read := stream[position], stream[..position];
    assert stream[..position + 1] == read + [p];
    if !IsEvent(p) {
      ReadMember(stream, position, answers, p);
      NotReadBefore(stream, position, answers);
    }
    hide InOrder, Responses;
  }

  /** Filing the packet read under its sequence number keeps every response in
      exactly one place. */
  lemma {:induction false} FiledRead(stream: seq<Packet>, position: nat, answers: seq<Answer>, taken: set<Word16>,
                                     replies: map<Word16, Packet>, errors: map<Word16, Packet>)
    requires position < |stream| && Responses(stream) == InOrder(answers) && Numbered(answers) && |answers| < SEQUENCES
    requires Filed(stream[..position], answers, taken, replies, errors)
    ensures var p := stream[position];
            Filed(stream[..position + 1], answers, taken,
                  if IsReply(p) then replies[p.sequence := p] else replies,
                  if IsError(p) then errors[p.sequence := p] else errors)
  {
    var p := stream[position];
    forall k: nat
      ensures Arrived(stream[..position + 1], answers, k) <==>
              Arrived(stream[..position], answers, k) || (!IsEvent(p) && k == p.sequence)
    {
      ArrivedNext(stream, position, answers, k);
    }
    ArrivedNext(stream, position, answers, 0);
    hide InOrder, Responses, Arrived, Numbered;
  }

  /** Handing a filed response to the caller keeps every other one in place. */
  lemma FiledTake(read: seq<Packet>, answers: seq<Answer>, taken: set<Word16>, replies: map<Word16, Packet>,
                  errors: map<Word16, Packet>, k: Word16)
    requires Filed(read, answers, taken, replies, errors) && (k in replies || k in errors)
    ensures Filed(read, answers, taken + {k}, replies - {k}, errors - {k})
  {
    hide Arrived;
    assert Arrived(read, answers, k);
  }

  /** The two maps never hold the same sequence number. */
  lemma FiledOnce(read: seq<Packet>, answers: seq<Answer>, taken: set<Word16>, replies: map<Word16, Packet>,
                  errors: map<Word16, Packet>, k: Word16)
    requires Filed(read, answers, taken, replies, errors)
    ensures !(k in replies && k in errors)
    ensures k in replies ==> errors - {k} == errors
    ensures k in errors ==> replies - {k} == replies
  {
  }

  /** When the whole stream is read, every response has arrived. */
  lemma AllArrived(read: seq<Packet>, answers: seq<Answer>, k: nat)
    requires Responses(read) == InOrder(answers) && 1 <= k <= |answers| && answers[k - 1] != Nothing
    ensures Arrived(read, answers, k)
  {
    InOrderMember(answers, answers[k - 1].packet);
    ResponsesMember(read, answers[k - 1].packet);
  }

  lemma EventsRead(stream: seq<Packet>, position: nat)
    requires position < |stream|
    ensures Events(stream[..position + 1]) ==
            Events(stream[..position]) + if IsEvent(stream[position]) then [stream[position]] else []
  {
    var p := stream[position];
    assert stream[..position + 1] == stream[..position] + [p];
    SplitConcat(stream[..position], [p]);
    assert Events([p]) == if IsEvent(p) then [p] else [];
  }

  class ClientConnection {
    /** Everything the server sends on this connection, read up to `position`. */
    var stream: seq<Packet>
    var position: nat
    var sequence: nat
    var failed: bool
    var replies: map<Word16, Packet>
    var errors: map<Word16, Packet>
    var events: seq<Packet>
    var nextResource: Word32
    const resourceBase: Word32
    ghost var answers: seq<Answer>
    /** Sequence numbers of the responses handed to (or dropped by) the caller. */
    ghost var taken: set<Word16>
    ghost var eventsTaken: seq<Packet>

    constructor (resourceBase: Word32)
      requires resourceBase % (RESOURCE_MASK + 1) == 0
      ensures Valid() && sequence == 0 && !failed && stream == []
    {
      stream, position, sequence, failed := [], 0, 0, false;
      replies, errors, events := map[], map[], [];
      nextResource := 1;
      this.resourceBase := resourceBase;
      answers, taken, eventsTaken := [], {}, [];
    }

    ghost predicate Valid()
      reads this
    {
      && sequence == |answers| < SEQUENCES && position <= |stream|
      && Numbered(answers) && Responses(stream) == InOrder(answers)
      && Filed(stream[..position], answers, taken, replies, errors)
      && eventsTaken + events == Events(stream[..position])
    }

    /** Every packet still to come is one the client accepts. */
    ghost predicate Healthy()
      reads this
      requires position <= |stream|
    {
      forall k :: position <= k < |stream| ==> !Oversized(stream[k])
    }

    /** More packets that answer nothing arrive on the stream. */
    method Receive(arriving: seq<Packet>)
      requires Valid() && forall p :: p in arriving ==> IsEvent(p)
      modifies this`stream
      ensures Valid() && stream == old(stream) + arriving
    {
      SplitConcat(stream, arriving);
      NoResponses(arriving);
      stream := stream + arriving;
      assert stream[..position] == old(stream)[..position];
    }

    lemma NoResponses(packets: seq<Packet>)
      requires forall p :: p in packets ==> IsEvent(p)
      ensures Responses(packets) == []
    {
    }

    /** Sends one request. The server will answer as `answer` says, somewhere
        among the packets `arriving` that it adds to the stream. */
    method Send(writable: bool, ghost answer: Answer, arriving: seq<Packet>) returns (result: nat)
      requires Valid() && sequence + 1 < SEQUENCES
      requires Numbered(answers + [answer]) && Responses(arriving) == InOrder([answer])
      modifies this
      ensures Valid()
      ensures if old(failed) || !writable
              then result == 0 && failed && stream == old(stream) && answers == old(answers)
              else result == sequence == old(sequence) + 1 && answers == old(answers) + [answer] &&
                   stream == old(stream) + arriving && !failed
      ensures replies == old(replies) && errors == old(errors) && events == old(events) && position == old(position)
      ensures taken == old(taken) && eventsTaken == old(eventsTaken)
    {
      hide Filed, Numbered, InOrder, Responses, Events;
      if failed || !writable {
        failed := true;
        return 0;
      }
      SplitConcat(stream, arriving);
      InOrderAppend(answers, answer);
      FiledAppend(stream, position, answers, answer, taken, replies, errors);
      stream := stream + arriving;
      assert stream[..position] == old(stream)[..position];
      answers := answers + [answer];
      sequence := sequence + 1;
      return sequence;
    }

    /** Reads one packet and files it; fails at the end of the stream and on an
        announced body that is too large. */
    method ReadOne() returns (ok: bool)
      requires Valid()
      modifies this`position, this`failed, this`replies, this`errors, this`events
      ensures Valid()
      ensures ok == (old(position) < |stream| && !Oversized(stream[old(position)]))
      ensures failed == (old(failed) || !ok)
      ensures ok ==> position == old(position) + 1
      ensures !ok ==>
                position == old(position) && replies == old(replies) && errors == old(errors) && events == old(events)
      ensures ok ==> events == old(events) + if IsEvent(stream[old(position)]) then [stream[old(position)]] else []
    {
      hide Filed, Numbered, InOrder, Responses, Events, IsEvent;
      if position == |stream| {
        failed := true;
        return false;
      }
      var packet := stream[position];
      if Type(packet) == 1 || Type(packet) == 35 {
        var extra := packet.extraWords * 4;
        if extra > MAXIMUM_EXTRA {
          failed := true;
          return false;
        }
      }
      FileNext(packet);
      return true;
    }

    /** Moves past the packet read and files it. */
    method FileNext(packet: Packet)
      requires Valid() && position < |stream| && packet == stream[position]
      modifies this`position, this`replies, this`errors, this`events
      ensures Valid() && position == old(position) + 1
      ensures events == old(events) + if IsEvent(packet) then [packet] else []
    {
      hide Filed, InOrder, Responses, Numbered, Events, IsEvent, IsError, IsReply;
      FiledRead(stream, position, answers, taken, replies, errors);
      EventsRead(stream, position);
      ghost var added: seq<Packet> := if IsEvent(packet) then [packet] else [];
      assert eventsTaken + (events + added) == (eventsTaken + events) + added;
      position := position + 1;
      FilePacket(packet);
    }

    /** Files a packet by its type: errors and replies by number, events in order. */
    method FilePacket(packet: Packet)
      modifies this`replies, this`errors, this`events
      ensures errors == if IsError(packet) then old(errors)[packet.sequence := packet] else old(errors)
      ensures replies == if IsReply(packet) then old(replies)[packet.sequence := packet] else old(replies)
      ensures events == old(events) + if IsEvent(packet) then [packet] else []
    {
      if Type(packet) == 0 {
        errors := errors[packet.sequence := packet];
      } else if Type(packet) == 1 {
        replies := replies[packet.sequence := packet];
      } else {
        events := events + [packet];
      }
    }

    /** What the server makes of the request with this 16-bit key. */
    ghost function AnswerTo(key: Word16): Answer
      reads this
    {
      if 1 <= key <= |answers| then answers[key - 1] else Nothing
    }

    /** Waits for the reply or error to one request, filing everything else that
        comes in between. It never hands over a packet of another request, hands
        over what is held even on a connection that has failed, and on a healthy
        stream fails only if the server answers nothing. */
    method WaitReply(number: nat) returns (reply: Option<Packet>, error: Option<Packet>)
      requires Valid() && (failed ==> number % SEQUENCES in replies || number % SEQUENCES in errors)
      modifies this`position, this`failed, this`replies, this`errors, this`events, this`taken
      ensures Valid()
      ensures var key := number % SEQUENCES;
              && (reply.Some? ==> AnswerTo(key) == Replies(reply.value) && error == None && key !in old(taken))
              && (error.Some? ==> AnswerTo(key) == Raises(error.value) && reply == None && key !in old(taken))
              && taken == old(taken) + (if reply.Some? || error.Some? then {key} else {})
              && (failed <==> old(failed) || (reply == None && error == None))
      ensures var key := number % SEQUENCES;
              old(Healthy()) && !old(failed) ==> (failed <==> AnswerTo(key) == Nothing || key in old(taken))
      ensures old(number % SEQUENCES in replies || number % SEQUENCES in errors) ==>
                position == old(position) && (reply.Some? || error.Some?)
      ensures old(events) <= events && old(position) <= position
    {
      hide Filed, Numbered, InOrder, Responses, Events;
      var key: Word16 := number % SEQUENCES;
      while true
        invariant Valid() && failed == old(failed) && taken == old(taken)
        invariant old(key in replies || key in errors) ==>
                    position == old(position) && (key in replies || key in errors)
        invariant old(events) <= events && old(position) <= position
        decreases |stream| - position
      {
        WhereFiled(stream[..position], answers, taken, replies, errors, key);
        FiledOnce(stream[..position], answers, taken, replies, errors, key);
        if key in replies {
          FiledTake(stream[..position], answers, taken, replies, errors, key);
          reply, error := Some(replies[key]), None;
          replies := replies - {key};
          taken := taken + {key};
          return;
        }
        if key in errors {
          FiledTake(stream[..position], answers, taken, replies, errors, key);
          reply, error := None, Some(errors[key]);
          errors := errors - {key};
          taken := taken + {key};
          return;
        }
        var ok := ReadOne();
        if !ok {
          if position == |stream| {
            assert stream[..position] == stream;
            if AnswerTo(key) != Nothing {
              AllArrived(stream[..position], answers, key);
            }
          }
          return None, None;
        }
      }
    }

    /** The synchronising check: sends a request the server always replies to,
        waits for that reply, and looks for an error to an earlier request.
        It reports an error exactly when the server raised one that has not been
        handed over before. */
    method Check(target: nat, writable: bool, ghost sync: Answer, arriving: seq<Packet>) returns (error: Option<Packet>)
      requires Valid() && sequence + 1 < SEQUENCES && target <= sequence
      requires sync.Replies? && Numbered(answers + [sync]) && Responses(arriving) == InOrder([sync])
      modifies this
      ensures Valid()
      ensures error.Some? ==> AnswerTo(target) == Raises(error.value) && target !in old(taken)
      ensures !old(failed) && writable && old(Healthy()) && (forall p :: p in arriving ==> !Oversized(p)) ==>
                !failed && (error.Some? <==> old(AnswerTo(target)).Raises? && target !in old(taken))
      ensures !failed ==> taken == old(taken) + {sequence} + (if error.Some? then {target} else {})
      ensures old(events) <= events && eventsTaken == old(eventsTaken)
    {
      hide Filed, Numbered, InOrder, Responses, Events;
      TakenAreSent(stream[..position], answers, taken, replies, errors);
      var number := Send(writable, sync, arriving);
      if number == 0 {
        return None;
      }
      assert AnswerTo(number) == sync;
      var reply, _ := WaitReply(number);
      if reply == None {
        return None;
      }
      assert number in taken;
      WhereFiled(stream[..position], answers, taken, replies, errors, number);
      SyncReadsAll(stream, position, answers);
      WhereFiled(stream[..position], answers, taken, replies, errors, target);
      if AnswerTo(target) != Nothing {
        AllArrived(stream[..position], answers, target);
      }
      if target !in errors {
        return None;
      }
      FiledOnce(stream[..position], answers, taken, replies, errors, target);
      FiledTake(stream[..position], answers, taken, replies, errors, target);
      error := Some(errors[target]);
      errors := errors - {target};
      taken := taken + {target};
    }

    /** Takes the oldest event, reading at most one packet when none is held. */
    method PollEvent(ready: bool) returns (event: Option<Packet>)
      requires Valid()
      modifies this`position, this`failed, this`replies, this`errors, this`events, this`eventsTaken
      ensures Valid()
      ensures eventsTaken == old(eventsTaken) + (if event.Some? then [event.value] else [])
      ensures old(events) != [] ==>
                event == Some(old(events)[0]) && events == old(events)[1..] && position == old(position)
      ensures old(events) == [] ==>
                var takes := ready && old(position) < |stream| && !Oversized(stream[old(position)]);
                && position == old(position) + (if takes then 1 else 0)
                && event == (if takes && IsEvent(stream[old(position)]) then Some(stream[old(position)]) else None)
                && events == []
      ensures failed == (old(failed) || (old(events) == [] && ready &&
                                         !(old(position) < |stream| && !Oversized(stream[old(position)]))))
    {
      hide Filed, Numbered, InOrder, Responses, Events;
      if events != [] {
        event := Some(events[0]);
      } else {
        if !ready {
          return None;
        }
        var ok := ReadOne();
        if !ok || events == [] {
          return None;
        }
        event := Some(events[0]);
      }
      assert eventsTaken + events == (eventsTaken + [events[0]]) + events[1..];
      eventsTaken := eventsTaken + [events[0]];
      events := events[1..];
    }

    /** A fresh resource id: the counter, cut to the client's mask, above its base. */
    method GenerateId() returns (id: Word32)
      requires resourceBase % (RESOURCE_MASK + 1) == 0
      modifies this`nextResource
      ensures id == IdAt(resourceBase, old(nextResource))
      ensures nextResource == (old(nextResource) + 1) % 0x1_0000_0000
    {
      id := resourceBase + nextResource % (RESOURCE_MASK + 1);
      nextResource := (nextResource + 1) % 0x1_0000_0000;
    }
  }

  /** The base has none of the mask's bits, so joining the two adds them. */
  function IdAt(base: Word32, counter: Word32): Word32
    requires base % (RESOURCE_MASK + 1) == 0
  {
    base + counter % (RESOURCE_MASK + 1)
  }

  /** Two calls return the same id exactly when a whole number of mask-sized
      rounds lies between them. */
  lemma IdsRepeat(base: Word32, a: Word32, b: Word32)
    requires base % (RESOURCE_MASK + 1) == 0
    ensures IdAt(base, a) == IdAt(base, b) <==> (a - b) % (RESOURCE_MASK + 1) == 0
  {
  }

  /** Once the reply to the last request is read, so is every earlier response. */
  lemma {:induction false} SyncReadsAll(stream: seq<Packet>, position: nat, answers: seq<Answer>)
    requires position <= |stream| &&
             Responses(stream) == InOrder(answers) && Numbered(answers) && 0 < |answers| < SEQUENCES
    requires Arrived(stream[..position], answers, |answers|)
    ensures Responses(stream[..position]) == InOrder(answers)
  {
    assert stream == stream[..position] + stream[position..];
    SplitConcat(stream[..position], stream[position..]);
    PrefixWithLast(stream[..position], stream[position..], answers);
  }

  lemma TakenAreSent(read: seq<Packet>, answers: seq<Answer>, taken: set<Word16>,
                     replies: map<Word16, Packet>, errors: map<Word16, Packet>)
    requires Filed(read, answers, taken, replies, errors)
    ensures forall k :: k in taken ==> 1 <= k <= |answers|
  {
  }

  /** Every response read is in exactly one place: handed over, or held as a
      reply, or held as an error, under its own sequence number. */
  lemma {:induction false} ReadPartition(stream: seq<Packet>, position: nat, answers: seq<Answer>, taken: set<Word16>,
                                         replies: map<Word16, Packet>, errors: map<Word16, Packet>, p: Packet)
    requires position <= |stream| && Responses(stream) == InOrder(answers) && Numbered(answers) && |answers| < SEQUENCES
    requires Filed(stream[..position], answers, taken, replies, errors)
    requires p in stream[..position] && !IsEvent(p)
    ensures var k := p.sequence;
            || (k in taken && k !in replies && k !in errors)
            || (k !in taken && k in replies && replies[k] == p && k !in errors)
            || (k !in taken && k !in replies && k in errors && errors[k] == p)
  {
    ReadMember(stream, position, answers, p);
    assert Arrived(stream[..position], answers, p.sequence);
  }

  /** A response that has arrived is in the map of its kind, unless it was taken. */
  lemma WhereFiled(read: seq<Packet>, answers: seq<Answer>, taken: set<Word16>, replies: map<Word16, Packet>,
                   errors: map<Word16, Packet>, k: Word16)
    requires Filed(read, answers, taken, replies, errors)
    ensures k in replies ==> 1 <= k <= |answers| && answers[k - 1] == Replies(replies[k]) && k !in taken
    ensures k in errors ==> 1 <= k <= |answers| && answers[k - 1] == Raises(errors[k]) && k !in taken
    ensures Arrived(read, answers, k) ==> k in replies || k in errors || k in taken
    ensures k in taken ==> Arrived(read, answers, k)
  {
  }
}
