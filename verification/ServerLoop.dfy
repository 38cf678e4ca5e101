/** The accept, dispatch and remove loop of server.cpp. */
module ServerLoop {

  const BLOCK: nat := 0x20_0000
  const MAXIMUM_CLIENTS: nat := 127

  /** A connected client: the slot it holds. Its id is its resource base. */
  datatype Client = Client(slot: nat)

  function ClientId(slot: nat): nat { (slot + 1) * BLOCK }

  /** Ids of one client are its base and the BLOCK - 1 numbers above it. */
  predicate InBlock(slot: nat, id: nat) { ClientId(slot) <= id < ClientId(slot) + BLOCK }

  lemma BlocksAreDisjoint(a: nat, b: nat, id: nat)
    requires a < MAXIMUM_CLIENTS && b < MAXIMUM_CLIENTS && a != b && InBlock(a, id)
    ensures !InBlock(b, id) && 0 < id < 0x1000_0000
  {
  }

  /** What poll reports for one client. */
  datatype Ready = Ready(readable: bool, writable: bool, hangup: bool, error: bool, invalid: bool)

  datatype GrabMove = Keep | Take | Drop

  /** What one call into a connection does to the shared state. */
  datatype Effect = Effect(ok: bool, grab: GrabMove, finishes: bool, kills: set<nat>)

  /** The parts of the shared state the loop looks at. */
  datatype Shared = Shared(grab: nat, terminating: set<nat>, finished: set<nat>)

  /** A client can take the grab only when it is free, and drop only its own;
      only a live client can be marked for termination. */
  function Apply(sh: Shared, live: set<nat>, id: nat, e: Effect): Shared {
    Shared(match e.grab {
             case Keep => sh.grab
             case Take => if sh.grab == 0 || sh.grab == id then id else sh.grab
             case Drop => if sh.grab == id then 0 else sh.grab
           },
           sh.terminating + e.kills * live,
           if e.finishes then sh.finished + {id} else sh.finished)
  }

  /** One client's turn: whether it was flushed and read, and whether it is to be removed. */
  datatype Turn = Turn(index: nat, id: nat, flushed: bool, read: bool, remove: bool)

  function MayProcess(sh: Shared, id: nat): bool { sh.grab == 0 || sh.grab == id }

  /** The shared state after a call that was made or not. */
  function Called(sh: Shared, live: set<nat>, id: nat, made: bool, e: Effect): Shared {
    if made then Apply(sh, live, id, e) else sh
  }

  /** The turn of one client, with the states before it, between its two calls and after it. */
  predicate TurnRule(before: Shared, middle: Shared, after: Shared, t: Turn, live: set<nat>, ev: Ready, flush: Effect,
                     read: Effect) {
    && middle == Called(before, live, t.id, t.flushed, flush)
    && after == Called(middle, live, t.id, t.read, read)
    && (t.flushed <==> !ev.invalid && MayProcess(before, t.id) && ev.writable)
    && (t.read <==> !ev.invalid && MayProcess(before, t.id) && (t.flushed ==> flush.ok) && t.id !in middle.finished &&
                    (ev.readable || ev.hangup))
    && (t.remove <==> ev.invalid || (t.flushed && !flush.ok) || (t.read && !read.ok) || OnlyError(ev) ||
                      t.id in after.finished || t.id in after.terminating ||
                      (ev.hangup && (!ev.writable || !MayProcess(before, t.id))))
  }

  predicate OnlyError(ev: Ready) { ev.error && !ev.readable && !ev.writable && !ev.hangup }

  // ---- Dispatch order

  /** `order` lists 0..n once each, higher priorities first, ties in index order. */
  predicate StableOrder(order: seq<nat>, priorities: seq<int>) {
    && |order| == |priorities|
    && (forall k :: 0 <= k < |order| ==> order[k] < |priorities|)
    && (forall i, j :: 0 <= i < j < |order| ==> Before(order[i], order[j], priorities))
  }

  predicate Before(a: nat, b: nat, priorities: seq<int>)
    requires a < |priorities| && b < |priorities|
  {
    priorities[a] > priorities[b] || (priorities[a] == priorities[b] && a < b)
  }

  /** The library's stable sort by descending priority. */
  method SortByPriority(priorities: seq<int>) returns (order: seq<nat>)
    ensures StableOrder(order, priorities)
  {
    order := [];
    for n := 0 to |priorities|
      invariant |order| == n
      invariant forall k :: 0 <= k < n ==> order[k] < n
      invariant forall i, j :: 0 <= i < j < n ==> Before(order[i], order[j], priorities)
    {
      var k: nat := n;
      while k > 0 && priorities[order[k - 1]] < priorities[n]
        invariant k <= n
        invariant forall m :: k <= m < n ==> Before(n, order[m], priorities)
      {
        k := k - 1;
      }
      InsertBefore(order, priorities, n, k);
      order := order[..k] + [n] + order[k..];
    }
  }

  lemma InsertBefore(order: seq<nat>, priorities: seq<int>, n: nat, k: nat)
    requires |order| == n < |priorities| && k <= n
    requires forall m :: 0 <= m < n ==> order[m] < n
    requires forall i, j :: 0 <= i < j < n ==> Before(order[i], order[j], priorities)
    requires forall m :: k <= m < n ==> Before(n, order[m], priorities)
    requires k > 0 ==> priorities[order[k - 1]] >= priorities[n]
    ensures var longer := order[..k] + [n] + order[k..];
            forall i, j :: 0 <= i < j < n + 1 ==> Before(longer[i], longer[j], priorities)
  {
    forall m | 0 <= m < k ensures Before(order[m], n, priorities) {
      if m < k - 1 {
        assert Before(order[m], order[k - 1], priorities);
      }
    }
    var longer := order[..k] + [n] + order[k..];
    forall i, j | 0 <= i < j < n + 1 ensures Before(longer[i], longer[j], priorities) {
      assert longer[i] == if i < k then order[i] else if i == k then n else order[i - 1];
      assert longer[j] == if j < k then order[j] else if j == k then n else order[j - 1];
    }
  }

  /** Such an order names every index exactly once, and only one list is one. */
  lemma StableOrderIsPermutation(order: seq<nat>, priorities: seq<int>)
    requires StableOrder(order, priorities)
    ensures forall i, j :: 0 <= i < j < |order| ==> order[i] != order[j]
    ensures forall index: nat :: index < |priorities| ==> index in order
  {
    forall i, j | 0 <= i < j < |order| ensures order[i] != order[j] {
      assert Before(order[i], order[j], priorities);
    }
    OnceEach(order, |order|);
  }

  /** n different numbers below n are all of them. */
  lemma {:induction false} OnceEach(list: seq<nat>, n: nat)
    requires |list| == n && (forall k :: 0 <= k < n ==> list[k] < n)
    requires forall i, j :: 0 <= i < j < n ==> list[i] != list[j]
    ensures forall index: nat :: index < n ==> index in list
  {
    if n > 0 {
      if n - 1 !in list {
        TooMany(list, n - 1);
      }
      var k :| 0 <= k < n && list[k] == n - 1;
      var rest := list[..k] + list[k + 1..];
      forall i | 0 <= i < n - 1 ensures rest[i] < n - 1 {
        assert rest[i] == if i < k then list[i] else list[i + 1];
      }
      OnceEach(rest, n - 1);
      forall index: nat | index < n ensures index in list {
        if index < n - 1 {
          assert index in rest;
        }
      }
    }
  }

  /** Pigeonhole: more than n different numbers below n do not exist. */
  lemma {:induction false} TooMany(list: seq<nat>, n: nat)
    requires |list| > n && (forall k :: 0 <= k < |list| ==> list[k] < n)
    requires forall i, j :: 0 <= i < j < |list| ==> list[i] != list[j]
    ensures false
  {
    assert list[0] < n;
    if n > 0 {
      if k: nat :| k < |list| && list[k] == n - 1 {
        var rest := list[..k] + list[k + 1..];
        forall i | 0 <= i < |rest| ensures rest[i] < n - 1 {
          assert rest[i] == if i < k then list[i] else list[i + 1];
        }
        TooMany(rest, n - 1);
      } else {
        TooMany(list, n - 1);
      }
    }
  }

  // ---- A round's turns

  /** What the outside decides in one round: whether each waiting connection
      passes its preparation, and, by client id, what poll reports, the sync
      priority and what flushing and reading the client does. */
  datatype RoundInput = RoundInput(
    arrivals: seq<bool>,
    ready: nat -> Ready,
    priority: nat -> int,
    flush: nat -> Effect,
    read: nat -> Effect)

  /** The turns taken in a round, with the shared state before each of them and
      after the last, and between the two calls of each. */
  ghost predicate Dispatched(states: seq<Shared>, middles: seq<Shared>, turns: seq<Turn>, ids: seq<nat>,
                             live: set<nat>, input: RoundInput) {
    && |states| == |turns| + 1 && |middles| == |turns|
    && (forall k :: 0 <= k < |turns| ==>
          turns[k].index < |ids| && TurnIs(states, middles, turns, k, ids, live, input))
  }

  ghost predicate TurnIs(states: seq<Shared>, middles: seq<Shared>, turns: seq<Turn>, k: nat, ids: seq<nat>,
                         live: set<nat>, input: RoundInput)
    requires k < |turns| == |middles| && |states| == |turns| + 1 && turns[k].index < |ids|
  {
    && turns[k].id == ids[turns[k].index]
    && TurnRule(states[k], middles[k], states[k + 1], turns[k], live, input.ready(turns[k].id),
                input.flush(turns[k].id), input.read(turns[k].id))
  }

  /** One turn: it touches a client only when no other holds the grab, also when the
      grab moves while it is flushed; it leaves another client's grab alone; marks
      of termination only grow, and the turn of a marked client removes it. */
  lemma TurnFacts(before: Shared, middle: Shared, after: Shared, t: Turn, live: set<nat>, ev: Ready, flush: Effect,
                  read: Effect)
    requires TurnRule(before, middle, after, t, live, ev, flush, read)
    ensures t.read ==> middle.grab == 0 || middle.grab == t.id
    ensures before.grab != 0 && before.grab != t.id ==> !t.flushed && !t.read && after == before
    ensures after.grab in {0, before.grab, t.id}
    ensures before.terminating <= after.terminating <= before.terminating + live
    ensures after.finished <= before.finished + {t.id}
    ensures t.id in after.terminating || t.id in after.finished ==> t.remove
    ensures t.read && read.grab == Take ==> after.grab == t.id
    ensures t.read && read.grab == Drop ==> after.grab == 0
    ensures t.read ==> read.kills * live <= after.terminating && (read.finishes ==> t.id in after.finished)
  {
  }

  /** Whoever holds the grab after its turn, perhaps taken in it, holds it for the
      rest of the round, and nobody behind it is flushed or read. */
  lemma {:induction false} GrabLastsTheRound(states: seq<Shared>, middles: seq<Shared>, turns: seq<Turn>,
                                             ids: seq<nat>, live: set<nat>, input: RoundInput, k: nat, later: nat)
    requires Dispatched(states, middles, turns, ids, live, input)
    requires forall i, j :: 0 <= i < j < |turns| ==> ids[turns[i].index] != ids[turns[j].index]
    requires k < later <= |turns|
    requires states[k + 1].grab == ids[turns[k].index] != 0
    ensures states[later].grab == ids[turns[k].index]
    ensures forall m :: k < m < later ==> !turns[m].flushed && !turns[m].read
  {
    if k + 1 < later {
      GrabLastsTheRound(states, middles, turns, ids, live, input, k, later - 1);
      var id := ids[turns[later - 1].index];
      assert TurnIs(states, middles, turns, later - 1, ids, live, input);
      assert ids[turns[k].index] != id;
      TurnFacts(states[later - 1], middles[later - 1], states[later], turns[later - 1], live, input.ready(id),
                input.flush(id), input.read(id));
    }
  }

  /** A grab held when the round starts by a client that is not dispatched before
      turn `later` is still held then, and nobody was flushed or read. */
  lemma {:induction false} GrabWaitsForItsHolder(states: seq<Shared>, middles: seq<Shared>, turns: seq<Turn>,
                                                 ids: seq<nat>, live: set<nat>, input: RoundInput, later: nat)
    requires Dispatched(states, middles, turns, ids, live, input) && later <= |turns|
    requires states[0].grab != 0 && forall m :: 0 <= m < later ==> ids[turns[m].index] != states[0].grab
    ensures states[later].grab == states[0].grab
    ensures forall m :: 0 <= m < later ==> !turns[m].flushed && !turns[m].read
  {
    if later > 0 {
      GrabWaitsForItsHolder(states, middles, turns, ids, live, input, later - 1);
      var id := ids[turns[later - 1].index];
      assert TurnIs(states, middles, turns, later - 1, ids, live, input);
      TurnFacts(states[later - 1], middles[later - 1], states[later], turns[later - 1], live, input.ready(id),
                input.flush(id), input.read(id));
    }
  }

  /** A mark of termination stands until the client is removed: a client marked
      before its turn is flagged by it. */
  lemma {:induction false} MarksStand(states: seq<Shared>, middles: seq<Shared>, turns: seq<Turn>,
                                      ids: seq<nat>, live: set<nat>, input: RoundInput, from: nat, to: nat)
    requires Dispatched(states, middles, turns, ids, live, input) && from <= to <= |turns|
    ensures states[from].terminating <= states[to].terminating
    ensures forall k :: from <= k < to && ids[turns[k].index] in states[from].terminating ==> turns[k].remove
  {
    if from < to {
      MarksStand(states, middles, turns, ids, live, input, from, to - 1);
      var id := ids[turns[to - 1].index];
      assert TurnIs(states, middles, turns, to - 1, ids, live, input);
      TurnFacts(states[to - 1], middles[to - 1], states[to], turns[to - 1], live, input.ready(id), input.flush(id),
                input.read(id));
    }
  }

  // ---- Removal

  /** The clients not flagged, in their order. */
  function Kept(clients: seq<Client>, remove: seq<bool>): seq<Client>
    requires |clients| == |remove|
  {
    if clients == [] then []
    else (if remove[0] then [] else [clients[0]]) + Kept(clients[1..], remove[1..])
  }

  /** A client is kept exactly when it has a place that is not flagged. */
  lemma {:induction false} KeptIff(clients: seq<Client>, remove: seq<bool>, c: Client)
    requires |clients| == |remove|
    ensures c in Kept(clients, remove) <==> exists i :: 0 <= i < |clients| && clients[i] == c && !remove[i]
  {
    if clients != [] {
      KeptIff(clients[1..], remove[1..], c);
      if i :| 0 <= i < |clients| && clients[i] == c && !remove[i] {
        if i > 0 {
          assert clients[1..][i - 1] == c && !remove[1..][i - 1];
        }
      }
      if i :| 0 <= i < |clients| - 1 && clients[1..][i] == c && !remove[1..][i] {
        assert clients[i + 1] == c && !remove[i + 1];
      }
    }
  }

  /** Those kept stay in their order. */
  lemma {:induction false} KeptInOrder(clients: seq<Client>, remove: seq<bool>, i: nat, j: nat) returns (p: nat, q: nat)
    requires i < j < |clients| == |remove| && !remove[i] && !remove[j]
    ensures p < q < |Kept(clients, remove)|
    ensures Kept(clients, remove)[p] == clients[i] && Kept(clients, remove)[q] == clients[j]
  {
    var rest := Kept(clients[1..], remove[1..]);
    if i > 0 {
      p, q := KeptInOrder(clients[1..], remove[1..], i - 1, j - 1);
      if !remove[0] {
        p, q := p + 1, q + 1;
      }
    } else {
      KeptIff(clients[1..], remove[1..], clients[j]);
      assert clients[1..][j - 1] == clients[j] && !remove[1..][j - 1];
      var at :| 0 <= at < |rest| && rest[at] == clients[j];
      p, q := 0, at + 1;
    }
  }

  lemma NothingKept()
    ensures Kept([], []) == []
  {
  }

  lemma KeptStep(clients: seq<Client>, remove: seq<bool>, at: nat)
    requires at < |clients| == |remove|
    ensures Kept(clients[at..], remove[at..]) ==
            (if remove[at] then [] else [clients[at]]) + Kept(clients[at + 1..], remove[at + 1..])
  {
    assert clients[at..][1..] == clients[at + 1..] && remove[at..][1..] == remove[at + 1..];
  }

  /** Removal from the last to the first, one place further. */
  lemma RemovalGoesOn(all: seq<Client>, remove: seq<bool>, at: nat, now: seq<Client>)
    requires at < |all| == |remove| && now == all[..at + 1] + Kept(all[at + 1..], remove[at + 1..])
    ensures at < |now|
    ensures all[..at] + Kept(all[at..], remove[at..]) == if remove[at] then now[..at] + now[at + 1..] else now
  {
    KeptStep(all, remove, at);
    hide Kept;
    assert now[at] == all[at];
  }

  function Ids(clients: seq<Client>): (r: seq<nat>)
    ensures |r| == |clients| && forall i :: 0 <= i < |r| ==> r[i] == ClientId(clients[i].slot)
  {
    seq(|clients|, i requires 0 <= i < |clients| => ClientId(clients[i].slot))
  }

  function Live(clients: seq<Client>): set<nat> { set i | 0 <= i < |clients| :: ClientId(clients[i].slot) }

  /** Losing a client frees its grab, its mark of termination and its end. */
  function Disconnected(sh: Shared, id: nat): Shared {
    Shared(if sh.grab == id then 0 else sh.grab, sh.terminating - {id}, sh.finished - {id})
  }

  /** What is left of the shared state for the clients that stay. */
  function Among(sh: Shared, live: set<nat>): Shared {
    Shared(if sh.grab in live then sh.grab else 0, sh.terminating * live, sh.finished * live)
  }

  lemma AmongAll(maximum: nat, clients: seq<Client>, slots: seq<bool>, sh: Shared)
    requires Consistent(maximum, clients, slots, sh)
    ensures Among(sh, Live(clients)) == sh
  {
  }

  /** Losing one client more. */
  lemma AmongFewer(sh: Shared, clients: seq<Client>, at: nat)
    requires at < |clients| && forall i, j :: 0 <= i < j < |clients| ==> clients[i].slot != clients[j].slot
    ensures Disconnected(Among(sh, Live(clients)), ClientId(clients[at].slot)) ==
            Among(sh, Live(clients[..at] + clients[at + 1..]))
  {
    OthersStay(clients, at);
    hide Live, ClientId, Held;
  }

  /** A slot is used exactly when one live client, and only one, holds it; the
      grab, the marks and the ends belong to live clients. */
  ghost predicate Consistent(maximum: nat, clients: seq<Client>, slots: seq<bool>, sh: Shared) {
    && |slots| == maximum <= MAXIMUM_CLIENTS
    && (forall i :: 0 <= i < |clients| ==> clients[i].slot < maximum && slots[clients[i].slot])
    && (forall i, j :: 0 <= i < j < |clients| ==> clients[i].slot != clients[j].slot)
    && (forall s :: 0 <= s < maximum && slots[s] ==> Held(clients, s))
    && (sh.grab == 0 || sh.grab in Live(clients))
    && sh.terminating <= Live(clients) && sh.finished <= Live(clients)
  }

  ghost predicate Held(clients: seq<Client>, s: nat) { exists i :: 0 <= i < |clients| && clients[i].slot == s }

  /** There are never more clients than slots. */
  lemma ClientsFit(maximum: nat, clients: seq<Client>, slots: seq<bool>, sh: Shared)
    requires Consistent(maximum, clients, slots, sh)
    ensures |slots| == maximum && |clients| <= maximum
    ensures |clients| == maximum <==> forall s :: 0 <= s < maximum ==> slots[s]
  {
    var list := seq(|clients|, i requires 0 <= i < |clients| => clients[i].slot);
    if |clients| > maximum {
      TooMany(list, maximum);
    } else if |clients| == maximum {
      OnceEach(list, maximum);
      forall s: nat | s < maximum ensures slots[s] {
        assert s in list;
      }
    } else if forall s :: 0 <= s < maximum ==> slots[s] {
      var holder := seq(maximum, s requires 0 <= s < maximum => HolderOf(clients, s));
      forall s, t | 0 <= s < t < maximum ensures holder[s] != holder[t] {
        assert Held(clients, s) && Held(clients, t);
        assert clients[holder[s]].slot == s && clients[holder[t]].slot == t;
      }
      forall s | 0 <= s < maximum ensures holder[s] < |clients| {
        assert Held(clients, s);
      }
      TooMany(holder, |clients|);
    }
  }

  ghost function HolderOf(clients: seq<Client>, s: nat): (i: nat)
    ensures Held(clients, s) ==> i < |clients| && clients[i].slot == s
  {
    if Held(clients, s) then var i :| 0 <= i < |clients| && clients[i].slot == s; i else 0
  }

  /** Without the client at `at`, every other slot and id is still held. */
  lemma OthersStay(clients: seq<Client>, at: nat)
    requires at < |clients|
    requires forall i, j :: 0 <= i < j < |clients| ==> clients[i].slot != clients[j].slot
    ensures var rest := clients[..at] + clients[at + 1..];
            && (forall s: nat :: s != clients[at].slot && Held(clients, s) ==> Held(rest, s))
            && Live(rest) == Live(clients) - {ClientId(clients[at].slot)}
  {
    var rest := clients[..at] + clients[at + 1..];
    forall s: nat | s != clients[at].slot && Held(clients, s) ensures Held(rest, s) {
      var i :| 0 <= i < |clients| && clients[i].slot == s;
      assert rest[if i < at then i else i - 1].slot == s;
    }
    forall id | id in Live(clients) && id != ClientId(clients[at].slot) ensures id in Live(rest) {
      var i :| 0 <= i < |clients| && ClientId(clients[i].slot) == id;
      assert rest[if i < at then i else i - 1] == clients[i];
    }
    forall id | id in Live(rest) ensures id in Live(clients) && id != ClientId(clients[at].slot) {
      var i :| 0 <= i < |rest| && ClientId(rest[i].slot) == id;
      assert rest[i] == clients[if i < at then i else i + 1];
    }
  }

  lemma RemovingKeepsConsistent(maximum: nat, clients: seq<Client>, slots: seq<bool>, sh: Shared, at: nat)
    requires Consistent(maximum, clients, slots, sh) && at < |clients|
    ensures Consistent(maximum, clients[..at] + clients[at + 1..], slots[clients[at].slot := false],
                       Disconnected(sh, ClientId(clients[at].slot)))
  {
    var rest := clients[..at] + clients[at + 1..];
    OthersStay(clients, at);
    hide Held, Live, ClientId;
    forall i | 0 <= i < |rest|
      ensures rest[i] == clients[if i < at then i else i + 1]
    {
    }
  }

  lemma AddingKeepsConsistent(maximum: nat, clients: seq<Client>, slots: seq<bool>, sh: Shared, s: nat)
    requires Consistent(maximum, clients, slots, sh) && s < maximum && !slots[s]
    ensures Consistent(maximum, clients + [Client(s)], slots[s := true], sh)
  {
    var more := clients + [Client(s)];
    forall t | 0 <= t < maximum && slots[s := true][t] ensures Held(more, t) {
      if t == s {
        assert more[|clients|].slot == s;
      } else {
        assert Held(clients, t);
        var i :| 0 <= i < |clients| && clients[i].slot == t;
        assert more[i].slot == t;
      }
    }
    forall id | id in Live(clients) ensures id in Live(more) {
      var i :| 0 <= i < |clients| && ClientId(clients[i].slot) == id;
      assert more[i] == clients[i];
    }
  }

  /** The clients from `first` on took the lowest slot that was free when they came. */
  ghost predicate LowestSlots(clients: seq<Client>, first: nat) {
    forall i, s: nat :: first <= i < |clients| && s < clients[i].slot ==> Held(clients[..i], s)
  }

  lemma NobodyNew(clients: seq<Client>)
    ensures LowestSlots(clients, |clients|)
  {
  }

  lemma LowestNext(maximum: nat, clients: seq<Client>, slots: seq<bool>, sh: Shared, first: nat, slot: nat)
    requires Consistent(maximum, clients, slots, sh) && LowestSlots(clients, first)
    requires slot <= maximum && forall s :: 0 <= s < slot ==> slots[s]
    ensures LowestSlots(clients + [Client(slot)], first)
  {
    hide Live, Held;
    var more := clients + [Client(slot)];
    forall i, s: nat | first <= i < |more| && s < more[i].slot ensures Held(more[..i], s) {
      assert more[..i] == clients[..i];
      assert clients[..|clients|] == clients;
    }
  }

  lemma DispatchKeepsConsistent(maximum: nat, clients: seq<Client>, slots: seq<bool>, states: seq<Shared>,
                                middles: seq<Shared>, turns: seq<Turn>, ids: seq<nat>, input: RoundInput, k: nat)
    requires Dispatched(states, middles, turns, ids, Live(clients), input) && k < |turns|
    requires Consistent(maximum, clients, slots, states[k]) && ids[turns[k].index] in Live(clients)
    ensures Consistent(maximum, clients, slots, states[k + 1])
  {
    var id := ids[turns[k].index];
    assert TurnIs(states, middles, turns, k, ids, Live(clients), input);
    TurnFacts(states[k], middles[k], states[k + 1], turns[k], Live(clients), input.ready(id), input.flush(id),
              input.read(id));
  }

  lemma NextTurn(states: seq<Shared>, middles: seq<Shared>, turns: seq<Turn>, ids: seq<nat>, live: set<nat>,
                 input: RoundInput, middle: Shared, after: Shared, turn: Turn)
    requires Dispatched(states, middles, turns, ids, live, input)
    requires turn.index < |ids| && turn.id == ids[turn.index]
    requires TurnRule(states[|turns|], middle, after, turn, live, input.ready(turn.id), input.flush(turn.id),
                      input.read(turn.id))
    ensures Dispatched(states + [after], middles + [middle], turns + [turn], ids, live, input)
  {
    hide TurnRule;
    var s, m, t := states + [after], middles + [middle], turns + [turn];
    forall k | 0 <= k < |t| ensures t[k].index < |ids| && TurnIs(s, m, t, k, ids, live, input) {
      if k < |turns| {
        assert TurnIs(states, middles, turns, k, ids, live, input);
      }
    }
  }

  // ---- The loop

  function CountOf(flags: seq<bool>): nat {
    if flags == [] then 0 else CountOf(flags[..|flags| - 1]) + if flags[|flags| - 1] then 1 else 0
  }

  function Indices(turns: seq<Turn>): (r: seq<nat>)
    ensures |r| == |turns| && forall k :: 0 <= k < |r| ==> r[k] == turns[k].index
  {
    seq(|turns|, k requires 0 <= k < |turns| => turns[k].index)
  }

  /** The sync priorities of the clients that were polled. */
  function Priorities(clients: seq<Client>, input: RoundInput): (r: seq<int>)
    ensures |r| == |clients| && forall k :: 0 <= k < |r| ==> r[k] == input.priority(ClientId(clients[k].slot))
  {
    seq(|clients|, k requires 0 <= k < |clients| => input.priority(ClientId(clients[k].slot)))
  }

  /** The flags after dispatch are the verdicts of the turns; who had none stays. */
  predicate Flagged(remove: seq<bool>, turns: seq<Turn>, clients: seq<Client>) {
    && |turns| <= |remove| == |clients|
    && (forall k :: 0 <= k < |turns| ==> turns[k].index < |clients| && remove[turns[k].index] == turns[k].remove)
    && forall i :: |turns| <= i < |remove| ==> !remove[i]
  }

  /** No id in the block of one client is in the block of another. */
  ghost predicate BlocksApart(clients: seq<Client>) {
    forall i, j, id: nat :: 0 <= i < j < |clients| && InBlock(clients[i].slot, id) ==> !InBlock(clients[j].slot, id)
  }

  /** In a consistent state the clients' blocks are disjoint. */
  lemma ConsistentBlocks(maximum: nat, clients: seq<Client>, slots: seq<bool>, sh: Shared)
    requires Consistent(maximum, clients, slots, sh)
    ensures BlocksApart(clients)
  {
    forall i, j, id: nat | 0 <= i < j < |clients| && InBlock(clients[i].slot, id)
      ensures !InBlock(clients[j].slot, id) {
      BlocksAreDisjoint(clients[i].slot, clients[j].slot, id);
    }
  }

  lemma ConsistentFacts(maximum: nat, clients: seq<Client>, slots: seq<bool>, sh: Shared)
    requires Consistent(maximum, clients, slots, sh)
    ensures sh.terminating <= Live(clients)
    ensures forall i, j :: 0 <= i < j < |clients| ==> clients[i].slot != clients[j].slot
  {
  }

  /** Every polled client marked for termination is gone after the round. */
  lemma {:induction false} MarkedAreGone(joined: seq<Client>, turns: seq<Turn>, remove: seq<bool>, states: seq<Shared>,
                                         middles: seq<Shared>, input: RoundInput, id: nat)
    requires Dispatched(states, middles, turns, Ids(joined), Live(joined), input) && Flagged(remove, turns, joined)
    requires forall i, j :: 0 <= i < j < |joined| ==> joined[i].slot != joined[j].slot
    requires StableOrder(Indices(turns), Priorities(joined[..|turns|], input))
    requires id in states[0].terminating && id in Live(joined[..|turns|])
    ensures id !in Live(Kept(joined, remove))
  {
    var at :| 0 <= at < |turns| && ClientId(joined[at].slot) == id;
    StableOrderIsPermutation(Indices(turns), Priorities(joined[..|turns|], input));
    assert at in Indices(turns);
    var k :| 0 <= k < |turns| && Indices(turns)[k] == at;
    MarksStand(states, middles, turns, Ids(joined), Live(joined), input, 0, |turns|);
    assert remove[at];
    var kept := Kept(joined, remove);
    if id in Live(kept) {
      var m :| 0 <= m < |kept| && ClientId(kept[m].slot) == id;
      KeptIff(joined, remove, kept[m]);
    }
  }

  /** Over a round of one turn each, nobody after a client that ends its turn with
      the grab is flushed or read. */
  lemma NobodyBehindTheGrab(joined: seq<Client>, turns: seq<Turn>, states: seq<Shared>, middles: seq<Shared>,
                            input: RoundInput)
    requires Dispatched(states, middles, turns, Ids(joined), Live(joined), input) && |turns| <= |joined|
    requires forall i, j :: 0 <= i < j < |joined| ==> joined[i].slot != joined[j].slot
    requires StableOrder(Indices(turns), Priorities(joined[..|turns|], input))
    ensures forall k, m :: 0 <= k < m < |turns| && states[k + 1].grab == turns[k].id ==>
              !turns[m].flushed && !turns[m].read
  {
    var ids := Ids(joined);
    StableOrderIsPermutation(Indices(turns), Priorities(joined[..|turns|], input));
    forall i, j | 0 <= i < j < |turns| ensures ids[turns[i].index] != ids[turns[j].index] {
      assert Indices(turns)[i] != Indices(turns)[j];
    }
    forall k, m | 0 <= k < m < |turns| && states[k + 1].grab == turns[k].id
      ensures !turns[m].flushed && !turns[m].read {
      assert TurnIs(states, middles, turns, k, ids, Live(joined), input);
      GrabLastsTheRound(states, middles, turns, ids, Live(joined), input, k, m + 1);
    }
  }

  /** The dispatch order, by the turns themselves. */
  lemma TurnsInOrder(joined: seq<Client>, turns: seq<Turn>, input: RoundInput)
    requires |turns| <= |joined| && StableOrder(Indices(turns), Priorities(joined[..|turns|], input))
    requires forall k :: 0 <= k < |turns| ==>
               turns[k].index < |joined| && turns[k].id == ClientId(joined[turns[k].index].slot)
    ensures forall k :: 0 <= k < |turns| ==> turns[k].index < |turns|
    ensures forall i, j :: 0 <= i < j < |turns| ==>
              || input.priority(turns[i].id) > input.priority(turns[j].id)
              || (input.priority(turns[i].id) == input.priority(turns[j].id) && turns[i].index < turns[j].index)
  {
    var order, priorities := Indices(turns), Priorities(joined[..|turns|], input);
    forall k | 0 <= k < |turns| ensures turns[k].index < |turns| {
      assert order[k] < |priorities|;
    }
    forall i, j | 0 <= i < j < |turns|
      ensures || input.priority(turns[i].id) > input.priority(turns[j].id)
              || (input.priority(turns[i].id) == input.priority(turns[j].id) && turns[i].index < turns[j].index)
    {
      assert Before(order[i], order[j], priorities);
    }
  }

  /** A client is gone exactly when its turn said so; who had none stays. */
  lemma {:induction false} FlaggedAreGone(joined: seq<Client>, turns: seq<Turn>, remove: seq<bool>)
    requires Flagged(remove, turns, joined)
    requires forall i, j :: 0 <= i < j < |joined| ==> joined[i].slot != joined[j].slot
    requires forall k :: 0 <= k < |turns| ==>
               turns[k].index < |joined| && turns[k].id == ClientId(joined[turns[k].index].slot)
    ensures |remove| == |joined|
    ensures forall k :: 0 <= k < |turns| ==> (turns[k].id !in Live(Kept(joined, remove)) <==> turns[k].remove)
    ensures forall i :: |turns| <= i < |joined| ==> joined[i] in Kept(joined, remove)
  {
    hide Kept;
    forall k | 0 <= k < |turns| ensures turns[k].id !in Live(Kept(joined, remove)) <==> turns[k].remove {
      KeptOrGone(joined, remove, turns[k].index);
    }
    forall i | |turns| <= i < |joined| ensures joined[i] in Kept(joined, remove) {
      KeptIff(joined, remove, joined[i]);
    }
  }

  lemma {:induction false} KeptOrGone(joined: seq<Client>, remove: seq<bool>, at: nat)
    requires at < |joined| == |remove|
    requires forall i, j :: 0 <= i < j < |joined| ==> joined[i].slot != joined[j].slot
    ensures ClientId(joined[at].slot) in Live(Kept(joined, remove)) <==> !remove[at]
  {
    var kept, id := Kept(joined, remove), ClientId(joined[at].slot);
    KeptIff(joined, remove, joined[at]);
    if !remove[at] {
      var m :| 0 <= m < |kept| && kept[m] == joined[at];
      assert ClientId(kept[m].slot) == id;
    } else if id in Live(kept) {
      var m :| 0 <= m < |kept| && ClientId(kept[m].slot) == id;
      KeptIff(joined, remove, kept[m]);
    }
  }

  /** The rule of every turn of a round, written out. */
  lemma RulesOfTurns(joined: seq<Client>, turns: seq<Turn>, states: seq<Shared>, middles: seq<Shared>,
                     input: RoundInput)
    requires Dispatched(states, middles, turns, Ids(joined), Live(joined), input)
    ensures |states| == |turns| + 1 && |middles| == |turns|
    ensures forall k {:trigger turns[k]} :: 0 <= k < |turns| ==>
              turns[k].index < |joined| && turns[k].id == ClientId(joined[turns[k].index].slot) &&
              TurnRule(states[k], middles[k], states[k + 1], turns[k], Live(joined), input.ready(turns[k].id),
                       input.flush(turns[k].id), input.read(turns[k].id))
  {
    hide TurnRule;
    forall k | 0 <= k < |turns|
      ensures turns[k].index < |joined| && turns[k].id == ClientId(joined[turns[k].index].slot)
      ensures TurnRule(states[k], middles[k], states[k + 1], turns[k], Live(joined), input.ready(turns[k].id),
                       input.flush(turns[k].id), input.read(turns[k].id))
    {
      assert TurnIs(states, middles, turns, k, Ids(joined), Live(joined), input);
    }
  }

  function Least(a: nat, b: nat): nat { if a < b then a else b }

  class Server {
    const maximum: nat
    var clients: seq<Client>
    var slots: seq<bool>
    var shared: Shared

    ghost predicate Valid()
      reads this
    {
      0 < maximum && Consistent(maximum, clients, slots, shared)
    }

    constructor (maximum: nat)
      requires 0 < maximum <= MAXIMUM_CLIENTS
      ensures Valid() && clients == [] && this.maximum == maximum
    {
      this.maximum := maximum;
      clients := [];
      slots := seq(maximum, _ => false);
      shared := Shared(0, {}, {});
    }

    /** The lowest free slot, if there is one. */
    method FreeSlot() returns (slot: nat)
      requires Valid()
      ensures slot <= maximum && forall s :: 0 <= s < slot ==> slots[s]
      ensures slot < maximum ==> !slots[slot]
    {
      slot := 0;
      while slot < |slots| && slots[slot]
        invariant slot <= maximum && forall s :: 0 <= s < slot ==> slots[s]
      {
        slot := slot + 1;
      }
    }

    /** Takes the waiting connections in: those that prepare themselves while a
        slot is free join behind the others, and no client is disturbed. */
    method Accept(arrivals: seq<bool>)
      requires Valid()
      modifies this`clients, this`slots
      ensures Valid()
      ensures old(clients) <= clients
      ensures |clients| == Least(maximum, |old(clients)| + CountOf(arrivals))
      ensures LowestSlots(clients, |old(clients)|)
    {
      hide Consistent, LowestSlots, Held;
      ClientsFit(maximum, clients, slots, shared);
      NobodyNew(clients);
      for n := 0 to |arrivals|
        invariant Valid() && old(clients) <= clients
        invariant |clients| == Least(maximum, |old(clients)| + CountOf(arrivals[..n]))
        invariant LowestSlots(clients, |old(clients)|)
      {
        assert arrivals[..n + 1][..n] == arrivals[..n];
        ClientsFit(maximum, clients, slots, shared);
        var slot := FreeSlot();
        if slot < maximum && arrivals[n] {
          AddingKeepsConsistent(maximum, clients, slots, shared, slot);
          LowestNext(maximum, clients, slots, shared, |old(clients)|, slot);
          slots := slots[slot := true];
          clients := clients + [Client(slot)];
        }
      }
      assert arrivals[..|arrivals|] == arrivals;
    }

    /** The loop body: flushes and reads one client, if it may, and says whether it is to go. */
    method TakeTurn(index: nat, id: nat, ev: Ready, flush: Effect, read: Effect)
      returns (turn: Turn, ghost middle: Shared)
      modifies this`shared
      ensures turn.index == index && turn.id == id
      ensures TurnRule(old(shared), middle, shared, turn, Live(clients), ev, flush, read)
    {
      var mayProcess := shared.grab == 0 || shared.grab == id;
      var operation, flushed, didRead, remove := true, false, false, false;
      middle := shared;
      if ev.invalid {
        operation := false;
      } else if !mayProcess && ev.hangup {
        return Turn(index, id, false, false, true), middle;
      } else {
        if mayProcess && ev.writable {
          shared, operation, flushed := Apply(shared, Live(clients), id, flush), flush.ok, true;
        }
        middle := shared;
        if operation && id !in shared.finished && mayProcess && (ev.readable || ev.hangup) {
          shared, operation, didRead := Apply(shared, Live(clients), id, read), read.ok, true;
        }
        if operation && id !in shared.finished && ev.hangup && !ev.writable {
          return Turn(index, id, flushed, didRead, true), middle;
        }
        if operation && ev.error && !(ev.readable || ev.writable || ev.hangup) {
          operation := false;
        }
      }
      if !operation {
        remove := true;
      } else if id in shared.finished {
        remove := true;
      }
      if id in shared.terminating {
        remove := true;
      }
      turn := Turn(index, id, flushed, didRead, remove);
    }

    /** Gives each of the first `polled` clients one turn, by priority. */
    method Dispatch(polled: nat, input: RoundInput)
      returns (turns: seq<Turn>, remove: seq<bool>, ghost states: seq<Shared>, ghost middles: seq<Shared>)
      requires Valid() && polled <= |clients|
      modifies this`shared
      ensures Valid()
      ensures Dispatched(states, middles, turns, Ids(clients), Live(clients), input)
      ensures states[0] == old(shared) && states[|turns|] == shared
      ensures |turns| == polled
      ensures StableOrder(Indices(turns), Priorities(clients[..polled], input))
      ensures Flagged(remove, turns, clients)
    {
      hide Consistent, StableOrder, TurnRule;
      var ids := Ids(clients);
      ghost var live := Live(clients);
      var priorities := Priorities(clients[..polled], input);
      var order := SortByPriority(priorities);
      StableOrderIsPermutation(order, priorities);
      remove := seq(|clients|, _ => false);
      turns, states, middles := [], [shared], [];
      for k := 0 to polled
        invariant Valid() && |turns| == k && |remove| == |clients|
        invariant Dispatched(states, middles, turns, ids, live, input)
        invariant states[0] == old(shared) && states[k] == shared
        invariant forall m :: 0 <= m < k ==> turns[m].index == order[m]
        invariant forall m :: 0 <= m < k ==> remove[order[m]] == turns[m].remove
        invariant forall m :: k <= m < polled ==> !remove[order[m]]
        invariant forall i :: polled <= i < |clients| ==> !remove[i]
      {
        var id := ids[order[k]];
        ghost var before := shared;
        ghost var middle;
        var turn;
        turn, middle := TakeTurn(order[k], id, input.ready(id), input.flush(id), input.read(id));
        NextTurn(states, middles, turns, ids, live, input, middle, shared, turn);
        turns, states, middles := turns + [turn], states + [shared], middles + [middle];
        DispatchKeepsConsistent(maximum, clients, slots, states, middles, turns, ids, input, k);
        remove := remove[order[k] := turn.remove];
      }
      assert Indices(turns) == order;
    }

    /** Without one client, what is left is what the others leave. */
    lemma OneFewer(sh: Shared, at: nat)
      requires Valid() && at < |clients|
      ensures Disconnected(Among(sh, Live(clients)), ClientId(clients[at].slot)) ==
              Among(sh, Live(clients[..at] + clients[at + 1..]))
    {
      ConsistentFacts(maximum, clients, slots, shared);
      AmongFewer(sh, clients, at);
    }

    /** Drops one client: its slot, its grab and its marks go with it. */
    method Drop(at: nat)
      requires Valid() && at < |clients|
      modifies this
      ensures Valid()
      ensures clients == old(clients[..at] + clients[at + 1..])
      ensures slots == old(slots)[old(clients)[at].slot := false]
      ensures shared == Disconnected(old(shared), ClientId(old(clients)[at].slot))
    {
      RemovingKeepsConsistent(maximum, clients, slots, shared, at);
      slots := slots[clients[at].slot := false];
      shared := Disconnected(shared, ClientId(clients[at].slot));
      clients := clients[..at] + clients[at + 1..];
    }

    /** Removes the flagged clients, from the last to the first: exactly the others
        stay, in order. */
    method RemoveFlagged(remove: seq<bool>)
      requires Valid() && |remove| == |clients|
      modifies this
      ensures Valid()
      ensures clients == Kept(old(clients), remove)
      ensures shared == Among(old(shared), Live(clients))
    {
      AmongAll(maximum, clients, slots, shared);
      hide *;
      NothingKept();
      ghost var all := clients;
      var index := |clients|;
      assert all[index..] == [] && remove[index..] == [] && all[..index] == all;
      while index > 0
        invariant 0 <= index <= |all|
        invariant Valid() && clients == all[..index] + Kept(all[index..], remove[index..])
        invariant shared == Among(old(shared), Live(clients))
      {
        index := index - 1;
        RemovalGoesOn(all, remove, index, clients);
        if remove[index] {
          OneFewer(old(shared), index);
          Drop(index);
        }
      }
      assert all[0..] == all && remove[0..] == remove;
    }

    /** One round of the loop: arrivals, one turn for each client that was polled, removal. */
    method PlayRound(input: RoundInput)
      returns (turns: seq<Turn>, ghost states: seq<Shared>, ghost middles: seq<Shared>, ghost joined: seq<Client>,
               ghost remove: seq<bool>)
      requires Valid()
      modifies this
      ensures Valid() && |clients| <= maximum && BlocksApart(joined)
      ensures old(clients) <= joined && |joined| == Least(maximum, |old(clients)| + CountOf(input.arrivals))
      ensures LowestSlots(joined, |old(clients)|)
      ensures |turns| == |middles| == |old(clients)| && |states| == |turns| + 1 && states[0] == old(shared)
      ensures StableOrder(Indices(turns), Priorities(joined[..|turns|], input))
      ensures forall k {:trigger turns[k]} :: 0 <= k < |turns| ==>
                && turns[k].index < |joined| && turns[k].id == ClientId(joined[turns[k].index].slot)
                && TurnRule(states[k], middles[k], states[k + 1], turns[k], Live(joined), input.ready(turns[k].id),
                            input.flush(turns[k].id), input.read(turns[k].id))
      ensures forall k {:trigger turns[k]} :: 0 <= k < |turns| ==> (turns[k].id !in Live(clients) <==> turns[k].remove)
      ensures forall i :: |turns| <= i < |joined| ==> joined[i] in clients
      ensures Flagged(remove, turns, joined) && clients == Kept(joined, remove)
      ensures shared.grab == if states[|turns|].grab in Live(clients) then states[|turns|].grab else 0
      ensures shared.terminating == states[|turns|].terminating * Live(clients)
      ensures shared.finished == states[|turns|].finished * Live(clients)
      ensures forall id :: id in old(shared.terminating) ==> id !in Live(clients)
      ensures forall k, m :: 0 <= k < m < |turns| && states[k + 1].grab == turns[k].id ==>
                !turns[m].flushed && !turns[m].read
    {
      hide Consistent, ClientId, Live, Dispatched, StableOrder, Kept, BlocksApart, LowestSlots, Flagged, TurnRule;
      var polled := |clients|;
      ghost var before, marked := clients, shared.terminating;
      ghost var slotsBefore, sharedBefore := slots, shared;
      Accept(input.arrivals);
      joined := clients;
      ghost var slotsJoined := slots;
      ConsistentFacts(maximum, before, slotsBefore, sharedBefore);
      ConsistentFacts(maximum, joined, slotsJoined, sharedBefore);
      ConsistentBlocks(maximum, joined, slotsJoined, sharedBefore);
      assert clients[..polled] == before;
      var flags;
      turns, flags, states, middles := Dispatch(polled, input);
      remove := flags;
      NobodyBehindTheGrab(joined, turns, states, middles, input);
      RulesOfTurns(joined, turns, states, middles, input);
      FlaggedAreGone(joined, turns, remove);
      RemoveFlagged(flags);
      ClientsFit(maximum, clients, slots, shared);
      forall id | id in marked ensures id !in Live(clients) {
        MarkedAreGone(joined, turns, remove, states, middles, input, id);
      }
    }

    /** One round of the loop. Clients that were polled take one turn each by
        descending priority, ties in connection order. A turn flushes and reads its
        client exactly under the conditions below, each turn from the state the one
        before left, and a client is gone after the round exactly for one of the
        causes below; who just joined stays. Nobody behind a grab's holder is flushed
        or read, and whoever was marked for termination before the round is gone. */
    method Round(input: RoundInput)
      returns (turns: seq<Turn>, ghost states: seq<Shared>, ghost middles: seq<Shared>, ghost joined: seq<Client>,
               ghost remove: seq<bool>)
      requires Valid()
      modifies this
      ensures Valid() && |clients| <= maximum && BlocksApart(joined)
      ensures old(clients) <= joined && |joined| == Least(maximum, |old(clients)| + CountOf(input.arrivals))
      ensures LowestSlots(joined, |old(clients)|)
      ensures |turns| == |middles| == |old(clients)| && |states| == |turns| + 1 && states[0] == old(shared)
      ensures forall k {:trigger turns[k]} :: 0 <= k < |turns| ==>
                turns[k].index < |turns| && turns[k].id == ClientId(joined[turns[k].index].slot)
      ensures forall i, j :: 0 <= i < j < |turns| ==>
                || input.priority(turns[i].id) > input.priority(turns[j].id)
                || (input.priority(turns[i].id) == input.priority(turns[j].id) && turns[i].index < turns[j].index)
      ensures forall k {:trigger turns[k]} :: 0 <= k < |turns| ==> (turns[k].flushed <==>
                && input.ready(turns[k].id).writable && !input.ready(turns[k].id).invalid
                && (states[k].grab == 0 || states[k].grab == turns[k].id))
      ensures forall k {:trigger turns[k]} :: 0 <= k < |turns| ==>
                middles[k] ==
                  if turns[k].flushed then Apply(states[k], Live(joined), turns[k].id, input.flush(turns[k].id))
                  else states[k]
      ensures forall k {:trigger turns[k]} :: 0 <= k < |turns| ==> (turns[k].read <==>
                && (input.ready(turns[k].id).readable || input.ready(turns[k].id).hangup)
                && !input.ready(turns[k].id).invalid
                && (states[k].grab == 0 || states[k].grab == turns[k].id)
                && (turns[k].flushed ==> input.flush(turns[k].id).ok)
                && turns[k].id !in middles[k].finished)
      ensures forall k {:trigger turns[k]} :: 0 <= k < |turns| ==>
                states[k + 1] ==
                  if turns[k].read then Apply(middles[k], Live(joined), turns[k].id, input.read(turns[k].id))
                  else middles[k]
      ensures forall k {:trigger turns[k]} :: 0 <= k < |turns| ==> (turns[k].id !in Live(clients) <==>
                || input.ready(turns[k].id).invalid
                || (turns[k].flushed && !input.flush(turns[k].id).ok)
                || (turns[k].read && !input.read(turns[k].id).ok)
                || (input.ready(turns[k].id).error && !input.ready(turns[k].id).readable &&
                    !input.ready(turns[k].id).writable && !input.ready(turns[k].id).hangup)
                || turns[k].id in states[k + 1].finished || turns[k].id in states[k + 1].terminating
                || (input.ready(turns[k].id).hangup &&
                    (!input.ready(turns[k].id).writable ||
                     (states[k].grab != 0 && states[k].grab != turns[k].id))))
      ensures forall i :: |turns| <= i < |joined| ==> joined[i] in clients
      ensures Flagged(remove, turns, joined) && clients == Kept(joined, remove)
      ensures shared.grab == if states[|turns|].grab in Live(clients) then states[|turns|].grab else 0
      ensures shared.terminating == states[|turns|].terminating * Live(clients)
      ensures shared.finished == states[|turns|].finished * Live(clients)
      ensures forall id :: id in old(shared.terminating) ==> id !in Live(clients)
      ensures forall k, m :: 0 <= k < m < |turns| && states[k + 1].grab == turns[k].id ==>
                !turns[m].flushed && !turns[m].read
    {
      hide Consistent, ClientId, Live, StableOrder, Kept, BlocksApart, LowestSlots, Flagged, Apply;
      turns, states, middles, joined, remove := PlayRound(input);
      TurnsInOrder(joined, turns, input);
    }

    /** Any number of rounds, whatever the clients do: a slot is used exactly when
        one live client holds it, so the clients' id blocks are disjoint. */
    method Run(inputs: seq<RoundInput>)
      requires Valid()
      modifies this
      ensures Valid() && |clients| <= maximum && BlocksApart(clients)
    {
      hide Consistent, BlocksApart;
      ClientsFit(maximum, clients, slots, shared);
      for n := 0 to |inputs|
        invariant Valid() && |clients| <= maximum
      {
        var _, _, _, _, _ := Round(inputs[n]);
      }
      ConsistentBlocks(maximum, clients, slots, shared);
    }
  }
}
