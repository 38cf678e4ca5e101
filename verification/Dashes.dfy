/** The dash walk of line_source and the SetDashes request that feeds it. */
module Dashes {
  import opened Options
  import opened Arith
  import opened Raster

  /** Entries of the dash array inside a graphics context record. */
  const DASH_CAPACITY: nat := 512

  type Byte = b: int | 0 <= b < 256

  function Sum(lengths: seq<nat>): nat {
    if lengths == [] then 0 else lengths[0] + Sum(lengths[1..])
  }

  lemma {:induction false} SumConcat(a: seq<nat>, b: seq<nat>)
    ensures Sum(a + b) == Sum(a) + Sum(b)
  {
    if a == [] {
      assert a + b == b;
    } else {
      assert (a + b)[1..] == a[1..] + b;
      SumConcat(a[1..], b);
    }
  }

  lemma SumExtend(lengths: seq<nat>, k: nat)
    requires k < |lengths|
    ensures Sum(lengths[..k + 1]) == Sum(lengths[..k]) + lengths[k]
  {
    assert lengths[..k + 1] == lengths[..k] + [lengths[k]];
    SumConcat(lengths[..k], [lengths[k]]);
  }

  lemma SumPrefix(lengths: seq<nat>, k: nat)
    requires k <= |lengths|
    ensures Sum(lengths[..k]) <= Sum(lengths)
  {
    assert lengths == lengths[..k] + lengths[k..];
    SumConcat(lengths[..k], lengths[k..]);
  }

  /** The segment of the pattern that holds the position `at`. */
  function SegmentAt(pattern: seq<nat>, at: nat): (k: nat)
    requires at < Sum(pattern)
    ensures k < |pattern|
  {
    if at < pattern[0] then 0 else 1 + SegmentAt(pattern[1..], at - pattern[0])
  }

  /** Segments are the half-open intervals between consecutive partial sums. */
  lemma {:induction false} SegmentAtBounds(pattern: seq<nat>, at: nat, k: nat)
    requires k < |pattern| && at < Sum(pattern)
    ensures k == SegmentAt(pattern, at) <==>
            Sum(pattern[..k]) <= at < Sum(pattern[..k]) + pattern[k]
  {
    if k == 0 {
    } else {
      assert pattern[..k] == [pattern[0]] + pattern[1..][..k - 1];
      SumConcat([pattern[0]], pattern[1..][..k - 1]);
      if at >= pattern[0] {
        SegmentAtBounds(pattern[1..], at - pattern[0], k - 1);
      }
    }
  }

  lemma {:induction false} SegmentAtConcat(a: seq<nat>, b: seq<nat>, at: nat)
    requires at < Sum(a) + Sum(b)
    ensures Sum(a + b) == Sum(a) + Sum(b)
    ensures SegmentAt(a + b, at) ==
            if at < Sum(a) then SegmentAt(a, at) else |a| + SegmentAt(b, at - Sum(a))
  {
    SumConcat(a, b);
    if a == [] {
      assert a + b == b;
    } else {
      assert (a + b)[1..] == a[1..] + b;
      if at >= a[0] {
        SegmentAtConcat(a[1..], b, at - a[0]);
      }
    }
  }

  /** What every request that writes a dash list leaves behind. */
  predicate WellFormed(g: Graphics) {
    && |g.dashes| == DASH_CAPACITY
    && 0 < g.dashCount <= DASH_CAPACITY && g.dashCount % 2 == 0
    && (forall k :: 0 <= k < g.dashCount ==> 0 < g.dashes[k])
  }

  function Pattern(g: Graphics): seq<nat>
    requires WellFormed(g)
  {
    g.dashes[..g.dashCount]
  }

  lemma PatternSumPositive(g: Graphics)
    requires WellFormed(g)
    ensures 0 < Sum(Pattern(g))
  {
  }

  /** What is left of a distance after whole repetitions of a pattern. */
  function Residue(at: nat, length: nat): (r: nat)
    requires 0 < length
    ensures r < length
  {
    if at < length then at else Residue(at - length, length)
  }

  lemma {:induction false} ResidueIsRemainder(at: nat, length: nat)
    requires 0 < length
    ensures Residue(at, length) == at % length
  {
    if at < length {
      DivisionUnique(at, 0, length, at);
    } else {
      ResidueIsRemainder(at - length, length);
      var q, r := (at - length) / length, (at - length) % length;
      assert (q + 1) * length == q * length + length;
      DivisionUnique(at, q + 1, length, r);
    }
  }

  /** Which source a line uses at a phase, and whether it draws there at all. */
  function DashSource(g: Graphics, phase: nat): (bool, nat)
    requires WellFormed(g)
  {
    PatternSumPositive(g);
    if g.lineStyle == 0 then (true, g.foreground)
    else if SegmentAt(Pattern(g), Residue(phase + g.dashOffset, Sum(Pattern(g)))) % 2 == 0 then (true, g.foreground)
    else if g.lineStyle == 2 then (true, g.background)
    else (false, 0)
  }

  method LineSource(g: Graphics, phase: nat) returns (draws: bool, source: nat)
    requires WellFormed(g)
    ensures (draws, source) == DashSource(g, phase)
  {
    if g.lineStyle == 0 || g.dashCount == 0 {
      return true, g.foreground;
    }
    ghost var pattern, total := Pattern(g), Sum(Pattern(g));
    var offset: nat, index: nat := phase + g.dashOffset, 0;
    while offset >= g.dashes[index]
      invariant index < g.dashCount
      invariant Residue(Sum(pattern[..index]) + offset, total) == Residue(phase + g.dashOffset, total)
      decreases offset
    {
      SumExtend(pattern, index);
      offset := offset - g.dashes[index];
      if index + 1 == g.dashCount {
        assert pattern[..index + 1] == pattern;
      }
      NextIndex(index, g.dashCount);
      index := (index + 1) % g.dashCount;
    }
    SumExtend(pattern, index);
    SumPrefix(pattern, index + 1);
    SegmentAtBounds(pattern, Sum(pattern[..index]) + offset, index);
    var foreground := index % 2 == 0;
    if foreground {
      return true, g.foreground;
    }
    if g.lineStyle == 2 {
      return true, g.background;
    }
    return false, 0;
  }

  /** The pattern a client's list stands for: an odd list is used twice. */
  function Doubled(list: seq<nat>): seq<nat> {
    if |list| % 2 == 0 then list else list + list
  }

  /** Position in the endless repetition of a list: how many of its segments
      end at or before `at`. */
  function GlobalSegment(list: seq<nat>, at: nat): nat
    requires 0 < Sum(list)
  {
    if at < Sum(list) then SegmentAt(list, at) else |list| + GlobalSegment(list, at - Sum(list))
  }

  lemma {:induction false} EvenAlternates(list: seq<nat>, at: nat)
    requires 0 < Sum(list) && |list| % 2 == 0
    ensures SegmentAt(list, Residue(at, Sum(list))) % 2 == GlobalSegment(list, at) % 2
  {
    hide SegmentAt, Sum;
    if at >= Sum(list) {
      EvenAlternates(list, at - Sum(list));
      SameParity(|list|, GlobalSegment(list, at - Sum(list)));
    }
  }

  lemma SameParity(even: nat, n: nat)
    requires even % 2 == 0
    ensures (even + n) % 2 == n % 2
  {
    DivisionUnique(even + n, even / 2 + n / 2, 2, n % 2);
  }

  lemma {:induction false} OddAlternates(list: seq<nat>, at: nat)
    requires 0 < Sum(list) && |list| % 2 == 1
    ensures Sum(list + list) == 2 * Sum(list)
    ensures SegmentAt(list + list, Residue(at, 2 * Sum(list))) % 2 == GlobalSegment(list, at) % 2
  {
    SumConcat(list, list);
    if at >= 2 * Sum(list) {
      OddAlternates(list, at - 2 * Sum(list));
      hide SegmentAt, Sum;
      SameParity(2 * |list|, GlobalSegment(list, at - 2 * Sum(list)));
    } else {
      SegmentAtConcat(list, list, at);
    }
  }

  /** The installed pattern alternates along the endless repetition of the
      client's list itself, whether that list is even or odd. */
  lemma DoubledAlternates(list: seq<nat>, at: nat)
    requires 0 < Sum(list)
    ensures 0 < Sum(Doubled(list))
    ensures SegmentAt(Doubled(list), Residue(at, Sum(Doubled(list)))) % 2 == GlobalSegment(list, at) % 2
  {
    hide SegmentAt, Residue, GlobalSegment, Sum;
    if |list| % 2 == 0 {
      EvenAlternates(list, at);
    } else {
      OddAlternates(list, at);
    }
  }

  /** A position of a line is drawn, with this source: always in the foreground by a
      solid line; by a dashed one in the foreground where phase plus offset falls in an
      even-numbered segment of the list repeated without end, and elsewhere in the
      background (double dash) or not at all. */
  predicate DrawnWith(g: Graphics, list: seq<nat>, phase: nat, source: nat)
    requires 0 < Sum(list)
  {
    if g.lineStyle == 0 || GlobalSegment(list, phase + g.dashOffset) % 2 == 0 then source == g.foreground
    else g.lineStyle == 2 && source == g.background
  }

  /** After SetDashes with a list and an offset, the walk draws so. */
  lemma DashesFollowTheList(g: Graphics, list: seq<nat>, phase: nat)
    requires WellFormed(g) && Pattern(g) == Doubled(list)
    ensures 0 < Sum(list)
    ensures var (draws, source) := DashSource(g, phase);
            forall other :: DrawnWith(g, list, phase, other) <==> draws && other == source
  {
    PatternSumPositive(g);
    SumConcat(list, list);
    DoubledAlternates(list, phase + g.dashOffset);
  }

  /** Every record has such a list. */
  lemma PatternStands(g: Graphics)
    requires WellFormed(g)
    ensures Doubled(Pattern(g)) == Pattern(g)
  {
  }

  datatype SetDashesOutcome = Installed | BadValue | OutsideArray

  /** The first list position whose store would leave the dash array. */
  function FirstOutside(count: nat): nat {
    if count % 2 == 0 then DASH_CAPACITY
    else if count < DASH_CAPACITY then DASH_CAPACITY - count
    else 0
  }

  /** The first n values of a list are stored, twice over for an odd list. */
  predicate Copied(dashes: seq<nat>, list: seq<Byte>, n: nat) {
    && |dashes| == DASH_CAPACITY && n <= |list| && n <= FirstOutside(|list|) <= DASH_CAPACITY
    && (forall k :: 0 <= k < n ==> list[k] != 0 && dashes[k] == list[k])
    && (|list| % 2 == 1 ==> forall k :: 0 <= k < n ==> dashes[|list| + k] == list[k])
  }

  lemma CopiedAll(dashes: seq<nat>, list: seq<Byte>)
    requires list != [] && Copied(dashes, list, |list|)
    ensures |Doubled(list)| <= DASH_CAPACITY && dashes[..|Doubled(list)|] == Doubled(list)
    ensures forall k :: 0 <= k < |Doubled(list)| ==> 0 < dashes[k]
    ensures 0 !in list
  {
    var stored := dashes[..|Doubled(list)|];
    assert |stored| == |Doubled(list)|;
    forall k | 0 <= k < |stored| ensures stored[k] == Doubled(list)[k] && 0 < dashes[k] {
      if k >= |list| {
        assert dashes[|list| + (k - |list|)] == list[k - |list|];
      }
    }
  }

  lemma NothingCopied(dashes: seq<nat>, list: seq<Byte>)
    requires |dashes| == DASH_CAPACITY
    ensures Copied(dashes, list, 0)
  {
  }

  /** Storing one more value: it stays inside exactly before FirstOutside. */
  lemma CopiedNext(dashes: seq<nat>, list: seq<Byte>, n: nat)
    requires Copied(dashes, list, n) && n < |list|
    ensures |dashes| == DASH_CAPACITY && 0 !in list[..n] && n <= FirstOutside(|list|)
    ensures n == FirstOutside(|list|) <==> n >= DASH_CAPACITY || (|list| % 2 == 1 && n + |list| >= DASH_CAPACITY)
    ensures n < FirstOutside(|list|) && list[n] != 0 ==>
              Copied(if |list| % 2 == 1 then dashes[n := list[n]][n + |list| := list[n]] else dashes[n := list[n]],
                     list, n + 1)
  {
  }

  /** The loop of SetDashes. `OutsideArray` stands for a store beyond the 512-entry
      array of the copied record, which the handler does not rule out. */
  method StoreDashes(dashes: seq<nat>, list: seq<Byte>) returns (outcome: SetDashesOutcome, stored: seq<nat>)
    requires |dashes| == DASH_CAPACITY && list != []
    ensures outcome == Installed <==> 0 !in list && |Doubled(list)| <= DASH_CAPACITY
    ensures outcome == OutsideArray <==> FirstOutside(|list|) < |list| && 0 !in list[..FirstOutside(|list|) + 1]
    ensures outcome == Installed ==> Copied(stored, list, |list|)
  {
    var count := |list|;
    stored := dashes;
    NothingCopied(stored, list);
    for index := 0 to count
      invariant Copied(stored, list, index)
    {
      var value := list[index];
      CopiedNext(stored, list, index);
      hide Copied;
      if value == 0 {
        return BadValue, stored;
      }
      if index >= DASH_CAPACITY {
        return OutsideArray, stored;
      }
      stored := stored[index := value];
      if count % 2 == 1 {
        if index + count >= DASH_CAPACITY {
          return OutsideArray, stored;
        }
        stored := stored[index + count := value];
      }
    }
    CopiedAll(stored, list);
    return Installed, stored;
  }

  class GraphicsContext {
    var record: Graphics

    constructor (foreground: nat, background: nat)
      ensures WellFormed(record)
    {
      record := Graphics(foreground, background, 0, 0, 0, 0, None, None, 0, 0, 0,
                         seq(DASH_CAPACITY, k => if k < 2 then 4 else 0), 2);
    }

    /** The SetDashes request: edits a copy of the record and installs it whole. */
    method SetDashes(offset: nat, list: seq<Byte>) returns (outcome: SetDashesOutcome)
      requires WellFormed(record)
      modifies this
      ensures WellFormed(record)
      ensures outcome != Installed ==> record == old(record)
      ensures outcome == Installed <==>
              list != [] && 0 !in list && |Doubled(list)| <= DASH_CAPACITY
      ensures outcome == OutsideArray <==>
              FirstOutside(|list|) < |list| && 0 !in list[..FirstOutside(|list|) + 1]
      ensures outcome == Installed ==>
              Pattern(record) == Doubled(list) && record.dashOffset == offset &&
              record == old(record).(dashOffset := offset, dashes := record.dashes, dashCount := |Doubled(list)|)
    {
      if list == [] {
        return BadValue;
      }
      var dashes;
      outcome, dashes := StoreDashes(record.dashes, list);
      if outcome != Installed {
        return;
      }
      CopiedAll(dashes, list);
      hide Copied;
      var stored := if |list| % 2 == 0 then |list| else |list| * 2 % 0x1_0000;
      record := record.(dashOffset := offset, dashCount := stored, dashes := dashes);
    }

    /** The dash-length value of CreateGC and ChangeGC: one length, used twice. */
    method ChangeDashLength(length: nat) returns (accepted: bool)
      requires WellFormed(record)
      modifies this
      ensures WellFormed(record)
      ensures accepted <==> 0 < length <= 255
      ensures !accepted ==> record == old(record)
      ensures accepted ==> Pattern(record) == [length, length] && record.dashOffset == old(record).dashOffset
    {
      if length == 0 || length > 255 {
        return false;
      }
      record := record.(dashes := record.dashes[0 := length][1 := length], dashCount := 2);
      return true;
    }
  }

  /** 257 ones, stored twice over, leave the array of 512. */
  method LongListLeavesTheArray(context: GraphicsContext) returns (outcome: SetDashesOutcome)
    requires WellFormed(context.record)
    modifies context
    ensures outcome == OutsideArray && context.record == old(context.record)
  {
    var list: seq<Byte> := seq(257, _ => 1);
    assert list[0] == 1;
    outcome := context.SetDashes(0, list);
  }
}
