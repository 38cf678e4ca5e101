/** Font name matching of font.cpp: a glob with one remembered star. */
module FontNames {

  function Fold(c: char): char {
    if 'A' <= c <= 'Z' then ((c as int) + 32) as char else c
  }

  /** One pattern character against one value character. */
  predicate Accepts(p: char, c: char) { p == '?' || Fold(p) == Fold(c) }

  /** The meaning of a pattern: `*` is any run of characters, `?` any one
      character, and everything else is compared without regard to case. */
  predicate Glob(pattern: string, value: string)
    decreases |pattern| + |value|
  {
    if pattern == "" then value == ""
    else if pattern[0] == '*' then
      Glob(pattern[1..], value) || (value != "" && Glob(pattern, value[1..]))
    else value != "" && Accepts(pattern[0], value[0]) && Glob(pattern[1..], value[1..])
  }

  /** A star may swallow any further prefix. */
  lemma {:induction false} StarSwallows(pattern: string, value: string, k: nat)
    requires pattern != "" && pattern[0] == '*' && k <= |value|
    requires Glob(pattern, value[k..])
    ensures Glob(pattern, value)
  {
    if k == 0 {
      assert value[0..] == value;
    } else {
      assert value[1..][k - 1..] == value[k..];
      StarSwallows(pattern, value[1..], k - 1);
    }
  }

  /** A star swallows some prefix. */
  lemma {:induction false} StarChoice(pattern: string, value: string) returns (k: nat)
    requires pattern != "" && pattern[0] == '*' && Glob(pattern, value)
    ensures k <= |value| && Glob(pattern[1..], value[k..])
    decreases |value|
  {
    if Glob(pattern[1..], value) {
      k := 0;
      assert value[0..] == value;
    } else {
      k := StarChoice(pattern, value[1..]);
      k := k + 1;
      assert value[1..][k - 1..] == value[k..];
    }
  }

  /** A segment without stars consumes exactly its own length. */
  lemma {:induction false} SegmentConsumes(segment: string, rest: string, value: string)
    requires '*' !in segment && Glob(segment + rest, value)
    ensures |segment| <= |value| && Glob(rest, value[|segment|..])
  {
    if segment == "" {
      assert segment + rest == rest && value[0..] == value;
    } else {
      assert (segment + rest)[1..] == segment[1..] + rest;
      SegmentConsumes(segment[1..], rest, value[1..]);
      assert value[1..][|segment| - 1..] == value[|segment|..];
    }
  }

  // ---- What the meaning is, in closed form

  /** The same character, or the same letter in the other case. */
  predicate SameLetter(a: char, b: char) {
    || a == b
    || ('a' <= a <= 'z' && a as int == b as int + 32)
    || ('a' <= b <= 'z' && b as int == a as int + 32)
  }

  lemma AcceptsIff(p: char, c: char)
    ensures Accepts(p, c) <==> p == '?' || SameLetter(p, c)
  {
  }

  /** A pattern without stars means the values of its length that agree with it letter by
      letter, except where it has a question mark. */
  lemma {:induction false} LiteralMeaning(pattern: string, value: string)
    requires '*' !in pattern
    ensures Glob(pattern, value) <==>
            && |pattern| == |value|
            && forall k :: 0 <= k < |value| ==> pattern[k] == '?' || SameLetter(pattern[k], value[k])
  {
    hide Accepts, SameLetter;
    if pattern != "" && value != "" {
      AcceptsIff(pattern[0], value[0]);
      LiteralMeaning(pattern[1..], value[1..]);
      assert forall k :: 1 <= k < |value| ==> value[1..][k - 1] == value[k];
      assert forall k :: 1 <= k < |pattern| ==> pattern[1..][k - 1] == pattern[k];
    }
  }

  /** Up to its first star a pattern means the beginning of the value, and behind the star
      any of its ends. */
  lemma {:induction false} StarMeaning(head: string, tail: string, value: string)
    requires '*' !in head
    ensures Glob(head + "*" + tail, value) <==>
            exists j :: |head| <= j <= |value| && Glob(head, value[..|head|]) && Glob(tail, value[j..])
  {
    var rest := "*" + tail;
    assert head + "*" + tail == head + rest && rest[1..] == tail;
    hide Glob;
    if Glob(head + rest, value) {
      SegmentConsumes(head, rest, value);
      var k := StarChoice(rest, value[|head|..]);
      HeadMeant(head, rest, value);
      assert value[|head|..][k..] == value[|head| + k..];
    }
    if j :| |head| <= j <= |value| && Glob(head, value[..|head|]) && Glob(tail, value[j..]) {
      TailAfterStar(tail, value[|head|..], j - |head|);
      assert value[|head|..][j - |head|..] == value[j..];
      HeadThenRest(head, rest, value);
    }
  }

  lemma TailAfterStar(tail: string, value: string, k: nat)
    requires k <= |value|
    ensures Glob(tail, value[k..]) ==> Glob("*" + tail, value)
  {
    var rest := "*" + tail;
    assert rest[1..] == tail;
    if Glob(tail, value[k..]) {
      StarSwallows(rest, value, k);
    }
  }

  lemma {:induction false} HeadMeant(head: string, rest: string, value: string)
    requires '*' !in head && |head| <= |value| && Glob(head + rest, value)
    ensures Glob(head, value[..|head|])
  {
    if head != "" {
      assert (head + rest)[1..] == head[1..] + rest && value[..|head|][1..] == value[1..][..|head| - 1];
      HeadMeant(head[1..], rest, value[1..]);
    }
  }

  lemma {:induction false} HeadThenRest(head: string, rest: string, value: string)
    requires '*' !in head && |head| <= |value| && Glob(head, value[..|head|]) && Glob(rest, value[|head|..])
    ensures Glob(head + rest, value)
  {
    if head == "" {
      assert head + rest == rest && value[0..] == value;
    } else {
      assert (head + rest)[1..] == head[1..] + rest && value[..|head|][1..] == value[1..][..|head| - 1];
      assert value[1..][|head| - 1..] == value[|head|..];
      HeadThenRest(head[1..], rest, value[1..]);
    }
  }

  /** The remembered star can still be given more than it has. */
  predicate CanRetry(pattern: string, value: string, star: int, retry: nat)
    requires star < |pattern| && retry <= |value|
  {
    0 <= star && retry < |value| && Glob(pattern[star..], value[retry + 1..])
  }

  /** Once a later star (or the end of the value) is reached, giving the
      remembered star more cannot help: any match it leads to also exists now. */
  lemma RetryIsRedundant(pattern: string, value: string, star: nat, retry: nat, at: nat, from: nat)
    requires star < at <= |pattern| && retry <= from <= |value|
    requires pattern[star] == '*' && '*' !in pattern[star + 1..at] && at - (star + 1) == from - retry
    requires CanRetry(pattern, value, star, retry)
    ensures from < |value|
    ensures exists k :: from < k <= |value| && Glob(pattern[at..], value[k..])
  {
    var more := value[retry + 1..];
    var k := StarChoice(pattern[star..], more);
    var segment, rest := pattern[star + 1..at], pattern[at..];
    assert pattern[star..][1..] == segment + rest;
    assert more[k..] == value[retry + 1 + k..];
    SegmentConsumes(segment, rest, more[k..]);
    assert more[k..][|segment|..] == value[from + 1 + k..];
  }

  /** What the loop variables promise about the remembered star: the pattern
      since then is literal and has consumed one character each. */
  predicate Remembered(pattern: string, value: string, at: nat, from: nat, star: int, retry: nat, plain: bool) {
    && at <= |pattern| && retry <= from <= |value| && -1 <= star < at
    && (0 <= star ==> pattern[star] == '*')
    && (0 <= star && plain ==> '*' !in pattern[star + 1..at] && at - (star + 1) == from - retry)
  }

  /** A match is still possible, now or after a retry. */
  predicate Alive(pattern: string, value: string, at: nat, from: nat, star: int, retry: nat)
    requires at <= |pattern| && retry <= from <= |value| && star < at
  {
    Glob(pattern[at..], value[from..]) || CanRetry(pattern, value, star, retry)
  }

  /** Neither side contains the other's star as an ordinary character. */
  predicate Plain(pattern: string, value: string) { '*' !in value || '*' !in pattern }

  lemma LiteralStep(pattern: string, value: string, at: nat, from: nat, star: int, retry: nat)
    requires at < |pattern| && from < |value| && Accepts(pattern[at], value[from])
    requires Remembered(pattern, value, at, from, star, retry, Plain(pattern, value))
    ensures Remembered(pattern, value, at + 1, from + 1, star, retry, Plain(pattern, value))
    ensures Alive(pattern, value, at + 1, from + 1, star, retry) ==> Alive(pattern, value, at, from, star, retry)
    ensures Plain(pattern, value) && Alive(pattern, value, at, from, star, retry) ==>
            Alive(pattern, value, at + 1, from + 1, star, retry)
  {
    hide CanRetry;
    var p, v := pattern[at..], value[from..];
    assert p[1..] == pattern[at + 1..] && v[1..] == value[from + 1..];
    if pattern[at] == '*' {
      if Glob(p[1..], v[1..]) {
        StarSwallows(p, v, 1);
      }
    }
  }

  lemma StarStep(pattern: string, value: string, at: nat, from: nat, star: int, retry: nat)
    requires at < |pattern| && from < |value| && pattern[at] == '*'
    requires Remembered(pattern, value, at, from, star, retry, Plain(pattern, value))
    ensures Remembered(pattern, value, at + 1, from, at, from, Plain(pattern, value))
    ensures Alive(pattern, value, at + 1, from, at, from) ==> Alive(pattern, value, at, from, star, retry)
    ensures Plain(pattern, value) && Alive(pattern, value, at, from, star, retry) ==>
            Alive(pattern, value, at + 1, from, at, from)
  {
    var p, v := pattern[at..], value[from..];
    assert p[1..] == pattern[at + 1..] && v[1..] == value[from + 1..];
    if Plain(pattern, value) && CanRetry(pattern, value, star, retry) {
      hide Glob;
      RetryIsRedundant(pattern, value, star, retry, at, from);
      var k :| from < k <= |value| && Glob(p, value[k..]);
      assert v[k - from..] == value[k..];
      StarSwallows(p, v, k - from);
    }
  }

  lemma RetryStep(pattern: string, value: string, at: nat, from: nat, star: nat, retry: nat)
    requires from < |value| && Remembered(pattern, value, at, from, star, retry, Plain(pattern, value))
    requires at == |pattern| || (pattern[at] != '*' && !Accepts(pattern[at], value[from]))
    ensures Remembered(pattern, value, star + 1, retry + 1, star, retry + 1, Plain(pattern, value))
    ensures Alive(pattern, value, star + 1, retry + 1, star, retry + 1) <==>
            Alive(pattern, value, at, from, star, retry)
  {
    assert !Glob(pattern[at..], value[from..]);
    assert pattern[star..][1..] == pattern[star + 1..];
    if retry + 1 < |value| {
      assert value[retry + 1..][1..] == value[retry + 2..];
    }
  }

  /** The matcher's loop, one iteration per call. */
  predicate Run(pattern: string, value: string, at: nat, from: nat, star: int, retry: nat)
    requires at <= |pattern| && retry <= from <= |value| && -1 <= star < at
    decreases |value| - retry, |pattern| - at
  {
    if from == |value| then OnlyStars(pattern[at..])
    else if at < |pattern| && Accepts(pattern[at], value[from]) then Run(pattern, value, at + 1, from + 1, star, retry)
    else if at < |pattern| && pattern[at] == '*' then Run(pattern, value, at + 1, from, at, from)
    else star != -1 && Run(pattern, value, star + 1, retry + 1, star, retry + 1)
  }

  lemma RunUnfolds(pattern: string, value: string, at: nat, from: nat, star: int, retry: nat)
    requires at <= |pattern| && retry <= from <= |value| && -1 <= star < at
    ensures Run(pattern, value, at, from, star, retry) ==
            if from == |value| then OnlyStars(pattern[at..])
            else if at < |pattern| && Accepts(pattern[at], value[from])
            then Run(pattern, value, at + 1, from + 1, star, retry)
            else if at < |pattern| && pattern[at] == '*' then Run(pattern, value, at + 1, from, at, from)
            else star != -1 && Run(pattern, value, star + 1, retry + 1, star, retry + 1)
  {
  }

  predicate OnlyStars(pattern: string) {
    forall k :: 0 <= k < |pattern| ==> pattern[k] == '*'
  }

  /** What the first loop maintains: the loop variables are in order, and what is
      left to decide is the whole question, up to a literal star. */
  predicate Undecided(pattern: string, value: string, at: nat, from: nat, star: int, retry: nat) {
    && Remembered(pattern, value, at, from, star, retry, Plain(pattern, value))
    && (Alive(pattern, value, at, from, star, retry) ==> Glob(pattern, value))
    && (Plain(pattern, value) && Glob(pattern, value) ==> Alive(pattern, value, at, from, star, retry))
    && Run(pattern, value, 0, 0, -1, 0) == Run(pattern, value, at, from, star, retry)
  }

  lemma UndecidedAtStart(pattern: string, value: string)
    ensures Undecided(pattern, value, 0, 0, -1, 0)
  {
    AliveAtStart(pattern, value);
    hide Glob, Alive, Run;
  }

  lemma UndecidedNext(pattern: string, value: string, at: nat, from: nat, star: int, retry: nat)
    requires Undecided(pattern, value, at, from, star, retry) && from < |value|
    ensures -1 <= star < at <= |pattern|
    ensures if at < |pattern| && Accepts(pattern[at], value[from]) then
              Undecided(pattern, value, at + 1, from + 1, star, retry)
            else if at < |pattern| && pattern[at] == '*' then Undecided(pattern, value, at + 1, from, at, from)
            else if star != -1 then Undecided(pattern, value, star + 1, retry + 1, star, retry + 1)
            else !Run(pattern, value, 0, 0, -1, 0) && (Plain(pattern, value) ==> !Glob(pattern, value))
  {
    hide Glob, Accepts, CanRetry, Plain, Run, Alive;
    RunUnfolds(pattern, value, at, from, star, retry);
    if at < |pattern| && Accepts(pattern[at], value[from]) {
      LiteralStep(pattern, value, at, from, star, retry);
    } else if at < |pattern| && pattern[at] == '*' {
      StarStep(pattern, value, at, from, star, retry);
    } else if star != -1 {
      RetryStep(pattern, value, at, from, star, retry);
    } else {
      NoRetry(pattern, value, at, from, retry);
    }
  }

  /** What the second loop maintains, once the value is used up. */
  predicate Trailing(pattern: string, value: string, at: nat)
    requires at <= |pattern|
  {
    && Run(pattern, value, 0, 0, -1, 0) == OnlyStars(pattern[at..])
    && (Glob(pattern[at..], "") ==> Glob(pattern, value))
    && (Plain(pattern, value) && Glob(pattern, value) ==> Glob(pattern[at..], ""))
  }

  lemma TrailingAtStart(pattern: string, value: string, at: nat, star: int, retry: nat)
    requires Undecided(pattern, value, at, |value|, star, retry)
    ensures at <= |pattern| && Trailing(pattern, value, at)
  {
    RunUnfolds(pattern, value, at, |value|, star, retry);
    AtEnd(pattern, value, at, star, retry);
    hide Glob, Plain, Run, Alive, OnlyStars;
  }

  lemma TrailingNext(pattern: string, value: string, at: nat)
    requires at <= |pattern| && Trailing(pattern, value, at)
    ensures at < |pattern| && pattern[at] == '*' ==> Trailing(pattern, value, at + 1)
    ensures at < |pattern| && pattern[at] != '*' ==>
              !Run(pattern, value, 0, 0, -1, 0) && (Plain(pattern, value) ==> !Glob(pattern, value))
    ensures at == |pattern| ==> Run(pattern, value, 0, 0, -1, 0) && Glob(pattern, value)
  {
    EmptyValue(pattern, at);
    hide Glob, Plain, Run, OnlyStars;
  }

  /** The matcher never accepts a value the pattern does not mean, and it
      accepts every value it does mean unless both contain a literal star. */
  method Matches(pattern: string, value: string) returns (matched: bool)
    ensures matched ==> Glob(pattern, value)
    ensures Plain(pattern, value) ==> matched == Glob(pattern, value)
    ensures matched == Run(pattern, value, 0, 0, -1, 0)
  {
    hide Glob, Accepts, Plain, Run, Undecided, Trailing;
    var patternIndex: nat, valueIndex: nat, star, retry: nat := 0, 0, -1, 0;
    UndecidedAtStart(pattern, value);
    while valueIndex < |value|
      invariant -1 <= star < patternIndex <= |pattern| && retry <= valueIndex <= |value|
      invariant Undecided(pattern, value, patternIndex, valueIndex, star, retry)
      decreases |value| - retry, |pattern| - patternIndex
    {
      UndecidedNext(pattern, value, patternIndex, valueIndex, star, retry);
      if patternIndex < |pattern| && Accepts(pattern[patternIndex], value[valueIndex]) {
        patternIndex, valueIndex := patternIndex + 1, valueIndex + 1;
      } else if patternIndex < |pattern| && pattern[patternIndex] == '*' {
        star, patternIndex := patternIndex, patternIndex + 1;
        retry := valueIndex;
      } else if star != -1 {
        retry := retry + 1;
        patternIndex, valueIndex := star + 1, retry;
      } else {
        return false;
      }
    }
    TrailingAtStart(pattern, value, patternIndex, star, retry);
    while patternIndex < |pattern| && pattern[patternIndex] == '*'
      invariant patternIndex <= |pattern| && Trailing(pattern, value, patternIndex)
    {
      TrailingNext(pattern, value, patternIndex);
      patternIndex := patternIndex + 1;
    }
    TrailingNext(pattern, value, patternIndex);
    matched := patternIndex == |pattern|;
  }

  lemma AliveAtStart(pattern: string, value: string)
    ensures Alive(pattern, value, 0, 0, -1, 0) <==> Glob(pattern, value)
  {
    assert pattern[0..] == pattern && value[0..] == value;
  }

  lemma NoRetry(pattern: string, value: string, at: nat, from: nat, retry: nat)
    requires at <= |pattern| && retry <= from < |value|
    requires at == |pattern| || (pattern[at] != '*' && !Accepts(pattern[at], value[from]))
    ensures !Alive(pattern, value, at, from, -1, retry)
  {
  }

  lemma AtEnd(pattern: string, value: string, at: nat, star: int, retry: nat)
    requires Remembered(pattern, value, at, |value|, star, retry, Plain(pattern, value))
    ensures Glob(pattern[at..], "") ==> Alive(pattern, value, at, |value|, star, retry)
    ensures Plain(pattern, value) && Alive(pattern, value, at, |value|, star, retry) ==> Glob(pattern[at..], "")
  {
    assert value[|value|..] == "";
    if Plain(pattern, value) && CanRetry(pattern, value, star, retry) {
      RetryIsRedundant(pattern, value, star, retry, at, |value|);
    }
  }

  lemma EmptyValue(pattern: string, at: nat)
    requires at <= |pattern|
    ensures at == |pattern| ==> Glob(pattern[at..], "")
    ensures at == |pattern| ==> OnlyStars(pattern[at..])
    ensures at < |pattern| && pattern[at] == '*' ==>
            (Glob(pattern[at..], "") <==> Glob(pattern[at + 1..], "")) &&
            (OnlyStars(pattern[at..]) <==> OnlyStars(pattern[at + 1..]))
    ensures at < |pattern| && pattern[at] != '*' ==> !Glob(pattern[at..], "") && !OnlyStars(pattern[at..])
  {
    if at < |pattern| {
      assert pattern[at..][1..] == pattern[at + 1..];
      assert pattern[at..] == [pattern[at]] + pattern[at + 1..];
    }
  }

  /** The literal comparison comes before the star, so a star in the value is
      consumed as an ordinary character and a match can be missed. */
  lemma LiteralStarIsMissed()
    ensures Glob("*a", "*ba") && !Run("*a", "*ba", 0, 0, -1, 0)
  {
    assert "*ba"[1..] == "ba" && "ba"[1..] == "a" && "a"[1..] == "" && "*a"[1..] == "a";
    assert Glob("a", "a");
    assert Glob("*a", "a") && Glob("*a", "ba");
    assert !Run("*a", "*ba", 1, 1, -1, 0);
  }

  // ---- When exactly the loop is right

  /** The loop's decision from any of its states: never wrong when it accepts, and
      right altogether unless both sides contain a star. */
  lemma {:induction false} Decided(pattern: string, value: string, at: nat, from: nat, star: int, retry: nat)
    requires -1 <= star < at <= |pattern| && retry <= from <= |value| &&
             Undecided(pattern, value, at, from, star, retry)
    ensures Run(pattern, value, 0, 0, -1, 0) ==> Glob(pattern, value)
    ensures Plain(pattern, value) && Glob(pattern, value) ==> Run(pattern, value, 0, 0, -1, 0)
    decreases |value| - retry, |pattern| - at
  {
    hide Glob, Accepts, Plain, Run, Undecided, Trailing;
    if from == |value| {
      TrailingAtStart(pattern, value, at, star, retry);
      DecidedTrailing(pattern, value, at);
    } else {
      UndecidedNext(pattern, value, at, from, star, retry);
      if at < |pattern| && Accepts(pattern[at], value[from]) {
        Decided(pattern, value, at + 1, from + 1, star, retry);
      } else if at < |pattern| && pattern[at] == '*' {
        Decided(pattern, value, at + 1, from, at, from);
      } else if star != -1 {
        Decided(pattern, value, star + 1, retry + 1, star, retry + 1);
      }
    }
  }

  lemma {:induction false} DecidedTrailing(pattern: string, value: string, at: nat)
    requires at <= |pattern| && Trailing(pattern, value, at)
    ensures Run(pattern, value, 0, 0, -1, 0) ==> Glob(pattern, value)
    ensures Plain(pattern, value) && Glob(pattern, value) ==> Run(pattern, value, 0, 0, -1, 0)
    decreases |pattern| - at
  {
    hide Glob, Plain, Run, Trailing;
    TrailingNext(pattern, value, at);
    if at < |pattern| && pattern[at] == '*' {
      DecidedTrailing(pattern, value, at + 1);
    }
  }

  /** Without a star on one side the loop decides the meaning of the pattern. */
  lemma PlainIsDecided(pattern: string, value: string)
    requires Plain(pattern, value)
    ensures Run(pattern, value, 0, 0, -1, 0) == Glob(pattern, value)
  {
    UndecidedAtStart(pattern, value);
    Decided(pattern, value, 0, 0, -1, 0);
  }

  /** For a fixed value the loop is right about every pattern exactly when the
      value contains no star. */
  lemma ValueIff(value: string)
    ensures (forall p: string :: Run(p, value, 0, 0, -1, 0) == Glob(p, value)) <==> '*' !in value
  {
    hide Run, Glob;
    if '*' !in value {
      forall p: string ensures Run(p, value, 0, 0, -1, 0) == Glob(p, value) {
        PlainIsDecided(p, value);
      }
    } else {
      var i: nat :| i < |value| && value[i] == '*';
      var p := Marks(i) + "*" + Marks(|value| - i);
      MarksMissIt(value, i, 0);
      MarksMeanIt(value, i);
    }
  }

  /** A number of question marks. */
  function Marks(n: nat): string { seq(n, _ => '?') }

  lemma {:induction false} MarksMissIt(value: string, i: nat, k: nat)
    requires i < |value| && value[i] == '*' && k <= |value|
    ensures !Run(Marks(i) + "*" + Marks(|value| - i), value, k, k, -1, 0)
    decreases |value| - k
  {
    var p := Marks(i) + "*" + Marks(|value| - i);
    if k < |value| {
      assert p[k] == if k == i then '*' else '?';
      MarksMissIt(value, i, k + 1);
    } else {
      assert p[k..][0] == '?';
    }
  }

  lemma MarksMeanIt(value: string, i: nat)
    requires i <= |value|
    ensures Glob(Marks(i) + "*" + Marks(|value| - i), value)
  {
    var rest := "*" + Marks(|value| - i);
    MarksConsume("", value[i..], |value| - i);
    assert value[i..][|value| - i..] == "" && Marks(|value| - i) + "" == Marks(|value| - i);
    assert rest[1..] == Marks(|value| - i);
    MarksConsume(rest, value, i);
    assert Marks(i) + rest == Marks(i) + "*" + Marks(|value| - i);
  }

  /** Question marks take one character each. */
  lemma {:induction false} MarksConsume(rest: string, value: string, n: nat)
    requires n <= |value| && Glob(rest, value[n..])
    ensures Glob(Marks(n) + rest, value)
  {
    if n == 0 {
      assert Marks(0) + rest == rest && value[0..] == value;
    } else {
      assert value[1..][n - 1..] == value[n..];
      MarksConsume(rest, value[1..], n - 1);
      assert (Marks(n) + rest)[1..] == Marks(n - 1) + rest;
    }
  }

  /** For a fixed pattern the loop is right about every value exactly when the
      pattern contains no star. */
  lemma PatternIff(pattern: string)
    ensures (forall v: string :: Run(pattern, v, 0, 0, -1, 0) == Glob(pattern, v)) <==> '*' !in pattern
  {
    hide Run, Glob;
    if '*' !in pattern {
      forall v: string ensures Run(pattern, v, 0, 0, -1, 0) == Glob(pattern, v) {
        PlainIsDecided(pattern, v);
      }
    } else {
      var i := LastStar(pattern);
      InsertIsMissed(pattern, i, 0);
      InsertIsMeant(pattern, i);
      var v := WithInsert(pattern, i);
      assert Run(pattern, v, 0, 0, -1, 0) != Glob(pattern, v);
    }
  }

  lemma {:induction false} LastStar(pattern: string) returns (i: nat)
    requires '*' in pattern
    ensures i < |pattern| && pattern[i] == '*' && '*' !in pattern[i + 1..]
  {
    var n := |pattern| - 1;
    if pattern[n] == '*' {
      i := n;
    } else {
      i := LastStar(pattern[..n]);
      assert pattern[i + 1..] == pattern[..n][i + 1..] + [pattern[n]];
    }
  }

  /** A character that a pattern character accepts, other than by its meaning: a
      star stands for itself. */
  function Literally(pattern: string): (value: string)
    ensures |value| == |pattern| && forall k :: 0 <= k < |value| ==>
              value[k] == if pattern[k] == '?' then 'x' else pattern[k]
  {
    seq(|pattern|, k requires 0 <= k < |pattern| => if pattern[k] == '?' then 'x' else pattern[k])
  }

  /** The pattern's own characters with one more behind position i. */
  function WithInsert(pattern: string, i: nat): string
    requires i < |pattern|
  {
    Literally(pattern[..i + 1]) + "y" + Literally(pattern[i + 1..])
  }

  lemma {:induction false} InsertIsMissed(pattern: string, i: nat, k: nat)
    requires i < |pattern| && '*' !in pattern[i + 1..] && k <= |pattern|
    ensures !Run(pattern, WithInsert(pattern, i), k, k, -1, 0)
    decreases |pattern| - k
  {
    var v := WithInsert(pattern, i);
    if k < |pattern| {
      InsertIsMissed(pattern, i, k + 1);
      if k <= i {
        assert v[k] == if pattern[k] == '?' then 'x' else pattern[k];
      } else {
        assert pattern[i + 1..][k - i - 1] == pattern[k];
      }
    }
  }

  lemma InsertIsMeant(pattern: string, i: nat)
    requires i < |pattern| && pattern[i] == '*'
    ensures Glob(pattern, WithInsert(pattern, i))
  {
    hide Glob, Literally, WithInsert;
    var before, star, rest := pattern[..i], pattern[i..], pattern[i + 1..];
    EmptyMeansEmpty();
    LiterallyMeant(rest, "", "");
    assert rest + "" == rest && Literally(rest) + "" == Literally(rest);
    var tail := "*y" + Literally(rest);
    assert star[1..] == rest && tail[2..] == Literally(rest);
    StarTakesTwo(star, tail);
    LiterallyMeant(before, star, tail);
    assert before + star == pattern;
    InsertSplits(pattern, i);
  }

  lemma EmptyMeansEmpty()
    ensures Glob("", "")
  {
  }

  lemma StarTakesTwo(pattern: string, value: string)
    requires pattern != "" && 2 <= |value| && pattern[0] == '*' && Glob(pattern[1..], value[2..])
    ensures Glob(pattern, value)
  {
    assert Glob(pattern, value[2..]);
    StarSwallows(pattern, value, 2);
  }

  lemma InsertSplits(pattern: string, i: nat)
    requires i < |pattern| && pattern[i] == '*'
    ensures Literally(pattern[..i]) + ("*y" + Literally(pattern[i + 1..])) == WithInsert(pattern, i)
  {
    assert pattern[..i + 1] == pattern[..i] + "*";
    assert Literally(pattern[..i + 1]) == Literally(pattern[..i]) + "*";
    hide Literally;
  }

  /** A pattern means its own characters. */
  lemma {:induction false} LiterallyMeant(head: string, pattern: string, value: string)
    requires Glob(pattern, value)
    ensures Glob(head + pattern, Literally(head) + value)
  {
    if head == "" {
      assert head + pattern == pattern && Literally(head) + value == value;
    } else {
      LiterallyMeant(head[1..], pattern, value);
      var p, v := head + pattern, Literally(head) + value;
      assert Literally(head)[1..] == Literally(head[1..]);
      assert p[1..] == head[1..] + pattern && v[1..] == Literally(head[1..]) + value;
      if head[0] == '*' {
        StarTakesOne(p, v);
      }
    }
  }

  lemma StarTakesOne(pattern: string, value: string)
    requires pattern != "" && value != "" && pattern[0] == '*' && Glob(pattern[1..], value[1..])
    ensures Glob(pattern, value)
  {
    assert Glob(pattern, value[1..]);
  }

  // ---- The embedded fonts

  datatype Font = Fixed | Cursor

  const FONTS: seq<Font> := [Fixed, Cursor]

  function Alias(font: Font): string { if font.Fixed? then "fixed" else "cursor" }

  function CanonicalName(font: Font): string {
    if font.Fixed? then "-misc-fixed-medium-r-semicondensed" + "--13-120-75-75-c-60-iso8859-1" else "cursor"
  }

  const COMPATIBLE_NAMES: seq<string> := ["5x7", "6x10", "6x13", "7x13", "8x13", "9x15", "10x20", "12x24"]

  function Fixed100Dpi(): string {
    "-misc-fixed-medium-r-semicondensed" + "--13-100-100-100-c-60-iso8859-1"
  }

  function Courier(): string {
    "-adobe-courier-medium-r-normal" + "--10-100-75-75-m-60-iso8859-1"
  }

  /** Every name a font answers to. */
  function Names(font: Font): seq<string> {
    [Alias(font), CanonicalName(font)] +
    if font.Fixed? then COMPATIBLE_NAMES + [Fixed100Dpi(), Courier()] else []
  }

  predicate NoStar(name: string) { '*' !in name }

  lemma NoStarJoins(a: string, b: string)
    requires NoStar(a) && NoStar(b)
    ensures NoStar(a + b)
  {
  }

  lemma Fixed100DpiHasNoStar()
    ensures NoStar(Fixed100Dpi())
  {
    NoStarJoins("-misc-fixed-medium-r-semicondensed", "--13-100-100-100-c-60-iso8859-1");
  }

  lemma CourierHasNoStar()
    ensures NoStar(Courier())
  {
    NoStarJoins("-adobe-courier-medium-r-normal", "--10-100-75-75-m-60-iso8859-1");
  }

  lemma CanonicalHasNoStar(font: Font)
    ensures NoStar(Alias(font)) && NoStar(CanonicalName(font))
  {
    NoStarJoins("-misc-fixed-medium-r-semicondensed", "--13-120-75-75-c-60-iso8859-1");
  }

  lemma ShortNamesHaveNoStars(k: nat)
    requires k < |COMPATIBLE_NAMES|
    ensures NoStar(COMPATIBLE_NAMES[k])
  {
    assert NoStar("5x7") && NoStar("6x10") && NoStar("6x13") && NoStar("7x13");
    assert NoStar("8x13") && NoStar("9x15") && NoStar("10x20") && NoStar("12x24");
    hide NoStar;
  }

  lemma NamesHaveNoStars(font: Font, name: string)
    requires name in Names(font)
    ensures '*' !in name
  {
    Fixed100DpiHasNoStar();
    CourierHasNoStar();
    CanonicalHasNoStar(font);
    if name in COMPATIBLE_NAMES {
      var k :| 0 <= k < |COMPATIBLE_NAMES| && COMPATIBLE_NAMES[k] == name;
      ShortNamesHaveNoStars(k);
    }
    hide Alias, CanonicalName, Fixed100Dpi, Courier;
  }

  predicate Means(pattern: string, font: Font) {
    exists name :: name in Names(font) && Glob(pattern, name)
  }

  method MatchesName(pattern: string, font: Font, name: string) returns (matched: bool)
    requires name in Names(font)
    ensures matched == Glob(pattern, name)
  {
    NamesHaveNoStars(font, name);
    matched := Matches(pattern, name);
  }

  method MatchesFont(pattern: string, font: Font) returns (matched: bool)
    ensures matched == Means(pattern, font)
  {
    hide Glob;
    matched := MatchesName(pattern, font, Alias(font));
    if !matched {
      matched := MatchesName(pattern, font, CanonicalName(font));
    }
    if matched || !font.Fixed? {
      return;
    }
    for k := 0 to |COMPATIBLE_NAMES|
      invariant forall i :: 0 <= i < k ==> !Glob(pattern, COMPATIBLE_NAMES[i])
    {
      assert COMPATIBLE_NAMES[k] in Names(font);
      matched := MatchesName(pattern, font, COMPATIBLE_NAMES[k]);
      if matched {
        return;
      }
    }
    matched := MatchesName(pattern, font, Fixed100Dpi());
    if !matched {
      matched := MatchesName(pattern, font, Courier());
    }
  }

  /** The first `maximum` fonts of a list that a pattern means, in order. */
  function Listed(pattern: string, fonts: seq<Font>, maximum: nat): seq<Font> {
    if fonts == [] || maximum == 0 then []
    else if Means(pattern, fonts[0]) then [fonts[0]] + Listed(pattern, fonts[1..], maximum - 1)
    else Listed(pattern, fonts[1..], maximum)
  }

  method ListFonts(pattern: string, maximum: nat) returns (result: seq<Font>)
    ensures result == Listed(pattern, FONTS, maximum)
  {
    hide Means;
    result := [];
    for k := 0 to |FONTS|
      invariant |result| <= maximum
      invariant result + Listed(pattern, FONTS[k..], maximum - |result|) == Listed(pattern, FONTS, maximum)
    {
      if |result| == maximum {
        break;
      }
      assert FONTS[k..][1..] == FONTS[k + 1..];
      var matched := MatchesFont(pattern, FONTS[k]);
      if matched {
        result := result + [FONTS[k]];
      }
    }
  }

  /** Opening a font by pattern opens the first one that listing would name. */
  method FindFont(pattern: string) returns (found: seq<Font>)
    ensures found == Listed(pattern, FONTS, 1)
  {
    hide Means;
    for k := 0 to |FONTS|
      invariant Listed(pattern, FONTS[k..], 1) == Listed(pattern, FONTS, 1)
    {
      assert FONTS[k..][1..] == FONTS[k + 1..];
      var matched := MatchesFont(pattern, FONTS[k]);
      if matched {
        return [FONTS[k]];
      }
    }
    return [];
  }
}
