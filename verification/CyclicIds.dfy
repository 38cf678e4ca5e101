/** The wrapping searches for an unused nonzero 32-bit id that RANDR modes and
    GLX context tags share. */
module CyclicIds {
  import opened Wire

  const WORDS: nat := 0x1_0000_0000

  /** The k-th id tried by a search that starts at `start`. */
  function At(start: Word32, k: nat): Word32 { (start + k) % WORDS }

  predicate Blocked(used: set<Word32>, id: Word32) { id == 0 || id in used }

  /** The search meets its first usable id at step k. */
  ghost predicate FirstFree(used: set<Word32>, start: Word32, k: nat) {
    !Blocked(used, At(start, k)) && forall j :: 0 <= j < k ==> Blocked(used, At(start, j))
  }

  ghost predicate AllBlocked(used: set<Word32>, start: Word32, k: nat) {
    forall j :: 0 <= j < k ==> Blocked(used, At(start, j))
  }

  /** The ids met in the first k steps. */
  ghost function Tried(start: Word32, k: nat): set<Word32> {
    if k == 0 then {} else Tried(start, k - 1) + {At(start, k - 1)}
  }

  lemma {:induction false} TriedIs(start: Word32, k: nat, id: Word32)
    ensures id in Tried(start, k) <==> exists j :: 0 <= j < k && id == At(start, j)
  {
    if k > 0 {
      TriedIs(start, k - 1, id);
      assert id == At(start, k - 1) ==> exists j :: 0 <= j < k && id == At(start, j);
    }
  }

  lemma DistinctSteps(start: Word32, j: nat, k: nat)
    requires j < k < WORDS
    ensures At(start, j) != At(start, k)
  {
  }

  lemma {:induction false} TriedDistinct(start: Word32, k: nat)
    requires k <= WORDS
    ensures |Tried(start, k)| == k
  {
    if k > 0 {
      TriedDistinct(start, k - 1);
      TriedIs(start, k - 1, At(start, k - 1));
      forall j: nat | j < k - 1 ensures At(start, j) != At(start, k - 1) {
        DistinctSteps(start, j, k - 1);
      }
    }
  }

  /** Pigeonhole: k blocked steps need k - 1 used ids, so the search is over
      before it has tried every used id and zero. */
  lemma SearchIsShort(used: set<Word32>, start: Word32, k: nat)
    requires AllBlocked(used, start, k) && |used| + 1 < WORDS
    ensures k <= |used| + 1
  {
    var n := if k <= |used| + 2 then k else |used| + 2;
    TriedDistinct(start, n);
    forall id | id in Tried(start, n) ensures id in used + {0} {
      TriedIs(start, n, id);
    }
    SubsetSize(Tried(start, n), used + {0});
    assert used + {0} == used + ({0} - used);
  }

  lemma {:induction false} SubsetSize<T>(a: set<T>, b: set<T>)
    requires a <= b
    ensures |a| <= |b|
  {
    if a != {} {
      var x :| x in a;
      SubsetSize(a - {x}, b - {x});
    }
  }

  lemma NoneTried(used: set<Word32>, start: Word32)
    ensures AllBlocked(used, start, 0)
  {
  }

  lemma BlockedStep(used: set<Word32>, start: Word32, k: nat)
    requires AllBlocked(used, start, k) && Blocked(used, At(start, k)) && |used| + 1 < WORDS
    ensures AllBlocked(used, start, k + 1) && k <= |used|
  {
    forall j | 0 <= j < k + 1 ensures Blocked(used, At(start, j)) {
      assert j == k || j < k;
    }
    SearchIsShort(used, start, k + 1);
  }

  lemma SearchEnds(used: set<Word32>, start: Word32, k: nat)
    requires AllBlocked(used, start, k) && !Blocked(used, At(start, k)) && |used| + 1 < WORDS
    ensures FreshId(used, start) == At(start, k)
  {
    assert FirstFree(used, start, k);
    FreshIdIs(used, start, k);
  }

  /** The search loop, from step k on. */
  lemma {:induction false} Search(used: set<Word32>, start: Word32, k: nat) returns (free: nat)
    requires |used| + 1 < WORDS && AllBlocked(used, start, k)
    ensures FirstFree(used, start, free)
    decreases |used| + 2 - k
  {
    SearchIsShort(used, start, k);
    if Blocked(used, At(start, k)) {
      free := Search(used, start, k + 1);
    } else {
      free := k;
    }
  }

  /** The id every such search ends at. */
  ghost function FreshId(used: set<Word32>, start: Word32): (id: Word32)
    requires |used| + 1 < WORDS
    ensures id != 0 && id !in used
  {
    assert exists k: nat :: FirstFree(used, start, k) by {
      var k := Search(used, start, 0);
    }
    var k: nat :| FirstFree(used, start, k);
    At(start, k)
  }

  lemma FirstFreeUnique(used: set<Word32>, start: Word32, k: nat, m: nat)
    requires FirstFree(used, start, k) && FirstFree(used, start, m)
    ensures k == m
  {
    var a, b := At(start, k), At(start, m);
    assert !Blocked(used, a) && !Blocked(used, b);
  }

  lemma FreshIdIs(used: set<Word32>, start: Word32, k: nat)
    requires |used| + 1 < WORDS && FirstFree(used, start, k)
    ensures FreshId(used, start) == At(start, k)
  {
    var m: nat :| FirstFree(used, start, m) && FreshId(used, start) == At(start, m);
    FirstFreeUnique(used, start, k, m);
  }

  /** Any reachable step's id is the current value of a counter that wraps. */
  lemma NextStep(start: Word32, k: nat)
    ensures At(start, 0) == start
    ensures At(start, k + 1) == (At(start, k) + 1) % WORDS
  {
  }
}
