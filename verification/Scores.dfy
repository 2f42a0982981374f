/** Block scores and cumulative chain scores (chains/utils.go). */
module Scores {
  import opened Entities
  import opened BlockTree

  const MAX_BLOCK_SCORE: nat := 0x1_0000_0000_0000_0000

  function CalculateScore(target: nat): (s: nat)
    ensures s <= MAX_BLOCK_SCORE
    ensures 0 < target <= MAX_TARGET ==> s >= 2
    ensures s == 0 ==> target == 0 || target > MAX_BLOCK_SCORE
  {
    if target == 0 then 0
    else
      DivBounds(target);
      MAX_BLOCK_SCORE / target
  }

  lemma DivBounds(target: nat)
    requires target > 0
    ensures MAX_BLOCK_SCORE / target <= MAX_BLOCK_SCORE
    ensures target <= MAX_TARGET ==> MAX_BLOCK_SCORE / target >= 2
    ensures target <= MAX_BLOCK_SCORE ==> MAX_BLOCK_SCORE / target >= 1
  {
    var q, r := MAX_BLOCK_SCORE / target, MAX_BLOCK_SCORE % target;
    assert MAX_BLOCK_SCORE == q * target + r;
    assert q * target == q * (target - 1) + q;
  }

  lemma QuotientBounds(target: nat, q: nat, r: nat)
    requires r < target && 0x1_0000_0000_0000_0000 == q * target + r
    ensures q * target <= 0x1_0000_0000_0000_0000 < (q + 1) * target
  {
    assert (q + 1) * target == q * target + target;
  }

  /** The score of a block is 2^64 divided by its base target, rounded down. */
  lemma ScoreIsQuotient(target: nat)
    requires target > 0
    ensures CalculateScore(target) * target <= 0x1_0000_0000_0000_0000 < (CalculateScore(target) + 1) * target
  {
    QuotientBounds(target, MAX_BLOCK_SCORE / target, MAX_BLOCK_SCORE % target);
  }

  lemma NotBelow(x: nat, y: nat, a: nat, b: nat)
    requires a <= b && y * b < (x + 1) * a
    ensures y <= x
  {
    if y > x {
      MultiplyBoth(x + 1, y, a, b);
      assert false;
    }
  }

  lemma MultiplyBoth(x: nat, y: nat, a: nat, b: nat)
    requires x <= y && a <= b
    ensures x * a <= y * b
  {
    assert y * b == x * a + (y - x) * a + y * (b - a);
  }

  /** A smaller base target never scores less. */
  lemma LowerTargetScoresMore(a: nat, b: nat)
    requires 0 < a <= b
    ensures CalculateScore(a) >= CalculateScore(b)
  {
    ScoreIsQuotient(a);
    ScoreIsQuotient(b);
    NotBelow(CalculateScore(a), CalculateScore(b), a, b);
  }

  /** The cumulative score: the sum of the block scores along the ancestor path. */
  function Score(t: Tree, n: nat): nat
  {
    if 0 < n < |t| then CalculateScore(t[n].target) + Score(t, Parent(t, n)) else 0
  }

  lemma {:induction false} ScoreStable(t: Tree, x: Node, n: nat)
    requires n < |t|
    ensures Score(t + [x], n) == Score(t, n)
  {
    if n > 0 {
      assert Parent(t + [x], n) == Parent(t, n);
      ScoreStable(t, x, Parent(t, n));
    }
  }

  /** The number of blocks with base target zero on the first `j` steps up from `n`. */
  function ZeroTargets(t: Tree, n: nat, j: nat): (z: nat)
    ensures z <= j
    decreases j
  {
    if j == 0 then 0
    else (if 0 < n < |t| && t[n].target == 0 then 1 else 0) + ZeroTargets(t, Parent(t, n), j - 1)
  }

  /** Climbing down a path of `j` blocks adds between 2 and 2^64 per block with a non-zero base target. */
  lemma {:induction false} ScoreGain(t: Tree, n: nat, j: nat)
    requires forall i :: 1 <= i < |t| ==> t[i].target <= MAX_TARGET
    requires n < |t| && j <= Height(t, n)
    ensures Score(t, Anc(t, n, j)) + 2 * (j - ZeroTargets(t, n, j)) <= Score(t, n)
    ensures Score(t, n) <= Score(t, Anc(t, n, j)) + (j - ZeroTargets(t, n, j)) * MAX_BLOCK_SCORE
    decreases j
  {
    if j > 0 {
      ScoreGain(t, Parent(t, n), j - 1);
    }
  }

  lemma TargetsInRange(t: Tree)
    requires WellFormed(t)
    ensures forall i :: 1 <= i < |t| ==> t[i].target <= MAX_TARGET
  {
    forall i | 1 <= i < |t|
      ensures t[i].target <= MAX_TARGET
    {
      assert Indexed(t, i);
    }
  }

  /** Per chain: 2h <= score <= h * 2^64 when every base target is positive. */
  lemma ScoreBounds(t: Tree, n: nat)
    requires WellFormed(t) && 1 <= n < |t|
    requires ZeroTargets(t, n, Height(t, n)) == 0
    ensures 2 * Height(t, n) <= Score(t, n) <= Height(t, n) * MAX_BLOCK_SCORE
  {
    TargetsInRange(t);
    ScoreGain(t, n, Height(t, n));
    AncHeight(t, n, Height(t, n));
  }

  /** A proper descendant has a strictly higher score, except when every block in between, itself included,
      has base target zero; then the scores are equal. */
  lemma DescendantScore(t: Tree, x: nat, y: nat)
    requires WellFormed(t) && 1 <= x < |t| && 1 <= y < |t| && AncestorOrSelf(t, x, y)
    ensures var j := Height(t, y) - Height(t, x);
      0 <= j && Score(t, x) <= Score(t, y) && (Score(t, x) == Score(t, y) <==> ZeroTargets(t, y, j) == j)
  {
    AncestorAtHeight(t, x, y);
    TargetsInRange(t);
    ScoreGain(t, y, Height(t, y) - Height(t, x));
  }

  /** Half the base target scores at least twice as much, and so strictly more. */
  lemma HalfTargetScoresDouble(a: nat, b: nat)
    requires 0 < a && 2 * a <= b <= MAX_TARGET
    ensures CalculateScore(a) >= 2 * CalculateScore(b) > CalculateScore(b)
  {
    var x, y := CalculateScore(a), CalculateScore(b);
    ScoreIsQuotient(a);
    ScoreIsQuotient(b);
    MultiplyBoth(y, y, 2 * a, b);
    assert (2 * y) * a == y * (2 * a);
    NotBelow(x, 2 * y, a, a);
  }

  // ----- comparing chains

  /** A block adds to the score of its parent 2^64 divided by its base target, rounded down, or nothing for base target
      zero. Genesis starts from nothing. */
  lemma {:induction false} BlockAddsQuotient(t: Tree, n: nat)
    requires WellFormed(t) && 1 <= n < |t|
    ensures var gain := Score(t, n) - if n == 1 then 0 else Score(t, t[n].parent);
      && (t[n].target == 0 ==> gain == 0)
      && (t[n].target > 0 ==>
            gain >= 0 && gain * t[n].target <= 0x1_0000_0000_0000_0000 < (gain + 1) * t[n].target)
  {
    if n > 1 {
      assert Placed(t, n);
    }
    if t[n].target > 0 {
      ScoreIsQuotient(t[n].target);
    }
  }

  /** Of two blocks on one parent the one with the lower base target makes the chain that scores at least as high. */
  lemma {:induction false} LowerTargetLeads(t: Tree, x: nat, y: nat)
    requires WellFormed(t) && 2 <= x < |t| && 2 <= y < |t| && t[x].parent == t[y].parent
    requires 0 < t[x].target <= t[y].target
    ensures Score(t, x) >= Score(t, y)
  {
    assert Placed(t, x) && Placed(t, y);
    LowerTargetScoresMore(t[x].target, t[y].target);
  }

  /** The ancestor `i` steps up is a block with base target zero. */
  ghost predicate ZeroAt(t: Tree, n: nat, i: nat)
  {
    var x := Anc(t, n, i);
    1 <= x < |t| && t[x].target == 0
  }

  /** `ZeroTargets` reaches its maximum exactly when all blocks on the way have base target zero. */
  lemma {:induction false} AllZero(t: Tree, n: nat, j: nat)
    requires n < |t| && j <= Height(t, n)
    ensures ZeroTargets(t, n, j) == j <==> forall i: nat :: i < j ==> ZeroAt(t, n, i)
    decreases j
  {
    if j > 0 {
      var p := Parent(t, n);
      AllZero(t, p, j - 1);
      assert ZeroAt(t, n, 0) <==> t[n].target == 0 by {
        assert Anc(t, n, 0) == n;
      }
      forall i: nat | 0 < i < j
        ensures ZeroAt(t, n, i) <==> ZeroAt(t, p, i - 1)
      {
        assert Anc(t, n, i) == Anc(t, p, i - 1);
      }
      forall i: nat | i < j - 1 && forall k: nat :: k < j ==> ZeroAt(t, n, k)
        ensures ZeroAt(t, p, i)
      {
        assert ZeroAt(t, n, i + 1);
      }
    }
  }
}
