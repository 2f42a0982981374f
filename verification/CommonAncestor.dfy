/** Last common ancestors: the plain parent walk, what it computes, and when the binary-lifting search of
    `lca` (chains/storage.go) agrees with it. */
module CommonAncestor {
  import opened Powers
  import opened BlockTree

  /** The two-finger walk: lift the higher block, or both when they are level, until the fingers meet. */
  function WalkLca(t: Tree, a: nat, b: nat): (c: nat)
    requires a < |t| && b < |t|
    ensures c <= a && c <= b
    ensures Height(t, c) <= Height(t, a) && Height(t, c) <= Height(t, b)
    decreases a + b
  {
    if a == b then a
    else if Height(t, a) > Height(t, b) then WalkLca(t, Parent(t, a), b)
    else if Height(t, a) < Height(t, b) then WalkLca(t, a, Parent(t, b))
    else WalkLca(t, Parent(t, a), Parent(t, b))
  }

  ghost predicate IsCommonAncestor(t: Tree, c: nat, a: nat, b: nat)
  {
    c >= 1 && AncestorOrSelf(t, c, a) && AncestorOrSelf(t, c, b)
  }

  lemma AncestorOfParent(t: Tree, x: nat, n: nat)
    requires x >= 1 && n < |t| && AncestorOrSelf(t, x, n) && x != n
    ensures AncestorOrSelf(t, x, Parent(t, n))
  {
    var j: nat :| Anc(t, n, j) == x;
    assert Anc(t, Parent(t, n), j - 1) == x;
  }

  lemma ParentIsAncestor(t: Tree, x: nat, n: nat)
    requires AncestorOrSelf(t, x, Parent(t, n))
    ensures AncestorOrSelf(t, x, n)
  {
    var j: nat :| Anc(t, Parent(t, n), j) == x;
    assert Anc(t, n, j + 1) == x;
  }

  lemma SelfIsAncestor(t: Tree, n: nat)
    ensures AncestorOrSelf(t, n, n)
  {
    assert Anc(t, n, 0) == n;
  }

  lemma {:induction false} WalkIsAncestor(t: Tree, a: nat, b: nat)
    requires a < |t| && b < |t|
    ensures AncestorOrSelf(t, WalkLca(t, a, b), a) && AncestorOrSelf(t, WalkLca(t, a, b), b)
    decreases a + b
  {
    var c := WalkLca(t, a, b);
    if a == b {
      SelfIsAncestor(t, a);
    } else if Height(t, a) > Height(t, b) {
      WalkIsAncestor(t, Parent(t, a), b);
      ParentIsAncestor(t, c, a);
    } else if Height(t, a) < Height(t, b) {
      WalkIsAncestor(t, a, Parent(t, b));
      ParentIsAncestor(t, c, b);
    } else {
      WalkIsAncestor(t, Parent(t, a), Parent(t, b));
      ParentIsAncestor(t, c, a);
      ParentIsAncestor(t, c, b);
    }
  }

  lemma {:induction false} WalkIsDeepest(t: Tree, a: nat, b: nat, c: nat)
    requires a < |t| && b < |t|
    requires IsCommonAncestor(t, c, a, b)
    ensures AncestorOrSelf(t, c, WalkLca(t, a, b))
    decreases a + b
  {
    AncestorAtHeight(t, c, a);
    AncestorAtHeight(t, c, b);
    if a == b {
    } else if Height(t, a) > Height(t, b) {
      AncestorOfParent(t, c, a);
      WalkIsDeepest(t, Parent(t, a), b, c);
    } else if Height(t, a) < Height(t, b) {
      AncestorOfParent(t, c, b);
      WalkIsDeepest(t, a, Parent(t, b), c);
    } else {
      AncestorOfParent(t, c, a);
      AncestorOfParent(t, c, b);
      WalkIsDeepest(t, Parent(t, a), Parent(t, b), c);
    }
  }

  /** The walk finds the deepest common ancestor: it is one, and every other one is its ancestor. */
  lemma LcaIsDeepestCommonAncestor(t: Tree, a: nat, b: nat)
    requires WellFormed(t) && 1 <= a < |t| && 1 <= b < |t|
    ensures IsCommonAncestor(t, WalkLca(t, a, b), a, b)
    ensures forall c :: IsCommonAncestor(t, c, a, b) ==> AncestorOrSelf(t, c, WalkLca(t, a, b))
  {
    forall c | IsCommonAncestor(t, c, a, b)
      ensures AncestorOrSelf(t, c, WalkLca(t, a, b))
    {
      WalkIsDeepest(t, a, b, c);
    }
    OnlyRoot(t, a);
    OnlyRoot(t, b);
    assert IsCommonAncestor(t, 1, a, b);
    WalkIsAncestor(t, a, b);
    AncestorAtOne(t, WalkLca(t, a, b));
  }

  /** The void has no block above it. */
  lemma AncestorAtOne(t: Tree, n: nat)
    requires AncestorOrSelf(t, 1, n)
    ensures n >= 1
  {
    if n == 0 {
      var j: nat :| Anc(t, 0, j) == 1;
      AncVoid(t, j);
      assert false;
    }
  }

  /** Being the deepest common ancestor determines the block. */
  lemma DeepestIsUnique(t: Tree, a: nat, b: nat, c: nat)
    requires WellFormed(t) && 1 <= a < |t| && 1 <= b < |t|
    requires IsCommonAncestor(t, c, a, b)
    requires forall d :: IsCommonAncestor(t, d, a, b) ==> AncestorOrSelf(t, d, c)
    ensures c == WalkLca(t, a, b)
  {
    LcaIsDeepestCommonAncestor(t, a, b);
    var w := WalkLca(t, a, b);
    AncestorAtHeight(t, c, a);
    AncestorAtHeight(t, w, c);
    AncestorAtHeight(t, c, w);
  }

  lemma {:induction false} LcaSymmetric(t: Tree, a: nat, b: nat)
    requires WellFormed(t) && 1 <= a < |t| && 1 <= b < |t|
    ensures WalkLca(t, a, b) == WalkLca(t, b, a)
  {
    LcaIsDeepestCommonAncestor(t, b, a);
    forall c | IsCommonAncestor(t, c, a, b)
      ensures AncestorOrSelf(t, c, WalkLca(t, b, a))
    {
      assert IsCommonAncestor(t, c, b, a);
    }
    DeepestIsUnique(t, a, b, WalkLca(t, b, a));
  }

  /** The result is one of the two arguments exactly when that argument is an ancestor of the other. */
  lemma LcaIsArgument(t: Tree, a: nat, b: nat)
    requires WellFormed(t) && 1 <= a < |t| && 1 <= b < |t|
    ensures WalkLca(t, a, b) == b <==> AncestorOrSelf(t, b, a)
  {
    LcaIsDeepestCommonAncestor(t, a, b);
    var w := WalkLca(t, a, b);
    if AncestorOrSelf(t, b, a) {
      SelfIsAncestor(t, b);
      assert IsCommonAncestor(t, b, a, b);
      AncestorAtHeight(t, b, w);
    }
  }

  // ----- binary lifting

  /** Lifting the higher block level with the other first does not change the result. */
  lemma {:induction false} LevelFirst(t: Tree, a: nat, b: nat, d: nat)
    requires a < |t| && b < |t| && Height(t, a) >= Height(t, b) + d
    ensures Anc(t, a, d) < |t| && WalkLca(t, Anc(t, a, d), b) == WalkLca(t, a, b)
  {
    if d > 0 {
      LevelFirst(t, Parent(t, a), b, d - 1);
    }
  }

  lemma {:induction false} LevelFirstOther(t: Tree, a: nat, b: nat, d: nat)
    requires a < |t| && b < |t| && Height(t, b) >= Height(t, a) + d
    ensures Anc(t, b, d) < |t| && WalkLca(t, a, Anc(t, b, d)) == WalkLca(t, a, b)
  {
    if d > 0 {
      LevelFirstOther(t, a, Parent(t, b), d - 1);
    }
  }

  /** Two level blocks have the same `j`-th ancestor exactly when `j` steps reach their common ancestor. */
  lemma {:induction false} MeetExactly(t: Tree, a: nat, b: nat, j: nat)
    requires a < |t| && b < |t| && Height(t, a) == Height(t, b)
    ensures Anc(t, a, j) == Anc(t, b, j) <==> Height(t, a) - Height(t, WalkLca(t, a, b)) <= j
    decreases a + b
  {
    if a != b {
      MeetExactly(t, Parent(t, a), Parent(t, b), if j > 0 then j - 1 else 0);
    }
  }

  /** At table index `i` the search, aiming for the block `K` steps up, stands K mod 2^(i+1) steps below it, at
      height A + 1 + (K mod 2^(i+1)). It reads entry `i` there, which exists if the height exceeds 2^i. */
  ghost predicate EntryExists(A: nat, K: nat, i: nat)
  {
    Pow2(i + 1) <= K ==> Pow2(i) <= A + K % Pow2(i + 1)
  }

  ghost predicate EntriesExist(A: nat, K: nat, from: nat)
  {
    forall i: nat :: from <= i ==> EntryExists(A, K, i)
  }

  /** The exact condition for `lca` to stay within the jump tables, its index never being lowered after a jump.
      `A` is the height of the common ancestor and `k` the distance from there to the lower of the two blocks. */
  ghost predicate JumpsInBounds(A: nat, k: nat)
  {
    k == 0 || EntriesExist(A, k - 1, 0)
  }

  /** Table indices above the binary length of `K` play no role. */
  lemma HighEntriesExist(A: nat, K: nat, n: nat)
    requires K < Pow2(n)
    ensures EntriesExist(A, K, n)
  {
    forall i: nat | n <= i
      ensures EntryExists(A, K, i)
    {
      PowMonotone(n, i + 1);
    }
  }

  /** The exact bound above a common ancestor of height `A`, where 2^m is the least power of two above `A`: every branch
      of at most 2^(m + 1) blocks is in bounds, and one that is a block longer is not. */
  lemma {:induction false} FirstFailingBranch(A: nat, m: nat)
    requires A < Pow2(m) && (m > 0 ==> Pow2(m - 1) <= A)
    ensures forall k :: 0 <= k <= Pow2(m + 1) ==> JumpsInBounds(A, k)
    ensures !JumpsInBounds(A, Pow2(m + 1) + 1)
  {
    forall k | 0 <= k <= Pow2(m + 1)
      ensures JumpsInBounds(A, k)
    {
      if k > 0 {
        ShortOfPower(A, m, k - 1);
      }
    }
    LongBranchOutOfBounds(A, m);
  }

  lemma {:induction false} ShortOfPower(A: nat, m: nat, K: nat)
    requires m > 0 ==> Pow2(m - 1) <= A
    requires K < Pow2(m + 1)
    ensures EntriesExist(A, K, 0)
  {
    forall i: nat
      ensures EntryExists(A, K, i)
    {
      if i >= m {
        PowMonotone(m + 1, i + 1);
      } else {
        PowMonotone(i, m - 1);
      }
    }
  }

  /** There is such a power for every height. */
  lemma {:induction false} PowerAbove(A: nat) returns (m: nat)
    ensures A < Pow2(m) && (m > 0 ==> Pow2(m - 1) <= A)
  {
    m := 0;
    while Pow2(m) <= A
      invariant m > 0 ==> Pow2(m - 1) <= A
      decreases A - Pow2(m)
    {
      m := m + 1;
    }
  }

  /** A bound that is easy to check: the lower branch is at most 2A + 2 blocks long. */
  lemma {:induction false} ShortBranchInBounds(A: nat, k: nat)
    requires k <= 2 * A + 2
    ensures JumpsInBounds(A, k)
  {
    var m := PowerAbove(A);
    FirstFailingBranch(A, m);
  }

  /** It is sharp: infinitely often one block more is too long. */
  lemma {:induction false} ShortBranchSharp(A: nat, m: nat)
    requires A + 1 == Pow2(m)
    ensures !JumpsInBounds(A, 2 * A + 3)
  {
    LongBranchOutOfBounds(A, m);
  }

  /** Below height 6 the search never leaves the tables. */
  lemma BelowHeightSixInBounds(A: nat, k: nat)
    requires A >= 1 && A + k < 6
    ensures JumpsInBounds(A, k)
  {
    assert Pow2(0) == 1 && Pow2(1) == 2 && Pow2(2) == 4;
    if k > 0 {
      var K := k - 1;
      forall i: nat
        ensures EntryExists(A, K, i)
      {
        if i >= 1 {
          PowMonotone(2, i + 1);
        }
      }
    }
  }

  /** Some bound is needed above every common ancestor: a branch one longer than a large enough power of two
      always leaves the tables. */
  lemma LongBranchOutOfBounds(A: nat, m: nat)
    requires A < Pow2(m)
    ensures !JumpsInBounds(A, Pow2(m + 1) + 1)
  {
    var k := Pow2(m + 1) + 1;
    DivModUnique(k - 1, Pow2(m + 1), 1, 0);
    assert !EntryExists(A, k - 1, m);
  }
}
