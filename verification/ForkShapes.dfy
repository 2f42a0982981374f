/** Trees with two branches of any length above a common ancestor of any height: the shapes on which the search of
    `lca` succeeds or panics all occur in reachable stores. */
module ForkShapes {
  import opened Entities
  import opened ByteOrder
  import opened Powers
  import opened BlockTree
  import opened CommonAncestor
  import opened Database
  import opened Scores
  import opened Ledger
  import opened Forks
  import opened LoaderQueue
  import opened Storage

  /** The parent of block `n`: a trunk of `A` blocks, then two branches of `k` blocks on top of it. */
  function ForkParent(A: nat, k: nat, n: nat): nat
  {
    if n <= 1 then 0 else if n == A + k + 1 then A else n - 1
  }

  /** Block `n` gets the ID at position n - 1. */
  ghost predicate IsForkNode(t: Tree, A: nat, k: nat, n: nat, ids: seq<BlockId>)
    requires n < |t| == |ids| + 1
  {
    t[n] == if n == 0 then VOID else Node(ids[n - 1], ForkParent(A, k, n), ForkParent(A, k, n), 1, [])
  }

  ghost predicate IsForkTree(t: Tree, A: nat, k: nat, ids: seq<BlockId>)
  {
    && A >= 1 && k >= 1 && |ids| == A + 2 * k && |t| == |ids| + 1
    && forall n {:trigger IsForkNode(t, A, k, n, ids)} :: 0 <= n < |t| ==> IsForkNode(t, A, k, n, ids)
  }

  function ForkTree(A: nat, k: nat, ids: seq<BlockId>): (t: Tree)
    requires A >= 1 && k >= 1 && |ids| == A + 2 * k
    ensures IsForkTree(t, A, k, ids)
  {
    [VOID] + seq(|ids|, i requires 0 <= i < |ids| =>
                   Node(ids[i], ForkParent(A, k, i + 1), ForkParent(A, k, i + 1), 1, []))
  }

  lemma {:induction false} ForkEdge(t: Tree, A: nat, k: nat, ids: seq<BlockId>, n: nat)
    requires IsForkTree(t, A, k, ids) && 1 <= n < |t|
    ensures Parent(t, n) == ForkParent(A, k, n) && t[n].id == ids[n - 1] && t[n].target == 1
    ensures t[n].parent == t[n].base == ForkParent(A, k, n)
  {
    assert IsForkNode(t, A, k, n, ids);
  }

  lemma {:induction false} ForkHeight(t: Tree, A: nat, k: nat, ids: seq<BlockId>, n: nat)
    requires IsForkTree(t, A, k, ids) && 1 <= n < |t|
    ensures Height(t, n) == if n <= A + k then n else n - k
  {
    ForkEdge(t, A, k, ids, n);
    if n > 1 {
      ForkHeight(t, A, k, ids, ForkParent(A, k, n));
    }
  }

  lemma {:induction false} WalkUp(t: Tree, a: nat, b: nat, p: nat, q: nat)
    requires 1 <= a < |t| && 1 <= b < |t| && a != b && Height(t, a) == Height(t, b)
    requires p == Parent(t, a) && q == Parent(t, b)
    ensures WalkLca(t, a, b) == WalkLca(t, p, q)
  {
  }

  /** Blocks level with each other on the two branches meet at the top of the trunk. */
  lemma {:induction false} BranchesMeet(t: Tree, A: nat, k: nat, ids: seq<BlockId>, a: nat, b: nat)
    requires IsForkTree(t, A, k, ids) && A < a <= A + k && b == a + k
    ensures WalkLca(t, a, b) == A
  {
    ForkHeight(t, A, k, ids, a);
    ForkHeight(t, A, k, ids, b);
    ForkEdge(t, A, k, ids, a);
    ForkEdge(t, A, k, ids, b);
    if a > A + 1 {
      WalkUp(t, a, b, a - 1, b - 1);
      BranchesMeet(t, A, k, ids, a - 1, b - 1);
    } else {
      WalkUp(t, a, b, A, A);
    }
  }

  lemma {:induction false} ForkIds(t: Tree, A: nat, k: nat, ids: seq<BlockId>, n: nat)
    requires IsForkTree(t, A, k, ids) && Distinct(ids) && 1 <= n < |t|
    ensures NumOf(t, ids[n - 1]) == n
  {
    forall i, j | 1 <= i < j < |t|
      ensures t[i].id != t[j].id
    {
      ForkEdge(t, A, k, ids, i);
      ForkEdge(t, A, k, ids, j);
    }
    ForkEdge(t, A, k, ids, n);
    NumOfExact(t, n);
  }

  lemma {:induction false} ForkTreeWellFormed(t: Tree, A: nat, k: nat, ids: seq<BlockId>)
    requires IsForkTree(t, A, k, ids) && Distinct(ids) && A + k <= MAX_HEIGHT
    ensures WellFormed(t)
  {
    forall n | 1 <= n < |t|
      ensures Indexed(t, n)
    {
      ForkHeight(t, A, k, ids, n);
      ForkIds(t, A, k, ids, n);
      ForkEdge(t, A, k, ids, n);
    }
    forall n | 2 <= n < |t|
      ensures Placed(t, n)
    {
      ForkEdge(t, A, k, ids, n);
    }
    ForkEdge(t, A, k, ids, 1);
  }

  /** What `lca` answers for two blocks of height `h` whose last common block is number `A`, at height `A`. */
  lemma {:induction false} LevelAnswer(t: Tree, id1: BlockId, id2: BlockId, n1: nat, n2: nat, A: nat, h: nat)
    requires 1 <= n1 < |t| && 1 <= n2 < |t| && n1 == NumOf(t, id1) && n2 == NumOf(t, id2)
    requires A == WalkLca(t, n1, n2) && Height(t, A) == A && Height(t, n1) == h && Height(t, n2) == h
    ensures LcaAnswer(t, id1, id2) == if JumpsInBounds(A, h - A) then Success(IdOf(t, A)) else Failure(Panic)
  {
    assert BranchLength(t, n1, n2) == h - A;
  }

  lemma {:induction false} ForkHeads(t: Tree, A: nat, k: nat, ids: seq<BlockId>)
    requires IsForkTree(t, A, k, ids)
    ensures Height(t, A) == A && Height(t, A + k) == Height(t, A + 2 * k) == A + k
    ensures WalkLca(t, A + k, A + 2 * k) == A
  {
    ForkHeight(t, A, k, ids, A);
    ForkHeight(t, A, k, ids, A + k);
    ForkHeight(t, A, k, ids, A + 2 * k);
    BranchesMeet(t, A, k, ids, A + k, A + 2 * k);
  }

  /** Blocks A + k and A + 2k are the heads of two branches of `k` blocks above block `A`, which has height `A`; and
      `lca` finds that block or panics, depending on the condition. */
  ghost predicate TwoBranches(t: Tree, A: nat, k: nat, ids: seq<BlockId>)
    requires A >= 1 && k >= 1 && |ids| == A + 2 * k
  {
    && |t| == A + 2 * k + 1
    && Height(t, A) == A && Height(t, A + k) == Height(t, A + 2 * k) == A + k
    && WalkLca(t, A + k, A + 2 * k) == A
    && LcaAnswer(t, ids[A + k - 1], ids[A + 2 * k - 1])
       == if JumpsInBounds(A, k) then Success(ids[A - 1]) else Failure(Panic)
  }

  lemma {:induction false} HeadsAnswer(t: Tree, A: nat, k: nat, ids: seq<BlockId>, n1: nat, n2: nat)
    requires A >= 1 && k >= 1 && n1 == A + k && n2 == A + 2 * k && |ids| == n2 && |t| == n2 + 1
    requires NumOf(t, ids[n1 - 1]) == n1 && NumOf(t, ids[n2 - 1]) == n2 && t[A].id == ids[A - 1]
    requires Height(t, A) == A && Height(t, n1) == n1 && Height(t, n2) == n1 && WalkLca(t, n1, n2) == A
    ensures TwoBranches(t, A, k, ids)
  {
    LevelAnswer(t, ids[n1 - 1], ids[n2 - 1], n1, n2, A, n1);
  }

  lemma {:induction false} ForkAnswers(t: Tree, A: nat, k: nat, ids: seq<BlockId>)
    requires IsForkTree(t, A, k, ids) && Distinct(ids)
    ensures TwoBranches(t, A, k, ids)
  {
    ForkIds(t, A, k, ids, A + k);
    ForkIds(t, A, k, ids, A + 2 * k);
    ForkEdge(t, A, k, ids, A);
    ForkHeads(t, A, k, ids);
    HeadsAnswer(t, A, k, ids, A + k, A + 2 * k);
  }

  /** The store right after a first start. */
  function GenesisLedger(id: BlockId): Ledger
  {
    Ledger([VOID, Node(id, 0, 0, 1, [])], map[])
  }

  /** Every such tree is the tree of a run of puts from genesis. */
  lemma {:induction false} ForkTreeIsReachable(A: nat, k: nat, ids: seq<BlockId>, a: Addr) returns (ops: seq<Op>)
    requires A >= 1 && k >= 1 && |ids| == A + 2 * k && Distinct(ids) && A + k <= MAX_HEIGHT
    ensures Run(GenesisLedger(ids[0]), ops).tree == ForkTree(A, k, ids)
  {
    var t := ForkTree(A, k, ids);
    ForkTreeWellFormed(t, A, k, ids);
    assert IsForkNode(t, A, k, 0, ids) && IsForkNode(t, A, k, 1, ids);
    assert t[..2] == GenesisLedger(ids[0]).tree;
    ops := EveryTreeIsReachable(t, 2, a, map[]);
  }

  /** For every height `A` of the common ancestor, every branch length `k` and any different IDs, some run of puts from
      genesis ends in a store with two such branches, and there `lca` of their heads panics exactly when the condition
      fails. */
  lemma {:induction false} EveryForkOccurs(A: nat, k: nat, ids: seq<BlockId>, a: Addr) returns (ops: seq<Op>)
    requires A >= 1 && k >= 1 && |ids| == A + 2 * k && Distinct(ids) && A + k <= MAX_HEIGHT
    ensures var t := Run(GenesisLedger(ids[0]), ops).tree; WellFormed(t) && TwoBranches(t, A, k, ids)
  {
    ForkTreeWellFormed(ForkTree(A, k, ids), A, k, ids);
    ForkAnswers(ForkTree(A, k, ids), A, k, ids);
    ops := ForkTreeIsReachable(A, k, ids, a);
  }

  // ----- failing pairs

  /** There are as many different 32-byte IDs as any store needs. */
  lemma {:induction false} DifferentIds(n: nat) returns (ids: seq<BlockId>)
    requires n <= Pow256(32)
    ensures |ids| == n && Distinct(ids) && forall i :: 0 <= i < n ==> |ids[i].bytes| == 32
  {
    var size: nat :| size == 32;
    ids := seq(n, i requires 0 <= i < n => BlockId(BigEndian(i, size)));
    forall i, j | 0 <= i < j < n
      ensures ids[i] != ids[j]
    {
      BigEndianRoundTrip(i, size);
      BigEndianRoundTrip(j, size);
    }
  }

  /** The smallest failing pair: two branches that fork at genesis and reach height 6, in a reachable store. */
  lemma {:induction false} HeightSixPanics(ids: seq<BlockId>, a: Addr) returns (ops: seq<Op>)
    requires |ids| == 11 && Distinct(ids)
    ensures var t := Run(GenesisLedger(ids[0]), ops).tree;
      && WellFormed(t) && |t| == 12 && Height(t, 6) == Height(t, 11) == 6
      && LcaAnswer(t, ids[5], ids[10]) == Failure(Panic)
  {
    assert Pow2(1) == 2;
    LongBranchOutOfBounds(1, 1);
    ops := EveryForkOccurs(1, 5, ids, a);
  }

  /** No pair of blocks whose lower block is below height 6 fails. */
  lemma {:induction false} BelowHeightSixSucceeds(t: Tree, n1: nat, n2: nat)
    requires WellFormed(t) && 1 <= n1 < |t| && 1 <= n2 < |t|
    requires Height(t, n1) < 6 || Height(t, n2) < 6
    ensures LcaOfNums(t, n1, n2) == Success(t[WalkLca(t, n1, n2)].id)
  {
    LcaIsDeepestCommonAncestor(t, n1, n2);
    BelowHeightSixInBounds(Height(t, WalkLca(t, n1, n2)), BranchLength(t, n1, n2));
  }

  /** Above a common ancestor some branch length fails, and a reachable store has such branches, as long as their
      heights fit 32 bits. */
  lemma {:induction false} LongBranchPanics(A: nat, k: nat, m: nat, ids: seq<BlockId>, a: Addr)
    returns (ops: seq<Op>)
    requires 1 <= A < Pow2(m) && k == Pow2(m + 1) + 1 && A + k <= MAX_HEIGHT
    requires |ids| == A + 2 * k && Distinct(ids)
    ensures var t := Run(GenesisLedger(ids[0]), ops).tree;
      && WellFormed(t) && |t| == A + 2 * k + 1
      && TwoBranches(t, A, k, ids) && LcaAnswer(t, ids[A + k - 1], ids[A + 2 * k - 1]) == Failure(Panic)
  {
    assert !JumpsInBounds(A, k) by {
      LongBranchOutOfBounds(A, m);
    }
    ops := EveryForkOccurs(A, k, ids, a);
  }

  /** The search panics on these two blocks, whose last common block has height `A`. */
  ghost predicate FailsAbove(t: Tree, A: nat, n1: nat, n2: nat)
  {
    && WellFormed(t) && 1 <= n1 < |t| && 1 <= n2 < |t|
    && Height(t, WalkLca(t, n1, n2)) == A && LcaOfNums(t, n1, n2) == Failure(Panic)
  }

  /** A failing pair has a branch longer than 2^(m + 1), where 2^m is the least power of two above the height of the
      common ancestor. */
  lemma {:induction false} FailingBranchIsLong(t: Tree, A: nat, n1: nat, n2: nat, m: nat)
    requires FailsAbove(t, A, n1, n2) && A < Pow2(m) && (m > 0 ==> Pow2(m - 1) <= A)
    ensures A + Pow2(m + 1) + 1 <= MAX_HEIGHT
  {
    FirstFailingBranch(A, m);
    assert Indexed(t, n1) && Indexed(t, n2);
    assert BranchLength(t, n1, n2) > Pow2(m + 1);
  }

  lemma {:induction false} LevelPairFails(t: Tree, n1: nat, n2: nat, A: nat, k: nat)
    requires WellFormed(t) && 1 <= n1 < |t| && 1 <= n2 < |t|
    requires A == WalkLca(t, n1, n2) && Height(t, A) == A && Height(t, n1) == A + k && Height(t, n2) == A + k
    requires !JumpsInBounds(A, k)
    ensures FailsAbove(t, A, n1, n2)
  {
    assert BranchLength(t, n1, n2) == k;
  }

  lemma {:induction false} SomePairFails(t: Tree, A: nat, k: nat, ids: seq<BlockId>)
    requires IsForkTree(t, A, k, ids) && Distinct(ids) && A + k <= MAX_HEIGHT && !JumpsInBounds(A, k)
    ensures FailsAbove(t, A, A + k, A + 2 * k)
  {
    ForkTreeWellFormed(t, A, k, ids);
    ForkHeads(t, A, k, ids);
    LevelPairFails(t, A + k, A + 2 * k, A, k);
  }

  /** The heights above which the search can fail at all, in stores that can be reached: exactly those that leave room
      for such a branch below 2^32. */
  lemma {:induction false} FailsAboveIff(A: nat, m: nat)
    requires 1 <= A < Pow2(m) && (m > 0 ==> Pow2(m - 1) <= A)
    ensures (exists t, n1, n2 :: FailsAbove(t, A, n1, n2)) <==> A + Pow2(m + 1) + 1 <= MAX_HEIGHT
  {
    if A + Pow2(m + 1) + 1 <= MAX_HEIGHT {
      var k := Pow2(m + 1) + 1;
      ManyIds();
      var ids := DifferentIds(A + 2 * k);
      LongBranchOutOfBounds(A, m);
      SomePairFails(ForkTree(A, k, ids), A, k, ids);
    }
    forall t, n1, n2 | FailsAbove(t, A, n1, n2)
      ensures A + Pow2(m + 1) + 1 <= MAX_HEIGHT
    {
      FailingBranchIsLong(t, A, n1, n2, m);
    }
  }

  lemma ManyIds()
    ensures 2 * MAX_HEIGHT <= Pow256(32)
  {
    assert Pow256(2) == 0x1_0000 && Pow256(4) == 0x1_0000_0000 && Pow256(5) == 0x100_0000_0000;
    Pow256Grows(5, 32);
  }

  // ----- a main head that is not a top

  /** Block 2 on genesis with two peers, and block 3 with base target zero on top of it with one peer. */
  function ZeroTopRun(ids: seq<BlockId>, a1: Addr, a2: Addr, a3: Addr): seq<Op>
    requires |ids| == 3
  {
    var b := ProtoBlock(ids[1], ids[0], 1, []);
    [PutBlock(b, a1), PutBlock(b, a2), PutBlock(ProtoBlock(ids[2], ids[1], 0, []), a3)]
  }

  function ZeroTopTree(ids: seq<BlockId>): Tree
    requires |ids| == 3
  {
    [VOID, Node(ids[0], 0, 0, 1, []), Node(ids[1], 1, 1, 1, []), Node(ids[2], 2, 2, 0, [])]
  }

  lemma {:induction false} ZeroTopResult(ids: seq<BlockId>, a1: Addr, a2: Addr, a3: Addr)
    requires |ids| == 3 && Distinct(ids)
    ensures Run(GenesisLedger(ids[0]), ZeroTopRun(ids, a1, a2, a3))
         == Ledger(ZeroTopTree(ids), map[a1 := ids[1]][a2 := ids[1]][a3 := ids[2]])
  {
    var l0, ops := GenesisLedger(ids[0]), ZeroTopRun(ids, a1, a2, a3);
    var l1 := Apply(l0, ops[0]);
    assert l1 == Ledger(ZeroTopTree(ids)[..3], map[a1 := ids[1]]);
    var l2 := Apply(l1, ops[1]);
    assert l2 == Ledger(ZeroTopTree(ids)[..3], map[a1 := ids[1]][a2 := ids[1]]);
    var l3 := Apply(l2, ops[2]);
    assert l3.tree == ZeroTopTree(ids);
    assert ops[1..][1..] == [ops[2]] && [ops[2]][1..] == [];
    assert Run(l0, ops) == Run(l1, ops[1..]) == Run(l2, [ops[2]]) == Run(l3, []);
  }

  lemma {:induction false} ZeroTopShape(t: Tree, ids: seq<BlockId>)
    requires |ids| == 3 && Distinct(ids) && t == ZeroTopTree(ids)
    ensures WellFormed(t) && NumOf(t, ids[1]) == 2 && NumOf(t, ids[2]) == 3
    ensures Height(t, 2) == 2 && Height(t, 3) == 3
    ensures AncestorOrSelf(t, 2, 3) && AncestorOrSelf(t, 2, 2) && AddsNothing(t, 2, 3)
  {
    NumOfExact(t, 1);
    NumOfExact(t, 2);
    NumOfExact(t, 3);
    assert Parent(t, 3) == 2 && Anc(t, 3, 1) == Anc(t, 2, 0) == 2;
    assert Height(t, 1) == 1 && Height(t, 2) == 2 && Height(t, 3) == 3;
    assert Placed(t, 2) && Placed(t, 3) && Indexed(t, 1) && Indexed(t, 2) && Indexed(t, 3);
    SelfIsAncestor(t, 2);
    assert ZeroTargets(t, 3, 1) == 1 + ZeroTargets(t, 2, 0);
  }

  /** In a reachable store the main head can have a leashed proper descendant, one block higher. */
  lemma {:induction false} MainHeadWithLeashedDescendant(ids: seq<BlockId>, a1: Addr, a2: Addr, a3: Addr)
    requires |ids| == 3 && Distinct(ids) && a1 != a2 && a1 != a3 && a2 != a3
    ensures var l := Run(GenesisLedger(ids[0]), ZeroTopRun(ids, a1, a2, a3));
      var m, d := NumOf(l.tree, ids[1]), NumOf(l.tree, ids[2]);
      && WellFormed(l.tree) && IsMain(l.tree, l.leashes, ids[1])
      && a3 in l.leashes && l.leashes[a3] == ids[2]
      && m != d && AncestorOrSelf(l.tree, m, d) && Height(l.tree, d) == Height(l.tree, m) + 1
  {
    ZeroTopResult(ids, a1, a2, a3);
    var t, ls := ZeroTopTree(ids), map[a1 := ids[1]][a2 := ids[1]][a3 := ids[2]];
    ZeroTopShape(t, ids);
    assert PeersOf(ls, ids[1]) == {a1, a2} && PeersOf(ls, ids[2]) == {a3};
    assert ls[a1] == ids[1];
    MainOnOneChain(t, ls, ids[1]);
  }

  lemma {:induction false} OnlyChainIsMain(t: Tree, f: Leashes, a: Addr)
    requires f.Keys == {a}
    ensures IsMain(t, f, f[a])
  {
    assert GroupOf(t, f, f[a]) in Groups(t, f);
  }

  /** In the same store a report about one named peer takes its chain for the main one, although the main chain of all
      peers is another. */
  lemma {:induction false} NamedPeersDiffer(ids: seq<BlockId>, a1: Addr, a2: Addr, a3: Addr)
    requires |ids| == 3 && Distinct(ids) && a1 != a2 && a1 != a3 && a2 != a3
    ensures var l := Run(GenesisLedger(ids[0]), ZeroTopRun(ids, a1, a2, a3));
      var named := Filtered(l.leashes, {a3});
      && IsMain(l.tree, l.leashes, ids[1])
      && !IsMain(l.tree, named, ids[1]) && IsMain(l.tree, named, ids[2])
  {
    var t, ls := ZeroTopTree(ids), map[a1 := ids[1]][a2 := ids[1]][a3 := ids[2]];
    ZeroTopResult(ids, a1, a2, a3);
    MainHeadWithLeashedDescendant(ids, a1, a2, a3);
    var named := Filtered(ls, {a3});
    assert named == map[a3 := ids[2]];
    NamedPeersMain(t, ls, {a3}, ids[1]);
    OnlyChainIsMain(t, named, a3);
  }
}
