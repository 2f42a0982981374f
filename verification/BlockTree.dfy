/** The abstract block tree: what the key-value store of `chains/storage.go` stands for.

    A tree is the sequence of accepted blocks in insertion order. Position 0 is the void above genesis, so
    position n holds the block with number n, and parent 0 means "no parent". */
module BlockTree {
  import opened Entities

  /** `parent` is the ancestry edge; `base` is the block this one was placed on. They differ for micro-blocks. */
  datatype Node = Node(id: BlockId, parent: nat, base: nat, target: nat, generator: Generator)

  type Tree = seq<Node>

  /** The parent number, 0 for genesis and for numbers outside the tree. */
  function Parent(t: Tree, n: nat): (p: nat)
    ensures p == 0 || p < n < |t|
  {
    if 0 < n < |t| && t[n].parent < n then t[n].parent else 0
  }

  function Height(t: Tree, n: nat): (h: nat)
    ensures h > 0 <==> 0 < n < |t|
    ensures h <= n
  {
    if 0 < n < |t| then 1 + Height(t, Parent(t, n)) else 0
  }

  /** The `j`-th ancestor of block `n`; 0 beyond genesis. */
  function Anc(t: Tree, n: nat, j: nat): nat
    decreases j
  {
    if j == 0 then n else Anc(t, Parent(t, n), j - 1)
  }

  /** Block `x` is block `y` or one of its ancestors. */
  ghost predicate AncestorOrSelf(t: Tree, x: nat, y: nat)
  {
    exists j: nat :: Anc(t, y, j) == x
  }

  /** The number of the block with the given ID, 0 if there is none. */
  function NumOf(t: Tree, id: BlockId): (n: nat)
    ensures n == 0 || (0 < n < |t| && t[n].id == id)
  {
    if |t| <= 1 then 0
    else if t[|t| - 1].id == id then |t| - 1
    else NumOf(t[..|t| - 1], id)
  }

  /** Block `n` was placed on an earlier block, as a key-block or as a micro-block. */
  ghost predicate Placed(t: Tree, n: nat)
    requires n < |t|
  {
    var x := t[n];
    && 1 <= x.base < n
    && 1 <= x.parent < n
    && (|| x.base == x.parent
        || (&& x.base < |t| && x.parent == t[x.base].parent
            && x.target == t[x.base].target && x.generator == t[x.base].generator))
  }

  /** Looking up the ID of block `n` finds it, and its base target and height are within range. */
  ghost predicate Indexed(t: Tree, n: nat)
    requires n < |t|
  {
    NumOf(t, t[n].id) == n && t[n].target <= MAX_TARGET && Height(t, n) <= MAX_HEIGHT
  }

  /** Block 1 is genesis and every later block is placed on earlier ones. */
  ghost predicate WellFormed(t: Tree)
  {
    && |t| >= 2
    && t[1].parent == 0 && t[1].base == 0
    && (forall n {:trigger Placed(t, n)} :: 2 <= n < |t| ==> Placed(t, n))
    && (forall n {:trigger Indexed(t, n)} :: 1 <= n < |t| ==> Indexed(t, n))
  }

  lemma {:induction false} SameIdSameBlock(t: Tree, a: nat, b: nat)
    requires WellFormed(t) && 1 <= a < |t| && 1 <= b < |t|
    ensures t[a].id == t[b].id <==> a == b
  {
    assert Indexed(t, a) && Indexed(t, b);
  }

  const VOID := Node(BlockId([]), 0, 0, 0, [])

  // ----- ancestors and heights

  lemma {:induction false} AncAdd(t: Tree, n: nat, i: nat, j: nat)
    ensures Anc(t, Anc(t, n, i), j) == Anc(t, n, i + j)
  {
    if i > 0 {
      AncAdd(t, Parent(t, n), i - 1, j);
    }
  }

  lemma {:induction false} AncVoid(t: Tree, j: nat)
    ensures Anc(t, 0, j) == 0
  {
    if j > 0 {
      AncVoid(t, j - 1);
    }
  }

  /** Each step up loses one height; beyond the height there is only the void. */
  lemma {:induction false} AncHeight(t: Tree, n: nat, j: nat)
    requires n < |t|
    ensures j < Height(t, n) ==> 1 <= Anc(t, n, j) <= n && Height(t, Anc(t, n, j)) == Height(t, n) - j
    ensures j >= Height(t, n) ==> Anc(t, n, j) == 0
  {
    if j > 0 {
      if n == 0 {
        AncVoid(t, j);
      } else {
        AncHeight(t, Parent(t, n), j - 1);
      }
    }
  }

  /** An ancestor is determined by its height. */
  lemma AncestorAtHeight(t: Tree, x: nat, y: nat)
    requires x >= 1 && y < |t| && AncestorOrSelf(t, x, y)
    ensures x <= y && Height(t, x) <= Height(t, y) && Anc(t, y, Height(t, y) - Height(t, x)) == x
  {
    var j: nat :| Anc(t, y, j) == x;
    AncHeight(t, y, j);
  }

  /** Genesis is the only root: every block has it as its ancestor of height 1. */
  lemma {:induction false} OnlyRoot(t: Tree, n: nat)
    requires WellFormed(t) && 1 <= n < |t|
    ensures Anc(t, n, Height(t, n) - 1) == 1
    ensures Height(t, n) == 1 <==> n == 1
  {
    if n > 1 {
      assert Placed(t, n);
      OnlyRoot(t, Parent(t, n));
    }
  }

  // ----- growth: adding a block changes nothing about the blocks already there

  lemma {:induction false} HeightStable(t: Tree, x: Node, n: nat)
    requires n < |t|
    ensures Height(t + [x], n) == Height(t, n)
  {
    if n > 0 {
      assert Parent(t + [x], n) == Parent(t, n);
      HeightStable(t, x, Parent(t, n));
    }
  }

  lemma {:induction false} AncStable(t: Tree, x: Node, n: nat, j: nat)
    requires n < |t|
    ensures Anc(t + [x], n, j) == Anc(t, n, j)
    decreases j
  {
    if j > 0 {
      assert Parent(t + [x], n) == Parent(t, n);
      AncStable(t, x, Parent(t, n), j - 1);
    }
  }

  // ----- IDs and numbers

  /** When no two blocks share an ID, looking up a block's own ID finds the block. */
  lemma {:induction false} NumOfExact(t: Tree, n: nat)
    requires forall i, j :: 1 <= i < j < |t| ==> t[i].id != t[j].id
    requires 1 <= n < |t|
    ensures NumOf(t, t[n].id) == n
  {
    if n < |t| - 1 {
      NumOfExact(t[..|t| - 1], n);
    }
  }

  lemma {:induction false} NumOfAppend(t: Tree, x: Node, id: BlockId)
    requires |t| >= 1
    ensures NumOf(t + [x], id) == if x.id == id then |t| else NumOf(t, id)
  {
    assert (t + [x])[..|t|] == t;
  }

  // ----- the blocks that can be added

  function KeyNode(t: Tree, b: ProtoBlock): Node
  {
    var p := NumOf(t, b.parent);
    Node(b.id, p, p, b.target, b.generator)
  }

  /** A micro-block takes over height, score, parent and generator of the block it references. */
  function MicroNode(t: Tree, inv: MicroBlockInv): Node
    requires NumOf(t, inv.reference) != 0
  {
    var ref := NumOf(t, inv.reference);
    Node(inv.totalId, t[ref].parent, ref, t[ref].target, t[ref].generator)
  }

  /** Whether a new key-block is accepted: its parent must be stored, its base target must be small enough to
      score, and its height must fit 32 bits. */
  function KeyBlockOutcome(t: Tree, b: ProtoBlock): Outcome
  {
    if NumOf(t, b.parent) == 0 then Failure(NotFound)
    else if b.target > MAX_TARGET || Height(t, NumOf(t, b.parent)) >= MAX_HEIGHT then Failure(Panic)
    else PASS
  }

  /** Whether a new micro-block is accepted: it must reference a stored block other than genesis. */
  function MicroBlockOutcome(t: Tree, inv: MicroBlockInv): Outcome
  {
    if NumOf(t, inv.reference) == 0 then Failure(NotFound)
    else if NumOf(t, inv.reference) == 1 then Failure(InvalidId)
    else PASS
  }

  lemma {:induction false} IndexedStable(t: Tree, x: Node, n: nat)
    requires 1 <= n < |t| && Indexed(t, n) && NumOf(t, x.id) == 0
    ensures Indexed(t + [x], n)
  {
    HeightStable(t, x, n);
    NumOfAppend(t, x, t[n].id);
  }

  lemma {:induction false} AppendWellFormed(t: Tree, x: Node)
    requires WellFormed(t)
    requires Placed(t + [x], |t|)
    requires x.target <= MAX_TARGET && Height(t, x.parent) < MAX_HEIGHT
    requires NumOf(t, x.id) == 0
    ensures WellFormed(t + [x])
    ensures Height(t + [x], |t|) == Height(t, x.parent) + 1
  {
    var u := t + [x];
    assert Parent(u, |t|) == x.parent;
    HeightStable(t, x, x.parent);
    NumOfAppend(t, x, x.id);
    forall n | 1 <= n < |u|
      ensures Indexed(u, n)
    {
      if n < |t| {
        assert Indexed(t, n);
        IndexedStable(t, x, n);
      }
    }
    forall n | 2 <= n < |u|
      ensures Placed(u, n)
    {
      if n < |t| {
        assert Placed(t, n);
      }
    }
  }

  lemma KeyNodeWellFormed(t: Tree, b: ProtoBlock)
    requires WellFormed(t) && NumOf(t, b.id) == 0 && KeyBlockOutcome(t, b) == PASS
    ensures WellFormed(t + [KeyNode(t, b)])
    ensures Height(t + [KeyNode(t, b)], |t|) == Height(t, NumOf(t, b.parent)) + 1
  {
    AppendWellFormed(t, KeyNode(t, b));
  }

  /** A micro-block ends up at the height of the block it references. */
  lemma MicroNodeWellFormed(t: Tree, inv: MicroBlockInv)
    requires WellFormed(t) && NumOf(t, inv.totalId) == 0 && MicroBlockOutcome(t, inv) == PASS
    ensures WellFormed(t + [MicroNode(t, inv)])
    ensures Height(t + [MicroNode(t, inv)], |t|) == Height(t, NumOf(t, inv.reference))
  {
    var ref := NumOf(t, inv.reference);
    assert Placed(t, ref) && Indexed(t, ref);
    assert Height(t, ref) == 1 + Height(t, t[ref].parent);
    AppendWellFormed(t, MicroNode(t, inv));
  }
}
