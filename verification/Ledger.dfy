/** The abstract state of a `Linkage` (chains/linkage.go): the block tree and the leashes, and what each
    state-changing call does to them. */
module Ledger {
  import opened Entities
  import opened BlockTree
  import opened CommonAncestor

  datatype Ledger = Ledger(tree: Tree, leashes: map<Addr, BlockId>)

  datatype Op =
    | PutBlock(block: ProtoBlock, addr: Addr)
    | PutMicroBlock(inv: MicroBlockInv, addr: Addr)
    | MoveLeash(id: BlockId, addr: Addr)

  /** The state right after a first start. */
  function FirstLedger(genesis: ProtoBlock): Ledger
  {
    Ledger([VOID, Node(genesis.id, 0, 0, genesis.target, genesis.generator)], map[])
  }

  predicate HasBlock(l: Ledger, id: BlockId)
  {
    NumOf(l.tree, id) != 0
  }

  /** A known block is fine; a new one must have a stored parent and pass the storage's own checks. */
  function PutBlockOutcome(l: Ledger, b: ProtoBlock): Outcome
  {
    if HasBlock(l, b.id) then PASS
    else if !HasBlock(l, b.parent) then Failure(ParentNotFound)
    else KeyBlockOutcome(l.tree, b)
  }

  function PutMicroBlockOutcome(l: Ledger, inv: MicroBlockInv): Outcome
  {
    if HasBlock(l, inv.totalId) then PASS
    else if !HasBlock(l, inv.reference) then Failure(RefNotFound)
    else MicroBlockOutcome(l.tree, inv)
  }

  /** Accepted blocks are stored once and the peer's leash moves to them; a rejected call changes nothing. */
  function Apply(l: Ledger, op: Op): Ledger
  {
    match op
    case PutBlock(b, a) =>
      if PutBlockOutcome(l, b) != PASS then l
      else Ledger(if HasBlock(l, b.id) then l.tree else l.tree + [KeyNode(l.tree, b)], l.leashes[a := b.id])
    case PutMicroBlock(inv, a) =>
      if PutMicroBlockOutcome(l, inv) != PASS then l
      else Ledger(if HasBlock(l, inv.totalId) then l.tree else l.tree + [MicroNode(l.tree, inv)],
                  l.leashes[a := inv.totalId])
    case MoveLeash(id, a) => l.(leashes := l.leashes[a := id])
  }

  function Run(l: Ledger, ops: seq<Op>): Ledger
    decreases |ops|
  {
    if ops == [] then l else Run(Apply(l, ops[0]), ops[1..])
  }

  /** A leash points at a stored block. */
  ghost predicate Leashed(l: Ledger, a: Addr)
  {
    a in l.leashes ==> HasBlock(l, l.leashes[a])
  }

  ghost predicate LeashesStored(l: Ledger)
  {
    forall a {:trigger Leashed(l, a)} :: Leashed(l, a)
  }

  ghost predicate Sound(l: Ledger)
  {
    WellFormed(l.tree) && LeashesStored(l)
  }

  /** `MoveLeash` checks nothing: its callers must name stored blocks, at the time of the call. */
  ghost predicate CarefulRun(l: Ledger, ops: seq<Op>)
    decreases |ops|
  {
    ops == [] ||
    ((ops[0].MoveLeash? ==> HasBlock(l, ops[0].id)) && CarefulRun(Apply(l, ops[0]), ops[1..]))
  }

  // ----- one call

  lemma {:induction false} ApplyKeepsTree(l: Ledger, op: Op)
    requires WellFormed(l.tree)
    ensures WellFormed(Apply(l, op).tree)
    ensures l.tree <= Apply(l, op).tree
    ensures forall id :: HasBlock(l, id) ==> NumOf(Apply(l, op).tree, id) == NumOf(l.tree, id)
  {
    if Apply(l, op).tree != l.tree {
      var x := Apply(l, op).tree[|l.tree|];
      if op.PutBlock? {
        KeyNodeWellFormed(l.tree, op.block);
      } else {
        MicroNodeWellFormed(l.tree, op.inv);
      }
      forall id
        ensures NumOf(l.tree + [x], id) == if x.id == id then |l.tree| else NumOf(l.tree, id)
      {
        NumOfAppend(l.tree, x, id);
      }
    }
  }

  /** The block a successful put names is stored afterwards and the peer is leashed to it. */
  lemma {:induction false} PutStores(l: Ledger, b: ProtoBlock, a: Addr)
    requires WellFormed(l.tree) && PutBlockOutcome(l, b) == PASS
    ensures var m := Apply(l, PutBlock(b, a)); HasBlock(m, b.id) && m.leashes == l.leashes[a := b.id]
  {
    NumOfAppend(l.tree, KeyNode(l.tree, b), b.id);
  }

  /** Every call keeps every leash on a stored block, except a `MoveLeash` to a block that is not there. */
  lemma {:induction false} ApplyKeepsSound(l: Ledger, op: Op)
    requires Sound(l)
    ensures Sound(Apply(l, op)) <==> (op.MoveLeash? ==> HasBlock(l, op.id))
  {
    var m := Apply(l, op);
    ApplyKeepsTree(l, op);
    if op.MoveLeash? ==> HasBlock(l, op.id) {
      forall a
        ensures Leashed(m, a)
      {
        assert Leashed(l, a);
        if op.PutBlock? && PutBlockOutcome(l, op.block) == PASS {
          PutStores(l, op.block, op.addr);
        } else if op.PutMicroBlock? && PutMicroBlockOutcome(l, op.inv) == PASS && !HasBlock(l, op.inv.totalId) {
          NumOfAppend(l.tree, MicroNode(l.tree, op.inv), op.inv.totalId);
        }
      }
    } else {
      assert !Leashed(m, op.addr);
    }
  }

  // ----- whole runs

  /** Over any run of careful calls the tree stays well formed and every leash stays on a stored block. */
  lemma {:induction false} RunKeepsSound(l: Ledger, ops: seq<Op>)
    requires Sound(l) && CarefulRun(l, ops)
    ensures Sound(Run(l, ops))
    decreases |ops|
  {
    if ops != [] {
      ApplyKeepsSound(l, ops[0]);
      RunKeepsSound(Apply(l, ops[0]), ops[1..]);
    }
  }

  /** No run, careful or not, ever removes or renumbers a block. */
  lemma {:induction false} RunOnlyAppends(l: Ledger, ops: seq<Op>)
    requires WellFormed(l.tree)
    ensures WellFormed(Run(l, ops).tree)
    ensures l.tree <= Run(l, ops).tree
    ensures forall id :: HasBlock(l, id) ==> NumOf(Run(l, ops).tree, id) == NumOf(l.tree, id)
    decreases |ops|
  {
    if ops != [] {
      ApplyKeepsTree(l, ops[0]);
      RunOnlyAppends(Apply(l, ops[0]), ops[1..]);
    }
  }

  // ----- answers about stored blocks never change

  lemma {:induction false} HeightOfPrefix(t: Tree, u: Tree, n: nat)
    requires t <= u && n < |t|
    ensures Parent(u, n) == Parent(t, n) && Height(u, n) == Height(t, n)
  {
    if n > 0 {
      HeightOfPrefix(t, u, Parent(t, n));
    }
  }

  lemma {:induction false} LcaOfPrefix(t: Tree, u: Tree, a: nat, b: nat)
    requires t <= u && a < |t| && b < |t|
    ensures WalkLca(u, a, b) == WalkLca(t, a, b)
    decreases a + b
  {
    HeightOfPrefix(t, u, a);
    HeightOfPrefix(t, u, b);
    if a == b {
    } else if Height(t, a) > Height(t, b) {
      LcaOfPrefix(t, u, Parent(t, a), b);
    } else if Height(t, a) < Height(t, b) {
      LcaOfPrefix(t, u, a, Parent(t, b));
    } else {
      LcaOfPrefix(t, u, Parent(t, a), Parent(t, b));
    }
  }

  /** Two stored blocks keep their heights and their last common block, whatever is stored later. */
  lemma {:induction false} RunKeepsLca(l: Ledger, ops: seq<Op>, a: nat, b: nat)
    requires WellFormed(l.tree) && 1 <= a < |l.tree| && 1 <= b < |l.tree|
    ensures |Run(l, ops).tree| >= |l.tree|
    ensures WalkLca(Run(l, ops).tree, a, b) == WalkLca(l.tree, a, b)
    ensures Height(Run(l, ops).tree, a) == Height(l.tree, a)
  {
    RunOnlyAppends(l, ops);
    LcaOfPrefix(l.tree, Run(l, ops).tree, a, b);
    HeightOfPrefix(l.tree, Run(l, ops).tree, a);
  }

  // ----- what a run leaves

  /** Which key-blocks are accepted: those already known, and new ones with a stored parent below height 2^32 - 1 whose
      base target is below 2^63. An orphan is told apart; everything else panics. */
  lemma {:induction false} PutBlockExactly(l: Ledger, b: ProtoBlock)
    ensures PutBlockOutcome(l, b) == PASS <==>
            || HasBlock(l, b.id)
            || (HasBlock(l, b.parent) && b.target <= 0x7FFF_FFFF_FFFF_FFFF
                && Height(l.tree, NumOf(l.tree, b.parent)) < 0xFFFF_FFFF)
    ensures !HasBlock(l, b.id) && !HasBlock(l, b.parent) <==> PutBlockOutcome(l, b) == Failure(ParentNotFound)
    ensures PutBlockOutcome(l, b) != PASS ==>
              PutBlockOutcome(l, b) == Failure(if HasBlock(l, b.parent) then Panic else ParentNotFound)
  {
  }

  /** Which micro-blocks are accepted: those already known, and new ones on a stored block other than genesis. */
  lemma {:induction false} PutMicroBlockExactly(l: Ledger, inv: MicroBlockInv)
    requires WellFormed(l.tree)
    ensures PutMicroBlockOutcome(l, inv) == PASS <==>
            HasBlock(l, inv.totalId) || (HasBlock(l, inv.reference) && inv.reference != l.tree[1].id)
    ensures PutMicroBlockOutcome(l, inv) != PASS ==>
              PutMicroBlockOutcome(l, inv) == Failure(if HasBlock(l, inv.reference) then InvalidId else RefNotFound)
  {
    assert Indexed(l.tree, 1);
  }

  /** The call has an effect: a leash is moved without a question, a block is put if it is accepted. */
  predicate Accepted(l: Ledger, op: Op)
  {
    match op
    case PutBlock(b, _) => PutBlockOutcome(l, b) == PASS
    case PutMicroBlock(inv, _) => PutMicroBlockOutcome(l, inv) == PASS
    case MoveLeash(_, _) => true
  }

  /** The call is about block `id`, and comes from peer `a`. */
  predicate Shows(op: Op, a: Addr, id: BlockId)
  {
    match op
    case PutBlock(b, x) => x == a && b.id == id
    case PutMicroBlock(inv, x) => x == a && inv.totalId == id
    case MoveLeash(i, x) => x == a && i == id
  }

  predicate Puts(op: Op, id: BlockId)
  {
    match op
    case PutBlock(b, _) => b.id == id
    case PutMicroBlock(inv, _) => inv.totalId == id
    case MoveLeash(_, _) => false
  }

  lemma {:induction false} RunOneMore(l: Ledger, ops: seq<Op>, op: Op)
    ensures Run(l, ops + [op]) == Apply(Run(l, ops), op)
    decreases |ops|
  {
    if ops == [] {
      assert [op][1..] == [];
    } else {
      assert (ops + [op])[1..] == ops[1..] + [op];
      RunOneMore(Apply(l, ops[0]), ops[1..], op);
    }
  }

  lemma {:induction false} AppendStores(t: Tree, x: Node, id: BlockId)
    requires |t| >= 1
    ensures NumOf(t + [x], id) != 0 <==> NumOf(t, id) != 0 || x.id == id
  {
    NumOfAppend(t, x, id);
  }

  lemma {:induction false} PutStoresExactly(l: Ledger, b: ProtoBlock, a: Addr, id: BlockId)
    requires |l.tree| >= 1 && PutBlockOutcome(l, b) == PASS
    ensures HasBlock(Apply(l, PutBlock(b, a)), id) <==> HasBlock(l, id) || b.id == id
  {
    if !HasBlock(l, b.id) {
      AppendStores(l.tree, KeyNode(l.tree, b), id);
    }
  }

  lemma {:induction false} MicroStoresExactly(l: Ledger, inv: MicroBlockInv, a: Addr, id: BlockId)
    requires |l.tree| >= 1 && PutMicroBlockOutcome(l, inv) == PASS
    ensures HasBlock(Apply(l, PutMicroBlock(inv, a)), id) <==> HasBlock(l, id) || inv.totalId == id
  {
    if !HasBlock(l, inv.totalId) {
      AppendStores(l.tree, MicroNode(l.tree, inv), id);
    }
  }

  lemma {:induction false} ApplyStores(l: Ledger, op: Op, id: BlockId)
    requires WellFormed(l.tree)
    ensures HasBlock(Apply(l, op), id) <==> HasBlock(l, id) || (Accepted(l, op) && Puts(op, id))
  {
    if Accepted(l, op) {
      match op
      case PutBlock(b, a) => PutStoresExactly(l, b, a, id);
      case PutMicroBlock(inv, a) => MicroStoresExactly(l, inv, a, id);
      case MoveLeash(_, _) =>
    }
  }

  /** Call `j` of the run is accepted and puts block `id`. */
  ghost predicate PutAt(l: Ledger, ops: seq<Op>, j: nat, id: BlockId)
    requires j < |ops|
  {
    Accepted(Run(l, ops[..j]), ops[j]) && Puts(ops[j], id)
  }

  /** After a run exactly those blocks are stored that were stored before or put by an accepted call. */
  lemma {:induction false} StoredExactly(l: Ledger, ops: seq<Op>, id: BlockId)
    requires WellFormed(l.tree)
    ensures HasBlock(Run(l, ops), id) <==> HasBlock(l, id) || exists j :: 0 <= j < |ops| && PutAt(l, ops, j, id)
    decreases |ops|
  {
    if ops != [] {
      var pre, op := ops[..|ops| - 1], ops[|ops| - 1];
      assert ops == pre + [op];
      RunOneMore(l, pre, op);
      RunOnlyAppends(l, pre);
      StoredExactly(l, pre, id);
      ApplyStores(Run(l, pre), op, id);
      assert PutAt(l, ops, |pre|, id) <==> Accepted(Run(l, pre), op) && Puts(op, id);
      forall j | 0 <= j < |pre|
        ensures PutAt(l, ops, j, id) <==> PutAt(l, pre, j, id)
      {
        assert ops[..j] == pre[..j];
      }
    }
  }

  /** Call `j` of the run is accepted, comes from peer `a` and is about block `id`. */
  ghost predicate ShownAt(l: Ledger, ops: seq<Op>, j: nat, a: Addr, id: BlockId)
    requires j < |ops|
  {
    Accepted(Run(l, ops[..j]), ops[j]) && Shows(ops[j], a, id)
  }

  ghost predicate LastShown(l: Ledger, ops: seq<Op>, j: nat, a: Addr, id: BlockId)
    requires j < |ops|
  {
    ShownAt(l, ops, j, a, id) && forall i, x :: j < i < |ops| ==> !ShownAt(l, ops, i, a, x)
  }

  ghost predicate NeverShown(l: Ledger, ops: seq<Op>, a: Addr)
  {
    forall i, x :: 0 <= i < |ops| ==> !ShownAt(l, ops, i, a, x)
  }

  ghost predicate IsLeash(l: Ledger, a: Addr, id: BlockId)
  {
    a in l.leashes && l.leashes[a] == id
  }

  lemma {:induction false} ApplyMoves(l: Ledger, op: Op, a: Addr, id: BlockId)
    ensures IsLeash(Apply(l, op), a, id) <==>
            if Accepted(l, op) && op.addr == a then Shows(op, a, id) else IsLeash(l, a, id)
  {
  }

  lemma {:induction false} ShownInPrefix(l: Ledger, pre: seq<Op>, op: Op, j: nat, a: Addr, id: BlockId)
    requires j <= |pre|
    ensures ShownAt(l, pre + [op], j, a, id) <==>
            if j < |pre| then ShownAt(l, pre, j, a, id) else Accepted(Run(l, pre), op) && Shows(op, a, id)
  {
    if j < |pre| {
      assert (pre + [op])[..j] == pre[..j];
    } else {
      assert (pre + [op])[..j] == pre;
    }
  }

  lemma {:induction false} ShowsSome(op: Op) returns (id: BlockId)
    ensures Shows(op, op.addr, id)
  {
    id := match op case PutBlock(b, _) => b.id case PutMicroBlock(inv, _) => inv.totalId case MoveLeash(i, _) => i;
  }

  /** One more call from the peer that is accepted: only it counts. */
  lemma {:induction false} ShownLast(l: Ledger, pre: seq<Op>, op: Op, a: Addr, id: BlockId)
    requires Accepted(Run(l, pre), op) && op.addr == a
    ensures !NeverShown(l, pre + [op], a)
    ensures (exists j :: 0 <= j <= |pre| && LastShown(l, pre + [op], j, a, id)) <==> Shows(op, a, id)
  {
    var ops, last := pre + [op], |pre|;
    var shown := ShowsSome(op);
    ShownInPrefix(l, pre, op, last, a, shown);
    ShownInPrefix(l, pre, op, last, a, id);
    if Shows(op, a, id) {
      assert LastShown(l, ops, last, a, id);
    }
    forall j | 0 <= j < last
      ensures !LastShown(l, ops, j, a, id)
    {
      assert ShownAt(l, ops, last, a, shown);
    }
  }

  /** Any other call changes nothing about what was shown before. */
  lemma {:induction false} ShownBefore(l: Ledger, pre: seq<Op>, op: Op, a: Addr, id: BlockId)
    requires !(Accepted(Run(l, pre), op) && op.addr == a)
    ensures NeverShown(l, pre + [op], a) <==> NeverShown(l, pre, a)
    ensures forall j :: 0 <= j <= |pre| ==>
              (LastShown(l, pre + [op], j, a, id) <==> j < |pre| && LastShown(l, pre, j, a, id))
  {
    forall j, x | 0 <= j <= |pre|
      ensures ShownAt(l, pre + [op], j, a, x) <==> j < |pre| && ShownAt(l, pre, j, a, x)
    {
      ShownInPrefix(l, pre, op, j, a, x);
    }
  }

  /** The leash of a peer is the block it has shown last: that of the last accepted call from the peer, or the leash it
      had before the run. */
  lemma {:induction false} LeashIsLastShown(l: Ledger, ops: seq<Op>, a: Addr, id: BlockId)
    ensures IsLeash(Run(l, ops), a, id) <==>
            || (exists j :: 0 <= j < |ops| && LastShown(l, ops, j, a, id))
            || (NeverShown(l, ops, a) && IsLeash(l, a, id))
    decreases |ops|
  {
    if ops != [] {
      var pre, op := ops[..|ops| - 1], ops[|ops| - 1];
      assert ops == pre + [op];
      RunOneMore(l, pre, op);
      LeashIsLastShown(l, pre, a, id);
      ApplyMoves(Run(l, pre), op, a, id);
      if Accepted(Run(l, pre), op) && op.addr == a {
        ShownLast(l, pre, op, a, id);
      } else {
        ShownBefore(l, pre, op, a, id);
      }
    }
  }

  // ----- single calls in any interleaving

  /** One call under the lock: a question whether a block is stored, or a change. */
  datatype Call = AskHasBlock(id: BlockId) | Change(op: Op)

  function MakeCalls(l: Ledger, calls: seq<Call>): Ledger
    decreases |calls|
  {
    if calls == [] then l
    else MakeCalls(if calls[0].Change? then Apply(l, calls[0].op) else l, calls[1..])
  }

  /** Whoever moves a leash has asked for the block at some time before, and it was there; `seen` collects the
      positive answers. Calls of other components may come in between. */
  ghost predicate AsksBeforeMoving(l: Ledger, calls: seq<Call>, seen: set<BlockId>)
    decreases |calls|
  {
    if calls == [] then true
    else match calls[0]
      case AskHasBlock(id) => AsksBeforeMoving(l, calls[1..], if HasBlock(l, id) then seen + {id} else seen)
      case Change(op) => (op.MoveLeash? ==> op.id in seen) && AsksBeforeMoving(Apply(l, op), calls[1..], seen)
  }

  /** Asking first is enough in every interleaving of calls: blocks are never removed, so the answer stays true. */
  lemma {:induction false} AskedMovesAreSafe(l: Ledger, calls: seq<Call>, seen: set<BlockId>)
    requires Sound(l) && AsksBeforeMoving(l, calls, seen)
    requires forall id :: id in seen ==> HasBlock(l, id)
    ensures Sound(MakeCalls(l, calls))
    decreases |calls|
  {
    if calls != [] {
      match calls[0]
      case AskHasBlock(id) =>
        AskedMovesAreSafe(l, calls[1..], if HasBlock(l, id) then seen + {id} else seen);
      case Change(op) =>
        ApplyKeepsTree(l, op);
        ApplyKeepsSound(l, op);
        AskedMovesAreSafe(Apply(l, op), calls[1..], seen);
    }
  }

  /** In particular a leash may be moved to a block that was there before any careful run of other calls. */
  lemma {:induction false} MoveAfterRunIsSafe(l: Ledger, ops: seq<Op>, id: BlockId, a: Addr)
    requires Sound(l) && CarefulRun(l, ops) && HasBlock(l, id)
    ensures Sound(Apply(Run(l, ops), MoveLeash(id, a)))
  {
    RunKeepsSound(l, ops);
    RunOnlyAppends(l, ops);
    ApplyKeepsSound(Run(l, ops), MoveLeash(id, a));
  }

  // ----- every well-formed tree is reachable

  /** The call that adds block `n` of a tree. */
  function Adds(t: Tree, n: nat, a: Addr): Op
    requires WellFormed(t) && 2 <= n < |t|
  {
    assert Placed(t, n);
    var x := t[n];
    if x.base == x.parent then PutBlock(ProtoBlock(x.id, t[x.parent].id, x.target, x.generator), a)
    else PutMicroBlock(MicroBlockInv(x.id, t[x.base].id), a)
  }

  lemma {:induction false} NumOfPrefix(t: Tree, n: nat, id: BlockId)
    requires 1 <= n <= |t|
    ensures NumOf(t[..n], id) == NumOf(t, id) || NumOf(t, id) >= n
    decreases |t|
  {
    if n < |t| {
      assert t[..|t| - 1][..n] == t[..n];
      NumOfPrefix(t[..|t| - 1], n, id);
    } else {
      assert t[..n] == t;
    }
  }

  lemma {:induction false} IndexedPrefix(t: Tree, n: nat, i: nat)
    requires 1 <= i < n <= |t| && Indexed(t, i)
    ensures Indexed(t[..n], i) && Height(t[..n], i) == Height(t, i)
    ensures NumOf(t[..n], t[i].id) == i
  {
    NumOfPrefix(t, n, t[i].id);
    HeightOfPrefix(t[..n], t, i);
  }

  lemma {:induction false} PrefixWellFormed(t: Tree, n: nat)
    requires WellFormed(t) && 2 <= n <= |t|
    ensures WellFormed(t[..n])
  {
    var u := t[..n];
    forall i | 1 <= i < |u|
      ensures Indexed(u, i)
    {
      assert Indexed(t, i);
      IndexedPrefix(t, n, i);
    }
    forall i | 2 <= i < |u|
      ensures Placed(u, i)
    {
      assert Placed(t, i);
    }
  }

  /** Block `n` is new to the blocks before it. */
  lemma {:induction false} NewInPrefix(t: Tree, n: nat)
    requires WellFormed(t) && 2 <= n < |t|
    ensures NumOf(t[..n], t[n].id) == 0
  {
    var k := NumOf(t[..n], t[n].id);
    if k != 0 {
      SameIdSameBlock(t, k, n);
    }
  }

  lemma {:induction false} AddsOneBlock(t: Tree, n: nat, a: Addr, ls: map<Addr, BlockId>)
    requires WellFormed(t) && 2 <= n < |t|
    ensures Apply(Ledger(t[..n], ls), Adds(t, n, a)).tree == t[..n + 1]
  {
    var u, x := t[..n], t[n];
    assert Placed(t, n) && Indexed(t, n) && Indexed(t, x.parent) && Indexed(t, x.base);
    PrefixWellFormed(t, n);
    NewInPrefix(t, n);
    IndexedPrefix(t, n, x.parent);
    IndexedPrefix(t, n, x.base);
    assert Height(t, n) == 1 + Height(t, x.parent);
    assert t[..n + 1] == u + [x];
  }

  lemma {:induction false} RunFirst(l: Ledger, op: Op, rest: seq<Op>)
    ensures Run(l, [op] + rest) == Run(Apply(l, op), rest)
  {
    assert ([op] + rest)[1..] == rest;
  }

  /** One more call in front adds block `n`. */
  lemma {:induction false} AddsThenRuns(t: Tree, n: nat, a: Addr, ls: map<Addr, BlockId>)
    returns (op: Op, ms: map<Addr, BlockId>)
    requires WellFormed(t) && 2 <= n < |t|
    ensures !op.MoveLeash?
    ensures forall rest {:trigger [op] + rest} ::
              Run(Ledger(t[..n], ls), [op] + rest) == Run(Ledger(t[..n + 1], ms), rest)
  {
    op := Adds(t, n, a);
    AddsOneBlock(t, n, a, ls);
    ms := Apply(Ledger(t[..n], ls), op).leashes;
    forall rest
      ensures Run(Ledger(t[..n], ls), [op] + rest) == Run(Ledger(t[..n + 1], ms), rest)
    {
      RunFirst(Ledger(t[..n], ls), op, rest);
    }
  }

  /** Every well-formed tree is the tree of some run of puts that starts from its genesis block. What is proved of
      well-formed trees is therefore proved of reachable stores, and of no others. */
  lemma {:induction false} EveryTreeIsReachable(t: Tree, n: nat, a: Addr, ls: map<Addr, BlockId>) returns (ops: seq<Op>)
    requires WellFormed(t) && 2 <= n <= |t|
    ensures Run(Ledger(t[..n], ls), ops).tree == t
    ensures forall op :: op in ops ==> !op.MoveLeash?
    decreases |t| - n
  {
    if n == |t| {
      ops := [];
      assert t[..n] == t;
    } else {
      var op, ms := AddsThenRuns(t, n, a, ls);
      var rest := EveryTreeIsReachable(t, n + 1, a, ms);
      ops := [op] + rest;
    }
  }
}
