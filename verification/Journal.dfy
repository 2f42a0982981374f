/** The writes of whole calls on a linkage, and of runs of calls. */
module Journal {
  import opened Entities
  import opened BlockTree
  import opened Database
  import opened Batches
  import opened Ledger

  /** What a call writes: nothing when it is rejected, else the block if it is new, and then the leash. */
  ghost function OpBatch(sn: Db, l: Ledger, op: Op): seq<Write>
  {
    match op
    case PutBlock(b, a) =>
      if PutBlockOutcome(l, b) != PASS then []
      else (if HasBlock(l, b.id) then [] else NodeBatch(sn, l.tree, KeyNode(l.tree, b))) + [PutLeash(a, b.id)]
    case PutMicroBlock(inv, a) =>
      if PutMicroBlockOutcome(l, inv) != PASS then []
      else
        (if HasBlock(l, inv.totalId) then [] else NodeBatch(sn, l.tree, MicroNode(l.tree, inv)))
        + [PutLeash(a, inv.totalId)]
    case MoveLeash(id, a) => [PutLeash(a, id)]
  }

  /** A known block only costs the write of the leash. */
  lemma {:induction false} KnownBatch(sn: Db, l: Ledger, op: Op)
    requires op.PutBlock? ==> HasBlock(l, op.block.id)
    requires op.PutMicroBlock? ==> HasBlock(l, op.inv.totalId)
    ensures OpBatch(sn, l, op) == [PutLeash(op.addr, OpId(op))]
  {
    assert [] + [PutLeash(op.addr, OpId(op))] == [PutLeash(op.addr, OpId(op))];
  }

  function OpId(op: Op): BlockId
  {
    match op
    case PutBlock(b, _) => b.id
    case PutMicroBlock(inv, _) => inv.totalId
    case MoveLeash(id, _) => id
  }

  /** A new one is written first, in a batch of its own. */
  lemma {:induction false} NewBatch(sn: Db, l: Ledger, op: Op, x: Node)
    requires !op.MoveLeash? && !HasBlock(l, OpId(op))
    requires op.PutBlock? ==> PutBlockOutcome(l, op.block) == PASS && x == KeyNode(l.tree, op.block)
    requires op.PutMicroBlock? ==> PutMicroBlockOutcome(l, op.inv) == PASS && x == MicroNode(l.tree, op.inv)
    ensures PerformAll(sn, OpBatch(sn, l, op))
         == PerformAll(PerformAll(sn, NodeBatch(sn, l.tree, x)), [PutLeash(op.addr, OpId(op))])
  {
    PerformConcat(sn, NodeBatch(sn, l.tree, x), [PutLeash(op.addr, OpId(op))]);
  }

  ghost function RunBatch(sn: Db, l: Ledger, ops: seq<Op>): seq<Write>
    decreases |ops|
  {
    if ops == [] then []
    else
      var ws := OpBatch(sn, l, ops[0]);
      ws + RunBatch(PerformAll(sn, ws), Apply(l, ops[0]), ops[1..])
  }

  /** The database holds the state of the linkage. */
  ghost predicate Holds(db: Db, l: Ledger)
  {
    WellFormed(l.tree) && Represents(db, l.tree) && db.leashes == l.leashes
  }

  lemma {:induction false} LeashWritten(db: Db, l: Ledger, a: Addr, id: BlockId)
    requires Holds(db, l)
    ensures Holds(PerformAll(db, [PutLeash(a, id)]), l.(leashes := l.leashes[a := id]))
  {
    PerformOne(db, PutLeash(a, id));
  }

  lemma {:induction false} BlockThenLeash(sn: Db, l: Ledger, x: Node, a: Addr, id: BlockId)
    requires Holds(sn, l) && 1 <= x.parent < |l.tree| && WellFormed(l.tree + [x])
    ensures Holds(PerformAll(sn, NodeBatch(sn, l.tree, x) + [PutLeash(a, id)]),
                  Ledger(l.tree + [x], l.leashes[a := id]))
  {
    NodeBatchRepresents(sn, l.tree, x);
    PerformConcat(sn, NodeBatch(sn, l.tree, x), [PutLeash(a, id)]);
    LeashWritten(PerformAll(sn, NodeBatch(sn, l.tree, x)), l.(tree := l.tree + [x]), a, id);
  }

  /** The writes of a call carry the database over to the state after the call. */
  lemma {:induction false} OpBatchHolds(sn: Db, l: Ledger, op: Op)
    requires Holds(sn, l)
    ensures Holds(PerformAll(sn, OpBatch(sn, l, op)), Apply(l, op))
  {
    match op
    case PutBlock(b, a) =>
      if PutBlockOutcome(l, b) == PASS {
        if HasBlock(l, b.id) {
          assert [] + [PutLeash(a, b.id)] == [PutLeash(a, b.id)];
          LeashWritten(sn, l, a, b.id);
        } else {
          KeyNodeWellFormed(l.tree, b);
          BlockThenLeash(sn, l, KeyNode(l.tree, b), a, b.id);
        }
      }
    case PutMicroBlock(inv, a) =>
      if PutMicroBlockOutcome(l, inv) == PASS {
        if HasBlock(l, inv.totalId) {
          assert [] + [PutLeash(a, inv.totalId)] == [PutLeash(a, inv.totalId)];
          LeashWritten(sn, l, a, inv.totalId);
        } else {
          MicroRecord(l.tree, inv);
          MicroNodeWellFormed(l.tree, inv);
          BlockThenLeash(sn, l, MicroNode(l.tree, inv), a, inv.totalId);
        }
      }
    case MoveLeash(id, a) => LeashWritten(sn, l, a, id);
  }

  /** Over any run of calls the database, changed by nothing but their writes, holds the state of the linkage. */
  lemma {:induction false} RunBatchHolds(sn: Db, l: Ledger, ops: seq<Op>)
    requires Holds(sn, l)
    ensures Holds(PerformAll(sn, RunBatch(sn, l, ops)), Run(l, ops))
    decreases |ops|
  {
    if ops != [] {
      var ws := OpBatch(sn, l, ops[0]);
      OpBatchHolds(sn, l, ops[0]);
      RunBatchHolds(PerformAll(sn, ws), Apply(l, ops[0]), ops[1..]);
      PerformConcat(sn, ws, RunBatch(PerformAll(sn, ws), Apply(l, ops[0]), ops[1..]));
    }
  }
}
