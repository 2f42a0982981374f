/** Batches of writes to the record store (chains/storage.go): what they do when they are written at once. */
module Batches {
  import opened Entities
  import opened Powers
  import opened BlockTree
  import opened Heads
  import opened Database

  const BLOCKS_COUNTER: byte := 0
  const HEADS_COUNTER: byte := 1

  /** One entry of a batch. */
  datatype Write =
    | PutCounter(counter: byte, value: nat)
    | PutID(id: BlockId, num: nat)
    | PutBlock(num: nat, block: Block)
    | PutLink(num: nat, link: Link)
    | PutLeash(addr: Addr, id: BlockId)
    | PutHeadToBlock(head: nat, num: nat)
    | PutBlockToHead(num: nat, head: nat)
    | DeleteBlockToHead(num: nat)

  function Perform(db: Db, w: Write): Db
  {
    match w
    case PutCounter(c, v) => if c == BLOCKS_COUNTER then db.(blocksCounter := v) else db.(headsCounter := v)
    case PutID(id, n) => db.(ids := db.ids[id := n])
    case PutBlock(n, b) => db.(blocks := db.blocks[n := b])
    case PutLink(n, l) => db.(links := db.links[n := l])
    case PutLeash(a, id) => db.(leashes := db.leashes[a := id])
    case PutHeadToBlock(h, n) => db.(headToBlock := db.headToBlock[h := n])
    case PutBlockToHead(n, h) => db.(blockToHead := db.blockToHead[n := h])
    case DeleteBlockToHead(n) => db.(blockToHead := db.blockToHead - {n})
  }

  function PerformAll(db: Db, ws: seq<Write>): Db
    decreases |ws|
  {
    if ws == [] then db else PerformAll(Perform(db, ws[0]), ws[1..])
  }

  lemma {:induction false} PerformConcat(db: Db, ws: seq<Write>, vs: seq<Write>)
    ensures PerformAll(db, ws + vs) == PerformAll(PerformAll(db, ws), vs)
    decreases |ws|
  {
    if ws == [] {
      assert ws + vs == vs;
    } else {
      assert (ws + vs)[1..] == ws[1..] + vs;
      PerformConcat(Perform(db, ws[0]), ws[1..], vs);
    }
  }

  lemma {:induction false} PerformOne(db: Db, w: Write)
    ensures PerformAll(db, [w]) == Perform(db, w)
  {
    assert [w][1..] == [];
  }

  lemma {:induction false} PerformThree(db: Db, a: Write, b: Write, c: Write)
    ensures PerformAll(db, [a, b, c]) == Perform(Perform(Perform(db, a), b), c)
  {
    assert [a, b, c] == [a] + [b] + [c];
    PerformConcat(db, [a] + [b], [c]);
    PerformConcat(db, [a], [b]);
    PerformOne(db, a);
    PerformOne(Perform(db, a), b);
    PerformOne(Perform(Perform(db, a), b), c);
  }

  lemma {:induction false} PerformFour(db: Db, a: Write, b: Write, c: Write, d: Write)
    ensures PerformAll(db, [a, b, c, d]) == Perform(Perform(Perform(Perform(db, a), b), c), d)
  {
    assert [a, b, c, d] == [a, b, c] + [d];
    PerformConcat(db, [a, b, c], [d]);
    PerformThree(db, a, b, c);
    PerformOne(Perform(Perform(Perform(db, a), b), c), d);
  }

  // ----- the batches of the storage

  /** Block `n`, placed on block `base`, takes over the head of `base` or gets a new one. */
  function HeadBatch(sn: Db, n: nat, base: nat): seq<Write>
  {
    if base in sn.blockToHead then
      var h := sn.blockToHead[base];
      [DeleteBlockToHead(base), PutHeadToBlock(h, n), PutBlockToHead(n, h)]
    else
      var h := sn.headsCounter + 1;
      [PutCounter(HEADS_COUNTER, h), PutHeadToBlock(h, n), PutBlockToHead(n, h)]
  }

  function RecordBatch(n: nat, b: Block, parents: seq<nat>): seq<Write>
  {
    [PutCounter(BLOCKS_COUNTER, n), PutID(b.id, n), PutBlock(n, b), PutLink(n, Link(b.height, b.id, parents))]
  }

  /** The batch that stores block `n`, placed on block `base`. */
  function BlockBatch(sn: Db, n: nat, b: Block, parents: seq<nat>, base: nat): seq<Write>
  {
    RecordBatch(n, b, parents) + HeadBatch(sn, n, base)
  }

  /** The batch as it is put together entry by entry. */
  function Assembled(sn: Db, n: nat, b: Block, parents: seq<nat>, base: nat): (ws: seq<Write>)
    ensures ws == BlockBatch(sn, n, b, parents, base)
  {
    [] + [PutCounter(BLOCKS_COUNTER, n)] + [PutID(b.id, n)] + [PutBlock(n, b)]
    + [PutLink(n, Link(b.height, b.id, parents))] + HeadBatch(sn, n, base)
  }

  /** The batch of the first start. */
  function GenesisBatch(b: Block): seq<Write>
  {
    [PutBlock(1, b), PutCounter(BLOCKS_COUNTER, 1), PutID(b.id, 1), PutLink(1, Link(1, b.id, [])),
     PutCounter(HEADS_COUNTER, 1), PutHeadToBlock(1, 1), PutBlockToHead(1, 1)]
  }

  /** A database that only differs in its heads. */
  ghost predicate OnlyHeadsDiffer(db: Db, next: Db)
  {
    next == db.(headsCounter := next.headsCounter, headToBlock := next.headToBlock, blockToHead := next.blockToHead)
  }

  ghost predicate SameHeads(a: Db, b: Db)
  {
    a.headsCounter == b.headsCounter && a.headToBlock == b.headToBlock && a.blockToHead == b.blockToHead
  }

  lemma {:induction false} HeadTakenOver(sn: Db, db: Db, hs: seq<nat>, base: nat, n: nat, h: nat)
    requires HeadsMatch(sn.headsCounter, sn.headToBlock, sn.blockToHead, hs) && NoDuplicates(hs) && n !in hs
    requires SameHeads(sn, db) && base in sn.blockToHead && h == sn.blockToHead[base]
    ensures var next := PerformAll(db, [DeleteBlockToHead(base), PutHeadToBlock(h, n), PutBlockToHead(n, h)]);
      && OnlyHeadsDiffer(db, next)
      && HeadsMatch(next.headsCounter, next.headToBlock, next.blockToHead, PlaceHead(hs, base, n))
  {
    PerformThree(db, DeleteBlockToHead(base), PutHeadToBlock(h, n), PutBlockToHead(n, h));
    TakeOverHead(sn.headsCounter, sn.headToBlock, sn.blockToHead, hs, base, n);
  }

  lemma {:induction false} HeadOpened(sn: Db, db: Db, hs: seq<nat>, base: nat, n: nat, h: nat)
    requires HeadsMatch(sn.headsCounter, sn.headToBlock, sn.blockToHead, hs) && NoDuplicates(hs) && n !in hs
    requires SameHeads(sn, db) && base !in sn.blockToHead && h == sn.headsCounter + 1
    ensures var next := PerformAll(db, [PutCounter(HEADS_COUNTER, h), PutHeadToBlock(h, n), PutBlockToHead(n, h)]);
      && OnlyHeadsDiffer(db, next)
      && HeadsMatch(next.headsCounter, next.headToBlock, next.blockToHead, PlaceHead(hs, base, n))
  {
    PerformThree(db, PutCounter(HEADS_COUNTER, h), PutHeadToBlock(h, n), PutBlockToHead(n, h));
    PlaceHeadAt(hs, base, n);
    OpenHead(sn.headsCounter, sn.headToBlock, sn.blockToHead, hs, n);
  }

  /** The writes for the head place the block in the head list and change nothing else. */
  lemma {:induction false} HeadBatchPlaces(sn: Db, db: Db, hs: seq<nat>, base: nat, n: nat)
    requires HeadsMatch(sn.headsCounter, sn.headToBlock, sn.blockToHead, hs) && NoDuplicates(hs) && n !in hs
    requires SameHeads(sn, db)
    ensures var next := PerformAll(db, HeadBatch(sn, n, base));
      && OnlyHeadsDiffer(db, next)
      && HeadsMatch(next.headsCounter, next.headToBlock, next.blockToHead, PlaceHead(hs, base, n))
  {
    if base in sn.blockToHead {
      HeadTakenOver(sn, db, hs, base, n, sn.blockToHead[base]);
    } else {
      HeadOpened(sn, db, hs, base, n, sn.headsCounter + 1);
    }
  }

  lemma {:induction false} RecordBatchStores(sn: Db, n: nat, b: Block, parents: seq<nat>)
    ensures PerformAll(sn, RecordBatch(n, b, parents))
         == sn.(blocksCounter := n, ids := sn.ids[b.id := n], blocks := sn.blocks[n := b],
                links := sn.links[n := Link(b.height, b.id, parents)])
  {
    PerformFour(sn, PutCounter(BLOCKS_COUNTER, n), PutID(b.id, n), PutBlock(n, b),
                PutLink(n, Link(b.height, b.id, parents)));
  }

  /** The writes of the batch, performed one by one on the snapshot, are what the representation of the grown tree
      needs; the leashes stay. */
  lemma {:induction false} BatchStoresBlock(sn: Db, t: Tree, x: Node, b: Block, parents: seq<nat>)
    requires WellFormed(t) && Represents(sn, t) && x.id == b.id
    ensures WritesBlock(sn, PerformAll(sn, BlockBatch(sn, |t|, b, parents, x.base)), t, x, b, parents)
    ensures PerformAll(sn, BlockBatch(sn, |t|, b, parents, x.base)).leashes == sn.leashes
  {
    var n := |t|;
    WellFormedHeads(t);
    PerformConcat(sn, RecordBatch(n, b, parents), HeadBatch(sn, n, x.base));
    RecordBatchStores(sn, n, b, parents);
    HeadBatchPlaces(sn, PerformAll(sn, RecordBatch(n, b, parents)), HeadList(t), x.base, n);
  }

  lemma {:induction false} GenesisBatchStores(b: Block)
    ensures PerformAll(EMPTY, GenesisBatch(b))
         == Db(1, 1, map[b.id := 1], map[1 := b], map[1 := Link(1, b.id, [])], map[], map[1 := 1], map[1 := 1])
  {
    var l := PutLink(1, Link(1, b.id, []));
    assert GenesisBatch(b) == [PutBlock(1, b), PutCounter(BLOCKS_COUNTER, 1), PutID(b.id, 1), l]
                              + [PutCounter(HEADS_COUNTER, 1), PutHeadToBlock(1, 1), PutBlockToHead(1, 1)];
    PerformConcat(EMPTY, [PutBlock(1, b), PutCounter(BLOCKS_COUNTER, 1), PutID(b.id, 1), l],
                  [PutCounter(HEADS_COUNTER, 1), PutHeadToBlock(1, 1), PutBlockToHead(1, 1)]);
    PerformFour(EMPTY, PutBlock(1, b), PutCounter(BLOCKS_COUNTER, 1), PutID(b.id, 1), l);
    PerformThree(PerformAll(EMPTY, [PutBlock(1, b), PutCounter(BLOCKS_COUNTER, 1), PutID(b.id, 1), l]),
                 PutCounter(HEADS_COUNTER, 1), PutHeadToBlock(1, 1), PutBlockToHead(1, 1));
  }

  // ----- the batch for a node of the tree

  /** The first `k` entries of the jump table of a new block on top of `p`. */
  ghost function Jumps(t: Tree, p: nat, k: nat): (parents: seq<nat>)
    ensures |parents| == k
    ensures forall i {:trigger parents[i]} :: 0 <= i < k ==> parents[i] == Anc(t, p, Pow2(i) - 1)
  {
    if k == 0 then [] else Jumps(t, p, k - 1) + [Anc(t, p, Pow2(k - 1) - 1)]
  }

  lemma {:induction false} JumpsUnique(parents: seq<nat>, t: Tree, p: nat, h: nat)
    requires AreJumpsFrom(parents, t, p, h)
    ensures parents == Jumps(t, p, CeilLog2(h))
  {
    var js := Jumps(t, p, CeilLog2(h));
    forall i | 0 <= i < |parents|
      ensures parents[i] == js[i]
    {
    }
  }

  /** The batch that adds node `x` to the representation of `t`: it is determined by the tree and the snapshot. */
  ghost function NodeBatch(sn: Db, t: Tree, x: Node): seq<Write>
  {
    var r := RecordOf(t + [x], |t|);
    BlockBatch(sn, |t|, r, Jumps(t, x.parent, CeilLog2(r.height)), x.base)
  }

  /** The batch of an insertion turns a representation of the tree into one of the grown tree. */
  lemma {:induction false} NodeBatchRepresents(sn: Db, t: Tree, x: Node)
    requires WellFormed(t) && Represents(sn, t) && 1 <= x.parent < |t|
    ensures var next := PerformAll(sn, NodeBatch(sn, t, x));
      Represents(next, t + [x]) && next.leashes == sn.leashes
  {
    var r := RecordOf(t + [x], |t|);
    var parents := Jumps(t, x.parent, CeilLog2(r.height));
    NewRecord(t, x);
    BatchStoresBlock(sn, t, x, r, parents);
    BlockRepresented(sn, PerformAll(sn, BlockBatch(sn, |t|, r, parents, x.base)), t, x, r, parents);
  }

  /** The batch for a new key-block. */
  lemma {:induction false} KeyBlockStored(sn: Db, t: Tree, b: ProtoBlock)
    requires WellFormed(t) && Represents(sn, t) && NumOf(t, b.id) == 0 && KeyBlockOutcome(t, b) == PASS
    ensures var u, next := t + [KeyNode(t, b)], PerformAll(sn, NodeBatch(sn, t, KeyNode(t, b)));
      WellFormed(u) && Represents(next, u) && next.leashes == sn.leashes
  {
    KeyNodeWellFormed(t, b);
    NodeBatchRepresents(sn, t, KeyNode(t, b));
  }

  lemma {:induction false} MicroRecord(t: Tree, inv: MicroBlockInv)
    requires WellFormed(t) && MicroBlockOutcome(t, inv) == PASS
    ensures var ref := NumOf(t, inv.reference);
      && 1 <= t[ref].parent < ref
      && RecordOf(t + [MicroNode(t, inv)], |t|) == RecordOf(t, ref).(id := inv.totalId)
  {
    ReferenceParent(t, NumOf(t, inv.reference));
    NewRecord(t, MicroNode(t, inv));
  }

  /** The batch for a new micro-block. */
  lemma {:induction false} MicroBlockStored(sn: Db, t: Tree, inv: MicroBlockInv)
    requires WellFormed(t) && Represents(sn, t) && NumOf(t, inv.totalId) == 0 && MicroBlockOutcome(t, inv) == PASS
    ensures var u, next := t + [MicroNode(t, inv)], PerformAll(sn, NodeBatch(sn, t, MicroNode(t, inv)));
      WellFormed(u) && Represents(next, u) && next.leashes == sn.leashes
  {
    MicroRecord(t, inv);
    MicroNodeWellFormed(t, inv);
    NodeBatchRepresents(sn, t, MicroNode(t, inv));
  }
}
