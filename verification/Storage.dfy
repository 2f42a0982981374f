/** The block storage (chains/storage.go): inserting blocks and walking the tree. */
module Storage {
  import opened Entities
  import opened Powers
  import opened BlockTree
  import opened CommonAncestor
  import opened Heads
  import opened Scores
  import opened Database
  import opened Batches

  /** How far the lower of two blocks is above their last common ancestor. */
  ghost function BranchLength(t: Tree, n1: nat, n2: nat): nat
    requires n1 < |t| && n2 < |t|
  {
    var low := if Height(t, n1) < Height(t, n2) then n1 else n2;
    Height(t, low) - Height(t, WalkLca(t, n1, n2))
  }

  /** What `lca` answers for two stored blocks: their last common block as the plain walk finds it, or a panic
      when the search runs off a jump table. */
  ghost function LcaOfNums(t: Tree, n1: nat, n2: nat): Result<BlockId>
    requires n1 < |t| && n2 < |t|
  {
    var a := WalkLca(t, n1, n2);
    if JumpsInBounds(Height(t, a), BranchLength(t, n1, n2)) then Success(IdOf(t, a)) else Failure(Panic)
  }

  ghost function LcaAnswer(t: Tree, id1: BlockId, id2: BlockId): Result<BlockId>
  {
    var n1, n2 := NumOf(t, id1), NumOf(t, id2);
    if n1 == 0 || n2 == 0 then Failure(NotFound) else LcaOfNums(t, n1, n2)
  }

  /** The first `count` IDs on the way up from a block, as far as genesis. */
  ghost predicate IsAncestorList(t: Tree, n: nat, count: nat, ids: seq<BlockId>)
  {
    && |ids| == (if count <= Height(t, n) then count else Height(t, n))
    && forall j {:trigger ids[j]} :: 0 <= j < |ids| ==> ids[j] == IdOf(t, Anc(t, n, j))
  }

  /** The first `count` records on the way up from a block, as far as genesis. */
  ghost predicate IsBlockList(t: Tree, n: nat, count: nat, bs: seq<Block>)
  {
    && |bs| == (if count <= Height(t, n) then count else Height(t, n))
    && forall j {:trigger bs[j]} :: 0 <= j < |bs| ==> IsRecordOf(bs[j], t, Anc(t, n, j))
  }

  ghost predicate IsRecordOf(b: Block, t: Tree, n: nat)
  {
    1 <= n < |t| && b == RecordOf(t, n)
  }

  /** The 32-bit increment of a height; the highest one wraps to zero. */
  function NextHeight(h: nat): (r: nat)
    requires h <= MAX_HEIGHT
    ensures h < MAX_HEIGHT ==> r == h + 1
    ensures h == MAX_HEIGHT ==> r == 0
  {
    (h + 1) % (MAX_HEIGHT + 1)
  }

  /** The leashes that the range scan of `leashes` returns. */
  function Scanned(ls: map<Addr, BlockId>): map<Addr, BlockId>
  {
    map a | a in ls && a != ALL_ONES :: ls[a]
  }

  /** The list holds every leash exactly once. */
  ghost predicate ListsLeashes(r: seq<Leash>, ls: map<Addr, BlockId>)
  {
    && (forall i :: 0 <= i < |r| ==> r[i].addr in ls && ls[r[i].addr] == r[i].blockId)
    && (forall a :: a in ls ==> exists i :: 0 <= i < |r| && r[i].addr == a)
    && (forall i, j :: 0 <= i < j < |r| ==> r[i].addr != r[j].addr)
  }

  class Storage {
    var db: Db

    /** The blocks stored so far, in insertion order. */
    ghost var tree: Tree

    ghost predicate Valid()
      reads this
    {
      WellFormed(tree) && Represents(db, tree)
    }

    ghost predicate Blank()
      reads this
    {
      db == EMPTY && tree == [VOID]
    }

    constructor ()
      ensures Blank()
    {
      db := EMPTY;
      tree := [VOID];
    }

    // ----- reading

    static function GetNumOfBlockID(sn: Db, id: BlockId): Result<nat> { Lookup(sn.ids, id) }

    /** Reads by number never miss: numbers come from the ID index, from jump tables and from the head maps. */
    static function GetBlock(sn: Db, n: nat): Block
      requires n in sn.blocks
    {
      sn.blocks[n]
    }

    static function GetLink(sn: Db, n: nat): Link
      requires n in sn.links
    {
      sn.links[n]
    }

    method HasBlock(id: BlockId) returns (ok: bool)
      requires Valid()
      ensures ok <==> NumOf(tree, id) != 0
    {
      var r := GetNumOfBlockID(db, id);
      assert r == Lookup(db.ids, id);
      ok := r.Success?;
    }

    method BlockById(id: BlockId) returns (r: Result<Block>)
      requires Valid()
      ensures NumOf(tree, id) == 0 ==> r == Failure(NotFound)
      ensures NumOf(tree, id) != 0 ==> r == Success(RecordOf(tree, NumOf(tree, id)))
    {
      ReadId(db.ids, tree, id);
      var n :- GetNumOfBlockID(db, id);
      ReadBlock(db.blocks, tree, n);
      r := Success(GetBlock(db, n));
    }

    // ----- inserting blocks

    /** The first start writes genesis; later starts leave the store alone. */
    method Initialize(genesis: ProtoBlock) returns (r: Outcome)
      requires Blank() || Valid()
      modifies this
      ensures db.leashes == old(db.leashes)
      ensures old(Valid()) ==> r == PASS && unchanged(this)
      ensures old(Blank()) ==> (r == PASS <==> genesis.target <= MAX_TARGET)
      ensures r == PASS ==> Valid()
      ensures old(Blank()) && r == PASS ==> tree == [VOID, Node(genesis.id, 0, 0, genesis.target, genesis.generator)]
      ensures old(Blank()) && r == PASS ==>
                db == PerformAll(EMPTY, GenesisBatch(RecordOf(tree, 1)))
      ensures r != PASS ==> r == Failure(Panic) && unchanged(this)
    {
      if db.blocksCounter == 0 {
        if genesis.target > MAX_TARGET { return Failure(Panic); }
        var b := Block(1, CalculateScore(genesis.target), genesis.id, None, genesis.generator);
        var batch: seq<Write> := [];
        batch := batch + [PutBlock(1, b)];
        batch := batch + [PutCounter(BLOCKS_COUNTER, 1)];
        batch := batch + [PutID(genesis.id, 1)];
        batch := batch + [PutLink(1, Link(1, genesis.id, []))];
        batch := batch + [PutCounter(HEADS_COUNTER, 1)];
        batch := batch + [PutHeadToBlock(1, 1)];
        batch := batch + [PutBlockToHead(1, 1)];
        assert batch == GenesisBatch(b);
        GenesisBatchStores(b);
        db := PerformAll(db, batch);
        tree := tree + [Node(genesis.id, 0, 0, genesis.target, genesis.generator)];
        GenesisRepresented(db, tree, b);
      }
      r := PASS;
    }

    /** Computes the jump table of a new block from its parent's link and the links above it. */
    static method PutNewLinkForBlock(
      sn: Db, batch: seq<Write>, num: nat, id: BlockId, h: nat, parentID: BlockId, ghost t: Tree)
      returns (r: Result<seq<Write>>)
      requires IdsMatch(sn.ids, t) && LinksMatch(sn.links, t)
      requires NumOf(t, parentID) != 0
      requires h == 0 || h == Height(t, NumOf(t, parentID)) + 1
      ensures h == 0 ==> r == Failure(Panic)
      ensures h != 0 ==>
                r == Success(batch + [PutLink(num, Link(h, id, Jumps(t, NumOf(t, parentID), CeilLog2(h))))])
    {
      ReadId(sn.ids, t, parentID);
      var pn := GetNumOfBlockID(sn, parentID).value;
      if h == 0 { return Failure(Panic); } // log2(0): the table cannot be allocated
      var parents := CollectParents(sn, pn, h, t);
      JumpsUnique(parents, t, pn, h);
      r := Success(batch + [PutLink(num, Link(h, id, parents))]);
    }

    /** The loop of `putNewLinkForBlock`: entry l of the ancestor reached so far leads to the next ancestor. */
    static method CollectParents(sn: Db, parent: nat, h: nat, ghost t: Tree) returns (parents: seq<nat>)
      requires LinksMatch(sn.links, t)
      requires 1 <= parent < |t| && h == Height(t, parent) + 1
      ensures AreJumpsFrom(parents, t, parent, h)
    {
      var pn, maxParents := parent, CeilLog2(h);
      parents := [];
      var l := 0;
      while l < maxParents
        invariant 0 <= l <= maxParents && |parents| == l
        invariant forall k {:trigger parents[k]} :: 0 <= k < l ==> parents[k] == Anc(t, parent, Pow2(k) - 1)
        invariant l < maxParents ==> pn == Anc(t, parent, Pow2(l) - 1)
      {
        parents := parents + [pn];
        NextParent(sn.links, t, parent, pn, l);
        var pl := GetLink(sn, pn);
        // The entry exists precisely when the new block has a 2^(l+1)-th ancestor.
        assert |pl.parents| > l <==> l + 1 < maxParents;
        if |pl.parents| > l {
          pn := pl.parents[l];
        }
        l := l + 1;
      }
    }

    /** The new block takes over the head of the block it is placed on, or gets a new one. */
    static method PutHead(sn: Db, batch: seq<Write>, blockNum: nat, baseNum: nat, ghost hs: seq<nat>)
      returns (next: seq<Write>)
      requires HeadsMatch(sn.headsCounter, sn.headToBlock, sn.blockToHead, hs)
      requires NoDuplicates(hs) && blockNum !in hs
      ensures next == batch + HeadBatch(sn, blockNum, baseNum)
      ensures var d := PerformAll(sn, HeadBatch(sn, blockNum, baseNum));
              && OnlyHeadsDiffer(sn, d)
              && HeadsMatch(d.headsCounter, d.headToBlock, d.blockToHead, PlaceHead(hs, baseNum, blockNum))
    {
      HeadBatchPlaces(sn, sn, hs, baseNum, blockNum);
      if baseNum in sn.blockToHead {
        var headNum := sn.blockToHead[baseNum];
        next := batch + [DeleteBlockToHead(baseNum)];
        next := next + [PutHeadToBlock(headNum, blockNum)];
        next := next + [PutBlockToHead(blockNum, headNum)];
      } else {
        next := PutNewHead(sn, batch, blockNum);
      }
    }

    static method PutNewHead(sn: Db, batch: seq<Write>, blockNum: nat) returns (next: seq<Write>)
      ensures next == batch + [PutCounter(HEADS_COUNTER, sn.headsCounter + 1),
                               PutHeadToBlock(sn.headsCounter + 1, blockNum),
                               PutBlockToHead(blockNum, sn.headsCounter + 1)]
    {
      var headNum := sn.headsCounter + 1;
      next := batch + [PutCounter(HEADS_COUNTER, headNum)];
      next := next + [PutHeadToBlock(headNum, blockNum)];
      next := next + [PutBlockToHead(blockNum, headNum)];
    }

    /** Stores a key-block on top of its parent. The caller has checked that the block is new. */
    method PutProtoBlock(b: ProtoBlock) returns (r: Outcome)
      requires Valid() && NumOf(tree, b.id) == 0
      modifies this
      ensures Valid() && db.leashes == old(db.leashes)
      ensures r == PASS ==> tree == old(tree) + [KeyNode(old(tree), b)]
      ensures r == PASS ==> db == PerformAll(old(db), NodeBatch(old(db), old(tree), KeyNode(old(tree), b)))
      ensures r != PASS ==> unchanged(this)
      ensures r == KeyBlockOutcome(old(tree), b)
    {
      var batch :- KeyBlockBatch(db, b, tree);
      KeyBlockStored(db, tree, b);
      db := PerformAll(db, batch);
      tree := tree + [KeyNode(tree, b)];
      r := PASS;
    }

    static method KeyBlockBatch(sn: Db, b: ProtoBlock, ghost t: Tree) returns (r: Result<seq<Write>>)
      requires WellFormed(t) && Represents(sn, t)
      ensures r == match KeyBlockOutcome(t, b)
                   case Success(_) => Success(NodeBatch(sn, t, KeyNode(t, b)))
                   case Failure(e) => Failure(e)
    {
      var n := sn.blocksCounter;
      ReadId(sn.ids, t, b.parent);
      var parentNum :- GetNumOfBlockID(sn, b.parent);
      ReadBlock(sn.blocks, t, parentNum);
      assert Indexed(t, parentNum);
      var parent := GetBlock(sn, parentNum);
      var batch: seq<Write> := [];
      n := n + 1;
      batch := batch + [PutCounter(BLOCKS_COUNTER, n)];
      var height := NextHeight(parent.height);
      if b.target > MAX_TARGET { return Failure(Panic); }
      var rec := Block(height, CalculateScore(b.target) + parent.score, b.id, Some(b.parent), b.generator);
      batch := batch + [PutID(b.id, n)];
      batch := batch + [PutBlock(n, rec)];
      batch :- PutNewLinkForBlock(sn, batch, n, b.id, height, b.parent, t);
      WellFormedHeads(t);
      batch := PutHead(sn, batch, n, parentNum, HeadList(t));
      NewRecord(t, KeyNode(t, b));
      assert batch == Assembled(sn, n, rec, Jumps(t, parentNum, CeilLog2(height)), parentNum);
      r := Success(batch);
    }

    /** Stores a micro-block: a sibling of the block it references, from which it takes over the head. */
    method PutMicroBlock(inv: MicroBlockInv) returns (r: Outcome)
      requires Valid() && NumOf(tree, inv.totalId) == 0
      modifies this
      ensures Valid() && db.leashes == old(db.leashes)
      ensures r == MicroBlockOutcome(old(tree), inv)
      ensures r == PASS ==> tree == old(tree) + [MicroNode(old(tree), inv)]
      ensures r == PASS ==> db == PerformAll(old(db), NodeBatch(old(db), old(tree), MicroNode(old(tree), inv)))
      ensures r != PASS ==> unchanged(this)
    {
      var batch :- MicroBlockBatch(db, inv, tree);
      MicroBlockStored(db, tree, inv);
      db := PerformAll(db, batch);
      tree := tree + [MicroNode(tree, inv)];
      r := PASS;
    }

    static method MicroBlockBatch(sn: Db, inv: MicroBlockInv, ghost t: Tree) returns (r: Result<seq<Write>>)
      requires WellFormed(t) && Represents(sn, t)
      ensures r == match MicroBlockOutcome(t, inv)
                   case Success(_) => Success(NodeBatch(sn, t, MicroNode(t, inv)))
                   case Failure(e) => Failure(e)
    {
      var n := sn.blocksCounter;
      ReadId(sn.ids, t, inv.reference);
      var refNum :- GetNumOfBlockID(sn, inv.reference);
      ReadBlock(sn.blocks, t, refNum);
      var ref := GetBlock(sn, refNum);
      ReferenceParent(t, refNum);
      if ref.parent.None? { return Failure(InvalidId); } // genesis: an empty parent ID does not parse
      var parentID := ref.parent.value;
      var batch: seq<Write> := [];
      n := n + 1;
      batch := batch + [PutCounter(BLOCKS_COUNTER, n)];
      var rec := ref.(id := inv.totalId);
      batch := batch + [PutID(inv.totalId, n)];
      batch := batch + [PutBlock(n, rec)];
      var linked := PutNewLinkForBlock(sn, batch, n, inv.totalId, rec.height, parentID, t);
      batch := linked.value;
      WellFormedHeads(t);
      batch := PutHead(sn, batch, n, refNum, HeadList(t));
      MicroRecord(t, inv);
      assert batch == Assembled(sn, n, rec, Jumps(t, NumOf(t, parentID), CeilLog2(rec.height)), refNum);
      r := Success(batch);
    }

    // ----- walking the tree

    method GetAncestors(id: BlockId, count: int) returns (r: Result<seq<BlockId>>)
      requires Valid()
      ensures NumOf(tree, id) == 0 ==> r == Failure(NotFound)
      ensures NumOf(tree, id) != 0 && count < 0 ==> r == Failure(Panic)
      ensures NumOf(tree, id) != 0 && count >= 0 ==>
                r.Success? && IsAncestorList(tree, NumOf(tree, id), count, r.value)
    {
      var sn := db;
      ReadId(sn.ids, tree, id);
      var n :- GetNumOfBlockID(sn, id);
      if count < 0 { return Failure(Panic); } // negative slice capacity
      var ids := CollectIds(sn, n, count, tree);
      r := Success(ids);
    }

    /** The loop of `getAncestors`: it stops at a link without parents. */
    static method CollectIds(sn: Db, start: nat, count: nat, ghost t: Tree) returns (ids: seq<BlockId>)
      requires RecordsMatch(sn.blocks, t) && LinksMatch(sn.links, t) && 1 <= start < |t|
      ensures IsAncestorList(t, start, count, ids)
    {
      var n, i := start, 0;
      ids := [];
      while i < count
        invariant 0 <= i <= count && i < Height(t, start) && n == Anc(t, start, i)
        invariant |ids| == i && IsAncestorList(t, start, i, ids)
      {
        StepUp(sn, t, start, n, i);
        var l := GetLink(sn, n);
        ids := ids + [l.blockId];
        if |l.parents| == 0 { break; }
        n := l.parents[0];
        i := i + 1;
      }
    }

    method GetBlocks(id: BlockId, count: int) returns (r: Result<seq<Block>>)
      requires Valid()
      ensures NumOf(tree, id) == 0 ==> r == Failure(NotFound)
      ensures NumOf(tree, id) != 0 && count < 0 ==> r == Failure(Panic)
      ensures NumOf(tree, id) != 0 && count >= 0 ==>
                r.Success? && IsBlockList(tree, NumOf(tree, id), count, r.value)
    {
      var sn := db;
      ReadId(sn.ids, tree, id);
      var n :- GetNumOfBlockID(sn, id);
      if count < 0 { return Failure(Panic); }
      var bs := CollectBlocks(sn, n, count, tree);
      r := Success(bs);
    }

    /** The loop of `getBlocks`: it stops at a record without a parent ID, but climbs by the links. */
    static method CollectBlocks(sn: Db, start: nat, count: nat, ghost t: Tree) returns (bs: seq<Block>)
      requires RecordsMatch(sn.blocks, t) && LinksMatch(sn.links, t) && 1 <= start < |t|
      ensures IsBlockList(t, start, count, bs)
    {
      var n, i := start, 0;
      bs := [];
      while i < count
        invariant 0 <= i <= count && i < Height(t, start) && n == Anc(t, start, i)
        invariant |bs| == i && IsBlockList(t, start, i, bs)
      {
        StepUp(sn, t, start, n, i);
        var b := GetBlock(sn, n);
        BlockListStep(t, start, i, bs, b);
        bs := bs + [b];
        if b.parent.None? { return; }
        var l := GetLink(sn, n);
        n := l.parents[0];
        i := i + 1;
      }
    }

    /** The ancestor of `farthest` at the height of `other`. */
    static method FastBackwardFarthest(sn: Db, farthest: Link, other: Link, ghost t: Tree, ghost f: nat)
      returns (r: Link)
      requires LinksMatch(sn.links, t)
      requires 1 <= f < |t| && f in sn.links && farthest == sn.links[f]
      requires 1 <= other.height <= farthest.height
      ensures var a := Anc(t, f, farthest.height - other.height);
              1 <= a < |t| && a in sn.links && r == sn.links[a] && r.height == other.height
    {
      var far := farthest;
      ghost var cur: nat, done: nat := f, 0;
      var i := |far.parents| - 1;
      TableCovers(sn.links, t, cur);
      while i >= 0
        invariant 1 <= cur < |t| && cur in sn.links && far == sn.links[cur]
        invariant cur == Anc(t, f, done) && done + far.height == farthest.height
        invariant -1 <= i < |far.parents|
        invariant 0 <= far.height - other.height < Pow2(i + 1)
        decreases i + 1
      {
        JumpEntry(sn.links, t, cur, i);
        assert Pow2(i) < far.height; // the unsigned subtraction does not wrap
        if far.height - Pow2(i) >= other.height {
          AncAdd(t, f, done, Pow2(i));
          done := done + Pow2(i);
          cur := far.parents[i];
          TableCovers(sn.links, t, cur);
          far := GetLink(sn, far.parents[i]);
          if i >= |far.parents| {
            i := |far.parents| - 1;
            continue;
          }
        }
        i := i - 1;
      }
      r := far;
    }

    // ----- leashes and heads

    method LeashOf(addr: Addr) returns (r: Result<BlockId>)
      ensures r == if addr in db.leashes then Success(db.leashes[addr]) else Failure(NotFound)
    {
      r := Lookup(db.leashes, addr);
    }

    method UpdateLeash(addr: Addr, id: BlockId)
      requires Valid()
      modifies this
      ensures Valid() && tree == old(tree) && db == old(db).(leashes := old(db.leashes)[addr := id])
      ensures db == PerformAll(old(db), [PutLeash(addr, id)])
    {
      var batch := [PutLeash(addr, id)];
      PerformOne(db, batch[0]);
      db := PerformAll(db, batch);
    }

    /** The leashes found by the range scan. Nothing depends on their order. */
    method AllLeashes() returns (r: seq<Leash>)
      ensures ListsLeashes(r, Scanned(db.leashes))
    {
      var rest := Scanned(db.leashes);
      r := [];
      while rest.Keys != {}
        invariant rest.Keys <= Scanned(db.leashes).Keys
        invariant forall a :: a in rest ==> rest[a] == Scanned(db.leashes)[a]
        invariant ListsLeashes(r, Scanned(db.leashes) - rest.Keys)
        decreases |rest.Keys|
      {
        var a :| a in rest;
        ListOneMore(r, Scanned(db.leashes) - rest.Keys, a, rest[a]);
        r := r + [Leash(a, rest[a])];
        assert (Scanned(db.leashes) - rest.Keys)[a := rest[a]] == Scanned(db.leashes) - (rest - {a}).Keys;
        rest := rest - {a};
      }
      assert Scanned(db.leashes) - rest.Keys == Scanned(db.leashes);
    }

    /** The heads in the order of their numbers; the scan delivers the numbers in ascending order. */
    method AllHeads() returns (r: seq<(nat, BlockId)>)
      requires Valid()
      ensures |r| == |HeadList(tree)|
      ensures forall i :: 0 <= i < |r| ==> r[i] == (i + 1, IdOf(tree, HeadList(tree)[i]))
    {
      var sn := db;
      ghost var hs := HeadList(tree);
      r := [];
      var i := 1;
      while i <= sn.headsCounter
        invariant 1 <= i <= sn.headsCounter + 1 && |r| == i - 1
        invariant forall k {:trigger r[k]} :: 0 <= k < |r| ==> r[k] == (k + 1, IdOf(tree, hs[k]))
      {
        HeadIsStored(sn, tree, i);
        r := r + [(i, GetBlock(sn, sn.headToBlock[i]).id)];
        i := i + 1;
      }
    }

    /** Binary lifting of two different level blocks up to just below their common ancestor. The table index `i`
        only counts down, so a jump can leave the tables too short for it. */
    static method LiftBoth(sn: Db, farthest: Link, other: Link, ghost t: Tree, ghost f: nat, ghost o: nat)
      returns (r: Result<nat>)
      requires LinksMatch(sn.links, t)
      requires 1 <= f < |t| && f in sn.links && farthest == sn.links[f]
      requires 1 <= o < |t| && o in sn.links && other == sn.links[o]
      requires f != o && Height(t, f) == Height(t, o) && WalkLca(t, f, o) >= 1
      ensures var A := Height(t, WalkLca(t, f, o));
              && A < Height(t, f)
              && r == if JumpsInBounds(A, Height(t, f) - A) then Success(WalkLca(t, f, o)) else Failure(Panic)
    {
      var far, oth := farthest, other;
      ghost var A, K, x, y := LiftStart(sn.links, t, f, o);
      ghost var rem := K;
      var i := |far.parents| - 1;
      while i >= 0
        invariant i >= -1 && Lifting(sn.links, t, f, o, K, x, y, rem, i)
        invariant far == sn.links[x] && oth == sn.links[y]
      {
        ghost var next := LiftStep(sn.links, t, f, o, K, x, y, rem, i);
        if i >= |far.parents| || i >= |oth.parents| {
          return Failure(Panic); // index out of range
        }
        if far.parents[i] != oth.parents[i] {
          x, y := far.parents[i], oth.parents[i];
          far := GetLink(sn, far.parents[i]);
          oth := GetLink(sn, oth.parents[i]);
        }
        rem := next;
        i := i - 1;
      }
      LiftEnd(sn.links, t, f, o, K, x, y, rem);
      r := Success(far.parents[0]);
    }

    /** The last common block of two stored blocks. */
    method Lca(id1: BlockId, id2: BlockId) returns (r: Result<BlockId>)
      requires Valid()
      ensures r == LcaAnswer(tree, id1, id2)
    {
      var sn := db;
      ReadId(sn.ids, tree, id1);
      ReadId(sn.ids, tree, id2);
      var n1 :- GetNumOfBlockID(sn, id1);
      var n2 :- GetNumOfBlockID(sn, id2);
      r := LcaOfNumbers(sn, n1, n2, tree);
    }

    static method LcaOfNumbers(sn: Db, n1: nat, n2: nat, ghost t: Tree) returns (r: Result<BlockId>)
      requires WellFormed(t) && LinksMatch(sn.links, t) && 1 <= n1 < |t| && 1 <= n2 < |t|
      ensures r == LcaOfNums(t, n1, n2)
    {
      ReadLink(sn.links, t, n1);
      ReadLink(sn.links, t, n2);
      var l1, l2 := GetLink(sn, n1), GetLink(sn, n2);
      if l1.height < l2.height {
        LcaAnswerSymmetric(t, n1, n2);
        r := LcaOrdered(sn, l2, l1, t, n2, n1);
      } else {
        r := LcaOrdered(sn, l1, l2, t, n1, n2);
      }
    }

    static method LcaOrdered(sn: Db, highest: Link, other: Link, ghost t: Tree, ghost f: nat, ghost o: nat)
      returns (r: Result<BlockId>)
      requires WellFormed(t) && LinksMatch(sn.links, t)
      requires 1 <= f < |t| && f in sn.links && highest == sn.links[f]
      requires 1 <= o < |t| && o in sn.links && other == sn.links[o]
      requires other.height <= highest.height
      ensures r == LcaOfNums(t, f, o)
    {
      ReadLink(sn.links, t, f);
      ReadLink(sn.links, t, o);
      var farthest := FastBackwardFarthest(sn, highest, other, t, f);
      ghost var g := Anc(t, f, highest.height - other.height);
      ReadLink(sn.links, t, g);
      LevelledLca(t, f, o);
      SameIdSameBlock(t, g, o);
      if farthest.blockId == other.blockId {
        LcaOfSame(t, o);
        return Success(farthest.blockId);
      }
      r := LcaLevel(sn, farthest, other, t, g, o);
    }

    static method LcaLevel(sn: Db, farthest: Link, other: Link, ghost t: Tree, ghost g: nat, ghost o: nat)
      returns (r: Result<BlockId>)
      requires LinksMatch(sn.links, t)
      requires 1 <= g < |t| && g in sn.links && farthest == sn.links[g]
      requires 1 <= o < |t| && o in sn.links && other == sn.links[o]
      requires g != o && Height(t, g) == Height(t, o) && WalkLca(t, g, o) >= 1
      ensures r == LcaOfNums(t, g, o)
    {
      var p :- LiftBoth(sn, farthest, other, t, g, o);
      ReadLink(sn.links, t, p);
      r := Success(GetLink(sn, p).blockId);
    }
  }

  lemma {:induction false} HeadIsStored(sn: Db, t: Tree, i: nat)
    requires WellFormed(t) && Represents(sn, t) && 1 <= i <= sn.headsCounter
    ensures i in sn.headToBlock && sn.headToBlock[i] == HeadList(t)[i - 1]
    ensures HeadList(t)[i - 1] in sn.blocks && sn.blocks[HeadList(t)[i - 1]].id == IdOf(t, HeadList(t)[i - 1])
  {
    var hs := HeadList(t);
    assert sn.headToBlock[i] == hs[i - 1];
    WellFormedHeads(t);
    assert hs[i - 1] in hs;
    ReadBlock(sn.blocks, t, hs[i - 1]);
  }

  lemma {:induction false} ListOneMore(r: seq<Leash>, ls: map<Addr, BlockId>, a: Addr, id: BlockId)
    requires ListsLeashes(r, ls) && a !in ls
    ensures ListsLeashes(r + [Leash(a, id)], ls[a := id])
  {
    var q, next := r + [Leash(a, id)], ls[a := id];
    assert q[|r|] == Leash(a, id);
    forall b | b in next
      ensures exists i :: 0 <= i < |q| && q[i].addr == b
    {
      if b != a {
        var i :| 0 <= i < |r| && r[i].addr == b;
        assert q[i].addr == b;
      }
    }
  }

  /** What one side of the lifting loop finds at table index `i`, having climbed `d` steps. */
  lemma {:induction false} LiftSide(links: map<nat, Link>, t: Tree, f: nat, x: nat, d: nat, i: nat)
    requires LinksMatch(links, t) && 1 <= f < |t| && 1 <= x < |t| && x == Anc(t, f, d)
    ensures x in links && Height(t, x) + d == Height(t, f) && |links[x].parents| == CeilLog2(Height(t, x))
    ensures i < |links[x].parents| <==> Pow2(i) < Height(t, x)
    ensures i < |links[x].parents| ==>
              && links[x].parents[i] == Anc(t, f, d + Pow2(i))
              && 1 <= links[x].parents[i] < |t| && links[x].parents[i] in links
  {
    AncHeight(t, f, d);
    JumpEntry(links, t, x, i);
    AncAdd(t, f, d, Pow2(i));
    if i < |links[x].parents| {
      ReadLink(links, t, links[x].parents[i]);
    }
  }

  /** The loop invariant of the lifting, before index `i` is looked at: `rem` steps of the `K` are left, and the
      entries at all higher indices were there. */
  ghost predicate Lifting(
    links: map<nat, Link>, t: Tree, f: nat, o: nat, K: nat, x: nat, y: nat, rem: nat, i: int)
    requires f < |t| && o < |t| && i >= -1
  {
    && 1 <= x < |t| && x in links && 1 <= y < |t| && y in links
    && rem == K % Pow2(i + 1) && rem <= K && x == Anc(t, f, K - rem) && y == Anc(t, o, K - rem)
    && (K < Pow2(i + 1) ==> i < |links[x].parents|)
    && EntriesExist(Height(t, WalkLca(t, f, o)), K, i + 1)
  }

  lemma {:induction false} LiftStart(links: map<nat, Link>, t: Tree, f: nat, o: nat)
    returns (A: nat, K: nat, x: nat, y: nat)
    requires LinksMatch(links, t) && 1 <= f < |t| && 1 <= o < |t|
    requires f != o && Height(t, f) == Height(t, o) && WalkLca(t, f, o) >= 1
    ensures A == Height(t, WalkLca(t, f, o)) && Height(t, f) == A + K + 1 && x == f && y == o
    ensures f in links && Lifting(links, t, f, o, K, f, o, K, |links[f].parents| - 1)
  {
    MeetExactly(t, f, o, 0);
    A, x, y := Height(t, WalkLca(t, f, o)), f, o;
    K := Height(t, f) - A - 1;
    ReadLink(links, t, o);
    TableCovers(links, t, f);
    SmallRemainder(K, Pow2(|links[f].parents|));
    HighEntriesExist(A, K, |links[f].parents|);
  }

  /** One iteration at table index `i`: either the entry is missing, or the search stays where it is, or it goes on
      from the two entries. */
  lemma {:induction false} LiftStep(
    links: map<nat, Link>, t: Tree, f: nat, o: nat, K: nat, x: nat, y: nat, rem: nat, i: nat) returns (next: nat)
    requires LinksMatch(links, t) && 1 <= f < |t| && 1 <= o < |t|
    requires Height(t, f) == Height(t, o) == Height(t, WalkLca(t, f, o)) + K + 1
    requires Lifting(links, t, f, o, K, x, y, rem, i)
    ensures |links[x].parents| == |links[y].parents|
    ensures i >= |links[x].parents| ==> !EntriesExist(Height(t, WalkLca(t, f, o)), K, 0)
    ensures i < |links[x].parents| ==>
              var p, q := links[x].parents[i], links[y].parents[i];
              p in links && q in links &&
              if p == q then Lifting(links, t, f, o, K, x, y, next, i - 1)
              else Lifting(links, t, f, o, K, p, q, next, i - 1)
  {
    var A := Height(t, WalkLca(t, f, o));
    LiftCompare(links, t, f, o, K, x, y, rem, i);
    RemainderStep(K, i);
    next := if rem < Pow2(i) then rem else rem - Pow2(i);
    if i < |links[x].parents| {
      OneMoreEntry(A, K, i);
      if rem >= Pow2(i) {
        LiftSide(links, t, f, links[x].parents[i], K - next, i);
      }
    } else {
      assert !EntryExists(A, K, i);
    }
  }

  /** The two entries at table index `i` exist together, and are equal when they reach the common ancestor. */
  lemma {:induction false} LiftCompare(
    links: map<nat, Link>, t: Tree, f: nat, o: nat, K: nat, x: nat, y: nat, rem: nat, i: nat)
    requires LinksMatch(links, t) && 1 <= f < |t| && 1 <= o < |t|
    requires Height(t, f) == Height(t, o) == Height(t, WalkLca(t, f, o)) + K + 1
    requires 1 <= x < |t| && 1 <= y < |t| && rem <= K && x == Anc(t, f, K - rem) && y == Anc(t, o, K - rem)
    ensures x in links && y in links && |links[x].parents| == |links[y].parents|
    ensures i < |links[x].parents| <==> Pow2(i) <= Height(t, WalkLca(t, f, o)) + rem
    ensures i < |links[x].parents| ==>
              var p, q := links[x].parents[i], links[y].parents[i];
              && (p == q <==> rem < Pow2(i))
              && 1 <= p < |t| && p in links && p == Anc(t, f, K - rem + Pow2(i))
              && 1 <= q < |t| && q in links && q == Anc(t, o, K - rem + Pow2(i))
  {
    LiftSide(links, t, f, x, K - rem, i);
    LiftSide(links, t, o, y, K - rem, i);
    MeetExactly(t, f, o, K - rem + Pow2(i));
  }

  lemma OneMoreEntry(A: nat, K: nat, i: nat)
    requires EntriesExist(A, K, i + 1) && EntryExists(A, K, i)
    ensures EntriesExist(A, K, i)
  {
  }

  lemma {:induction false} LiftEnd(
    links: map<nat, Link>, t: Tree, f: nat, o: nat, K: nat, x: nat, y: nat, rem: nat)
    requires LinksMatch(links, t) && 1 <= f < |t| && 1 <= o < |t|
    requires Height(t, f) == Height(t, o) == Height(t, WalkLca(t, f, o)) + K + 1 && WalkLca(t, f, o) >= 1
    requires Lifting(links, t, f, o, K, x, y, rem, -1)
    ensures |links[x].parents| > 0 && links[x].parents[0] == WalkLca(t, f, o)
    ensures EntriesExist(Height(t, WalkLca(t, f, o)), K, 0)
  {
    assert Pow2(0) == 1 && rem == 0;
    AncHeight(t, f, K);
    JumpEntry(links, t, x, 0);
    AncAdd(t, f, K, 1);
    WalkIsAncestor(t, f, o);
    AncestorAtHeight(t, WalkLca(t, f, o), f);
  }

  /** The answer does not depend on the order of the two blocks. */
  lemma {:induction false} LcaAnswerSymmetric(t: Tree, n1: nat, n2: nat)
    requires WellFormed(t) && 1 <= n1 < |t| && 1 <= n2 < |t|
    ensures LcaOfNums(t, n1, n2) == LcaOfNums(t, n2, n1)
  {
    LcaSymmetric(t, n1, n2);
  }

  /** Levelling the higher block does not change the answer. */
  lemma {:induction false} LevelledLca(t: Tree, f: nat, o: nat)
    requires WellFormed(t) && 1 <= f < |t| && 1 <= o < |t|
    requires Height(t, o) <= Height(t, f)
    ensures var g := Anc(t, f, Height(t, f) - Height(t, o));
            && 1 <= g < |t| && Height(t, g) == Height(t, o)
            && WalkLca(t, g, o) >= 1
            && LcaOfNums(t, f, o) == LcaOfNums(t, g, o)
  {
    var d := Height(t, f) - Height(t, o);
    LevelFirst(t, f, o, d);
    AncHeight(t, f, d);
    LcaPositive(t, f, o);
    SameAnswer(t, f, Anc(t, f, d), o);
  }

  lemma {:induction false} SameAnswer(t: Tree, f: nat, g: nat, o: nat)
    requires 1 <= f < |t| && 1 <= g < |t| && 1 <= o < |t| && WalkLca(t, f, o) == WalkLca(t, g, o)
    requires Height(t, o) <= Height(t, f) && Height(t, o) == Height(t, g)
    ensures LcaOfNums(t, f, o) == LcaOfNums(t, g, o)
  {
    assert BranchLength(t, f, o) == BranchLength(t, g, o);
  }

  lemma {:induction false} LcaPositive(t: Tree, a: nat, b: nat)
    requires WellFormed(t) && 1 <= a < |t| && 1 <= b < |t|
    ensures WalkLca(t, a, b) >= 1
  {
    LcaIsDeepestCommonAncestor(t, a, b);
  }

  lemma {:induction false} LcaOfSame(t: Tree, n: nat)
    requires n < |t|
    ensures LcaOfNums(t, n, n) == Success(t[n].id)
  {
  }

  /** A jump table reaches at least half way: the height is at most 2 to the number of entries. */
  lemma {:induction false} TableCovers(links: map<nat, Link>, t: Tree, n: nat)
    requires LinksMatch(links, t) && 1 <= n < |t|
    ensures n in links && links[n].height == Height(t, n) <= Pow2(|links[n].parents|)
  {
    JumpEntry(links, t, n, 0);
    PowerBelow(Height(t, n), |links[n].parents|);
  }

  /** One step of a walk up: the link at the i-th ancestor leads to the next one, if there is one. */
  lemma {:induction false} StepUp(sn: Db, t: Tree, start: nat, n: nat, i: nat)
    requires RecordsMatch(sn.blocks, t) && LinksMatch(sn.links, t)
    requires 1 <= start < |t| && i < Height(t, start) && n == Anc(t, start, i)
    ensures 1 <= n < |t| && n in sn.blocks && n in sn.links
    ensures sn.blocks[n] == RecordOf(t, n) && sn.links[n].blockId == IdOf(t, n)
    ensures sn.blocks[n].parent.None? <==> i + 1 == Height(t, start)
    ensures sn.links[n].parents == [] <==> i + 1 == Height(t, start)
    ensures i + 1 < Height(t, start) ==>
              sn.links[n].parents[0] == Anc(t, start, i + 1) && 1 <= Anc(t, start, i + 1) < |t|
  {
    AncHeight(t, start, i);
    AncHeight(t, start, i + 1);
    ReadBlock(sn.blocks, t, n);
    ReadLink(sn.links, t, n);
    JumpEntry(sn.links, t, n, 0);
    AncAdd(t, start, i, 1);
    assert Pow2(0) == 1;
    assert Anc(t, n, 1) == Anc(t, Parent(t, n), 0);
  }

  lemma {:induction false} BlockListStep(t: Tree, n: nat, i: nat, bs: seq<Block>, b: Block)
    requires IsBlockList(t, n, i, bs) && |bs| == i < Height(t, n)
    requires IsRecordOf(b, t, Anc(t, n, i))
    ensures IsBlockList(t, n, i + 1, bs + [b])
    ensures i + 1 == Height(t, n) ==> forall count :: count > i ==> IsBlockList(t, n, count, bs + [b])
  {
  }

  /** One step of the loop that fills a jump table. */
  lemma {:induction false} NextParent(links: map<nat, Link>, t: Tree, p: nat, pn: nat, l: nat)
    requires LinksMatch(links, t) && 1 <= p < |t|
    requires l < CeilLog2(Height(t, p) + 1) && pn == Anc(t, p, Pow2(l) - 1)
    ensures pn in links
    ensures l < |links[pn].parents| <==> l + 1 < CeilLog2(Height(t, p) + 1)
    ensures l < |links[pn].parents| ==> links[pn].parents[l] == Anc(t, p, Pow2(l + 1) - 1)
  {
    PowerBelow(Height(t, p) + 1, l);
    PowerBelow(Height(t, p) + 1, l + 1);
    AncHeight(t, p, Pow2(l) - 1);
    JumpEntry(links, t, pn, l);
    AncAdd(t, p, Pow2(l) - 1, Pow2(l));
  }

  lemma GenesisRepresented(db: Db, t: Tree, b: Block)
    requires |t| == 2 && t[0] == VOID && t[1].parent == 0 && t[1].base == 0 && t[1].target <= MAX_TARGET
    requires b == Block(1, CalculateScore(t[1].target), t[1].id, None, t[1].generator)
    requires db == EMPTY.(blocksCounter := 1, ids := map[t[1].id := 1], blocks := map[1 := b],
                          links := map[1 := Link(1, t[1].id, [])], headsCounter := 1,
                          headToBlock := map[1 := 1], blockToHead := map[1 := 1])
    ensures WellFormed(t) && Represents(db, t) && RecordOf(t, 1) == b
  {
    assert Height(t, 1) == 1 && Score(t, 1) == CalculateScore(t[1].target);
    forall id
      ensures Lookup(db.ids, id) == if NumOf(t, id) == 0 then Failure(NotFound) else Success(NumOf(t, id))
    {
      assert NumOf(t, id) == if t[1].id == id then 1 else 0;
    }
    assert NumOf(t, t[1].id) == 1;
    assert Indexed(t, 1) && IsLinkOf(Link(1, t[1].id, []), t, 1);
    assert HeadList(t[..1]) == [];
    assert HeadList(t) == PlaceHead([], 0, 1);
  }

  /** The two walks, which stop on different conditions, find the same blocks. */
  lemma {:induction false} WalksAgree(t: Tree, n: nat, count: nat, ids: seq<BlockId>, bs: seq<Block>)
    requires IsAncestorList(t, n, count, ids) && IsBlockList(t, n, count, bs)
    ensures |ids| == |bs| && forall j :: 0 <= j < |ids| ==> bs[j].id == ids[j]
  {
    forall j | 0 <= j < |ids|
      ensures bs[j].id == ids[j]
    {
      assert IsRecordOf(bs[j], t, Anc(t, n, j));
    }
  }
}
