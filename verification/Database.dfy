/** The stored records, and when they represent a block tree.

    A database state is a value: `Db` is what a snapshot sees. A batch is modelled by the state it will leave
    behind; writing it is one assignment. */
module Database {
  import opened Entities
  import opened Powers
  import opened BlockTree
  import opened Heads
  import opened Scores

  /** A block record. Genesis has no parent. */
  datatype Block = Block(height: nat, score: nat, id: BlockId, parent: Option<BlockId>, generator: Generator)

  /** A link record: `parents[l]` is the number of the 2^l-th ancestor. */
  datatype Link = Link(height: nat, blockId: BlockId, parents: seq<nat>)

  datatype Db = Db(
    blocksCounter: nat,
    headsCounter: nat,
    ids: map<BlockId, nat>,
    blocks: map<nat, Block>,
    links: map<nat, Link>,
    leashes: map<Addr, BlockId>,
    headToBlock: map<nat, nat>,
    blockToHead: map<nat, nat>)

  const EMPTY := Db(0, 0, map[], map[], map[], map[], map[], map[])

  function Lookup<K, V>(m: map<K, V>, k: K): Result<V>
  {
    if k in m then Success(m[k]) else Failure(NotFound)
  }

  // ----- the records that stand for a block

  function IdOf(t: Tree, n: nat): BlockId
  {
    if n < |t| then t[n].id else VOID.id
  }

  function RecordOf(t: Tree, n: nat): Block
    requires n < |t|
  {
    var p := Parent(t, n);
    Block(Height(t, n), Score(t, n), t[n].id, if p == 0 then None else Some(IdOf(t, p)), t[n].generator)
  }

  /** The exact jump table: one entry per power of two below the height, each the ancestor at that distance. */
  ghost predicate IsLinkOf(l: Link, t: Tree, n: nat)
    requires n < |t|
  {
    && l.height == Height(t, n)
    && l.blockId == t[n].id
    && |l.parents| == CeilLog2(Height(t, n))
    && forall i {:trigger l.parents[i]} :: 0 <= i < |l.parents| ==> l.parents[i] == Anc(t, n, Pow2(i))
  }

  // ----- representation

  ghost predicate IdsMatch(ids: map<BlockId, nat>, t: Tree)
  {
    forall id {:trigger Lookup(ids, id)} ::
      Lookup(ids, id) == if NumOf(t, id) == 0 then Failure(NotFound) else Success(NumOf(t, id))
  }

  ghost predicate Recorded(blocks: map<nat, Block>, t: Tree, n: nat)
    requires n < |t|
  {
    n in blocks && blocks[n] == RecordOf(t, n)
  }

  ghost predicate RecordsMatch(blocks: map<nat, Block>, t: Tree)
  {
    && (forall n {:trigger n in blocks} :: n in blocks ==> 1 <= n < |t|)
    && (forall n {:trigger Recorded(blocks, t, n)} :: 1 <= n < |t| ==> Recorded(blocks, t, n))
  }

  ghost predicate Linked(links: map<nat, Link>, t: Tree, n: nat)
    requires n < |t|
  {
    n in links && IsLinkOf(links[n], t, n)
  }

  ghost predicate LinksMatch(links: map<nat, Link>, t: Tree)
  {
    && (forall n {:trigger n in links} :: n in links ==> 1 <= n < |t|)
    && (forall n {:trigger Linked(links, t, n)} :: 1 <= n < |t| ==> Linked(links, t, n))
  }

  /** Head numbers are 1..counter, and the two head maps are each other's inverse. */
  ghost predicate HeadsMatch(counter: nat, headToBlock: map<nat, nat>, blockToHead: map<nat, nat>, hs: seq<nat>)
  {
    && counter == |hs|
    && (forall i :: i in headToBlock <==> 1 <= i <= |hs|)
    && (forall i :: 1 <= i <= |hs| ==> headToBlock[i] == hs[i - 1])
    && (forall b :: b in blockToHead <==> b in hs)
    && (forall b :: b in blockToHead ==> 1 <= blockToHead[b] <= |hs| && hs[blockToHead[b] - 1] == b)
  }

  ghost predicate Represents(db: Db, t: Tree)
  {
    && db.blocksCounter == |t| - 1
    && IdsMatch(db.ids, t)
    && RecordsMatch(db.blocks, t)
    && LinksMatch(db.links, t)
    && HeadsMatch(db.headsCounter, db.headToBlock, db.blockToHead, HeadList(t))
  }

  // ----- what a snapshot returns

  lemma {:induction false} ReadId(ids: map<BlockId, nat>, t: Tree, id: BlockId)
    requires IdsMatch(ids, t)
    ensures Lookup(ids, id) == if NumOf(t, id) == 0 then Failure(NotFound) else Success(NumOf(t, id))
  {
  }

  lemma {:induction false} ReadBlock(blocks: map<nat, Block>, t: Tree, n: nat)
    requires RecordsMatch(blocks, t) && 1 <= n < |t|
    ensures n in blocks && blocks[n] == RecordOf(t, n)
  {
    assert Recorded(blocks, t, n);
  }

  lemma {:induction false} ReadLink(links: map<nat, Link>, t: Tree, n: nat)
    requires LinksMatch(links, t) && 1 <= n < |t|
    ensures n in links && IsLinkOf(links[n], t, n)
  {
    assert Linked(links, t, n);
  }

  /** An entry of a jump table exists exactly when the ancestor it points to does. */
  lemma {:induction false} JumpEntry(links: map<nat, Link>, t: Tree, n: nat, l: nat)
    requires LinksMatch(links, t) && 1 <= n < |t|
    ensures n in links && links[n].height == Height(t, n)
    ensures l < |links[n].parents| <==> Pow2(l) < Height(t, n)
    ensures l < |links[n].parents| ==>
              links[n].parents[l] == Anc(t, n, Pow2(l)) && 1 <= Anc(t, n, Pow2(l)) < |t|
              && Height(t, Anc(t, n, Pow2(l))) == Height(t, n) - Pow2(l)
    ensures |links[n].parents| == CeilLog2(Height(t, n))
  {
    ReadLink(links, t, n);
    PowerBelow(Height(t, n), l);
    AncHeight(t, n, Pow2(l));
  }

  // ----- adding one block to each family of records

  lemma IdsAppend(ids: map<BlockId, nat>, t: Tree, x: Node)
    requires |t| >= 1 && IdsMatch(ids, t)
    ensures IdsMatch(ids[x.id := |t|], t + [x])
  {
    forall id
      ensures Lookup(ids[x.id := |t|], id)
           == if NumOf(t + [x], id) == 0 then Failure(NotFound) else Success(NumOf(t + [x], id))
    {
      NumOfAppend(t, x, id);
      assert Lookup(ids, id) == if NumOf(t, id) == 0 then Failure(NotFound) else Success(NumOf(t, id));
    }
  }

  lemma RecordStable(t: Tree, x: Node, n: nat)
    requires n < |t|
    ensures RecordOf(t + [x], n) == RecordOf(t, n)
  {
    HeightStable(t, x, n);
    ScoreStable(t, x, n);
    assert Parent(t + [x], n) == Parent(t, n);
  }

  lemma RecordsAppend(blocks: map<nat, Block>, t: Tree, x: Node, b: Block)
    requires |t| >= 1 && RecordsMatch(blocks, t) && b == RecordOf(t + [x], |t|)
    ensures RecordsMatch(blocks[|t| := b], t + [x])
  {
    var u, next := t + [x], blocks[|t| := b];
    forall n | 1 <= n < |u|
      ensures Recorded(next, u, n)
    {
      if n < |t| {
        ReadBlock(blocks, t, n);
        RecordStable(t, x, n);
      }
    }
  }

  lemma {:induction false} LinkStable(l: Link, t: Tree, x: Node, n: nat)
    requires n < |t| && IsLinkOf(l, t, n)
    ensures IsLinkOf(l, t + [x], n)
  {
    HeightStable(t, x, n);
    forall i | 0 <= i < |l.parents|
      ensures l.parents[i] == Anc(t + [x], n, Pow2(i))
    {
      AncStable(t, x, n, Pow2(i));
    }
  }

  lemma {:induction false} LinksAppend(links: map<nat, Link>, t: Tree, x: Node, l: Link)
    requires |t| >= 1 && LinksMatch(links, t) && IsLinkOf(l, t + [x], |t|)
    ensures LinksMatch(links[|t| := l], t + [x])
  {
    var u, next := t + [x], links[|t| := l];
    forall n | 1 <= n < |u|
      ensures Linked(next, u, n)
    {
      if n < |t| {
        ReadLink(links, t, n);
        LinkStable(links[n], t, x, n);
      }
    }
  }

  /** The jump table of a new block at height `h` on top of `p`, in terms of the tree it is added to. */
  ghost predicate AreJumpsFrom(parents: seq<nat>, t: Tree, p: nat, h: nat)
  {
    && |parents| == CeilLog2(h)
    && forall i {:trigger parents[i]} :: 0 <= i < |parents| ==> parents[i] == Anc(t, p, Pow2(i) - 1)
  }

  lemma {:induction false} NewJumpEntry(t: Tree, x: Node, j: nat)
    requires 1 <= x.parent < |t| && j >= 1
    ensures Anc(t + [x], |t|, j) == Anc(t, x.parent, j - 1)
  {
    assert Parent(t + [x], |t|) == x.parent;
    AncStable(t, x, x.parent, j - 1);
  }

  lemma {:induction false} NewLink(t: Tree, x: Node, parents: seq<nat>)
    requires 1 <= x.parent < |t|
    requires AreJumpsFrom(parents, t, x.parent, Height(t, x.parent) + 1)
    ensures IsLinkOf(Link(Height(t, x.parent) + 1, x.id, parents), t + [x], |t|)
  {
    var u := t + [x];
    assert Parent(u, |t|) == x.parent;
    HeightStable(t, x, x.parent);
    forall i | 0 <= i < |parents|
      ensures parents[i] == Anc(u, |t|, Pow2(i))
    {
      NewJumpEntry(t, x, Pow2(i));
    }
  }

  lemma NewRecord(t: Tree, x: Node)
    requires 1 <= x.parent < |t|
    ensures RecordOf(t + [x], |t|)
         == Block(Height(t, x.parent) + 1, CalculateScore(x.target) + Score(t, x.parent), x.id,
                  Some(t[x.parent].id), x.generator)
  {
    assert Parent(t + [x], |t|) == x.parent;
    HeightStable(t, x, x.parent);
    ScoreStable(t, x, x.parent);
  }

  // ----- a batch that adds one block

  /** Genesis is the only record without a parent; every other record names its parent by ID. */
  lemma ReferenceParent(t: Tree, n: nat)
    requires WellFormed(t) && 1 <= n < |t|
    ensures RecordOf(t, n).parent.None? <==> n == 1
    ensures n > 1 ==> RecordOf(t, n).parent == Some(t[t[n].parent].id) && NumOf(t, t[t[n].parent].id) == t[n].parent
    ensures n > 1 ==> 1 <= t[n].parent < n && Height(t, n) == Height(t, t[n].parent) + 1
  {
    if n > 1 {
      assert Placed(t, n);
      assert Indexed(t, t[n].parent);
    }
  }

  /** Only the position of `base` changes when `n` takes over from it. */
  lemma {:induction false} TakeOverAt(hs: seq<nat>, base: nat, n: nat, h: nat, i: nat)
    requires NoDuplicates(hs) && 1 <= h <= |hs| && hs[h - 1] == base && 1 <= i <= |hs|
    ensures |PlaceHead(hs, base, n)| == |hs| && PlaceHead(hs, base, n)[i - 1] == if i == h then n else hs[i - 1]
  {
    PlaceHeadAt(hs, base, n);
  }

  lemma {:induction false} TakeOverBlock(
    b2h: map<nat, nat>, next: map<nat, nat>, hs: seq<nat>, ps: seq<nat>, base: nat, n: nat, b: nat)
    requires NoDuplicates(hs) && n !in hs && base in b2h && ps == PlaceHead(hs, base, n)
    requires forall x :: x in b2h <==> x in hs
    requires forall x :: x in b2h ==> 1 <= b2h[x] <= |hs| && hs[b2h[x] - 1] == x
    requires next == (b2h - {base})[n := b2h[base]]
    ensures b in next <==> b in ps
    ensures b in next ==> 1 <= next[b] <= |hs| == |ps| && ps[next[b] - 1] == b
  {
    PlaceHeadElements(hs, base, n, b);
    if b in next {
      TakeOverAt(hs, base, n, b2h[base], next[b]);
    }
  }

  /** Re-pointing the head of `base` to a new block. */
  lemma {:induction false} TakeOverHead(
    counter: nat, h2b: map<nat, nat>, b2h: map<nat, nat>, hs: seq<nat>, base: nat, n: nat)
    requires HeadsMatch(counter, h2b, b2h, hs) && NoDuplicates(hs) && n !in hs && base in b2h
    ensures HeadsMatch(counter, h2b[b2h[base] := n], (b2h - {base})[n := b2h[base]], PlaceHead(hs, base, n))
  {
    var h, ps, next := b2h[base], PlaceHead(hs, base, n), (b2h - {base})[n := b2h[base]];
    var heads := h2b[h := n];
    TakeOverAt(hs, base, n, h, h);
    forall i | 1 <= i <= |hs|
      ensures heads[i] == ps[i - 1]
    {
      TakeOverAt(hs, base, n, h, i);
    }
    forall b: nat
      ensures b in next <==> b in ps
      ensures b in next ==> 1 <= next[b] <= |hs| && ps[next[b] - 1] == b
    {
      TakeOverBlock(b2h, next, hs, ps, base, n, b);
    }
  }

  lemma {:induction false} OpenHead(counter: nat, h2b: map<nat, nat>, b2h: map<nat, nat>, hs: seq<nat>, n: nat)
    requires HeadsMatch(counter, h2b, b2h, hs) && n !in hs
    ensures HeadsMatch(counter + 1, h2b[counter + 1 := n], b2h[n := counter + 1], hs + [n])
  {
    var ps, b2h' := hs + [n], b2h[n := counter + 1];
    forall b | b in b2h'
      ensures 1 <= b2h'[b] <= |ps| && ps[b2h'[b] - 1] == b
    {
      if b != n {
        assert hs[b2h[b] - 1] == b;
      }
    }
  }

  /** What a batch writes for a new block `x`. */
  ghost predicate WritesBlock(sn: Db, next: Db, t: Tree, x: Node, r: Block, parents: seq<nat>)
  {
    && next.blocksCounter == |t|
    && next.ids == sn.ids[x.id := |t|]
    && next.blocks == sn.blocks[|t| := r]
    && next.links == sn.links[|t| := Link(r.height, x.id, parents)]
    && HeadsMatch(next.headsCounter, next.headToBlock, next.blockToHead, PlaceHead(HeadList(t), x.base, |t|))
  }

  lemma {:induction false} BlockRepresented(sn: Db, next: Db, t: Tree, x: Node, r: Block, parents: seq<nat>)
    requires WellFormed(t) && Represents(sn, t)
    requires 1 <= x.parent < |t|
    requires r == Block(Height(t, x.parent) + 1, CalculateScore(x.target) + Score(t, x.parent), x.id,
                        Some(t[x.parent].id), x.generator)
    requires AreJumpsFrom(parents, t, x.parent, r.height)
    requires WritesBlock(sn, next, t, x, r, parents)
    ensures Represents(next, t + [x])
  {
    NewRecord(t, x);
    NewLink(t, x, parents);
    IdsAppend(sn.ids, t, x);
    RecordsAppend(sn.blocks, t, x, r);
    LinksAppend(sn.links, t, x, Link(r.height, x.id, parents));
    HeadListAppend(t, x);
  }

  /** The two representations of a block, seen from the database alone: record and link agree on height and ID, the
      parent ID of the record and the first jump entry name the same earlier block, and only genesis has none. */
  lemma {:induction false} RecordAndLinkAgree(db: Db, t: Tree, n: nat)
    requires WellFormed(t) && Represents(db, t) && 1 <= n <= db.blocksCounter
    ensures n in db.blocks && n in db.links
    ensures var b, l := db.blocks[n], db.links[n];
      && b.height == l.height && b.id == l.blockId
      && b.id in db.ids && db.ids[b.id] == n
      && (b.parent.None? <==> n == 1) && (l.parents == [] <==> n == 1)
      && (n > 1 ==> b.parent.value in db.ids && db.ids[b.parent.value] == l.parents[0] < n)
  {
    ReadBlock(db.blocks, t, n);
    ReadLink(db.links, t, n);
    ReferenceParent(t, n);
    JumpEntry(db.links, t, n, 0);
    assert Pow2(0) == 1 && Anc(t, n, 1) == Anc(t, Parent(t, n), 0);
    assert Indexed(t, n);
    OnlyRoot(t, n);
    ReadId(db.ids, t, t[n].id);
    if n > 1 {
      ReadId(db.ids, t, t[t[n].parent].id);
    }
  }

  /** Stored IDs and the numbers from 1 to the block counter correspond one to one: an ID maps to a number exactly if
      the record of that number carries the ID. */
  lemma {:induction false} IdsAreNumbers(db: Db, t: Tree)
    requires WellFormed(t) && Represents(db, t)
    ensures forall n :: n in db.blocks <==> 1 <= n <= db.blocksCounter
    ensures forall id :: id in db.ids ==> db.ids[id] in db.blocks && db.blocks[db.ids[id]].id == id
    ensures forall n :: n in db.blocks ==> db.blocks[n].id in db.ids && db.ids[db.blocks[n].id] == n
  {
    forall n | 1 <= n < |t|
      ensures n in db.blocks && db.blocks[n].id in db.ids && db.ids[db.blocks[n].id] == n
    {
      ReadBlock(db.blocks, t, n);
      assert Indexed(t, n);
      ReadId(db.ids, t, t[n].id);
    }
    forall id | id in db.ids
      ensures db.ids[id] in db.blocks && db.blocks[db.ids[id]].id == id
    {
      ReadId(db.ids, t, id);
      ReadBlock(db.blocks, t, NumOf(t, id));
    }
  }

  /** The head maps, seen from the database and the placements alone: inverse to each other, numbered without gaps,
      and pointing exactly at the blocks on which nothing was placed. */
  lemma {:induction false} HeadsPointAtTips(db: Db, t: Tree)
    requires WellFormed(t) && Represents(db, t)
    ensures forall i :: i in db.headToBlock <==> 1 <= i <= db.headsCounter
    ensures forall i :: i in db.headToBlock ==>
              db.headToBlock[i] in db.blockToHead && db.blockToHead[db.headToBlock[i]] == i
    ensures forall b :: b in db.blockToHead ==>
              db.blockToHead[b] in db.headToBlock && db.headToBlock[db.blockToHead[b]] == b
    ensures forall b :: b in db.blockToHead <==> IsTip(t, b)
  {
    WellFormedHeads(t);
    var hs := HeadList(t);
    forall i | i in db.headToBlock
      ensures db.headToBlock[i] in db.blockToHead && db.blockToHead[db.headToBlock[i]] == i
    {
      assert hs[i - 1] in hs;
      var j := db.blockToHead[hs[i - 1]];
      assert hs[j - 1] == hs[i - 1];
    }
  }
}
