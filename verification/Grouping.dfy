/** Grouping leashes by block, and folding over the groups in the order a map iteration delivers them. */
module Grouping {
  import opened Entities
  import opened BlockTree
  import opened Heads
  import opened Database
  import opened Storage
  import opened Selection
  import opened Forks

  /** Groups leashes by block: the blocks with at least one leash, and for each the peers leashed to it. */
  ghost predicate GroupsByBlock(m: map<BlockId, seq<Addr>>, ls: Leashes)
  {
    && (forall id :: id in m <==> exists a :: a in ls && ls[a] == id)
    && (forall id {:trigger m[id]} :: id in m ==>
          NoDuplicates(m[id]) && forall a :: a in m[id] <==> a in PeersOf(ls, id))
  }

  /** The running choice is the fold over the groups seen so far, in the order seen. */
  ghost predicate FoldedSoFar(t: Tree, ls: Leashes, seen: set<BlockId>, order: seq<Group>, c: Choice)
  {
    && c == Choose(NOTHING, order)
    && NoDuplicates(order)
    && (forall g :: g in order <==> g.id in seen && g == GroupOf(t, ls, g.id))
    && (forall id :: id in seen ==> NumOf(t, id) != 0)
  }

  /** The outcome of a selection: a main chain, or nothing when there are no leashes. */
  ghost predicate MainChoice(t: Tree, ls: Leashes, c: Choice)
  {
    if ls == map[] then c.longest == None
    else c.longest.Some? && IsMain(t, ls, c.longest.value) && NumOf(t, c.longest.value) != 0
  }

  /** Head number and block ID belong together. */
  ghost predicate IsHead(t: Tree, h: (nat, BlockId))
  {
    1 <= h.0 <= |HeadList(t)| && h.1 == IdOf(t, HeadList(t)[h.0 - 1])
  }

  method LeashedBlocks(leashes: seq<Leash>, ghost ls: Leashes) returns (ids: set<BlockId>)
    requires ListsLeashes(leashes, ls)
    ensures forall id :: id in ids <==> exists a :: a in ls && ls[a] == id
  {
    ids := {};
    for i := 0 to |leashes|
      invariant forall id :: id in ids <==> exists k :: 0 <= k < i && leashes[k].blockId == id
    {
      ids := ids + {leashes[i].blockId};
    }
    LeashedIds(leashes, ls, ids);
  }

  method KeepLeashed(heads: seq<(nat, BlockId)>, leashed: set<BlockId>) returns (r: seq<(nat, BlockId)>)
    requires forall i, j :: 0 <= i < j < |heads| ==> heads[i].0 < heads[j].0
    ensures forall h :: h in r <==> h in heads && h.1 in leashed
    ensures forall i, j :: 0 <= i < j < |r| ==> r[i].0 < r[j].0
  {
    r := [];
    for i := 0 to |heads|
      invariant forall h :: h in r <==> h in heads[..i] && h.1 in leashed
      invariant forall j :: 0 <= j < |r| ==> r[j] in heads[..i]
      invariant forall j, k :: 0 <= j < k < |r| ==> r[j].0 < r[k].0
    {
      if heads[i].1 in leashed {
        r := r + [heads[i]];
      }
    }
    assert heads[..|heads|] == heads;
  }

  method GroupLeashes(leashes: seq<Leash>, ghost ls: Leashes) returns (m: map<BlockId, seq<Addr>>)
    requires ListsLeashes(leashes, ls)
    ensures GroupsByBlock(m, ls)
  {
    m := map[];
    ghost var done: Leashes := map[];
    NothingGrouped();
    assert leashes[..0] == [];
    for i := 0 to |leashes|
      invariant GroupsByBlock(m, done)
      invariant ListsLeashes(leashes[..i], done)
    {
      var l := leashes[i];
      var group := if l.blockId in m then m[l.blockId] else [];
      GroupStep(m, leashes, ls, i, done, group);
      m := m[l.blockId := group + [l.addr]];
      done := done[l.addr := l.blockId];
    }
    assert leashes[..|leashes|] == leashes;
    ListUnique(leashes, done, ls);
  }

  lemma NothingGrouped()
    ensures GroupsByBlock(map[], map[]) && ListsLeashes([], map[])
  {
  }

  lemma {:induction false} GroupStep(
    m: map<BlockId, seq<Addr>>, leashes: seq<Leash>, ls: Leashes, i: nat, done: Leashes, group: seq<Addr>)
    requires ListsLeashes(leashes, ls) && i < |leashes| && ListsLeashes(leashes[..i], done) && GroupsByBlock(m, done)
    requires group == if leashes[i].blockId in m then m[leashes[i].blockId] else []
    ensures var l := leashes[i];
      && ListsLeashes(leashes[..i + 1], done[l.addr := l.blockId])
      && GroupsByBlock(m[l.blockId := group + [l.addr]], done[l.addr := l.blockId])
  {
    ListPrefix(leashes, ls, i, done);
    GroupOneMore(m, done, leashes[i], group);
  }

  lemma {:induction false} ListPrefix(leashes: seq<Leash>, ls: Leashes, i: nat, done: Leashes)
    requires ListsLeashes(leashes, ls) && i < |leashes| && ListsLeashes(leashes[..i], done)
    ensures leashes[i].addr !in done
    ensures ListsLeashes(leashes[..i + 1], done[leashes[i].addr := leashes[i].blockId])
  {
    ListOneMore(leashes[..i], done, leashes[i].addr, leashes[i].blockId);
    assert leashes[..i + 1] == leashes[..i] + [leashes[i]];
  }

  lemma {:induction false} ListUnique(leashes: seq<Leash>, a: Leashes, b: Leashes)
    requires ListsLeashes(leashes, a) && ListsLeashes(leashes, b)
    ensures a == b
  {
  }

  lemma {:induction false} GroupOneMore(m: map<BlockId, seq<Addr>>, ls: Leashes, l: Leash, group: seq<Addr>)
    requires GroupsByBlock(m, ls) && l.addr !in ls
    requires group == if l.blockId in m then m[l.blockId] else []
    ensures GroupsByBlock(m[l.blockId := group + [l.addr]], ls[l.addr := l.blockId])
  {
    var m', ls' := m[l.blockId := group + [l.addr]], ls[l.addr := l.blockId];
    forall id
      ensures id in m' <==> exists a :: a in ls' && ls'[a] == id
    {
      if id == l.blockId {
        assert ls'[l.addr] == id;
      } else if id in m {
        var a :| a in ls && ls[a] == id;
        assert ls'[a] == id;
      } else {
        forall a | a in ls'
          ensures ls'[a] != id
        {
          assert a in ls ==> ls[a] != id;
        }
      }
    }
    forall id | id in m'
      ensures NoDuplicates(m'[id]) && forall a :: a in m'[id] <==> a in PeersOf(ls', id)
    {
      assert PeersOf(ls', id) == PeersOf(ls, id) + if id == l.blockId then {l.addr} else {};
    }
  }

  lemma {:induction false} LeashedIds(leashes: seq<Leash>, ls: Leashes, ids: set<BlockId>)
    requires ListsLeashes(leashes, ls)
    requires forall id :: id in ids <==> exists k :: 0 <= k < |leashes| && leashes[k].blockId == id
    ensures forall id :: id in ids <==> exists a :: a in ls && ls[a] == id
  {
    forall id
      ensures id in ids <==> exists a :: a in ls && ls[a] == id
    {
      if id in ids {
        var k :| 0 <= k < |leashes| && leashes[k].blockId == id;
        assert ls[leashes[k].addr] == id;
      }
      if exists a :: a in ls && ls[a] == id {
        var a :| a in ls && ls[a] == id;
        var k :| 0 <= k < |leashes| && leashes[k].addr == a;
        assert leashes[k].blockId == id;
      }
    }
  }

  lemma {:induction false} SeqCardinality<T(!new)>(s: seq<T>, elements: set<T>)
    requires NoDuplicates(s) && forall x :: x in s <==> x in elements
    ensures |s| == |elements|
  {
    if s == [] {
      assert elements == {};
    } else {
      var rest := s[1..];
      assert s == [s[0]] + rest;
      forall x
        ensures x in rest <==> x in elements - {s[0]}
      {
        if x in rest { assert x in s; }
      }
      SeqCardinality(rest, elements - {s[0]});
    }
  }

  lemma GroupSize(m: map<BlockId, seq<Addr>>, ls: Leashes, id: BlockId)
    requires GroupsByBlock(m, ls) && id in m
    ensures |m[id]| == |PeersOf(ls, id)|
  {
    SeqCardinality(m[id], PeersOf(ls, id));
  }

  lemma MissingBlock(t: Tree, m: map<BlockId, seq<Addr>>, ls: Leashes, id: BlockId)
    requires GroupsByBlock(m, ls) && id in m && NumOf(t, id) == 0
    ensures !AllStored(t, ls)
  {
    var a :| a in ls && ls[a] == id;
  }

  lemma {:induction false} ChooseAppend(c: Choice, order: seq<Group>, g: Group)
    ensures Choose(c, order + [g]) == Consider(Choose(c, order), g)
    decreases |order|
  {
    if order == [] {
      assert Choose(c, [g]) == Choose(Consider(c, g), [g][1..]);
    } else {
      assert (order + [g])[1..] == order[1..] + [g];
      ChooseAppend(Consider(c, order[0]), order[1..], g);
    }
  }

  lemma {:induction false} FoldOneMore(
    t: Tree, ls: Leashes, seen: set<BlockId>, order: seq<Group>, c: Choice, id: BlockId)
    requires FoldedSoFar(t, ls, seen, order, c) && id !in seen && NumOf(t, id) != 0
    ensures var g := GroupOf(t, ls, id);
            FoldedSoFar(t, ls, seen + {id}, order + [g], Consider(c, g))
  {
    ChooseAppend(NOTHING, order, GroupOf(t, ls, id));
  }

  lemma {:induction false} FoldDone(t: Tree, m: map<BlockId, seq<Addr>>, ls: Leashes, order: seq<Group>, c: Choice)
    requires GroupsByBlock(m, ls) && FoldedSoFar(t, ls, m.Keys, order, c)
    ensures AllStored(t, ls) && MainChoice(t, ls, c)
  {
    forall a | a in ls
      ensures NumOf(t, ls[a]) != 0
    {
      assert ls[a] in m;
    }
    forall g
      ensures g in order <==> g in Groups(t, ls)
    {
      if g in order {
        var a :| a in ls && ls[a] == g.id;
        assert g == GroupOf(t, ls, ls[a]);
      }
    }
    if ls == map[] {
      SomeElement(order);
    } else {
      var a :| a in ls;
      assert GroupOf(t, ls, ls[a]) in Groups(t, ls);
      ProperGroupsOf(t, ls);
      ChoiceIsMaximal(order, Groups(t, ls));
      var g :| IsMaximal(Groups(t, ls), g) && Chosen(c, g);
      assert g in order;
    }
  }

  lemma SomeElement(order: seq<Group>)
    ensures order != [] ==> exists g :: g in order
  {
    if order != [] {
      assert order[0] in order;
    }
  }
}
