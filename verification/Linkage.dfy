/** The linkage of peers to blocks (chains/linkage.go). Every public method runs under the lock, as one step. */
module Linkage {
  import opened Entities
  import opened BlockTree
  import opened CommonAncestor
  import opened Heads
  import opened Scores
  import opened Database
  import opened Storage
  import opened Batches
  import opened Ledger
  import opened Journal
  import opened Selection
  import opened Sorting
  import opened Forks
  import opened Grouping
  import opened Generators

  class Linkage {
    const st: Storage
    const genesis: BlockId

    ghost predicate Valid()
      reads st
    {
      st.Valid() && st.tree[1].id == genesis
    }

    /** The abstract state: the block tree and the leashes. */
    ghost function State(): Ledger
      reads st
    {
      Ledger(st.tree, st.db.leashes)
    }

    /** Opens a database that is new or was filled from the same genesis block. A genesis block that cannot be
        scored makes `Initialize` panic. */
    constructor (st: Storage, genesis: ProtoBlock)
      requires st.Blank() || (st.Valid() && st.tree[1].id == genesis.id)
      requires genesis.target <= MAX_TARGET
      modifies st
      ensures this.st == st && this.genesis == genesis.id && Valid()
      ensures old(st.Valid()) ==> unchanged(st)
      ensures old(st.Blank()) ==> State() == FirstLedger(genesis)
    {
      this.st := st;
      this.genesis := genesis.id;
      new;
      var r := st.Initialize(genesis);
    }

    // ----- calls that change the state

    /** A known block only moves the leash; a new one is stored first, in a database write of its own. */
    method PutBlock(block: ProtoBlock, addr: Addr) returns (r: Outcome)
      requires Valid()
      modifies st
      ensures Valid()
      ensures r == PutBlockOutcome(old(State()), block)
      ensures State() == Apply(old(State()), Op.PutBlock(block, addr))
      ensures st.db == PerformAll(old(st.db), OpBatch(old(st.db), old(State()), Op.PutBlock(block, addr)))
    {
      ghost var sn, l, op := st.db, State(), Op.PutBlock(block, addr);
      var ok := st.HasBlock(block.id);
      if ok {
        KnownBatch(sn, l, op);
        st.UpdateLeash(addr, block.id);
        return PASS;
      }
      var hasParent := st.HasBlock(block.parent);
      if !hasParent {
        return Failure(ParentNotFound);
      }
      r := st.PutProtoBlock(block);
      if r.Failure? {
        return;
      }
      NewBatch(sn, l, op, KeyNode(l.tree, block));
      st.UpdateLeash(addr, block.id);
    }

    method PutMicroBlock(inv: MicroBlockInv, addr: Addr) returns (r: Outcome)
      requires Valid()
      modifies st
      ensures Valid()
      ensures r == PutMicroBlockOutcome(old(State()), inv)
      ensures State() == Apply(old(State()), Op.PutMicroBlock(inv, addr))
      ensures st.db == PerformAll(old(st.db), OpBatch(old(st.db), old(State()), Op.PutMicroBlock(inv, addr)))
    {
      ghost var sn, l, op := st.db, State(), Op.PutMicroBlock(inv, addr);
      var ok := st.HasBlock(inv.totalId);
      if ok {
        KnownBatch(sn, l, op);
        st.UpdateLeash(addr, inv.totalId);
        return PASS;
      }
      var hasRef := st.HasBlock(inv.reference);
      if !hasRef {
        return Failure(RefNotFound);
      }
      r := st.PutMicroBlock(inv);
      if r.Failure? {
        return;
      }
      NewBatch(sn, l, op, MicroNode(l.tree, inv));
      st.UpdateLeash(addr, inv.totalId);
    }

    /** Checks nothing: the caller answers for the block being stored. */
    method MoveLeash(id: BlockId, addr: Addr)
      requires Valid()
      modifies st
      ensures Valid()
      ensures State() == Apply(old(State()), Op.MoveLeash(id, addr))
      ensures st.db == PerformAll(old(st.db), OpBatch(old(st.db), old(State()), Op.MoveLeash(id, addr)))
    {
      st.UpdateLeash(addr, id);
    }

    // ----- queries

    method HasBlock(id: BlockId) returns (ok: bool)
      requires Valid()
      ensures ok <==> NumOf(st.tree, id) != 0
    {
      ok := st.HasBlock(id);
    }

    method LastIDs(id: BlockId, count: int) returns (r: Result<seq<BlockId>>)
      requires Valid()
      ensures NumOf(st.tree, id) == 0 ==> r == Failure(NotFound)
      ensures NumOf(st.tree, id) != 0 && count < 0 ==> r == Failure(Panic)
      ensures NumOf(st.tree, id) != 0 && count >= 0 ==>
                r.Success? && IsAncestorList(st.tree, NumOf(st.tree, id), count, r.value)
    {
      r := st.GetAncestors(id, count);
    }

    /** The block a peer is leashed to, genesis for an unleashed one. */
    method LeashOf(addr: Addr) returns (id: BlockId)
      ensures id == if addr in st.db.leashes then st.db.leashes[addr] else genesis
    {
      var r := st.LeashOf(addr);
      id := if r.Failure? then genesis else r.value;
    }

    method LeashScore(addr: Addr) returns (r: Result<nat>)
      requires Valid()
      ensures var id := if addr in st.db.leashes then st.db.leashes[addr] else genesis;
              r == if NumOf(st.tree, id) == 0 then Failure(NotFound) else Success(Score(st.tree, NumOf(st.tree, id)))
    {
      var id := LeashOf(addr);
      var b :- st.BlockById(id);
      r := Success(b.score);
    }

    /** The heads that some peer is leashed to, with their numbers, in ascending order. */
    method ActiveHeads() returns (r: seq<(nat, BlockId)>)
      requires Valid()
      ensures forall h :: h in r <==>
                IsHead(st.tree, h) && exists a :: a in Scanned(st.db.leashes) && st.db.leashes[a] == h.1
      ensures forall i, j :: 0 <= i < j < |r| ==> r[i].0 < r[j].0
    {
      var heads := st.AllHeads();
      var leashes := st.AllLeashes();
      var leashed := LeashedBlocks(leashes, Scanned(st.db.leashes));
      r := KeepLeashed(heads, leashed);
      forall h
        ensures h in heads <==> IsHead(st.tree, h)
      {
        if IsHead(st.tree, h) {
          assert heads[h.0 - 1] == h;
        }
      }
    }

    // ----- choosing the main chain

    /** The last common block of a peer's chain and the main chain. */
    method LCB(peer: Addr) returns (r: Result<BlockId>)
      requires Valid()
      ensures LcbAnswer(State(), genesis, peer, r)
    {
      var head := st.LeashOf(peer);
      if head.Failure? {
        return Success(genesis);
      }
      var leashes := st.AllLeashes();
      var m := GroupLeashes(leashes, Scanned(st.db.leashes));
      var choice :- ChooseMain(m, Scanned(st.db.leashes));
      if choice.longest == Some(head.value) {
        LcaAnswerSelf(st.tree, head.value);
        return Success(head.value);
      }
      if choice.longest.None? {
        return Failure(NotFound); // the zero block ID is not stored
      }
      r := st.Lca(choice.longest.value, head.value);
    }

    /** The fold over the groups: higher score first, then more peers. The map delivers them in any order. */
    method ChooseMain(m: map<BlockId, seq<Addr>>, ghost ls: Leashes) returns (r: Result<Choice>)
      requires Valid() && GroupsByBlock(m, ls)
      ensures !AllStored(st.tree, ls) ==> r == Failure(NotFound)
      ensures AllStored(st.tree, ls) ==> r.Success? && MainChoice(st.tree, ls, r.value)
    {
      var c := NOTHING;
      var rest := m.Keys;
      ghost var order: seq<Group> := [];
      while rest != {}
        invariant rest <= m.Keys
        invariant FoldedSoFar(st.tree, ls, m.Keys - rest, order, c)
        decreases |rest|
      {
        var k :| k in rest;
        var b := st.BlockById(k);
        if b.Failure? {
          MissingBlock(st.tree, m, ls, k);
          return Failure(b.error);
        }
        GroupSize(m, ls, k);
        FoldOneMore(st.tree, ls, m.Keys - rest, order, c, k);
        order := order + [GroupOf(st.tree, ls, k)];
        c := Consider(c, Group(k, b.value.score, |m[k]|));
        rest := rest - {k};
        assert m.Keys - rest == m.Keys - (rest + {k}) + {k};
      }
      assert m.Keys - rest == m.Keys;
      FoldDone(st.tree, m, ls, order, c);
      r := Success(c);
    }

    // ----- fork reports

    /** The report for one peer's chain. */
    method ForkOf(peer: Addr) returns (r: Result<Fork>)
      requires Valid()
      ensures ForkAnswer(State(), peer, r)
    {
      var leashes := st.AllLeashes();
      var m := GroupLeashes(leashes, Scanned(st.db.leashes));
      var found :- ChooseMainAndDraft(m, peer, Scanned(st.db.leashes));
      var c, fork := found.0, found.1;
      if fork.headBlock == c.longest { // the peer is on the main chain, or there are no leashes at all
        ForkOnMain(State(), peer, m, c, fork);
        return Success(fork.(longest := true, length := 0));
      }
      if c.longest.None? || fork.headBlock.None? {
        ForkMissing(State(), peer, m, c, fork);
        return Failure(NotFound); // the zero block ID is not stored
      }
      r := Complete(c.longest.value, fork, Scanned(st.db.leashes));
      ForkOffMain(State(), peer, m, c, fork, r);
    }

    /** The fold of `Fork`: it selects the main chain and picks up the peer's own chain on the way. */
    method ChooseMainAndDraft(m: map<BlockId, seq<Addr>>, peer: Addr, ghost ls: Leashes)
      returns (r: Result<(Choice, Fork)>)
      requires Valid() && GroupsByBlock(m, ls)
      ensures !AllStored(st.tree, ls) ==> r == Failure(NotFound)
      ensures AllStored(st.tree, ls) ==> r.Success? && MainChoice(st.tree, ls, r.value.0)
      ensures AllStored(st.tree, ls) ==> OwnDraft(st.tree, ls, peer, m.Keys, r.value.1)
    {
      var c, fork := NOTHING, ZERO_FORK;
      var rest := m.Keys;
      ghost var order: seq<Group> := [];
      while rest != {}
        invariant rest <= m.Keys
        invariant FoldedSoFar(st.tree, ls, m.Keys - rest, order, c)
        invariant OwnDraft(st.tree, ls, peer, m.Keys - rest, fork)
        decreases |rest|
      {
        var k :| k in rest;
        var b := st.BlockById(k);
        if b.Failure? {
          MissingBlock(st.tree, m, ls, k);
          return Failure(b.error);
        }
        GroupSize(m, ls, k);
        FoldOneMore(st.tree, ls, m.Keys - rest, order, c, k);
        order := order + [GroupOf(st.tree, ls, k)];
        c := Consider(c, Group(k, b.value.score, |m[k]|));
        DraftStep(st.tree, m, ls, peer, m.Keys - rest, k, fork);
        if peer in m[k] {
          fork := Draft(b.value, m[k]);
        }
        rest := rest - {k};
        assert m.Keys - rest == m.Keys - (rest + {k}) + {k};
      }
      assert m.Keys - rest == m.Keys;
      FoldDone(st.tree, m, ls, order, c);
      r := Success((c, fork));
    }

    /** The second half of a report: the last common block with the main chain and the length up from there. */
    method Complete(main: BlockId, draft: Fork, ghost ls: Leashes) returns (r: Result<Fork>)
      requires Valid() && draft.headBlock.Some? && Drafts(st.tree, ls, draft.headBlock.value, draft)
      requires draft.headBlock.value != main
      ensures ReportAnswer(st.tree, ls, main, draft.headBlock.value, r)
    {
      var lcaID :- st.Lca(main, draft.headBlock.value);
      StoredAnswer(st.tree, main, draft.headBlock.value);
      var lcaBlock := st.BlockById(lcaID);
      r := Success(draft.(lastCommonBlock := Some(lcaID), length := draft.length - lcaBlock.value.height));
    }

    /** The reports of all chains that the named peers are on, the main one first. */
    method ForksOf(peers: set<Addr>) returns (r: Result<seq<Fork>>)
      requires Valid()
      ensures ForksAnswer(State(), peers, r)
    {
      var leashes := st.AllLeashes();
      var kept := KeepPeers(leashes, peers, Scanned(st.db.leashes));
      ghost var ls := Filtered(Scanned(st.db.leashes), peers);
      var m := GroupLeashes(kept, ls);
      var drafts :- DraftAll(m, ls);
      var sorted := SortDesc(drafts, ForkScore, ForkPeers);
      SortedDrafts(st.tree, ls, drafts, sorted);
      if sorted == [] {
        return Failure(Panic); // index out of range
      }
      SortedMain(st.tree, ls, sorted);
      r := CompleteAll(sorted, ls);
    }

    method DraftAll(m: map<BlockId, seq<Addr>>, ghost ls: Leashes) returns (r: Result<seq<Fork>>)
      requires Valid() && GroupsByBlock(m, ls)
      ensures !AllStored(st.tree, ls) ==> r == Failure(NotFound)
      ensures AllStored(st.tree, ls) ==> r.Success? && DraftsAll(st.tree, ls, r.value)
    {
      var drafts: seq<Fork> := [];
      var rest := m.Keys;
      while rest != {}
        invariant rest <= m.Keys
        invariant DraftsOf(st.tree, ls, m.Keys - rest, drafts)
        decreases |rest|
      {
        var k :| k in rest;
        var b := st.BlockById(k);
        if b.Failure? {
          MissingBlock(st.tree, m, ls, k);
          return Failure(b.error);
        }
        DraftOneMore(st.tree, m, ls, rest, drafts, k);
        drafts := drafts + [Draft(b.value, m[k])];
        rest := rest - {k};
      }
      assert m.Keys - rest == m.Keys;
      DraftsDone(st.tree, m, ls, drafts);
      r := Success(drafts);
    }

    /** Fills in the last common blocks and lengths, relative to the first report. */
    method CompleteAll(sorted: seq<Fork>, ghost ls: Leashes) returns (r: Result<seq<Fork>>)
      requires Valid() && sorted != [] && DraftsAll(st.tree, ls, sorted) && Descending(ForkScore, ForkPeers, sorted)
      ensures CompletedAnswer(st.tree, ls, sorted[0].headBlock.value, r)
    {
      assert sorted[0] in sorted;
      var longest := sorted[0].headBlock.value;
      var forks := sorted[0 := sorted[0].(longest := true)];
      for i := 0 to |forks|
        invariant |forks| == |sorted|
        invariant forall k {:trigger forks[k]} :: 0 <= k < i ==> Completes(st.tree, ls, longest, sorted[k], forks[k])
        invariant forall k {:trigger forks[k]} :: i <= k < |forks| ==> forks[k] == sorted[k].(longest := k == 0)
      {
        assert sorted[i] in sorted;
        var lcaID := st.Lca(longest, forks[i].headBlock.value);
        if lcaID.Failure? {
          FailedLca(st.tree, ls, longest, sorted[i].headBlock.value);
          return Failure(lcaID.error);
        }
        StoredAnswer(st.tree, longest, forks[i].headBlock.value);
        var lcaBlock := st.BlockById(lcaID.value);
        forks := forks[i := forks[i].(lastCommonBlock := Some(lcaID.value),
                                      length := forks[i].length - lcaBlock.value.height)];
        assert (i == 0) == (sorted[i].headBlock == sorted[0].headBlock);
      }
      CompletedList(st.tree, ls, longest, sorted, forks);
      r := Success(forks);
    }

    /** How many of the last `count` blocks of a chain each generator made. */
    method ForkGenerators(id: BlockId, count: int) returns (r: Result<seq<GeneratorStats>>)
      requires Valid()
      ensures NumOf(st.tree, id) == 0 ==> r == Failure(NotFound)
      ensures NumOf(st.tree, id) != 0 && count < 0 ==> r == Failure(Panic)
      ensures NumOf(st.tree, id) != 0 && count >= 0 ==> r.Success?
      ensures r.Success? ==>
                exists bs :: IsBlockList(st.tree, NumOf(st.tree, id), count, bs) && AreCounts(bs, r.value)
                             && Total(r.value) == |bs|
      ensures r.Success? ==> forall i, j :: 0 <= i < j < |r.value| ==> r.value[i].blocks >= r.value[j].blocks
    {
      var bs :- st.GetBlocks(id, count);
      var stats := CountGenerators(bs);
      r := Success(stats);
    }
  }

  /** What `LCB` may answer. With a tie for the main chain the answer depends on the map iteration. */
  ghost predicate LcbAnswer(l: Ledger, genesis: BlockId, peer: Addr, r: Result<BlockId>)
  {
    var ls := Scanned(l.leashes);
    if peer !in l.leashes then r == Success(genesis)
    else if !AllStored(l.tree, ls) || ls == map[] then r == Failure(NotFound)
    else exists main :: IsMain(l.tree, ls, main) && r == LcaAnswer(l.tree, main, l.leashes[peer])
  }

  /** What `Fork` may answer for one peer. */
  ghost predicate ForkAnswer(l: Ledger, peer: Addr, r: Result<Fork>)
  {
    var ls := Scanned(l.leashes);
    if !AllStored(l.tree, ls) then r == Failure(NotFound)
    else if ls == map[] then r == Success(ZERO_FORK.(longest := true))
    else if peer !in ls then r == Failure(NotFound)
    else exists main :: IsMain(l.tree, ls, main) && ReportAnswer(l.tree, ls, main, ls[peer], r)
  }

  /** The draft for the peer's own chain, once its group has been seen. */
  ghost predicate OwnDraft(t: Tree, ls: Leashes, peer: Addr, seen: set<BlockId>, fork: Fork)
  {
    if peer in ls && ls[peer] in seen then Drafts(t, ls, ls[peer], fork) else fork == ZERO_FORK
  }

  lemma {:induction false} DraftStep(
    t: Tree, m: map<BlockId, seq<Addr>>, ls: Leashes, peer: Addr, seen: set<BlockId>, k: BlockId, fork: Fork)
    requires GroupsByBlock(m, ls) && k in m && k !in seen && NumOf(t, k) != 0
    requires OwnDraft(t, ls, peer, seen, fork)
    ensures OwnDraft(t, ls, peer, seen + {k}, if peer in m[k] then Draft(RecordOf(t, NumOf(t, k)), m[k]) else fork)
  {
    assert peer in m[k] <==> peer in PeersOf(ls, k);
  }

  /** What the fold of `Fork` leaves behind. */
  ghost predicate Folded(l: Ledger, peer: Addr, m: map<BlockId, seq<Addr>>, c: Choice, fork: Fork)
  {
    var ls := Scanned(l.leashes);
    && GroupsByBlock(m, ls) && AllStored(l.tree, ls) && MainChoice(l.tree, ls, c)
    && OwnDraft(l.tree, ls, peer, m.Keys, fork)
  }

  lemma {:induction false} ForkOnMain(l: Ledger, peer: Addr, m: map<BlockId, seq<Addr>>, c: Choice, fork: Fork)
    requires WellFormed(l.tree) && Folded(l, peer, m, c, fork) && fork.headBlock == c.longest
    ensures ForkAnswer(l, peer, Success(fork.(longest := true, length := 0)))
  {
    var ls := Scanned(l.leashes);
    if c.longest.Some? {
      LcaAnswerSelf(l.tree, c.longest.value);
      assert ReportAnswer(l.tree, ls, c.longest.value, ls[peer], Success(fork.(longest := true, length := 0)));
    }
  }

  lemma {:induction false} ForkMissing(l: Ledger, peer: Addr, m: map<BlockId, seq<Addr>>, c: Choice, fork: Fork)
    requires Folded(l, peer, m, c, fork) && fork.headBlock != c.longest
    requires c.longest.None? || fork.headBlock.None?
    ensures ForkAnswer(l, peer, Failure(NotFound))
  {
  }

  lemma {:induction false} ForkOffMain(
    l: Ledger, peer: Addr, m: map<BlockId, seq<Addr>>, c: Choice, fork: Fork, r: Result<Fork>)
    requires Folded(l, peer, m, c, fork) && c.longest.Some? && fork.headBlock.Some?
    requires ReportAnswer(l.tree, Scanned(l.leashes), c.longest.value, fork.headBlock.value, r)
    ensures ForkAnswer(l, peer, r)
  {
  }

  lemma StoredAnswer(t: Tree, id1: BlockId, id2: BlockId)
    requires WellFormed(t) && LcaAnswer(t, id1, id2).Success?
    ensures NumOf(t, LcaAnswer(t, id1, id2).value) != 0
  {
    var n1, n2 := NumOf(t, id1), NumOf(t, id2);
    LcaIsDeepestCommonAncestor(t, n1, n2);
    assert Indexed(t, WalkLca(t, n1, n2));
  }

  lemma LcaAnswerSelf(t: Tree, id: BlockId)
    ensures LcaAnswer(t, id, id) == if NumOf(t, id) == 0 then Failure(NotFound) else Success(id)
  {
  }

  // ----- reports of all chains

  function ForkScore(f: Fork): nat { f.score }

  function ForkPeers(f: Fork): nat { |f.peers| }

  /** What `Forks` may answer: a report for every chain, relative to one main chain, best chain first. It panics
      when no leash is left to report on, and when the last common block of some chain cannot be computed. */
  ghost predicate ForksAnswer(l: Ledger, peers: set<Addr>, r: Result<seq<Fork>>)
  {
    var ls := Filtered(Scanned(l.leashes), peers);
    if !AllStored(l.tree, ls) then r == Failure(NotFound)
    else if ls == map[] then r == Failure(Panic)
    else exists main :: IsMain(l.tree, ls, main) && CompletedAnswer(l.tree, ls, main, r)
  }

  ghost predicate CompletedAnswer(t: Tree, ls: Leashes, main: BlockId, r: Result<seq<Fork>>)
  {
    if exists a :: a in ls && LcaAnswer(t, main, ls[a]).Failure? then r == Failure(Panic)
    else r.Success? && r.value != [] && r.value[0].headBlock == Some(main) && ReportsAll(t, ls, main, r.value)
  }

  ghost predicate ReportsAll(t: Tree, ls: Leashes, main: BlockId, fs: seq<Fork>)
  {
    && (forall f :: f in fs ==> f.headBlock.Some? && Reports(t, ls, main, f.headBlock.value, f))
    && (forall a :: a in ls ==> exists f :: f in fs && f.headBlock == Some(ls[a]))
    && (forall i, j :: 0 <= i < j < |fs| ==> fs[i].headBlock != fs[j].headBlock)
    && Descending(ForkScore, ForkPeers, fs)
  }

  ghost predicate DraftsOf(t: Tree, ls: Leashes, heads: set<BlockId>, fs: seq<Fork>)
  {
    && (forall id :: id in heads ==> NumOf(t, id) != 0)
    && (forall f :: f in fs ==> f.headBlock.Some? && f.headBlock.value in heads && Drafts(t, ls, f.headBlock.value, f))
    && (forall id :: id in heads ==> exists f :: f in fs && f.headBlock == Some(id))
    && (forall i, j :: 0 <= i < j < |fs| ==> fs[i].headBlock != fs[j].headBlock)
  }

  ghost predicate DraftsAll(t: Tree, ls: Leashes, fs: seq<Fork>)
  {
    DraftsOf(t, ls, set a | a in ls :: ls[a], fs)
  }

  ghost predicate Completes(t: Tree, ls: Leashes, main: BlockId, draft: Fork, f: Fork)
  {
    && draft.headBlock.Some? && f.headBlock == draft.headBlock && f.score == draft.score && f.peers == draft.peers
    && Reports(t, ls, main, draft.headBlock.value, f)
  }

  method KeepPeers(leashes: seq<Leash>, peers: set<Addr>, ghost ls: Leashes) returns (kept: seq<Leash>)
    requires ListsLeashes(leashes, ls)
    ensures ListsLeashes(kept, Filtered(ls, peers))
  {
    kept := [];
    ghost var done: Leashes := map[];
    for i := 0 to |leashes|
      invariant ListsLeashes(leashes[..i], done)
      invariant ListsLeashes(kept, Filtered(done, peers))
    {
      var l := leashes[i];
      ListPrefix(leashes, ls, i, done);
      KeepOneMore(kept, done, peers, l);
      if peers == {} || l.addr in peers {
        kept := kept + [l];
      }
      done := done[l.addr := l.blockId];
    }
    assert leashes[..|leashes|] == leashes;
    ListUnique(leashes, done, ls);
  }

  lemma {:induction false} KeepOneMore(kept: seq<Leash>, done: Leashes, peers: set<Addr>, l: Leash)
    requires ListsLeashes(kept, Filtered(done, peers)) && l.addr !in done
    ensures ListsLeashes(if peers == {} || l.addr in peers then kept + [l] else kept,
                         Filtered(done[l.addr := l.blockId], peers))
  {
    var next := Filtered(done[l.addr := l.blockId], peers);
    if peers == {} || l.addr in peers {
      ListOneMore(kept, Filtered(done, peers), l.addr, l.blockId);
      assert Filtered(done, peers)[l.addr := l.blockId] == next;
    } else {
      assert Filtered(done, peers) == next;
    }
  }

  lemma {:induction false} DraftOneMore(
    t: Tree, m: map<BlockId, seq<Addr>>, ls: Leashes, rest: set<BlockId>, fs: seq<Fork>, k: BlockId)
    requires GroupsByBlock(m, ls) && k in rest && rest <= m.Keys && NumOf(t, k) != 0
    requires DraftsOf(t, ls, m.Keys - rest, fs)
    ensures DraftsOf(t, ls, m.Keys - (rest - {k}), fs + [Draft(RecordOf(t, NumOf(t, k)), m[k])])
  {
    var seen := m.Keys - rest;
    assert m.Keys - (rest - {k}) == seen + {k};
    var f := Draft(RecordOf(t, NumOf(t, k)), m[k]);
    var gs := fs + [f];
    assert gs[|fs|] == f;
    forall id | id in seen + {k}
      ensures exists g :: g in gs && g.headBlock == Some(id)
    {
      if id == k {
        assert f in gs;
      } else {
        var g :| g in fs && g.headBlock == Some(id);
        assert g in gs;
      }
    }
    forall i | 0 <= i < |fs|
      ensures fs[i].headBlock != f.headBlock
    {
      assert fs[i] in fs;
    }
  }

  lemma {:induction false} DraftsDone(t: Tree, m: map<BlockId, seq<Addr>>, ls: Leashes, fs: seq<Fork>)
    requires GroupsByBlock(m, ls) && DraftsOf(t, ls, m.Keys, fs)
    ensures AllStored(t, ls) && DraftsAll(t, ls, fs) && NoDuplicates(fs)
  {
    forall a | a in ls
      ensures ls[a] in m.Keys
    {
      assert exists b :: b in ls && ls[b] == ls[a];
    }
    assert m.Keys == set a | a in ls :: ls[a];
  }

  lemma {:induction false} SortedDrafts(t: Tree, ls: Leashes, fs: seq<Fork>, sorted: seq<Fork>)
    requires DraftsAll(t, ls, fs)
    requires NoDuplicates(sorted) && forall f :: f in sorted <==> f in fs
    ensures DraftsAll(t, ls, sorted)
    ensures sorted == [] <==> ls == map[]
  {
    forall i, j | 0 <= i < j < |sorted|
      ensures sorted[i].headBlock != sorted[j].headBlock
    {
      assert sorted[i] in fs && sorted[j] in fs && sorted[i] != sorted[j];
    }
    if ls != map[] {
      var a :| a in ls;
      assert ls[a] in set a | a in ls :: ls[a];
      var f :| f in fs && f.headBlock == Some(ls[a]);
      assert f in sorted;
    }
    if sorted != [] {
      assert sorted[0] in fs;
    }
  }

  /** The groups that the sorted reports stand for, in the same order. */
  ghost function ReportedGroups(t: Tree, ls: Leashes, fs: seq<Fork>): seq<Group>
    requires forall f :: f in fs ==> f.headBlock.Some?
  {
    seq(|fs|, i requires 0 <= i < |fs| => assert fs[i] in fs; GroupOf(t, ls, fs[i].headBlock.value))
  }

  lemma {:induction false} ReportedGroup(t: Tree, ls: Leashes, fs: seq<Fork>, i: nat)
    requires DraftsAll(t, ls, fs) && i < |fs|
    ensures fs[i].headBlock.Some?
    ensures GroupOf(t, ls, fs[i].headBlock.value) == Group(fs[i].headBlock.value, ForkScore(fs[i]), ForkPeers(fs[i]))
    ensures GroupOf(t, ls, fs[i].headBlock.value) in Groups(t, ls)
  {
    assert fs[i] in fs;
    var id := fs[i].headBlock.value;
    SeqCardinality(fs[i].peers, PeersOf(ls, id));
    var a :| a in ls && ls[a] == id;
    assert GroupOf(t, ls, ls[a]) in Groups(t, ls);
  }

  lemma {:induction false} GroupIsReported(t: Tree, ls: Leashes, fs: seq<Fork>, g: Group) returns (i: nat)
    requires DraftsAll(t, ls, fs) && g in Groups(t, ls)
    ensures i < |fs| && fs[i].headBlock.Some? && g == GroupOf(t, ls, fs[i].headBlock.value)
  {
    var a :| a in ls && g == GroupOf(t, ls, ls[a]);
    assert ls[a] in set b | b in ls :: ls[b];
    var f :| f in fs && f.headBlock == Some(ls[a]);
    i :| 0 <= i < |fs| && fs[i] == f;
  }

  /** The head of the first of the sorted reports is a main chain. */
  lemma {:induction false} SortedMain(t: Tree, ls: Leashes, sorted: seq<Fork>)
    requires sorted != [] && DraftsAll(t, ls, sorted) && Descending(ForkScore, ForkPeers, sorted)
    ensures sorted[0].headBlock.Some? && IsMain(t, ls, sorted[0].headBlock.value)
  {
    var gs := ReportedGroups(t, ls, sorted);
    forall i, j | 0 <= i < j < |gs|
      ensures gs[i] != gs[j] && !Better(gs[j], gs[i])
    {
      ReportedGroup(t, ls, sorted, i);
      ReportedGroup(t, ls, sorted, j);
      assert !Before(ForkScore, ForkPeers, sorted[j], sorted[i]);
    }
    forall g
      ensures g in gs <==> g in Groups(t, ls)
    {
      if g in gs {
        var i :| 0 <= i < |gs| && gs[i] == g;
        ReportedGroup(t, ls, sorted, i);
      }
      if g in Groups(t, ls) {
        var i := GroupIsReported(t, ls, sorted, g);
        assert gs[i] == g;
      }
    }
    ReportedGroup(t, ls, sorted, 0);
    assert gs[0] in gs;
    FirstOfSortedIsMaximal(gs, Groups(t, ls));
  }

  lemma FailedLca(t: Tree, ls: Leashes, main: BlockId, head: BlockId)
    requires head in set a | a in ls :: ls[a]
    requires LcaAnswer(t, main, head).Failure?
    ensures exists a :: a in ls && LcaAnswer(t, main, ls[a]).Failure?
  {
    var a :| a in ls && ls[a] == head;
  }

  lemma {:induction false} CompletedCovers(
    t: Tree, ls: Leashes, main: BlockId, sorted: seq<Fork>, fs: seq<Fork>, a: Addr)
    requires DraftsAll(t, ls, sorted) && |fs| == |sorted| && a in ls
    requires forall k {:trigger fs[k]} :: 0 <= k < |fs| ==> Completes(t, ls, main, sorted[k], fs[k])
    ensures exists f :: f in fs && f.headBlock == Some(ls[a])
    ensures LcaAnswer(t, main, ls[a]).Success?
  {
    assert ls[a] in set a | a in ls :: ls[a];
    var d :| d in sorted && d.headBlock == Some(ls[a]);
    var k :| 0 <= k < |sorted| && sorted[k] == d;
    assert fs[k] in fs && Completes(t, ls, main, sorted[k], fs[k]);
  }

  lemma {:induction false} CompletedOrder(t: Tree, ls: Leashes, main: BlockId, sorted: seq<Fork>, fs: seq<Fork>)
    requires |fs| == |sorted| && Descending(ForkScore, ForkPeers, sorted)
    requires forall i, j :: 0 <= i < j < |sorted| ==> sorted[i].headBlock != sorted[j].headBlock
    requires forall k {:trigger fs[k]} :: 0 <= k < |fs| ==> Completes(t, ls, main, sorted[k], fs[k])
    ensures Descending(ForkScore, ForkPeers, fs)
    ensures forall i, j :: 0 <= i < j < |fs| ==> fs[i].headBlock != fs[j].headBlock
  {
    forall i, j | 0 <= i < j < |fs|
      ensures !Before(ForkScore, ForkPeers, fs[j], fs[i])
      ensures fs[i].headBlock != fs[j].headBlock
    {
      assert !Before(ForkScore, ForkPeers, sorted[j], sorted[i]);
      assert Completes(t, ls, main, sorted[i], fs[i]) && Completes(t, ls, main, sorted[j], fs[j]);
    }
  }

  lemma {:induction false} CompletedList(t: Tree, ls: Leashes, main: BlockId, sorted: seq<Fork>, fs: seq<Fork>)
    requires sorted != [] && DraftsAll(t, ls, sorted) && Descending(ForkScore, ForkPeers, sorted)
    requires sorted[0].headBlock == Some(main) && |fs| == |sorted|
    requires forall k {:trigger fs[k]} :: 0 <= k < |fs| ==> Completes(t, ls, main, sorted[k], fs[k])
    ensures CompletedAnswer(t, ls, main, Success(fs))
  {
    forall a | a in ls
      ensures exists f :: f in fs && f.headBlock == Some(ls[a])
      ensures LcaAnswer(t, main, ls[a]).Success?
    {
      CompletedCovers(t, ls, main, sorted, fs, a);
    }
    CompletedOrder(t, ls, main, sorted, fs);
    assert Completes(t, ls, main, sorted[0], fs[0]);
    assert ReportsAll(t, ls, main, fs);
  }

  /** What `LCB` answers, in a sound state: genesis for an unleashed peer; otherwise the deepest block that the chain of
      the peer's leash shares with a main chain, or a panic; "not found" only when the scan sees no leash at all. */
  lemma {:induction false} LcbMeaning(l: Ledger, genesis: BlockId, peer: Addr, r: Result<BlockId>)
    requires Sound(l) && LcbAnswer(l, genesis, peer, r)
    ensures peer !in l.leashes ==> r == Success(genesis)
    ensures r == Failure(NotFound) <==> peer in l.leashes && Scanned(l.leashes) == map[]
    ensures r.Failure? ==> r.error == NotFound || r.error == Panic
    ensures peer in l.leashes && r.Success? ==>
              exists main :: IsMain(l.tree, Scanned(l.leashes), main) && NumOf(l.tree, main) != 0
                             && IsDeepestShared(l.tree, NumOf(l.tree, main), NumOf(l.tree, l.leashes[peer]), r.value)
  {
    AllLeashesStored(l);
    if peer in l.leashes && Scanned(l.leashes) != map[] {
      assert Leashed(l, peer);
      var t, ls, leash := l.tree, Scanned(l.leashes), l.leashes[peer];
      var main :| IsMain(t, ls, main) && r == LcaAnswer(t, main, leash);
      MainIsStored(t, ls, main);
      if r.Success? {
        LcaIsShared(t, main, leash);
      }
    }
  }

  lemma {:induction false} MainIsStored(t: Tree, ls: Leashes, main: BlockId)
    requires AllStored(t, ls) && IsMain(t, ls, main)
    ensures NumOf(t, main) != 0
  {
    var a :| a in ls && GroupOf(t, ls, ls[a]) == GroupOf(t, ls, main);
  }

  lemma {:induction false} LcaIsShared(t: Tree, main: BlockId, leash: BlockId)
    requires WellFormed(t) && LcaAnswer(t, main, leash).Success?
    ensures IsDeepestShared(t, NumOf(t, main), NumOf(t, leash), LcaAnswer(t, main, leash).value)
  {
    var m, h := NumOf(t, main), NumOf(t, leash);
    LcaIsDeepestCommonAncestor(t, m, h);
    assert Indexed(t, WalkLca(t, m, h));
    forall d: nat | d >= 1 && AncestorOrSelf(t, d, m) && AncestorOrSelf(t, d, h)
      ensures AncestorOrSelf(t, d, WalkLca(t, m, h))
    {
      assert IsCommonAncestor(t, d, m, h);
    }
  }

  ghost predicate IsDeepestShared(t: Tree, m: nat, h: nat, id: BlockId)
  {
    var c := NumOf(t, id);
    && c >= 1 && AncestorOrSelf(t, c, m) && AncestorOrSelf(t, c, h)
    && forall d: nat :: d >= 1 && AncestorOrSelf(t, d, m) && AncestorOrSelf(t, d, h) ==> AncestorOrSelf(t, d, c)
  }

  /** `Forks` answers with at least one report, or not at all: without a leash of the named peers it panics. */
  lemma {:induction false} ForksAnswersAtAll(l: Ledger, peers: set<Addr>, r: Result<seq<Fork>>)
    requires Sound(l) && ForksAnswer(l, peers, r)
    ensures r.Success? ==> r.value != []
    ensures (forall a :: a in l.leashes && a != ALL_ONES ==> peers != {} && a !in peers) ==> r == Failure(Panic)
    ensures r.Failure? ==> r.error == Panic
  {
    AllLeashesStored(l);
    assert Filtered(Scanned(l.leashes), peers) == map[] <==>
           forall a :: a in l.leashes && a != ALL_ONES ==> peers != {} && a !in peers by {
      forall a
        ensures a in Filtered(Scanned(l.leashes), peers) <==>
                a in l.leashes && a != ALL_ONES && (peers == {} || a in peers)
      {
      }
    }
  }

  lemma {:induction false} NotAllStored(t: Tree, leashes: Leashes, a: Addr)
    requires a in leashes && a != ALL_ONES && NumOf(t, leashes[a]) == 0
    ensures !AllStored(t, Scanned(leashes)) && !AllStored(t, Filtered(Scanned(leashes), {}))
  {
    assert a in Scanned(leashes) && a in Filtered(Scanned(leashes), {});
  }

  /** When a leash that the scan finds is not stored, all three queries answer "not found". */
  lemma {:induction false} MissingLeash(
    l: Ledger, genesis: BlockId, peer: Addr, a: Addr, lcb: Result<BlockId>, fork: Result<Fork>,
    forks: Result<seq<Fork>>)
    requires a in l.leashes && a != ALL_ONES && NumOf(l.tree, l.leashes[a]) == 0
    requires LcbAnswer(l, genesis, peer, lcb) && ForkAnswer(l, peer, fork) && ForksAnswer(l, {}, forks)
    ensures peer in l.leashes ==> lcb == Failure(NotFound)
    ensures fork == Failure(NotFound) && forks == Failure(NotFound)
  {
    NotAllStored(l.tree, l.leashes, a);
  }

  // ----- the three answers agree

  lemma {:induction false} AllLeashesStored(l: Ledger)
    requires Sound(l)
    ensures AllStored(l.tree, Scanned(l.leashes))
  {
    forall a | a in Scanned(l.leashes)
      ensures NumOf(l.tree, l.leashes[a]) != 0
    {
      assert Leashed(l, a);
    }
  }

  /** When no two groups tie, the three queries are about the same main chain. */
  lemma {:induction false} CommonMain(
    l: Ledger, genesis: BlockId, peer: Addr, lcb: Result<BlockId>, fork: Result<Fork>, forks: Result<seq<Fork>>)
    returns (main: BlockId)
    requires Sound(l) && peer in Scanned(l.leashes)
    requires UniqueMaximum(Groups(l.tree, Scanned(l.leashes)))
    requires LcbAnswer(l, genesis, peer, lcb) && ForkAnswer(l, peer, fork) && ForksAnswer(l, {}, forks)
    ensures lcb == LcaAnswer(l.tree, main, l.leashes[peer])
    ensures ReportAnswer(l.tree, Scanned(l.leashes), main, l.leashes[peer], fork)
    ensures CompletedAnswer(l.tree, Scanned(l.leashes), main, forks)
  {
    var t, ls := l.tree, Scanned(l.leashes);
    assert Filtered(ls, {}) == ls;
    AllLeashesStored(l);
    var m1 :| IsMain(t, ls, m1) && lcb == LcaAnswer(t, m1, ls[peer]);
    var m2 :| IsMain(t, ls, m2) && ReportAnswer(t, ls, m2, ls[peer], fork);
    var m3 :| IsMain(t, ls, m3) && CompletedAnswer(t, ls, m3, forks);
    MainIsUnique(t, ls, m1, m2);
    MainIsUnique(t, ls, m1, m3);
    main := m1;
  }

  /** When no two groups of peers tie, `LCB`, `Fork` and `Forks` name the same last common block for every peer,
      and `Fork` and `Forks` the same length. */
  lemma {:induction false} AnswersAgree(
    l: Ledger, genesis: BlockId, peer: Addr, lcb: Result<BlockId>, fork: Result<Fork>, forks: Result<seq<Fork>>)
    requires Sound(l) && peer in Scanned(l.leashes)
    requires UniqueMaximum(Groups(l.tree, Scanned(l.leashes)))
    requires LcbAnswer(l, genesis, peer, lcb) && ForkAnswer(l, peer, fork) && ForksAnswer(l, {}, forks)
    ensures lcb.Success? <==> fork.Success?
    ensures lcb.Failure? ==> forks == Failure(Panic)
    ensures forks.Success? ==>
              && lcb.Success? && fork.value.lastCommonBlock == Some(lcb.value)
              && exists f :: f in forks.value && f.headBlock == Some(l.leashes[peer])
                             && f.lastCommonBlock == Some(lcb.value) && f.length == fork.value.length
                             && f.longest == fork.value.longest
  {
    var main := CommonMain(l, genesis, peer, lcb, fork, forks);
    if forks.Success? {
      var f :| f in forks.value && f.headBlock == Some(l.leashes[peer]);
      assert Reports(l.tree, Scanned(l.leashes), main, l.leashes[peer], f);
    }
  }
}
