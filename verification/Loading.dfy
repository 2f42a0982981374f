/** What a peer loader does (loading/peer_loader.go), one outside event at a time: the specification of the
    state machine with its nested triggers already run to completion. */
module Loading {
  import opened Entities
  import opened BlockTree
  import opened Ledger
  import opened LoaderQueue

  datatype State = Idle | WaitingForIDs | WaitingForBlocks | Done

  datatype Event =
    | Start
    | Restart
    | IDs(ids: seq<BlockId>)
    | BlockArrived(block: ProtoBlock)
    | Tick(time: int)

  /** The state of one load. `entries` counts requests for IDs, `oks` and `fails` the reports to the loader,
      `wanted` is the last list of blocks asked for. No time stamp means the zero time. */
  datatype View = View(
    peer: Addr,
    genesis: BlockId,
    state: State,
    items: seq<Item>,
    stamp: Option<int>,
    led: Ledger,
    wanted: seq<BlockId>,
    entries: nat,
    oks: nat,
    fails: nat)

  /** A load just created. */
  function FreshLoad(peer: Addr, genesis: BlockId, l: Ledger): View
  {
    View(peer, genesis, Idle, [], None, l, [], 0, 0, 0)
  }

  /** 30 seconds, in nanoseconds. */
  const TIMEOUT: int := 30_000_000_000

  predicate Expired(stamp: Option<int>, time: int)
  {
    stamp.None? || time - stamp.value > TIMEOUT
  }

  function LeashOr(l: Ledger, genesis: BlockId, a: Addr): BlockId
  {
    if a in l.leashes then l.leashes[a] else genesis
  }

  /** How many of the IDs, from the front, name stored blocks. */
  function KnownPrefix(l: Ledger, ids: seq<BlockId>): (n: nat)
    ensures n <= |ids|
    ensures forall i :: 0 <= i < n ==> HasBlock(l, ids[i])
    ensures n < |ids| ==> !HasBlock(l, ids[n])
  {
    if ids == [] || !HasBlock(l, ids[0]) then 0 else 1 + KnownPrefix(l, ids[1..])
  }

  /** The leash follows the stored blocks one by one; a move to where it already is, is skipped. */
  function Follow(l: Ledger, genesis: BlockId, a: Addr, ids: seq<BlockId>): Ledger
    decreases |ids|
  {
    if ids == [] then l
    else Follow(if LeashOr(l, genesis, a) == ids[0] then l else Apply(l, MoveLeash(ids[0], a)), genesis, a, ids[1..])
  }

  /** Puts blocks in order until one is rejected. */
  function PutAll(l: Ledger, bs: seq<ProtoBlock>, a: Addr): (Ledger, Outcome)
    decreases |bs|
  {
    if bs == [] then (l, PASS)
    else if PutBlockOutcome(l, bs[0]) != PASS then (l, PutBlockOutcome(l, bs[0]))
    else PutAll(Apply(l, PutBlock(bs[0], a)), bs[1..], a)
  }

  /** A timeout: the received prefix of the queue is applied; failure is reported if that succeeds. */
  function GiveUp(v: View): (View, Outcome)
  {
    var r := PutAll(v.led, PrefixBlocks(v.items), v.peer);
    (v.(state := Done, led := r.0, fails := v.fails + if r.1 == PASS then 1 else 0), r.1)
  }

  function Finish(v: View): View
  {
    v.(state := Idle, oks := v.oks + 1)
  }

  /** One event, at time `now`. `lcb` is the answer of `LCB` for this peer; only a restart uses it. */
  function Handle(v: View, e: Event, now: int, lcb: Result<BlockId>): (View, Outcome)
  {
    match (v.state, e)
    case (Idle, Start) =>
      (v.(state := WaitingForIDs, entries := v.entries + 1, stamp := Some(now)), PASS)
    case (Idle, Restart) =>
      var w := v.(state := WaitingForIDs, entries := v.entries + 1);
      if lcb.Success? then (w.(stamp := Some(now)), PASS) else (w, Failure(lcb.error))
    case (WaitingForIDs, IDs(ids)) =>
      var n := KnownPrefix(v.led, ids);
      var w := v.(led := Follow(v.led, v.genesis, v.peer, ids[..n]));
      if n == |ids| then (Finish(w), PASS)
      else (w.(state := WaitingForBlocks, items := NewItems(ids[n..]), wanted := ids[n..], stamp := Some(now)), PASS)
    case (WaitingForBlocks, BlockArrived(b)) =>
      var items := PutItem(v.items, b);
      if ReceivedPrefix(items) < |items| then (v.(items := items), PASS)
      else
        var r := PutAll(v.led, PrefixBlocks(items), v.peer);
        var w := v.(items := items, led := r.0);
        if r.1 == PASS then (Finish(w), PASS) else (w, r.1)
    case (WaitingForIDs, Tick(time)) => if Expired(v.stamp, time) then GiveUp(v) else (v, PASS)
    case (WaitingForBlocks, Tick(time)) => if Expired(v.stamp, time) then GiveUp(v) else (v, PASS)
    case _ => (v, PASS)
  }

  // ----- putting several blocks

  /** Putting blocks loses nothing. */
  lemma {:induction false} PutAllKeepsBlocks(l: Ledger, bs: seq<ProtoBlock>, a: Addr)
    requires WellFormed(l.tree)
    ensures var m := PutAll(l, bs, a).0;
      WellFormed(m.tree) && l.tree <= m.tree && forall id :: HasBlock(l, id) ==> HasBlock(m, id)
    decreases |bs|
  {
    if bs != [] && PutBlockOutcome(l, bs[0]) == PASS {
      ApplyKeepsTree(l, PutBlock(bs[0], a));
      PutAllKeepsBlocks(Apply(l, PutBlock(bs[0], a)), bs[1..], a);
    }
  }

  lemma {:induction false} PutAddsOne(l: Ledger, b: ProtoBlock, a: Addr, id: BlockId)
    requires WellFormed(l.tree) && PutBlockOutcome(l, b) == PASS
    ensures HasBlock(Apply(l, PutBlock(b, a)), id) <==> HasBlock(l, id) || b.id == id
  {
    if !HasBlock(l, b.id) {
      NumOfAppend(l.tree, KeyNode(l.tree, b), id);
    }
  }

  lemma {:induction false} ArrivedFirst(bs: seq<ProtoBlock>, id: BlockId)
    requires bs != []
    ensures Arrived(bs, id) <==> bs[0].id == id || Arrived(bs[1..], id)
  {
    assert bs == [bs[0]] + bs[1..];
  }

  lemma {:induction false} PutAllStores(l: Ledger, bs: seq<ProtoBlock>, a: Addr, id: BlockId)
    requires WellFormed(l.tree) && PutAll(l, bs, a).1 == PASS
    ensures HasBlock(PutAll(l, bs, a).0, id) <==> HasBlock(l, id) || Arrived(bs, id)
    decreases |bs|
  {
    if bs != [] {
      ApplyKeepsTree(l, PutBlock(bs[0], a));
      PutAllStores(Apply(l, PutBlock(bs[0], a)), bs[1..], a, id);
      ArrivedFirst(bs, id);
      PutAddsOne(l, bs[0], a, id);
    }
  }

  lemma {:induction false} PutAllLeashes(l: Ledger, bs: seq<ProtoBlock>, a: Addr)
    requires PutAll(l, bs, a).1 == PASS
    ensures PutAll(l, bs, a).0.leashes == if bs == [] then l.leashes else l.leashes[a := bs[|bs| - 1].id]
    decreases |bs|
  {
    if bs != [] {
      PutAllLeashes(Apply(l, PutBlock(bs[0], a)), bs[1..], a);
    }
  }

  /** On success exactly the blocks put are stored in addition, and the leash is on the last of them. */
  lemma {:induction false} PutAllEffect(l: Ledger, bs: seq<ProtoBlock>, a: Addr)
    requires WellFormed(l.tree) && PutAll(l, bs, a).1 == PASS
    ensures var m := PutAll(l, bs, a).0;
      && (forall id :: HasBlock(m, id) <==> HasBlock(l, id) || Arrived(bs, id))
      && m.leashes == if bs == [] then l.leashes else l.leashes[a := bs[|bs| - 1].id]
  {
    PutAllLeashes(l, bs, a);
    forall id
      ensures HasBlock(PutAll(l, bs, a).0, id) <==> HasBlock(l, id) || Arrived(bs, id)
    {
      PutAllStores(l, bs, a, id);
    }
  }

  lemma {:induction false} PutAllKeepsSound(l: Ledger, bs: seq<ProtoBlock>, a: Addr)
    requires Sound(l)
    ensures Sound(PutAll(l, bs, a).0)
    decreases |bs|
  {
    if bs != [] && PutBlockOutcome(l, bs[0]) == PASS {
      ApplyKeepsSound(l, PutBlock(bs[0], a));
      PutAllKeepsSound(Apply(l, PutBlock(bs[0], a)), bs[1..], a);
    }
  }

  /** The ID is stored, or comes earlier in the list. */
  ghost predicate KnownBefore(l: Ledger, bs: seq<ProtoBlock>, i: nat, id: BlockId)
    requires i <= |bs|
  {
    HasBlock(l, id) || exists j :: 0 <= j < i && bs[j].id == id
  }

  /** The height of block `id` once the first `i` blocks of the list have been put, 0 if it is not stored then. */
  ghost function HeightOf(l: Ledger, bs: seq<ProtoBlock>, i: nat, id: BlockId): (h: nat)
    requires i <= |bs|
    decreases i
  {
    if i == 0 then Height(l.tree, NumOf(l.tree, id))
    else if HeightOf(l, bs, i - 1, id) > 0 then HeightOf(l, bs, i - 1, id)
    else if bs[i - 1].id == id then 1 + HeightOf(l, bs, i - 1, bs[i - 1].parent)
    else 0
  }

  /** Every block of the list is known, or can be scored and has a parent that is known and below the greatest
      height. */
  ghost predicate Connected(l: Ledger, bs: seq<ProtoBlock>)
  {
    forall i :: 0 <= i < |bs| ==> Fits(l, bs, i)
  }

  ghost predicate Fits(l: Ledger, bs: seq<ProtoBlock>, i: nat)
    requires i < |bs|
  {
    || KnownBefore(l, bs, i, bs[i].id)
    || (KnownBefore(l, bs, i, bs[i].parent) && bs[i].target <= MAX_TARGET
        && HeightOf(l, bs, i, bs[i].parent) < MAX_HEIGHT)
  }

  lemma {:induction false} KnownAfterFirst(l: Ledger, bs: seq<ProtoBlock>, a: Addr, i: nat, id: BlockId)
    requires WellFormed(l.tree) && bs != [] && PutBlockOutcome(l, bs[0]) == PASS && i < |bs|
    ensures KnownBefore(Apply(l, PutBlock(bs[0], a)), bs[1..], i, id) <==> KnownBefore(l, bs, i + 1, id)
  {
    PutAddsOne(l, bs[0], a, id);
    var rest := bs[1..];
    if exists j :: 0 <= j < i && rest[j].id == id {
      var j :| 0 <= j < i && rest[j].id == id;
      assert bs[j + 1].id == id;
    }
    if exists j :: 0 <= j < i + 1 && bs[j].id == id {
      var j :| 0 <= j < i + 1 && bs[j].id == id;
      if j > 0 { assert rest[j - 1].id == id; }
    }
  }

  /** The height a put gives to each block. */
  lemma {:induction false} PutHeight(l: Ledger, b: ProtoBlock, a: Addr, id: BlockId)
    requires WellFormed(l.tree) && PutBlockOutcome(l, b) == PASS
    ensures var m := Apply(l, PutBlock(b, a));
      Height(m.tree, NumOf(m.tree, id))
      == if HasBlock(l, id) then Height(l.tree, NumOf(l.tree, id))
         else if b.id == id then 1 + Height(l.tree, NumOf(l.tree, b.parent)) else 0
  {
    if !HasBlock(l, b.id) {
      var x := KeyNode(l.tree, b);
      KeyNodeWellFormed(l.tree, b);
      NumOfAppend(l.tree, x, id);
      HeightStable(l.tree, x, NumOf(l.tree, id));
    }
  }

  lemma {:induction false} HeightAfterFirst(l: Ledger, bs: seq<ProtoBlock>, a: Addr, i: nat, id: BlockId)
    requires WellFormed(l.tree) && bs != [] && PutBlockOutcome(l, bs[0]) == PASS && i < |bs|
    ensures HeightOf(Apply(l, PutBlock(bs[0], a)), bs[1..], i, id) == HeightOf(l, bs, i + 1, id)
    decreases i
  {
    if i == 0 {
      PutHeight(l, bs[0], a, id);
      assert HeightOf(l, bs, 0, id) == Height(l.tree, NumOf(l.tree, id));
    } else {
      HeightAfterFirst(l, bs, a, i - 1, id);
      HeightAfterFirst(l, bs, a, i - 1, bs[i].parent);
    }
  }

  lemma {:induction false} FitsAfterFirst(l: Ledger, bs: seq<ProtoBlock>, a: Addr, i: nat)
    requires WellFormed(l.tree) && bs != [] && PutBlockOutcome(l, bs[0]) == PASS && i < |bs[1..]|
    ensures Fits(Apply(l, PutBlock(bs[0], a)), bs[1..], i) <==> Fits(l, bs, i + 1)
  {
    var b := bs[1..][i];
    KnownAfterFirst(l, bs, a, i, b.id);
    KnownAfterFirst(l, bs, a, i, b.parent);
    HeightAfterFirst(l, bs, a, i, b.parent);
  }

  /** Putting a list succeeds exactly when it is connected to what is stored. */
  lemma {:induction false} PutAllSucceedsIffConnected(l: Ledger, bs: seq<ProtoBlock>, a: Addr)
    requires WellFormed(l.tree)
    ensures PutAll(l, bs, a).1 == PASS <==> Connected(l, bs)
    decreases |bs|
  {
    if bs != [] {
      assert HeightOf(l, bs, 0, bs[0].parent) == Height(l.tree, NumOf(l.tree, bs[0].parent));
      assert PutBlockOutcome(l, bs[0]) == PASS <==> Fits(l, bs, 0);
      if PutBlockOutcome(l, bs[0]) == PASS {
        var m, rest := Apply(l, PutBlock(bs[0], a)), bs[1..];
        ApplyKeepsTree(l, PutBlock(bs[0], a));
        PutAllSucceedsIffConnected(m, rest, a);
        forall i | 0 <= i < |rest|
          ensures Fits(m, rest, i) <==> Fits(l, bs, i + 1)
        {
          FitsAfterFirst(l, bs, a, i);
        }
        forall i | 0 <= i < |bs|
          ensures Connected(m, rest) ==> Fits(l, bs, i)
        {
          if i > 0 { assert Fits(m, rest, i - 1) <==> Fits(l, bs, i); }
        }
      }
    }
  }

  /** No new block of the list goes on top of a block of the greatest height. */
  ghost predicate HeightsFit(l: Ledger, bs: seq<ProtoBlock>)
  {
    forall i {:trigger HeightOf(l, bs, i, bs[i].parent)} :: 0 <= i < |bs| ==>
      KnownBefore(l, bs, i, bs[i].id) || HeightOf(l, bs, i, bs[i].parent) < MAX_HEIGHT
  }

  /** Which is so in every store that has room for as many blocks. */
  lemma {:induction false} RoomMeansHeightsFit(l: Ledger, bs: seq<ProtoBlock>)
    requires |l.tree| + |bs| <= MAX_HEIGHT
    ensures HeightsFit(l, bs)
  {
    forall i | 0 <= i < |bs|
      ensures HeightOf(l, bs, i, bs[i].parent) < MAX_HEIGHT
    {
      HeightBound(l, bs, i, bs[i].parent);
    }
  }

  lemma {:induction false} HeightBound(l: Ledger, bs: seq<ProtoBlock>, i: nat, id: BlockId)
    requires i <= |bs|
    ensures HeightOf(l, bs, i, id) <= |l.tree| + i
    decreases i
  {
    if i > 0 {
      HeightBound(l, bs, i - 1, id);
      HeightBound(l, bs, i - 1, bs[i - 1].parent);
    }
  }

  /** Each block is the child of the one before it. */
  ghost predicate IsChain(bs: seq<ProtoBlock>)
  {
    && (forall i :: 0 < i < |bs| ==> bs[i].parent == bs[i - 1].id)
    && (forall i :: 0 <= i < |bs| ==> bs[i].target <= MAX_TARGET)
  }

  /** A chain on top of a stored block is accepted, whatever part of it is stored already, exactly if its heights fit
      32 bits. */
  lemma {:induction false} ChainAccepted(l: Ledger, bs: seq<ProtoBlock>, a: Addr)
    requires WellFormed(l.tree) && IsChain(bs)
    requires bs != [] ==> HasBlock(l, bs[0].parent)
    ensures PutAll(l, bs, a).1 == PASS <==> HeightsFit(l, bs)
  {
    forall i | 0 <= i < |bs|
      ensures Fits(l, bs, i) <==> KnownBefore(l, bs, i, bs[i].id) || HeightOf(l, bs, i, bs[i].parent) < MAX_HEIGHT
    {
      if i > 0 { assert bs[i - 1].id == bs[i].parent; }
    }
    PutAllSucceedsIffConnected(l, bs, a);
  }

  // ----- a list of IDs

  lemma {:induction false} FollowEffect(l: Ledger, genesis: BlockId, a: Addr, ids: seq<BlockId>)
    ensures var m := Follow(l, genesis, a, ids);
      && m.tree == l.tree
      && LeashOr(m, genesis, a) == (if ids == [] then LeashOr(l, genesis, a) else ids[|ids| - 1])
      && (forall b :: b != a ==>
            (b in m.leashes <==> b in l.leashes) && (b in l.leashes ==> m.leashes[b] == l.leashes[b]))
    decreases |ids|
  {
    if ids != [] {
      var m := if LeashOr(l, genesis, a) == ids[0] then l else Apply(l, MoveLeash(ids[0], a));
      FollowEffect(m, genesis, a, ids[1..]);
    }
  }

  lemma {:induction false} FollowKeepsSound(l: Ledger, genesis: BlockId, a: Addr, ids: seq<BlockId>)
    requires Sound(l) && forall i :: 0 <= i < |ids| ==> HasBlock(l, ids[i])
    ensures Sound(Follow(l, genesis, a, ids))
    decreases |ids|
  {
    if ids != [] {
      ApplyKeepsSound(l, MoveLeash(ids[0], a));
      var m := if LeashOr(l, genesis, a) == ids[0] then l else Apply(l, MoveLeash(ids[0], a));
      FollowKeepsSound(m, genesis, a, ids[1..]);
    }
  }

  /** On a list of IDs the leash goes to the last of the longest stored prefix, and exactly the rest is asked for. */
  lemma {:induction false} IDsMoveLeashAndRequestRest(v: View, ids: seq<BlockId>, now: int, lcb: Result<BlockId>)
    requires v.state == WaitingForIDs
    ensures var n, w := KnownPrefix(v.led, ids), Handle(v, IDs(ids), now, lcb).0;
      && w.led.tree == v.led.tree
      && LeashOr(w.led, v.genesis, v.peer) == (if n == 0 then LeashOr(v.led, v.genesis, v.peer) else ids[n - 1])
      && (if n == |ids| then w.state == Idle && w.oks == v.oks + 1
          else w.state == WaitingForBlocks && w.wanted == ids[n..] && w.items == NewItems(ids[n..]) && w.oks == v.oks)
  {
    FollowEffect(v.led, v.genesis, v.peer, ids[..KnownPrefix(v.led, ids)]);
  }

  // ----- a timeout

  /** On a timeout exactly the longest received prefix is stored, in request order and with the leash on its last
      block; blocks received after a gap are dropped. Failure is reported once, if and only if every put succeeds. */
  lemma {:induction false} TimeoutAppliesPrefix(v: View, time: int, now: int, lcb: Result<BlockId>)
    requires WellFormed(v.led.tree)
    requires v.state == WaitingForIDs || v.state == WaitingForBlocks
    requires Expired(v.stamp, time)
    ensures var bs, h := PrefixBlocks(v.items), Handle(v, Tick(time), now, lcb);
      && h.0.state == Done && h.0.oks == v.oks
      && h.0.fails == v.fails + (if h.1 == PASS then 1 else 0)
      && (h.1 == PASS ==> forall id :: HasBlock(h.0.led, id) <==> HasBlock(v.led, id) || Arrived(bs, id))
      && (h.1 == PASS ==>
            h.0.led.leashes == if bs == [] then v.led.leashes else v.led.leashes[v.peer := bs[|bs| - 1].id])
  {
    if PutAll(v.led, PrefixBlocks(v.items), v.peer).1 == PASS {
      PutAllEffect(v.led, PrefixBlocks(v.items), v.peer);
    }
  }

  /** Exactly when a timeout is reported: the received prefix must be connected to what is stored. Otherwise the load
      is in `Done` without a report: for good when a parent is missing, while a block that cannot be scored or is too
      high makes the process panic. */
  lemma {:induction false} TimeoutReportedIffConnected(v: View, time: int, now: int, lcb: Result<BlockId>)
    requires WellFormed(v.led.tree)
    requires v.state == WaitingForIDs || v.state == WaitingForBlocks
    requires Expired(v.stamp, time)
    ensures var w := Handle(v, Tick(time), now, lcb).0;
      w.state == Done && (w.fails == v.fails + 1 <==> Connected(v.led, PrefixBlocks(v.items)))
  {
    PutAllSucceedsIffConnected(v.led, PrefixBlocks(v.items), v.peer);
  }

  lemma {:induction false} PutAllStored(l: Ledger, bs: seq<ProtoBlock>, a: Addr)
    requires bs != [] && forall i :: 0 <= i < |bs| ==> HasBlock(l, bs[i].id)
    ensures PutAll(l, bs, a) == (l.(leashes := l.leashes[a := bs[|bs| - 1].id]), PASS)
    decreases |bs|
  {
    var m := Apply(l, PutBlock(bs[0], a));
    if |bs| > 1 {
      forall i | 0 <= i < |bs[1..]|
        ensures HasBlock(m, bs[1..][i].id)
      {
        assert HasBlock(l, bs[i + 1].id);
      }
      PutAllStored(m, bs[1..], a);
      assert m.leashes[a := bs[|bs| - 1].id] == l.leashes[a := bs[|bs| - 1].id];
    } else {
      assert bs[1..] == [];
    }
  }

  /** The queue is not emptied between batches: when the next list of IDs never comes, the timeout applies the
      previous batch again. No block is added, but the leash goes back to the last block of that batch; nothing at all
      changes exactly if the batch has no received prefix or the leash is there already. */
  lemma {:induction false} LateTimeoutMovesLeashBack(v: View, time: int, now: int, lcb: Result<BlockId>)
    requires v.state == WaitingForIDs && Expired(v.stamp, time)
    requires forall i :: 0 <= i < |PrefixBlocks(v.items)| ==> HasBlock(v.led, PrefixBlocks(v.items)[i].id)
    ensures var bs, w := PrefixBlocks(v.items), Handle(v, Tick(time), now, lcb).0;
      && w.state == Done && w.fails == v.fails + 1
      && w.led == (if bs == [] then v.led else v.led.(leashes := v.led.leashes[v.peer := bs[|bs| - 1].id]))
      && (w.led == v.led <==>
          bs == [] || (v.peer in v.led.leashes && v.led.leashes[v.peer] == bs[|bs| - 1].id))
  {
    var bs := PrefixBlocks(v.items);
    if bs != [] {
      PutAllStored(v.led, bs, v.peer);
      assert v.led.leashes[v.peer := bs[|bs| - 1].id][v.peer] == bs[|bs| - 1].id;
    }
  }

  // ----- what every event keeps

  /** Every request for IDs ends in one report, but for the load in progress and the one stuck in `Done`. */
  ghost predicate Balanced(v: View)
  {
    && v.entries == v.oks + (if v.state == Idle then 0 else 1)
    && v.fails <= 1
    && (v.fails == 1 ==> v.state == Done)
  }

  ghost predicate Waiting(v: View)
  {
    v.state == WaitingForIDs || v.state == WaitingForBlocks
  }

  lemma HandleKeepsBalance(v: View, e: Event, now: int, lcb: Result<BlockId>)
    requires Balanced(v)
    ensures Balanced(Handle(v, e, now, lcb).0)
  {
  }

  lemma {:induction false} HandleKeepsSound(v: View, e: Event, now: int, lcb: Result<BlockId>)
    requires Sound(v.led)
    ensures Sound(Handle(v, e, now, lcb).0.led)
  {
    PutAllKeepsSound(v.led, PrefixBlocks(v.items), v.peer);
    if e.BlockArrived? {
      PutAllKeepsSound(v.led, PrefixBlocks(PutItem(v.items, e.block)), v.peer);
    }
    if e.IDs? {
      FollowKeepsSound(v.led, v.genesis, v.peer, e.ids[..KnownPrefix(v.led, e.ids)]);
    }
  }

  ghost predicate Extends(l: Ledger, m: Ledger)
  {
    WellFormed(m.tree) && l.tree <= m.tree && forall id :: HasBlock(l, id) ==> HasBlock(m, id)
  }

  /** What a step of the loader can do to the ledger. */
  lemma {:induction false} HandleLedger(v: View, e: Event, now: int, lcb: Result<BlockId>)
    ensures var m := Handle(v, e, now, lcb).0.led;
      || m == v.led
      || (e.BlockArrived? && m == PutAll(v.led, PrefixBlocks(PutItem(v.items, e.block)), v.peer).0)
      || (e.IDs? && m == Follow(v.led, v.genesis, v.peer, e.ids[..KnownPrefix(v.led, e.ids)]))
      || (e.Tick? && m == PutAll(v.led, PrefixBlocks(v.items), v.peer).0)
  {
  }

  lemma {:induction false} HandleKeepsBlocks(v: View, e: Event, now: int, lcb: Result<BlockId>)
    requires WellFormed(v.led.tree)
    ensures Extends(v.led, Handle(v, e, now, lcb).0.led)
  {
    HandleLedger(v, e, now, lcb);
    if e.BlockArrived? {
      PutAllKeepsBlocks(v.led, PrefixBlocks(PutItem(v.items, e.block)), v.peer);
    } else if e.IDs? {
      FollowEffect(v.led, v.genesis, v.peer, e.ids[..KnownPrefix(v.led, e.ids)]);
    } else if e.Tick? {
      PutAllKeepsBlocks(v.led, PrefixBlocks(v.items), v.peer);
    }
  }
}
