/** The state machine of a peer loader (loading/peer_loader.go): transition table, actions, and triggers fired by
    actions, which wait until the current transition is over. */
module PeerLoader {
  import opened Entities
  import opened BlockTree
  import opened Storage
  import opened Ledger
  import opened Forks
  import opened Linkage
  import opened LoaderQueue
  import opened Loading

  /** How many IDs are sent along when asking for more. */
  const IDS_BATCH: nat := 100

  datatype Trigger = Outside(event: Event) | TimedOut | QueueReady

  datatype Rule = Ignore | Internal | Permit(to: State) | NotConfigured

  /** The configured transitions. */
  function RuleFor(s: State, t: Trigger): Rule
  {
    match (s, t)
    case (Idle, Outside(Start)) => Permit(WaitingForIDs)
    case (Idle, Outside(Restart)) => Permit(WaitingForIDs)
    case (Idle, _) => Ignore
    case (WaitingForIDs, Outside(IDs(_))) => Permit(WaitingForBlocks)
    case (WaitingForIDs, Outside(Tick(_))) => Internal
    case (WaitingForIDs, TimedOut) => Permit(Done)
    case (WaitingForIDs, _) => Ignore
    case (WaitingForBlocks, Outside(BlockArrived(_))) => Internal
    case (WaitingForBlocks, Outside(Tick(_))) => Internal
    case (WaitingForBlocks, TimedOut) => Permit(Done)
    case (WaitingForBlocks, QueueReady) => Permit(Idle)
    case (WaitingForBlocks, _) => Ignore
    case (Done, QueueReady) => NotConfigured
    case (Done, _) => Ignore
  }

  /** What a trigger leads to, together with everything it triggers in turn. */
  function AfterTrigger(v: View, t: Trigger, now: int, lcb: Result<BlockId>): (View, Outcome)
  {
    match t
    case Outside(e) => Handle(v, e, now, lcb)
    case TimedOut => if v.state == WaitingForIDs || v.state == WaitingForBlocks then GiveUp(v) else (v, PASS)
    case QueueReady =>
      if v.state == WaitingForBlocks then (Finish(v), PASS)
      else if v.state == Done then (v, Failure(NoTransition))
      else (v, PASS)
  }

  /** At most one trigger is ever waiting. */
  function AfterPending(v: View, pending: seq<Trigger>, now: int, lcb: Result<BlockId>): (View, Outcome)
  {
    if pending == [] then (v, PASS) else AfterTrigger(v, pending[0], now, lcb)
  }

  class PeerLoader {
    const peer: Addr
    const hp: Linkage
    var state: State
    var timestamp: Option<int>
    var queue: Queue
    var pending: seq<Trigger>

    // What went out: the reports, the IDs sent with the last request for IDs, and the blocks last asked for.
    var oks: nat
    var fails: nat
    var asked: seq<BlockId>
    var wanted: seq<BlockId>
    ghost var entries: nat

    ghost predicate Valid()
      reads this, hp.st
    {
      hp.Valid() && LeashesStored(hp.State())
    }

    ghost function Now(): View
      reads this, queue.q, hp.st
    {
      View(peer, hp.genesis, state, queue.q[..], timestamp, hp.State(), wanted, entries, oks, fails)
    }

    constructor (peer: Addr, hp: Linkage)
      requires hp.Valid() && Sound(hp.State())
      ensures Valid() && this.peer == peer && this.hp == hp && pending == [] && asked == []
      ensures fresh(queue) && fresh(queue.q)
      ensures Now() == View(peer, hp.genesis, Idle, [], None, hp.State(), [], 0, 0, 0)
      ensures Balanced(Now())
    {
      this.peer := peer;
      this.hp := hp;
      state := Idle;
      timestamp := None;
      queue := new Queue([]);
      pending := [];
      oks, fails, asked, wanted, entries := 0, 0, [], [], 0;
    }

    /** Delivers one event, and then every trigger fired on the way, each after the transition before it. */
    method Fire(e: Event, now: int) returns (r: Outcome, ghost lcb: Result<BlockId>)
      requires Valid() && pending == []
      modifies this, queue.q, hp.st
      ensures Valid() && pending == [] && (queue == old(queue) || fresh(queue.q))
      ensures (Now(), r) == Handle(old(Now()), e, now, lcb)
      ensures Asked(old(state), old(asked), e, lcb)
    {
      r, lcb := Execute(Outside(e), now);
      if r == PASS {
        r := Drain(now, lcb);
      }
    }

    /** Runs the triggers that were fired by actions. */
    method Drain(now: int, ghost lcb: Result<BlockId>) returns (r: Outcome)
      requires Valid() && |pending| <= 1 && (pending != [] ==> !pending[0].Outside?)
      modifies this`state, this`pending, this`oks, this`fails, queue.q, hp.st
      ensures Valid() && pending == []
      ensures (Now(), r) == AfterPending(old(Now()), old(pending), now, lcb)
      ensures old(pending) == [] ==> hp.State() == old(hp.State())
    {
      r := PASS;
      while pending != []
        modifies this`state, this`pending, this`oks, this`fails, hp.st
        invariant Valid() && |pending| <= 1 && (pending != [] ==> !pending[0].Outside?)
        invariant r == PASS && (old(pending) == [] ==> hp.State() == old(hp.State()))
        invariant AfterPending(Now(), pending, now, lcb) == AfterPending(old(Now()), old(pending), now, lcb)
        decreases |pending|
      {
        var t := pending[0];
        pending := pending[1..];
        r := ExecuteNested(t, now, lcb);
        if r != PASS { return; }
      }
    }

    /** Which IDs were sent along with the last request for more. */
    ghost predicate Asked(from: State, before: seq<BlockId>, e: Event, lcb: Result<BlockId>)
      reads this, hp.st
    {
      if from == Idle && e == Start then AsksFrom(hp.State(), LeashOr(hp.State(), hp.genesis, peer), asked)
      else if from == Idle && e == Restart then
        LcbAnswer(hp.State(), hp.genesis, peer, lcb)
        && if lcb.Success? then AsksFrom(hp.State(), lcb.value, asked) else asked == before
      else asked == before
    }

    /** One transition: the table decides, the entry or internal action runs. */
    method Execute(t: Trigger, now: int) returns (r: Outcome, ghost lcb: Result<BlockId>)
      requires Valid() && pending == [] && t.Outside?
      modifies this, queue.q, hp.st
      ensures Valid() && (queue == old(queue) || fresh(queue.q))
      ensures |pending| <= 1 && (pending != [] ==> !pending[0].Outside? && !t.event.Start? && !t.event.Restart?)
      ensures r == PASS ==> AfterPending(Now(), pending, now, lcb) == AfterTrigger(old(Now()), t, now, lcb)
      ensures r != PASS ==> (Now(), r) == AfterTrigger(old(Now()), t, now, lcb) && pending == []
      ensures Asked(old(state), old(asked), t.event, lcb)
    {
      r, lcb := PASS, Failure(NotFound);
      match RuleFor(state, t)
      case Ignore =>
      case Internal => r := React(t, now, lcb);
      case Permit(to) =>
        if to == WaitingForIDs {
          r, lcb := EnterWaitingForIDs(t, now);
        } else {
          EnterWaitingForBlocks(t, now, lcb);
        }
    }

    /** The same for a trigger that was fired by an action. */
    method ExecuteNested(t: Trigger, now: int, ghost lcb: Result<BlockId>) returns (r: Outcome)
      requires Valid() && pending == [] && !t.Outside?
      modifies this`state, this`oks, this`fails, hp.st
      ensures Valid() && (Now(), r) == AfterTrigger(old(Now()), t, now, lcb)
    {
      r := PASS;
      match RuleFor(state, t)
      case Ignore =>
      case NotConfigured => r := Failure(NoTransition);
      case Permit(to) =>
        if to == Idle {
          EnterIdle();
        } else {
          r := EnterDone();
        }
    }

    method EnterIdle()
      requires Valid() && state == WaitingForBlocks
      modifies this`state, this`oks
      ensures Valid() && Now() == Finish(old(Now()))
    {
      state := Idle;
      oks := oks + 1;
    }

    method EnterDone() returns (r: Outcome)
      requires Valid()
      modifies this`state, this`fails, hp.st
      ensures Valid() && (Now(), r) == GiveUp(old(Now()))
    {
      state := Done;
      r := HandleFailure();
    }

    method React(t: Trigger, now: int, ghost lcb: Result<BlockId>) returns (r: Outcome)
      requires Valid() && pending == [] && RuleFor(state, t) == Internal
      modifies this`pending, queue.q, hp.st
      ensures Valid() && |pending| <= 1 && (pending != [] ==> !pending[0].Outside?)
      ensures r == PASS ==> AfterPending(Now(), pending, now, lcb) == AfterTrigger(old(Now()), t, now, lcb)
      ensures r != PASS ==> (Now(), r) == AfterTrigger(old(Now()), t, now, lcb) && pending == []
    {
      if t.event.BlockArrived? {
        r := ReactToBlock(t.event.block, now, lcb);
      } else {
        OnTick(t.event.time);
        r := PASS;
      }
    }

    method ReactToBlock(block: ProtoBlock, now: int, ghost lcb: Result<BlockId>) returns (r: Outcome)
      requires Valid() && pending == [] && state == WaitingForBlocks
      modifies this`pending, queue.q, hp.st
      ensures Valid() && |pending| <= 1 && (pending != [] ==> !pending[0].Outside?)
      ensures r == PASS ==> AfterPending(Now(), pending, now, lcb) == Handle(old(Now()), BlockArrived(block), now, lcb)
      ensures r != PASS ==> (Now(), r) == Handle(old(Now()), BlockArrived(block), now, lcb) && pending == []
    {
      r := AppendBlock(block);
    }

    method EnterWaitingForIDs(t: Trigger, now: int) returns (r: Outcome, ghost lcb: Result<BlockId>)
      requires Valid() && pending == [] && RuleFor(state, t) == Permit(WaitingForIDs)
      modifies this`state, this`entries, this`timestamp, this`asked
      ensures Valid() && (Now(), r) == AfterTrigger(old(Now()), t, now, lcb)
      ensures Asked(old(state), old(asked), t.event, lcb)
    {
      state := WaitingForIDs;
      entries := entries + 1;
      r, lcb := PASS, Failure(NotFound);
      if t.event.Start? {
        RequestIDs(now);
      } else {
        r, lcb := RequestIDsFromLCA(now);
      }
    }

    method EnterWaitingForBlocks(t: Trigger, now: int, ghost lcb: Result<BlockId>)
      requires Valid() && pending == [] && RuleFor(state, t) == Permit(WaitingForBlocks)
      modifies this`state, this`pending, this`queue, this`wanted, this`timestamp, hp.st
      ensures Valid() && (queue == old(queue) || fresh(queue.q))
      ensures |pending| <= 1 && (pending != [] ==> !pending[0].Outside?)
      ensures AfterPending(Now(), pending, now, lcb) == AfterTrigger(old(Now()), t, now, lcb)
    {
      state := WaitingForBlocks;
      RequestBlocks(t.event.ids, now);
    }

    method OnTick(time: int)
      requires Valid() && pending == []
      modifies this`pending
      ensures pending == if Expired(timestamp, time) then [TimedOut] else []
    {
      if timestamp.None? || time - timestamp.value > TIMEOUT {
        pending := pending + [TimedOut];
      }
    }

    method RequestIDs(now: int)
      requires Valid()
      modifies this`timestamp, this`asked
      ensures timestamp == Some(now)
      ensures AsksFrom(hp.State(), LeashOr(hp.State(), hp.genesis, peer), asked)
    {
      var leash := hp.LeashOf(peer);
      StoredLeash(hp.State(), hp.genesis, peer);
      var lastIDs := hp.LastIDs(leash, IDS_BATCH);
      asked := lastIDs.value;
      timestamp := Some(now);
    }

    method RequestIDsFromLCA(now: int) returns (r: Outcome, ghost answer: Result<BlockId>)
      requires Valid()
      modifies this`timestamp, this`asked
      ensures LcbAnswer(hp.State(), hp.genesis, peer, answer)
      ensures answer.Success? ==> r == PASS && timestamp == Some(now) && AsksFrom(hp.State(), answer.value, asked)
      ensures answer.Failure? ==> r == Failure(answer.error) && timestamp == old(timestamp) && asked == old(asked)
    {
      var lcb := hp.LCB(peer);
      answer := lcb;
      if lcb.Failure? { return Failure(lcb.error), answer; }
      StoredLcb(hp.State(), hp.genesis, peer, lcb);
      var lastIDs := hp.LastIDs(lcb.value, IDS_BATCH);
      asked := lastIDs.value;
      timestamp := Some(now);
      r := PASS;
    }

    /** Moves the leash along the stored IDs and asks for the rest, from the first unknown ID on. */
    method RequestBlocks(ids: seq<BlockId>, now: int)
      requires Valid() && pending == []
      modifies this`pending, this`queue, this`wanted, this`timestamp, hp.st
      ensures Valid() && (queue == old(queue) || fresh(queue.q))
      ensures hp.State() == Follow(old(hp.State()), hp.genesis, peer, ids[..KnownPrefix(old(hp.State()), ids)])
      ensures var n := KnownPrefix(old(hp.State()), ids);
              if n == |ids| then
                pending == [QueueReady] && queue == old(queue) && wanted == old(wanted) && timestamp == old(timestamp)
              else
                pending == [] && queue.q[..] == NewItems(ids[n..]) && wanted == ids[n..] && timestamp == Some(now)
    {
      var req := FollowKnown(ids);
      if |req| == 0 {
        pending := pending + [QueueReady];
        return;
      }
      queue := new Queue(req);
      wanted := req;
      timestamp := Some(now);
    }

    /** A stored block; a move to where the leash already is, is skipped. */
    method MoveTo(id: BlockId)
      requires Valid() && HasBlock(hp.State(), id)
      modifies hp.st
      ensures Valid()
      ensures hp.State() == if LeashOr(old(hp.State()), hp.genesis, peer) == id then old(hp.State())
                            else Apply(old(hp.State()), Op.MoveLeash(id, peer))
    {
      ApplyKeepsSound(hp.State(), Op.MoveLeash(id, peer));
      var leash := hp.LeashOf(peer);
      if id != leash {
        hp.MoveLeash(id, peer);
      }
    }

    /** The loop over the IDs: it ends at the first unknown one. */
    method FollowKnown(ids: seq<BlockId>) returns (req: seq<BlockId>)
      requires Valid()
      modifies hp.st
      ensures Valid()
      ensures var n := KnownPrefix(old(hp.State()), ids);
              req == ids[n..] && hp.State() == Follow(old(hp.State()), hp.genesis, peer, ids[..n])
    {
      req := [];
      var i := 0;
      ghost var led := hp.State();
      while i < |ids|
        invariant 0 <= i <= |ids| && Valid() && req == []
        invariant Followed(led, hp.genesis, peer, ids, i, hp.State())
      {
        var id := ids[i];
        var hasBlock := hp.HasBlock(id);
        if !hasBlock {
          FollowedAll(led, hp.genesis, peer, ids, i, hp.State());
          return ids[i..];
        }
        ghost var before := hp.State();
        MoveTo(id);
        FollowedOneMore(led, hp.genesis, peer, ids, i, before, hp.State());
        i := i + 1;
      }
      FollowedAll(led, hp.genesis, peer, ids, i, hp.State());
    }

    /** Keeps the block; once the queue is full, applies it in order. */
    method AppendBlock(block: ProtoBlock) returns (r: Outcome)
      requires Valid() && pending == []
      modifies this`pending, queue.q, hp.st
      ensures Valid() && queue.q[..] == PutItem(old(queue.q[..]), block)
      ensures var items := queue.q[..];
              if ReceivedPrefix(items) < |items| then r == PASS && pending == [] && hp.State() == old(hp.State())
              else (hp.State(), r) == PutAll(old(hp.State()), PrefixBlocks(items), peer)
                   && pending == if r == PASS then [QueueReady] else []
    {
      queue.Put(block);
      var ready := queue.Ready();
      PrefixIsAll(queue.q[..]);
      if !ready {
        return PASS;
      }
      r := ApplyPrefix();
      if r == PASS {
        pending := pending + [QueueReady];
      }
    }

    /** Applies what has arrived up to the first gap, then reports the failure. */
    method HandleFailure() returns (r: Outcome)
      requires Valid()
      modifies this`fails, hp.st
      ensures Valid() && (hp.State(), r) == PutAll(old(hp.State()), PrefixBlocks(queue.q[..]), peer)
      ensures fails == old(fails) + if r == PASS then 1 else 0
    {
      r := ApplyPrefix();
      if r == PASS {
        fails := fails + 1;
      }
    }

    method PutOne(block: ProtoBlock) returns (r: Outcome)
      requires Valid()
      modifies hp.st
      ensures Valid() && r == PutBlockOutcome(old(hp.State()), block)
      ensures hp.State() == Apply(old(hp.State()), Op.PutBlock(block, peer))
    {
      ApplyKeepsSound(hp.State(), Op.PutBlock(block, peer));
      r := hp.PutBlock(block, peer);
    }

    /** Puts the received blocks in the order of the request, up to the first gap or error. */
    method ApplyPrefix() returns (r: Outcome)
      requires Valid()
      modifies hp.st
      ensures Valid() && (hp.State(), r) == PutAll(old(hp.State()), PrefixBlocks(queue.q[..]), peer)
    {
      ghost var bs := PrefixBlocks(queue.q[..]);
      var i := 0;
      while i < queue.q.Length && Received(queue.q[i])
        invariant 0 <= i <= |bs| && Valid()
        invariant bs == PrefixBlocks(queue.q[..])
        invariant PutAll(hp.State(), bs[i..], peer) == PutAll(old(hp.State()), bs, peer)
      {
        PrefixEnds(queue.q[..], i);
        PutOneMore(hp.State(), bs, i, peer);
        r := PutOne(queue.q[i].received.value);
        if r.Failure? { return; }
        i := i + 1;
      }
      PrefixEnds(queue.q[..], i);
      r := PASS;
    }
  }

  /** The IDs sent along are those of a block and its nearest ancestors. */
  ghost predicate AsksFrom(l: Ledger, id: BlockId, asked: seq<BlockId>)
  {
    HasBlock(l, id) && IsAncestorList(l.tree, NumOf(l.tree, id), IDS_BATCH, asked)
  }

  /** Position `i` of the queue belongs to the received prefix exactly if it has been received, the ones before
      it having been. */
  lemma {:induction false} PrefixEnds(items: seq<Item>, i: nat)
    requires i <= |PrefixBlocks(items)|
    ensures i == |PrefixBlocks(items)| <==> i == |items| || !Received(items[i])
  {
  }

  lemma {:induction false} PutOneMore(l: Ledger, bs: seq<ProtoBlock>, i: nat, a: Addr)
    requires i < |bs|
    ensures PutAll(l, bs[i..], a) ==
            if PutBlockOutcome(l, bs[i]) != PASS then (l, PutBlockOutcome(l, bs[i]))
            else PutAll(Apply(l, Op.PutBlock(bs[i], a)), bs[i + 1..], a)
  {
    assert bs[i..][0] == bs[i] && bs[i..][1..] == bs[i + 1..];
  }

  lemma {:induction false} KnownPrefixIs(l: Ledger, ids: seq<BlockId>, n: nat)
    requires n <= |ids| && forall i :: 0 <= i < n ==> HasBlock(l, ids[i])
    requires n < |ids| ==> !HasBlock(l, ids[n])
    ensures KnownPrefix(l, ids) == n
  {
    if n > 0 {
      KnownPrefixIs(l, ids[1..], n - 1);
    }
  }

  /** The first `i` IDs name stored blocks, and the leash has followed them. */
  ghost predicate Followed(l: Ledger, genesis: BlockId, a: Addr, ids: seq<BlockId>, i: nat, m: Ledger)
  {
    && i <= |ids| && m == Follow(l, genesis, a, ids[..i]) && m.tree == l.tree
    && forall j :: 0 <= j < i ==> HasBlock(l, ids[j])
  }

  lemma {:induction false} FollowedOneMore(
    l: Ledger, genesis: BlockId, a: Addr, ids: seq<BlockId>, i: nat, m: Ledger, next: Ledger)
    requires Followed(l, genesis, a, ids, i, m) && i < |ids| && HasBlock(m, ids[i])
    requires next == if LeashOr(m, genesis, a) == ids[i] then m else Apply(m, Op.MoveLeash(ids[i], a))
    ensures Followed(l, genesis, a, ids, i + 1, next)
  {
    FollowOneMore(l, genesis, a, ids, i);
  }

  lemma {:induction false} FollowedAll(
    l: Ledger, genesis: BlockId, a: Addr, ids: seq<BlockId>, i: nat, m: Ledger)
    requires Followed(l, genesis, a, ids, i, m) && (i < |ids| ==> !HasBlock(m, ids[i]))
    ensures KnownPrefix(l, ids) == i && m == Follow(l, genesis, a, ids[..i])
  {
    KnownPrefixIs(l, ids, i);
  }

  lemma {:induction false} FollowOneMore(l: Ledger, genesis: BlockId, a: Addr, ids: seq<BlockId>, i: nat)
    requires i < |ids|
    ensures var m := Follow(l, genesis, a, ids[..i]);
            Follow(l, genesis, a, ids[..i + 1])
            == if LeashOr(m, genesis, a) == ids[i] then m else Apply(m, Op.MoveLeash(ids[i], a))
    decreases i
  {
    if i == 0 {
      assert ids[..1][1..] == [];
    } else {
      var n := if LeashOr(l, genesis, a) == ids[0] then l else Apply(l, Op.MoveLeash(ids[0], a));
      assert ids[..i][1..] == ids[1..][..i - 1] && ids[..i + 1][1..] == ids[1..][..i];
      FollowOneMore(n, genesis, a, ids[1..], i - 1);
    }
  }

  lemma {:induction false} AskedAt(t: Tree, n: nat, asked: seq<BlockId>, j: nat)
    requires WellFormed(t) && 1 <= n < |t| && IsAncestorList(t, n, IDS_BATCH, asked) && j < |asked|
    ensures Anc(t, n, j) >= 1 && NumOf(t, asked[j]) == Anc(t, n, j)
  {
    AncHeight(t, n, j);
    assert Indexed(t, Anc(t, n, j));
  }

  /** What is sent along, ID by ID: at most 100, the given block first, then always the parent of the one before, and
      fewer only if genesis is reached. */
  lemma {:induction false} AskedIDs(l: Ledger, id: BlockId, asked: seq<BlockId>)
    requires WellFormed(l.tree) && AsksFrom(l, id, asked)
    ensures 1 <= |asked| <= 100 && NumOf(l.tree, asked[0]) == NumOf(l.tree, id)
    ensures forall j :: 0 <= j < |asked| ==> HasBlock(l, asked[j])
    ensures forall j :: 0 < j < |asked| ==> NumOf(l.tree, asked[j]) == Parent(l.tree, NumOf(l.tree, asked[j - 1]))
    ensures |asked| < 100 ==> NumOf(l.tree, asked[|asked| - 1]) == 1
  {
    var t, n := l.tree, NumOf(l.tree, id);
    AskedAt(t, n, asked, 0);
    forall j | 0 <= j < |asked|
      ensures HasBlock(l, asked[j])
    {
      AskedAt(t, n, asked, j);
    }
    forall j | 0 < j < |asked|
      ensures NumOf(t, asked[j]) == Parent(t, NumOf(t, asked[j - 1]))
    {
      AskedAt(t, n, asked, j - 1);
      AskedAt(t, n, asked, j);
      OneStepUp(t, n, j - 1);
    }
    if |asked| < 100 {
      AskedAt(t, n, asked, |asked| - 1);
      OnlyRoot(t, n);
    }
  }

  lemma {:induction false} OneStepUp(t: Tree, n: nat, j: nat)
    ensures Anc(t, n, j + 1) == Parent(t, Anc(t, n, j))
  {
    AncAdd(t, n, j, 1);
    assert Anc(t, Anc(t, n, j), 1) == Anc(t, Parent(t, Anc(t, n, j)), 0);
  }

  lemma StoredLeash(l: Ledger, genesis: BlockId, a: Addr)
    requires Sound(l) && l.tree[1].id == genesis
    ensures HasBlock(l, LeashOr(l, genesis, a))
  {
    assert Indexed(l.tree, 1) && Leashed(l, a);
  }

  lemma StoredLcb(l: Ledger, genesis: BlockId, a: Addr, lcb: Result<BlockId>)
    requires Sound(l) && l.tree[1].id == genesis && LcbAnswer(l, genesis, a, lcb) && lcb.Success?
    ensures HasBlock(l, lcb.value)
  {
    assert Indexed(l.tree, 1);
    if a in l.leashes {
      var ls := Scanned(l.leashes);
      var main :| IsMain(l.tree, ls, main) && lcb == LcaAnswer(l.tree, main, l.leashes[a]);
      StoredAnswer(l.tree, main, l.leashes[a]);
    }
  }

  lemma {:induction false} PutAllErrors(l: Ledger, bs: seq<ProtoBlock>, a: Addr)
    ensures PutAll(l, bs, a).1 != Failure(NoTransition)
    decreases |bs|
  {
    if bs != [] && PutBlockOutcome(l, bs[0]) == PASS {
      PutAllErrors(Apply(l, Op.PutBlock(bs[0], a)), bs[1..], a);
    }
  }

  lemma {:induction false} LcbErrors(l: Ledger, genesis: BlockId, a: Addr, lcb: Result<BlockId>)
    requires LcbAnswer(l, genesis, a, lcb)
    ensures lcb != Failure(NoTransition)
  {
  }

  /** No event ever leads to a trigger that is not configured, although `Done` has no rule for a full queue. */
  lemma {:induction false} NeverUnconfigured(v: View, e: Event, now: int, lcb: Result<BlockId>)
    requires e == Restart ==> LcbAnswer(v.led, v.genesis, v.peer, lcb)
    ensures Handle(v, e, now, lcb).1 != Failure(NoTransition)
    ensures RuleFor(v.state, Outside(e)) != NotConfigured
  {
    match e
    case Start =>
    case Restart => LcbErrors(v.led, v.genesis, v.peer, lcb);
    case IDs(_) =>
    case BlockArrived(b) => PutAllErrors(v.led, PrefixBlocks(PutItem(v.items, b)), v.peer);
    case Tick(_) => PutAllErrors(v.led, PrefixBlocks(v.items), v.peer);
  }
}
