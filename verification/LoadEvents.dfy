/** What a single event can do to a load (loading/peer_loader.go), by the clock and by the queue, and what that means
    for whole runs. */
module LoadEvents {
  import opened Entities
  import opened BlockTree
  import opened Ledger
  import opened LoaderQueue
  import opened Loading
  import opened LoadRuns

  // ----- the clock

  /** While a load waits, a tick changes nothing as long as at most 30 seconds have passed since the last request; any
      later tick ends the load. */
  lemma {:induction false} TickAfterThirtySeconds(v: View, since: int, time: int, now: int, lcb: Result<BlockId>)
    requires v.state == WaitingForIDs || v.state == WaitingForBlocks
    requires v.stamp == Some(since)
    ensures time - since <= 30_000_000_000 ==> Handle(v, Tick(time), now, lcb) == (v, PASS)
    ensures time - since > 30_000_000_000 ==> Handle(v, Tick(time), now, lcb).0.state == Done
  {
  }

  /** When the last common block could not be found there has been no request, and the first tick ends the load. */
  lemma {:induction false} TickWithoutRequest(v: View, time: int, now: int, lcb: Result<BlockId>)
    requires v.state == WaitingForIDs || v.state == WaitingForBlocks
    requires v.stamp == None
    ensures Handle(v, Tick(time), now, lcb).0.state == Done
  {
  }

  /** The time of the last request, by the event that makes it. */
  lemma {:induction false} RequestsSetTheClock(v: View, ids: seq<BlockId>, now: int, lcb: Result<BlockId>)
    requires v.state == Idle
    ensures Handle(v, Start, now, lcb).0.stamp == Some(now)
    ensures Handle(v, Restart, now, lcb).0.stamp == if lcb.Success? then Some(now) else v.stamp
    ensures var w := Handle(v, Start, now, lcb).0; var u := Handle(w, IDs(ids), now + 1, lcb).0;
            u.stamp == if u.state == WaitingForBlocks then Some(now + 1) else Some(now)
  {
  }

  // ----- events that are ignored

  /** A tick that comes more than 30 seconds after the last request, or without any request. */
  predicate Late(v: View, e: Event)
  {
    e.Tick? && (v.stamp.None? || e.time - v.stamp.value > 30_000_000_000)
  }

  /** Whether an event is one that the load waits for. */
  predicate Expects(v: View, e: Event)
  {
    match v.state
    case Idle => e.Start? || e.Restart?
    case WaitingForIDs => e.IDs? || Late(v, e)
    case WaitingForBlocks => e.BlockArrived? || Late(v, e)
    case Done => false
  }

  /** Every event that is not expected leaves the whole load as it is; every expected one moves it to another state,
      except for a block, of which the queue decides. */
  lemma {:induction false} UnexpectedIsIgnored(v: View, e: Event, now: int, lcb: Result<BlockId>)
    ensures !Expects(v, e) ==> Handle(v, e, now, lcb) == (v, PASS)
    ensures Expects(v, e) && !e.BlockArrived? ==> Handle(v, e, now, lcb).0.state != v.state
  {
  }

  /** An arrival that leaves a gap in the queue only fills the queue. */
  lemma {:induction false} GapKeepsWaiting(v: View, b: ProtoBlock, i: nat, now: int, lcb: Result<BlockId>)
    requires v.state == WaitingForBlocks && i < |PutItem(v.items, b)| && !Received(PutItem(v.items, b)[i])
    ensures Handle(v, BlockArrived(b), now, lcb) == (v.(items := PutItem(v.items, b)), PASS)
  {
  }

  /** The linkage is changed by a load only when it learns IDs, when a block fills its queue, and when it times out; and
      only the leash of its own peer is moved. */
  lemma {:induction false} OwnLeashOnly(v: View, e: Event, now: int, lcb: Result<BlockId>)
    ensures Handle(v, e, now, lcb).0.led != v.led ==>
              || (v.state == WaitingForIDs && e.IDs?)
              || (v.state == WaitingForBlocks && e.BlockArrived? && AllReceived(PutItem(v.items, e.block)))
              || Late(v, e)
    ensures var m := Handle(v, e, now, lcb).0.led;
            forall a :: a != v.peer ==> LeashAt(m, a) == LeashAt(v.led, a)
  {
    HandleLedger(v, e, now, lcb);
    if e.BlockArrived? {
      PrefixIsAll(PutItem(v.items, e.block));
      PutAllOthers(v.led, PrefixBlocks(PutItem(v.items, e.block)), v.peer);
    } else if e.IDs? {
      FollowEffect(v.led, v.genesis, v.peer, e.ids[..KnownPrefix(v.led, e.ids)]);
    } else if e.Tick? {
      PutAllOthers(v.led, PrefixBlocks(v.items), v.peer);
    }
  }

  function LeashAt(l: Ledger, a: Addr): Option<BlockId>
  {
    if a in l.leashes then Some(l.leashes[a]) else None
  }

  lemma {:induction false} PutAllOthers(l: Ledger, bs: seq<ProtoBlock>, a: Addr)
    ensures forall b :: b != a ==> LeashAt(PutAll(l, bs, a).0, b) == LeashAt(l, b)
    decreases |bs|
  {
    if bs != [] && PutBlockOutcome(l, bs[0]) == PASS {
      PutAllOthers(Apply(l, PutBlock(bs[0], a)), bs[1..], a);
    }
  }

  // ----- when a batch is reported

  /** The two ways to finish a batch: a list of IDs that are all stored, or an arrival after which every position of the
      queue is received and the blocks are connected to what is stored. */
  ghost predicate FinishesBatch(v: View, e: Event)
  {
    || (v.state == WaitingForIDs && e.IDs? && forall id :: id in e.ids ==> HasBlock(v.led, id))
    || (v.state == WaitingForBlocks && e.BlockArrived? && AllReceived(PutItem(v.items, e.block))
        && Connected(v.led, PrefixBlocks(PutItem(v.items, e.block))))
  }

  lemma {:induction false} AllKnown(l: Ledger, ids: seq<BlockId>)
    ensures KnownPrefix(l, ids) == |ids| <==> forall id :: id in ids ==> HasBlock(l, id)
  {
    if KnownPrefix(l, ids) < |ids| {
      assert ids[KnownPrefix(l, ids)] in ids;
    }
  }

  /** OK is reported exactly then, once, and the load is idle afterwards. */
  lemma {:induction false} OKExactlyWhen(v: View, e: Event, now: int, lcb: Result<BlockId>)
    requires WellFormed(v.led.tree)
    ensures var w := Handle(v, e, now, lcb).0;
      w.oks == v.oks + (if FinishesBatch(v, e) then 1 else 0) && (FinishesBatch(v, e) ==> w.state == Idle)
  {
    match e
    case IDs(ids) => AllKnown(v.led, ids);
    case BlockArrived(b) =>
      PrefixIsAll(PutItem(v.items, b));
      PutAllSucceedsIffConnected(v.led, PrefixBlocks(PutItem(v.items, b)), v.peer);
    case _ =>
  }

  /** Failure is reported exactly when a late tick finds the received blocks connected. */
  lemma {:induction false} FailExactlyWhen(v: View, e: Event, now: int, lcb: Result<BlockId>)
    requires WellFormed(v.led.tree)
    ensures Handle(v, e, now, lcb).0.fails == v.fails +
              if (v.state == WaitingForIDs || v.state == WaitingForBlocks) && Late(v, e)
                 && Connected(v.led, PrefixBlocks(v.items)) then 1 else 0
  {
    PutAllSucceedsIffConnected(v.led, PrefixBlocks(v.items), v.peer);
  }

  /** And then all that was announced or asked for is stored: every listed ID, or the ID at every position of the queue,
      which also holds the block. */
  lemma {:induction false} OKMeansStored(v: View, e: Event, now: int, lcb: Result<BlockId>)
    requires WellFormed(v.led.tree) && Handle(v, e, now, lcb).0.oks > v.oks
    ensures var w := Handle(v, e, now, lcb).0;
      if e.IDs? then v.state == WaitingForIDs && forall id :: id in e.ids ==> HasBlock(w.led, id)
      else
        && e.BlockArrived? && v.state == WaitingForBlocks
        && forall i :: 0 <= i < |w.items| ==>
             && w.items[i].received.Some? && w.items[i].received.value.id == w.items[i].requested
             && HasBlock(w.led, w.items[i].requested)
  {
    OKExactlyWhen(v, e, now, lcb);
    HandleKeepsBlocks(v, e, now, lcb);
    if e.BlockArrived? {
      var items := PutItem(v.items, e.block);
      QueueIsStored(v.led, items, v.peer);
      PrefixIsAll(items);
    }
  }

  lemma {:induction false} QueueIsStored(l: Ledger, items: seq<Item>, a: Addr)
    requires WellFormed(l.tree) && AllReceived(items) && PutAll(l, PrefixBlocks(items), a).1 == PASS
    ensures forall i :: 0 <= i < |items| ==> HasBlock(PutAll(l, PrefixBlocks(items), a).0, items[i].requested)
  {
    var bs := PrefixBlocks(items);
    PrefixIsAll(items);
    PutAllEffect(l, bs, a);
    forall i | 0 <= i < |items|
      ensures HasBlock(PutAll(l, bs, a).0, items[i].requested)
    {
      assert Received(items[i]) && bs[i] in bs && bs[i].id == items[i].requested;
    }
  }

  // ----- whole runs

  /** How many batches the run finishes. */
  ghost function Finished(v: View, hs: seq<Happening>): nat
    decreases |hs|
  {
    if hs == [] then 0
    else (if hs[0].Fired? && FinishesBatch(v, hs[0].event) then 1 else 0) + Finished(Step(v, hs[0]), hs[1..])
  }

  /** Over every run OK is reported once for each batch that is finished, and never else. */
  lemma {:induction false} OneOKPerBatch(v: View, hs: seq<Happening>)
    requires WellFormed(v.led.tree)
    ensures RunAll(v, hs).oks == v.oks + Finished(v, hs)
    decreases |hs|
  {
    if hs != [] {
      if hs[0].Fired? {
        OKExactlyWhen(v, hs[0].event, hs[0].now, hs[0].lcb);
      }
      StepKeepsBlocks(v, hs[0]);
      OneOKPerBatch(Step(v, hs[0]), hs[1..]);
    }
  }

  /** Nothing that a load in state `s` with its last request at `since` waits for: in `WaitingForIDs` no list of IDs, in
      `WaitingForBlocks` no block, and no tick more than 30 seconds after the request. Other calls on the linkage go
      on. */
  ghost predicate NothingComes(s: State, since: int, hs: seq<Happening>)
  {
    forall h :: h in hs && h.Fired? ==>
      && (s == WaitingForIDs ==> !h.event.IDs?)
      && (s == WaitingForBlocks ==> !h.event.BlockArrived?)
      && (h.event.Tick? ==> h.event.time - since <= 30_000_000_000)
  }

  /** What other components do in a run. */
  function Others(hs: seq<Happening>): seq<Op>
  {
    if hs == [] then []
    else (if hs[0].Elsewhere? then [hs[0].op] else []) + Others(hs[1..])
  }

  /** Then the load just waits: nothing about it changes. */
  lemma {:induction false} JustWaits(v: View, since: int, hs: seq<Happening>)
    requires (v.state == WaitingForIDs || v.state == WaitingForBlocks) && v.stamp == Some(since)
    requires NothingComes(v.state, since, hs)
    ensures RunAll(v, hs) == v.(led := Run(v.led, Others(hs)))
    decreases |hs|
  {
    if hs != [] {
      var h := hs[0];
      assert h in hs;
      assert forall g :: g in hs[1..] ==> g in hs;
      if h.Fired? {
        UnexpectedIsIgnored(v, h.event, h.now, h.lcb);
        assert Others(hs) == [] + Others(hs[1..]) == Others(hs[1..]);
        JustWaits(v, since, hs[1..]);
      } else {
        assert Others(hs) == [h.op] + Others(hs[1..]);
        assert Others(hs)[1..] == Others(hs[1..]);
        JustWaits(Step(v, h), since, hs[1..]);
      }
    }
  }

  /** From a request for IDs on: whatever blocks the peer broadcasts and however often the ticker fires within 30
      seconds, the load waits for the list of IDs, without a report. */
  lemma {:induction false} RequestWaits(v: View, now: int, lcb: Result<BlockId>, hs: seq<Happening>)
    requires v.state == Idle && NothingComes(WaitingForIDs, now, hs)
    ensures RunAll(v, [Fired(Start, now, lcb)] + hs)
         == v.(state := WaitingForIDs, entries := v.entries + 1, stamp := Some(now), led := Run(v.led, Others(hs)))
  {
    var start := Fired(Start, now, lcb);
    assert ([start] + hs)[1..] == hs;
    JustWaits(Step(v, start), now, hs);
  }

  /** The first tick after the 30 seconds ends it. */
  lemma {:induction false} RequestTimesOut(v: View, now: int, lcb: Result<BlockId>, hs: seq<Happening>, time: int)
    requires v.state == Idle && NothingComes(WaitingForIDs, now, hs) && time - now > 30_000_000_000
    ensures RunAll(v, [Fired(Start, now, lcb)] + hs + [Fired(Tick(time), time, lcb)]).state == Done
  {
    RequestWaits(v, now, lcb, hs);
    RunAppend(v, [Fired(Start, now, lcb)] + hs, Fired(Tick(time), time, lcb));
    TickAfterThirtySeconds(RunAll(v, [Fired(Start, now, lcb)] + hs), now, time, time, lcb);
  }

  /** The same from a request for blocks on, as long as no block comes. */
  lemma {:induction false} BlocksAwaited(v: View, ids: seq<BlockId>, now: int, lcb: Result<BlockId>, hs: seq<Happening>)
    requires v.state == WaitingForIDs && NothingComes(WaitingForBlocks, now, hs)
    requires exists id :: id in ids && !HasBlock(v.led, id)
    ensures var w := RunAll(v, [Fired(IDs(ids), now, lcb)] + hs);
      w.state == WaitingForBlocks && w.stamp == Some(now) && w.oks == v.oks && w.fails == v.fails
  {
    var asks := Fired(IDs(ids), now, lcb);
    AllKnown(v.led, ids);
    assert ([asks] + hs)[1..] == hs;
    JustWaits(Step(v, asks), now, hs);
  }
}
