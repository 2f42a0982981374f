/** Whole runs of a peer loader (loading/peer_loader.go) beside other users of the same linkage. */
module LoadRuns {
  import opened Entities
  import opened BlockTree
  import opened Ledger
  import opened LoaderQueue
  import opened Loading

  /** Something happens: an event for the loader, or a call of another component on the same linkage. */
  datatype Happening = Fired(event: Event, now: int, lcb: Result<BlockId>) | Elsewhere(op: Op)

  function Step(v: View, h: Happening): View
  {
    match h
    case Fired(e, now, lcb) => Handle(v, e, now, lcb).0
    case Elsewhere(op) => v.(led := Apply(v.led, op))
  }

  function RunAll(v: View, hs: seq<Happening>): View
    decreases |hs|
  {
    if hs == [] then v else RunAll(Step(v, hs[0]), hs[1..])
  }

  lemma {:induction false} StepKeepsBlocks(v: View, h: Happening)
    requires WellFormed(v.led.tree)
    ensures WellFormed(Step(v, h).led.tree) && v.led.tree <= Step(v, h).led.tree
    ensures forall id :: HasBlock(v.led, id) ==> HasBlock(Step(v, h).led, id)
  {
    match h
    case Elsewhere(op) => ApplyKeepsTree(v.led, op);
    case Fired(e, now, lcb) => HandleKeepsBlocks(v, e, now, lcb);
  }

  lemma {:induction false} RunKeepsBlocks(v: View, hs: seq<Happening>)
    requires WellFormed(v.led.tree)
    ensures WellFormed(RunAll(v, hs).led.tree) && v.led.tree <= RunAll(v, hs).led.tree
    ensures forall id :: HasBlock(v.led, id) ==> HasBlock(RunAll(v, hs).led, id)
    decreases |hs|
  {
    if hs != [] {
      StepKeepsBlocks(v, hs[0]);
      RunKeepsBlocks(Step(v, hs[0]), hs[1..]);
    }
  }

  lemma {:induction false} RunAppend(v: View, hs: seq<Happening>, h: Happening)
    ensures RunAll(v, hs + [h]) == Step(RunAll(v, hs), h)
    decreases |hs|
  {
    if hs == [] {
      assert [h][1..] == [];
    } else {
      assert (hs + [h])[1..] == hs[1..] + [h];
      RunAppend(Step(v, hs[0]), hs[1..], h);
    }
  }

  lemma {:induction false} RunOne(v: View, h: Happening)
    ensures RunAll(v, [h]) == Step(v, h)
  {
    assert [h][1..] == [];
  }

  lemma {:induction false} RunConcat(v: View, hs: seq<Happening>, gs: seq<Happening>)
    ensures RunAll(v, hs + gs) == RunAll(RunAll(v, hs), gs)
    decreases |hs|
  {
    if hs == [] {
      assert [] + gs == gs;
    } else {
      assert (hs + gs)[1..] == hs[1..] + gs;
      RunConcat(Step(v, hs[0]), hs[1..], gs);
    }
  }

  // ----- requests and reports

  /** Requests for IDs and reports match, but for a request that still waits. */
  ghost predicate Even(v: View)
  {
    v.entries == v.oks + v.fails + if Waiting(v) then 1 else 0
  }

  /** A timeout whose received blocks cannot all be put. */
  ghost predicate LosesReport(v: View, h: Happening)
  {
    && h.Fired? && h.event.Tick? && Waiting(v) && Expired(v.stamp, h.event.time)
    && !Connected(v.led, PrefixBlocks(v.items))
  }

  ghost predicate LosesNoReport(v: View, hs: seq<Happening>)
    decreases |hs|
  {
    hs == [] || (!LosesReport(v, hs[0]) && LosesNoReport(Step(v, hs[0]), hs[1..]))
  }

  /** The one step that breaks the balance. */
  lemma {:induction false} StepBalance(v: View, h: Happening)
    requires Balanced(v) && WellFormed(v.led.tree)
    ensures Balanced(Step(v, h))
    ensures Even(Step(v, h)) <==> Even(v) && !LosesReport(v, h)
  {
    if h.Fired? {
      HandleKeepsBalance(v, h.event, h.now, h.lcb);
      if h.event.Tick? && Waiting(v) && Expired(v.stamp, h.event.time) {
        TimeoutReportedIffConnected(v, h.event.time, h.now, h.lcb);
      }
    }
  }

  /** Over all event sequences, with any other calls in between: requests and reports match at the end exactly if they
      did at the start and no timeout on the way had blocks that could not be put. */
  lemma {:induction false} ReportsBalance(v: View, hs: seq<Happening>)
    requires Balanced(v) && WellFormed(v.led.tree)
    ensures Balanced(RunAll(v, hs))
    ensures Even(RunAll(v, hs)) <==> Even(v) && LosesNoReport(v, hs)
    decreases |hs|
  {
    if hs != [] {
      StepBalance(v, hs[0]);
      StepKeepsBlocks(v, hs[0]);
      ReportsBalance(Step(v, hs[0]), hs[1..]);
    }
  }

  ghost predicate AllPass(v: View, hs: seq<Happening>)
    decreases |hs|
  {
    hs == [] ||
    ((hs[0].Fired? ==> Handle(v, hs[0].event, hs[0].now, hs[0].lcb).1 == PASS) && AllPass(Step(v, hs[0]), hs[1..]))
  }

  /** In particular they match after a run in which every event is handled without an error. */
  lemma {:induction false} PassingRunBalances(v: View, hs: seq<Happening>)
    requires Balanced(v) && Even(v) && WellFormed(v.led.tree) && AllPass(v, hs)
    ensures Even(RunAll(v, hs))
    decreases |hs|
  {
    if hs != [] {
      StepBalance(v, hs[0]);
      StepKeepsBlocks(v, hs[0]);
      if LosesReport(v, hs[0]) {
        PutAllSucceedsIffConnected(v.led, PrefixBlocks(v.items), v.peer);
      }
      PassingRunBalances(Step(v, hs[0]), hs[1..]);
    }
  }

  /** `Done` is absorbing: no event moves the load, its queue or its reports any more. */
  lemma {:induction false} DoneIsAbsorbing(v: View, hs: seq<Happening>)
    requires v.state == Done
    ensures RunAll(v, hs).(led := v.led) == v
    ensures (forall h :: h in hs ==> h.Fired?) ==> RunAll(v, hs) == v
    decreases |hs|
  {
    if hs != [] {
      DoneIsAbsorbing(Step(v, hs[0]), hs[1..]);
      assert hs[0] in hs;
    }
  }

  ghost predicate CarefulHappenings(v: View, hs: seq<Happening>)
    decreases |hs|
  {
    hs == [] ||
    ((hs[0].Elsewhere? && hs[0].op.MoveLeash? ==> HasBlock(v.led, hs[0].op.id))
     && CarefulHappenings(Step(v, hs[0]), hs[1..]))
  }

  /** Over loader and linkage steps in any mixture, every leash stays on a stored block. The loader's own calls of
      `MoveLeash` are safe without any assumption. */
  lemma {:induction false} LeashesStaySafe(v: View, hs: seq<Happening>)
    requires Sound(v.led) && CarefulHappenings(v, hs)
    ensures Sound(RunAll(v, hs).led)
    decreases |hs|
  {
    if hs != [] {
      match hs[0] {
        case Fired(e, now, lcb) => HandleKeepsSound(v, e, now, lcb);
        case Elsewhere(op) => ApplyKeepsSound(v.led, op);
      }
      LeashesStaySafe(Step(v, hs[0]), hs[1..]);
    }
  }

  // ----- completing a load

  /** The blocks that arrive in a run. */
  function Arrivals(hs: seq<Happening>): seq<ProtoBlock>
    decreases |hs|
  {
    if hs == [] then []
    else (if hs[0].Fired? && hs[0].event.BlockArrived? then [hs[0].event.block] else []) + Arrivals(hs[1..])
  }

  /** `plan` is the chain asked for: block i has the i-th requested ID, and they link up from a stored block. */
  ghost predicate PlanFor(plan: seq<ProtoBlock>, ids: seq<BlockId>, l: Ledger)
  {
    && |plan| == |ids| && ids != []
    && (forall i :: 0 <= i < |ids| ==> plan[i].id == ids[i])
    && IsChain(plan) && HasBlock(l, plan[0].parent)
  }

  /** An ID determines the block: whatever arrives under a requested ID is the requested block. */
  ghost predicate Genuine(bs: seq<ProtoBlock>, plan: seq<ProtoBlock>)
  {
    forall b, i :: b in bs && 0 <= i < |plan| && b.id == plan[i].id ==> b == plan[i]
  }

  lemma {:induction false} ArrivalsAppend(hs: seq<Happening>, h: Happening)
    ensures Arrivals(hs + [h]) == Arrivals(hs) + Arrivals([h])
    decreases |hs|
  {
    if hs == [] {
      assert [h] + [] == [h];
    } else {
      assert (hs + [h])[1..] == hs[1..] + [h];
      ArrivalsAppend(hs[1..], h);
    }
  }

  lemma {:induction false} PutItemsAppend(items: seq<Item>, bs: seq<ProtoBlock>, b: ProtoBlock)
    ensures PutItems(items, bs + [b]) == PutItem(PutItems(items, bs), b)
    decreases |bs|
  {
    if bs == [] {
      assert [b][1..] == [];
    } else {
      assert (bs + [b])[1..] == bs[1..] + [b];
      PutItemsAppend(PutItem(items, bs[0]), bs[1..], b);
    }
  }

  /** While blocks are outstanding only a tick more than 30 seconds after the request disturbs the load: other ticks,
      lists of IDs and starts are ignored, and so are blocks that nobody asked for. */
  ghost predicate Patient(stamp: Option<int>, h: Happening)
  {
    h.Fired? && h.event.Tick? ==> stamp.Some? && h.event.time - stamp.value <= 30_000_000_000
  }

  /** The load is started anew. */
  ghost predicate Starts(h: Happening)
  {
    h.Fired? && (h.event.Start? || h.event.Restart?)
  }

  /** A full queue of genuine blocks holds the plan. */
  lemma {:induction false} FullQueueIsPlan(plan: seq<ProtoBlock>, ids: seq<BlockId>, bs: seq<ProtoBlock>)
    requires |plan| == |ids| && forall i :: 0 <= i < |ids| ==> plan[i].id == ids[i]
    requires Genuine(bs, plan) && AllReceived(PutItems(NewItems(ids), bs)) && ids != []
    ensures PrefixBlocks(PutItems(NewItems(ids), bs)) == plan
  {
    var items := PutItems(NewItems(ids), bs);
    FilledByArrival(NewItems(ids), bs, 0);
    PrefixIsAll(items);
    forall i | 0 <= i < |ids|
      ensures items[i].received.value == plan[i]
    {
      FilledByArrival(NewItems(ids), bs, i);
      assert Received(items[i]);
    }
  }

  lemma {:induction false} PlanIds(plan: seq<ProtoBlock>, ids: seq<BlockId>, id: BlockId)
    requires |plan| == |ids| && forall i :: 0 <= i < |ids| ==> plan[i].id == ids[i]
    ensures Arrived(plan, id) <==> id in ids
  {
    if id in ids {
      var i :| 0 <= i < |ids| && ids[i] == id;
      assert plan[i] in plan;
    }
  }

  /** Blocks `ids` have been delivered: the report is made and they are stored in addition, the leash on the last. */
  ghost predicate Delivered(v: View, w: View, ids: seq<BlockId>)
  {
    && w.state == Idle && w.oks == v.oks + 1 && w.peer == v.peer
    && ids != [] && w.led.leashes == v.led.leashes[v.peer := ids[|ids| - 1]]
    && forall id :: HasBlock(w.led, id) <==> HasBlock(v.led, id) || id in ids
  }

  lemma {:induction false} FullArrival(v: View, b: ProtoBlock, plan: seq<ProtoBlock>, now: int, lcb: Result<BlockId>)
    requires v.state == WaitingForBlocks
    requires AllReceived(PutItem(v.items, b)) && PrefixBlocks(PutItem(v.items, b)) == plan
    ensures var w, r := Handle(v, BlockArrived(b), now, lcb), PutAll(v.led, plan, v.peer);
      && w.1 == r.1 && w.0.led == r.0 && w.0.peer == v.peer
      && (if r.1 == PASS then w.0.state == Idle && w.0.oks == v.oks + 1 else w.0.state == WaitingForBlocks)
  {
    PrefixIsAll(PutItem(v.items, b));
  }

  lemma {:induction false} PlanPut(l: Ledger, plan: seq<ProtoBlock>, ids: seq<BlockId>, a: Addr)
    requires WellFormed(l.tree) && PutAll(l, plan, a).1 == PASS && ids != []
    requires |plan| == |ids| && forall i :: 0 <= i < |ids| ==> plan[i].id == ids[i]
    ensures var m := PutAll(l, plan, a).0;
      && m.leashes == l.leashes[a := ids[|ids| - 1]]
      && forall id :: HasBlock(m, id) <==> HasBlock(l, id) || id in ids
  {
    PutAllEffect(l, plan, a);
    forall id
      ensures Arrived(plan, id) <==> id in ids
    {
      PlanIds(plan, ids, id);
    }
  }

  /** A full queue holds one block for each ID asked for. */
  lemma {:induction false} QueueIds(ids: seq<BlockId>, bs: seq<ProtoBlock>)
    requires AllReceived(PutItems(NewItems(ids), bs)) && ids != []
    ensures var q := PrefixBlocks(PutItems(NewItems(ids), bs));
      |q| == |ids| && forall i :: 0 <= i < |ids| ==> q[i].id == ids[i]
  {
    var items := PutItems(NewItems(ids), bs);
    FilledByArrival(NewItems(ids), bs, 0);
    PrefixIsAll(items);
    forall i | 0 <= i < |ids|
      ensures items[i].received.value.id == ids[i]
    {
      FilledByArrival(NewItems(ids), bs, i);
      assert Received(items[i]);
    }
  }

  /** The arrival that completes the queue delivers the blocks, exactly if they are connected to what is stored. */
  lemma {:induction false} ConnectedArrival(v: View, ids: seq<BlockId>, bs: seq<ProtoBlock>, b: ProtoBlock,
                                            now: int, lcb: Result<BlockId>)
    requires v.state == WaitingForBlocks && v.items == PutItems(NewItems(ids), bs) && WellFormed(v.led.tree)
    requires AllReceived(PutItems(NewItems(ids), bs + [b])) && ids != []
    ensures var q := PrefixBlocks(PutItems(NewItems(ids), bs + [b]));
      && (Delivered(v, Handle(v, BlockArrived(b), now, lcb).0, ids) <==> Connected(v.led, q))
      && (Handle(v, BlockArrived(b), now, lcb).1 == PASS <==> Connected(v.led, q))
  {
    var q := PrefixBlocks(PutItems(NewItems(ids), bs + [b]));
    PutItemsAppend(NewItems(ids), bs, b);
    QueueIds(ids, bs + [b]);
    FullArrival(v, b, q, now, lcb);
    PutAllSucceedsIffConnected(v.led, q, v.peer);
    if Connected(v.led, q) {
      PlanPut(v.led, q, ids, v.peer);
    }
  }

  /** For a chain on top of a stored block that is: exactly if its heights fit 32 bits. */
  lemma {:induction false} CompletingArrival(v: View, ids: seq<BlockId>, plan: seq<ProtoBlock>, bs: seq<ProtoBlock>,
                                             b: ProtoBlock, now: int, lcb: Result<BlockId>)
    requires v.state == WaitingForBlocks && v.items == PutItems(NewItems(ids), bs) && WellFormed(v.led.tree)
    requires PlanFor(plan, ids, v.led) && Genuine(bs + [b], plan)
    requires AllReceived(PutItems(NewItems(ids), bs + [b]))
    ensures Delivered(v, Handle(v, BlockArrived(b), now, lcb).0, ids) <==> HeightsFit(v.led, plan)
    ensures Handle(v, BlockArrived(b), now, lcb).1 == PASS <==> HeightsFit(v.led, plan)
  {
    FullQueueIsPlan(plan, ids, bs + [b]);
    ConnectedArrival(v, ids, bs, b, now, lcb);
    ChainAccepted(v.led, plan, v.peer);
    PutAllSucceedsIffConnected(v.led, plan, v.peer);
  }

  ghost predicate AllArrived(ids: seq<BlockId>, hs: seq<Happening>)
  {
    forall id :: id in ids ==> Arrived(Arrivals(hs), id)
  }

  lemma {:induction false} OneMoreHappening(ids: seq<BlockId>, hs: seq<Happening>, h: Happening)
    ensures AllArrived(ids, hs) ==> AllArrived(ids, hs + [h])
    ensures Arrivals(hs + [h])
         == if h.Fired? && h.event.BlockArrived? then Arrivals(hs) + [h.event.block] else Arrivals(hs)
  {
    ArrivalsAppend(hs, h);
    assert [h][1..] == [] && Arrivals([h][1..]) == [];
    assert Arrivals(hs) + [] == Arrivals(hs);
    if AllArrived(ids, hs) {
      forall id | id in ids
        ensures Arrived(Arrivals(hs + [h]), id)
      {
        var b :| b in Arrivals(hs) && b.id == id;
        assert b in Arrivals(hs + [h]);
      }
    }
  }

  /** The queue after the blocks of a run have arrived. */
  function QueueOf(ids: seq<BlockId>, hs: seq<Happening>): seq<Item>
  {
    PutItems(NewItems(ids), Arrivals(hs))
  }

  /** A block arrives, and with it the queue is full and its blocks are connected to what is stored at this moment. */
  ghost predicate CompletesAt(l: Ledger, ids: seq<BlockId>, hs: seq<Happening>, h: Happening)
  {
    h.Fired? && h.event.BlockArrived? && AllReceived(QueueOf(ids, hs)) && Connected(l, PrefixBlocks(QueueOf(ids, hs)))
  }

  /** Such a moment occurs in the run. */
  ghost predicate Completes(v: View, ids: seq<BlockId>, hs: seq<Happening>)
    decreases |hs|
  {
    hs != [] &&
    var pre, h := hs[..|hs| - 1], hs[|hs| - 1];
    Completes(v, ids, pre) || CompletesAt(RunAll(v, pre).led, ids, hs, h)
  }

  /** No timeout hits the load before it is complete, and nobody starts it anew after. */
  ghost predicate Undisturbed(v: View, ids: seq<BlockId>, hs: seq<Happening>)
    decreases |hs|
  {
    if hs == [] then true
    else
      var pre, h := hs[..|hs| - 1], hs[|hs| - 1];
      Undisturbed(v, ids, pre) && if Completes(v, ids, pre) then !Starts(h) else Patient(v.stamp, h)
  }

  /** A load of `ids` that has just begun to collect blocks. */
  ghost predicate Collecting(v: View, ids: seq<BlockId>)
  {
    v.state == WaitingForBlocks && v.items == NewItems(ids) && ids != [] && WellFormed(v.led.tree)
  }

  /** The load before it is complete. */
  ghost predicate Incomplete(v: View, w: View, items: seq<Item>)
  {
    && w.state == WaitingForBlocks && w.items == items && w.oks == v.oks && w.fails == v.fails
    && w.peer == v.peer && w.stamp == v.stamp
  }

  /** The load once it is complete. */
  ghost predicate Complete(v: View, w: View, ids: seq<BlockId>)
  {
    w.state == Idle && w.oks == v.oks + 1 && w.peer == v.peer && forall id :: id in ids ==> HasBlock(w.led, id)
  }

  lemma {:induction false} StaysIncomplete(v: View, u: View, items: seq<Item>, h: Happening)
    requires Incomplete(v, u, items) && Patient(v.stamp, h)
    requires h.Fired? && h.event.BlockArrived? && AllReceived(PutItem(items, h.event.block)) ==>
               PutAll(u.led, PrefixBlocks(PutItem(items, h.event.block)), u.peer).1 != PASS
    ensures Incomplete(v, Step(u, h),
                       if h.Fired? && h.event.BlockArrived? then PutItem(items, h.event.block) else items)
  {
    if h.Fired? && h.event.BlockArrived? {
      PrefixIsAll(PutItem(items, h.event.block));
    }
  }

  lemma {:induction false} StaysComplete(v: View, u: View, ids: seq<BlockId>, h: Happening)
    requires Complete(v, u, ids) && WellFormed(u.led.tree) && !Starts(h)
    ensures Complete(v, Step(u, h), ids)
  {
    StepKeepsBlocks(u, h);
  }

  lemma {:induction false} QueueAppend(ids: seq<BlockId>, pre: seq<Happening>, h: Happening)
    ensures QueueOf(ids, pre + [h])
         == if h.Fired? && h.event.BlockArrived? then PutItem(QueueOf(ids, pre), h.event.block) else QueueOf(ids, pre)
  {
    OneMoreHappening(ids, pre, h);
    if h.Fired? && h.event.BlockArrived? {
      PutItemsAppend(NewItems(ids), Arrivals(pre), h.event.block);
    }
  }

  /** A step that does not complete the load. */
  lemma {:induction false} NotYet(v: View, u: View, ids: seq<BlockId>, pre: seq<Happening>, h: Happening)
    requires Incomplete(v, u, QueueOf(ids, pre)) && WellFormed(u.led.tree) && Patient(v.stamp, h)
    requires !CompletesAt(u.led, ids, pre + [h], h)
    ensures Incomplete(v, Step(u, h), QueueOf(ids, pre + [h]))
  {
    QueueAppend(ids, pre, h);
    PutAllSucceedsIffConnected(u.led, PrefixBlocks(QueueOf(ids, pre + [h])), u.peer);
    StaysIncomplete(v, u, QueueOf(ids, pre), h);
  }

  /** The step that does. */
  lemma {:induction false} CompletesNow(v: View, u: View, ids: seq<BlockId>, pre: seq<Happening>, h: Happening)
    requires Incomplete(v, u, QueueOf(ids, pre)) && WellFormed(u.led.tree) && ids != []
    requires CompletesAt(u.led, ids, pre + [h], h)
    ensures Delivered(u, Step(u, h), ids) && Complete(v, Step(u, h), ids)
  {
    OneMoreHappening(ids, pre, h);
    ConnectedArrival(u, ids, Arrivals(pre), h.event.block, h.now, h.lcb);
  }

  /** For every order of arrival, with duplicates, foreign blocks, ticks, stray lists of IDs and any other calls on the
      linkage in between: OK is reported at the first arrival at which the queue is full and connected to what is
      stored, exactly once, and never if there is none. At that moment exactly the requested blocks are added and the
      leash is on the last of them; from then on all of them are stored. */
  lemma {:induction false} LoadOutcome(v: View, ids: seq<BlockId>, hs: seq<Happening>)
    requires Collecting(v, ids) && Undisturbed(v, ids, hs)
    ensures WellFormed(RunAll(v, hs).led.tree)
    ensures if Completes(v, ids, hs) then Complete(v, RunAll(v, hs), ids)
            else Incomplete(v, RunAll(v, hs), QueueOf(ids, hs))
    ensures Completes(v, ids, hs) && !Completes(v, ids, hs[..|hs| - 1]) ==>
              Delivered(RunAll(v, hs[..|hs| - 1]), RunAll(v, hs), ids)
    decreases |hs|
  {
    RunKeepsBlocks(v, hs);
    if hs != [] {
      var pre, h := hs[..|hs| - 1], hs[|hs| - 1];
      assert hs == pre + [h];
      var u := RunAll(v, pre);
      RunAppend(v, pre, h);
      LoadOutcome(v, ids, pre);
      if Completes(v, ids, pre) {
        StaysComplete(v, u, ids, h);
      } else if CompletesAt(u.led, ids, pre + [h], h) {
        CompletesNow(v, u, ids, pre, h);
      } else {
        NotYet(v, u, ids, pre, h);
      }
    }
  }

  // ----- a chain that a peer really has

  /** The heights of the requested blocks fit at the moment the last of them arrives. */
  ghost predicate FitsAtLast(v: View, ids: seq<BlockId>, plan: seq<ProtoBlock>, hs: seq<Happening>)
    decreases |hs|
  {
    if hs == [] then true
    else
      var pre := hs[..|hs| - 1];
      && FitsAtLast(v, ids, plan, pre)
      && (!AllArrived(ids, pre) && AllArrived(ids, hs) ==> HeightsFit(RunAll(v, pre).led, plan))
  }

  lemma {:induction false} LastToArrive(ids: seq<BlockId>, pre: seq<Happening>, h: Happening)
    requires Distinct(ids) && !AllArrived(ids, pre) && AllArrived(ids, pre + [h])
    ensures h.Fired? && h.event.BlockArrived? && AllReceived(QueueOf(ids, pre + [h]))
  {
    OneMoreHappening(ids, pre, h);
    ReadyExactly(ids, Arrivals(pre + [h]));
  }

  /** When the last requested block arrives the queue holds the plan, which is connected. */
  lemma {:induction false} PlanConnects(
    l: Ledger, m: Ledger, ids: seq<BlockId>, plan: seq<ProtoBlock>, pre: seq<Happening>, h: Happening)
    requires Distinct(ids) && !AllArrived(ids, pre) && AllArrived(ids, pre + [h])
    requires PlanFor(plan, ids, l) && Genuine(Arrivals(pre + [h]), plan) && Extends(l, m) && HeightsFit(m, plan)
    ensures CompletesAt(m, ids, pre + [h], h)
  {
    LastToArrive(ids, pre, h);
    FullQueueIsPlan(plan, ids, Arrivals(pre + [h]));
    ChainAccepted(m, plan, V4([]));
    PutAllSucceedsIffConnected(m, plan, V4([]));
  }

  /** A chain on top of a stored block whose blocks arrive under their own IDs completes exactly when all of them have
      arrived. */
  lemma {:induction false} ChainCompletes(v: View, ids: seq<BlockId>, plan: seq<ProtoBlock>, hs: seq<Happening>)
    requires Collecting(v, ids) && Distinct(ids) && PlanFor(plan, ids, v.led)
    requires Genuine(Arrivals(hs), plan) && FitsAtLast(v, ids, plan, hs)
    ensures Completes(v, ids, hs) <==> AllArrived(ids, hs)
    decreases |hs|
  {
    if hs == [] {
      assert ids[0] in ids;
    } else {
      var pre, h := hs[..|hs| - 1], hs[|hs| - 1];
      assert hs == pre + [h];
      OneMoreHappening(ids, pre, h);
      ChainCompletes(v, ids, plan, pre);
      if !AllArrived(ids, pre) && AllArrived(ids, hs) {
        RunKeepsBlocks(v, pre);
        PlanConnects(v.led, RunAll(v, pre).led, ids, plan, pre, h);
      }
      if AllReceived(QueueOf(ids, hs)) {
        ReadyExactly(ids, Arrivals(hs));
      }
    }
  }

  /** So OK is reported when all requested blocks have arrived, exactly once, and from then on they are stored. */
  lemma {:induction false} LoadCompletes(v: View, ids: seq<BlockId>, plan: seq<ProtoBlock>, hs: seq<Happening>)
    requires Collecting(v, ids) && Distinct(ids) && PlanFor(plan, ids, v.led) && Undisturbed(v, ids, hs)
    requires Genuine(Arrivals(hs), plan) && FitsAtLast(v, ids, plan, hs)
    ensures if AllArrived(ids, hs) then Complete(v, RunAll(v, hs), ids)
            else Incomplete(v, RunAll(v, hs), QueueOf(ids, hs))
  {
    ChainCompletes(v, ids, plan, hs);
    LoadOutcome(v, ids, hs);
  }

  // ----- two runs that end badly

  function AllElsewhere(ops: seq<Op>): seq<Happening>
  {
    if ops == [] then [] else [Elsewhere(ops[0])] + AllElsewhere(ops[1..])
  }

  lemma {:induction false} ElsewhereRuns(v: View, ops: seq<Op>)
    ensures RunAll(v, AllElsewhere(ops)) == v.(led := Run(v.led, ops))
    decreases |ops|
  {
    if ops != [] {
      var hs := AllElsewhere(ops);
      assert hs[1..] == AllElsewhere(ops[1..]);
      ElsewhereRuns(Step(v, hs[0]), ops[1..]);
    }
  }

  /** A load that is complete, its queue still full of the blocks `plan`. */
  ghost predicate FullQueue(u: View, plan: seq<ProtoBlock>)
  {
    u.state == Idle && PrefixBlocks(u.items) == plan && WellFormed(u.led.tree)
    && forall i :: 0 <= i < |plan| ==> HasBlock(u.led, plan[i].id)
  }

  lemma {:induction false} QueueAfter(v: View, b: ProtoBlock, now: int, lcb: Result<BlockId>)
    requires v.state == WaitingForBlocks
    ensures Handle(v, BlockArrived(b), now, lcb).0.items == PutItem(v.items, b)
  {
  }

  lemma {:induction false} PlanIsStored(v: View, w: View, plan: seq<ProtoBlock>, ids: seq<BlockId>)
    requires Delivered(v, w, ids) && |plan| == |ids| && forall i :: 0 <= i < |ids| ==> plan[i].id == ids[i]
    ensures forall i :: 0 <= i < |plan| ==> HasBlock(w.led, plan[i].id)
  {
    forall i | 0 <= i < |plan|
      ensures HasBlock(w.led, plan[i].id)
    {
      assert plan[i].id == ids[i] && ids[i] in ids;
    }
  }

  lemma {:induction false} CompletedQueueIsFull(v: View, w: View, ids: seq<BlockId>, plan: seq<ProtoBlock>,
                                                bs: seq<ProtoBlock>, b: ProtoBlock, now: int, lcb: Result<BlockId>)
    requires v.state == WaitingForBlocks && v.items == PutItems(NewItems(ids), bs) && WellFormed(v.led.tree)
    requires PlanFor(plan, ids, v.led) && Genuine(bs + [b], plan) && HeightsFit(v.led, plan)
    requires AllReceived(PutItems(NewItems(ids), bs + [b])) && w == Step(v, Fired(BlockArrived(b), now, lcb))
    ensures FullQueue(w, plan) && Delivered(v, w, ids)
  {
    CompletingArrival(v, ids, plan, bs, b, now, lcb);
    StepKeepsBlocks(v, Fired(BlockArrived(b), now, lcb));
    PutItemsAppend(NewItems(ids), bs, b);
    FullQueueIsPlan(plan, ids, bs + [b]);
    QueueAfter(v, b, now, lcb);
    PlanIsStored(v, w, plan, ids);
  }

  /** A request that is never answered, while anything happens on the linkage. */
  lemma {:induction false} UnansweredRequest(
    u: View, plan: seq<ProtoBlock>, now: int, ops: seq<Op>, time: int, lcb: Result<BlockId>)
    requires FullQueue(u, plan) && plan != [] && time - now > TIMEOUT
    ensures var w := RunAll(u, [Fired(Start, now, lcb)] + AllElsewhere(ops) + [Fired(Tick(time), time, lcb)]);
      var l := Run(u.led, ops);
      && w.state == Done && w.fails == u.fails + 1 && w.oks == u.oks
      && w.led == l.(leashes := l.leashes[u.peer := plan[|plan| - 1].id])
  {
    var start, tick := Fired(Start, now, lcb), Fired(Tick(time), time, lcb);
    var u1 := Step(u, start);
    var u2 := u1.(led := Run(u.led, ops));
    assert ([start] + AllElsewhere(ops))[1..] == AllElsewhere(ops);
    ElsewhereRuns(u1, ops);
    RunAppend(u, [start] + AllElsewhere(ops), tick);
    RunOnlyAppends(u.led, ops);
    LateTimeoutMovesLeashBack(u2, time, time, lcb);
  }

  /** The last block of a batch arrives, the next list of IDs is asked for and never comes, and meanwhile other calls
      move the peer's leash: the timeout reports a failure, stores nothing, and puts the leash back on the last block
      of the batch. */
  lemma {:induction false} LateTimeoutRun(
    v: View, ids: seq<BlockId>, plan: seq<ProtoBlock>, bs: seq<ProtoBlock>, b: ProtoBlock,
    now: int, ops: seq<Op>, time: int, lcb: Result<BlockId>)
    requires v.state == WaitingForBlocks && v.items == PutItems(NewItems(ids), bs) && WellFormed(v.led.tree)
    requires PlanFor(plan, ids, v.led) && Genuine(bs + [b], plan) && HeightsFit(v.led, plan)
    requires AllReceived(PutItems(NewItems(ids), bs + [b])) && time - now > TIMEOUT
    ensures var arrival := [Fired(BlockArrived(b), now, lcb)];
      var rest := [Fired(Start, now, lcb)] + AllElsewhere(ops) + [Fired(Tick(time), time, lcb)];
      var w, l := RunAll(v, arrival + rest), Run(RunAll(v, arrival).led, ops);
      && w.state == Done && w.oks == v.oks + 1 && w.fails == v.fails + 1
      && w.led == l.(leashes := l.leashes[v.peer := ids[|ids| - 1]])
  {
    var arrival := [Fired(BlockArrived(b), now, lcb)];
    var rest := [Fired(Start, now, lcb)] + AllElsewhere(ops) + [Fired(Tick(time), time, lcb)];
    var u := RunAll(v, arrival);
    RunOne(v, arrival[0]);
    CompletedQueueIsFull(v, u, ids, plan, bs, b, now, lcb);
    HandleKeepsCounts(v, b, now, lcb);
    UnansweredRequest(u, plan, now, ops, time, lcb);
    RunConcat(v, arrival, rest);
  }

  lemma {:induction false} HandleKeepsCounts(v: View, b: ProtoBlock, now: int, lcb: Result<BlockId>)
    ensures Handle(v, BlockArrived(b), now, lcb).0.fails == v.fails
  {
  }

  /** A peer announces one block whose parent nobody has, and delivers it: the distributor cannot put it, the loader
      cannot, and the timeout ends the load without a report. */
  lemma {:induction false} OrphanIsNotReported(v: View, b: ProtoBlock, now: int, time: int, lcb: Result<BlockId>)
    requires v == FreshLoad(v.peer, v.genesis, v.led)
    requires !HasBlock(v.led, b.id) && !HasBlock(v.led, b.parent) && time - now > TIMEOUT
    ensures var w := RunAll(v, [Fired(Start, now, lcb), Fired(IDs([b.id]), now, lcb), Elsewhere(PutBlock(b, v.peer)),
                                Fired(BlockArrived(b), now, lcb), Fired(Tick(time), time, lcb)]);
      w.state == Done && w.led == v.led && w.entries == 1 && w.oks == 0 && w.fails == 0
  {
    var v1 := v.(state := WaitingForIDs, entries := 1, stamp := Some(now));
    var v2 := v1.(state := WaitingForBlocks, items := NewItems([b.id]), wanted := [b.id]);
    var v4 := v2.(items := [Item(b.id, Some(b))]);
    var h1, h2, h3, h4, h5 := Fired(Start, now, lcb), Fired(IDs([b.id]), now, lcb), Elsewhere(PutBlock(b, v.peer)),
                              Fired(BlockArrived(b), now, lcb), Fired(Tick(time), time, lcb);
    assert Step(v, h1) == v1;
    OneUnknownID(v1, b.id, now, lcb);
    assert Step(v2, h3) == v2;
    assert PutItem(v2.items, b) == v4.items;
    OrphanRejected(v4.items, b, v.led, v.peer);
    assert Step(v2, h4) == v4;
    assert Step(v4, h5) == v4.(state := Done);
    FiveSteps(v, h1, h2, h3, h4, h5);
  }

  lemma {:induction false} OneUnknownID(v: View, id: BlockId, now: int, lcb: Result<BlockId>)
    requires v.state == WaitingForIDs && !HasBlock(v.led, id)
    ensures Handle(v, IDs([id]), now, lcb).0
         == v.(state := WaitingForBlocks, items := NewItems([id]), wanted := [id], stamp := Some(now))
  {
    var ids := [id];
    assert KnownPrefix(v.led, ids) == 0 && ids[..0] == [] && ids[0..] == ids;
  }

  lemma {:induction false} OrphanRejected(items: seq<Item>, b: ProtoBlock, l: Ledger, a: Addr)
    requires items == [Item(b.id, Some(b))] && !HasBlock(l, b.id) && !HasBlock(l, b.parent)
    ensures ReceivedPrefix(items) == 1 && PutAll(l, PrefixBlocks(items), a) == (l, Failure(ParentNotFound))
  {
    assert Received(items[0]);
    ReceivedPrefixIs(items, 1);
    assert PrefixBlocks(items)[0] == b;
  }

  lemma {:induction false} FiveSteps(v: View, h1: Happening, h2: Happening, h3: Happening, h4: Happening, h5: Happening)
    ensures RunAll(v, [h1, h2, h3, h4, h5]) == Step(Step(Step(Step(Step(v, h1), h2), h3), h4), h5)
  {
    RunOne(v, h1);
    RunAppend(v, [h1], h2);
    RunAppend(v, [h1, h2], h3);
    RunAppend(v, [h1, h2, h3], h4);
    RunAppend(v, [h1, h2, h3, h4], h5);
    assert [h1] + [h2] == [h1, h2] && [h1, h2] + [h3] == [h1, h2, h3];
    assert [h1, h2, h3] + [h4] == [h1, h2, h3, h4] && [h1, h2, h3, h4] + [h5] == [h1, h2, h3, h4, h5];
  }
}
