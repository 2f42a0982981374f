/** A load from its list of IDs to the report, seen by the loader: what the delivered chain means for the next step. */
module CatchingUp {
  import opened Entities
  import opened BlockTree
  import opened Scores
  import opened Ledger
  import opened Loading
  import opened LoadRuns
  import opened Sessions

  /** A run of the load as actions of the loader, with the answer `reg` of the registry for each event. */
  function ActsOf(hs: seq<Happening>, reg: Registered): seq<Action>
  {
    if hs == [] then []
    else ActsOf(hs[..|hs| - 1], reg) + [ActOf(hs[|hs| - 1], reg)]
  }

  function ActOf(h: Happening, reg: Registered): Action
  {
    match h
    case Fired(e, now, _) => Delivers(e, reg, now)
    case Elsewhere(op) => Action.Elsewhere(op)
  }

  lemma {:induction false} LcbUnused(v: View, e: Event, now: int, lcb: Result<BlockId>)
    requires v.state != Idle
    ensures Handle(v, e, now, lcb) == Handle(v, e, now, Failure(NotFound))
  {
  }

  /** A step without a report is the same for the loader. */
  lemma {:induction false} SameStep(s: Session, h: Happening, reg: Registered)
    requires s.load.Some? && s.load.value.led == s.led && s.load.value.state != Idle
    requires var v, w := s.load.value, Step(s.load.value, h); w.oks == v.oks && w.fails == v.fails
    ensures var w := Step(s.load.value, h); Act(s, ActOf(h, reg)) == s.(load := Some(w), led := w.led)
  {
    if h.Fired? {
      LcbUnused(s.load.value, h.event, h.now, h.lcb);
    }
  }

  /** While the load collects, the loader sees exactly the run of the load. */
  lemma {:induction false} RunsAlike(s: Session, ids: seq<BlockId>, hs: seq<Happening>, reg: Registered)
    requires s.load.Some? && s.load.value.led == s.led && Collecting(s.load.value, ids)
    requires Undisturbed(s.load.value, ids, hs) && !Completes(s.load.value, ids, hs)
    ensures var w := RunAll(s.load.value, hs); ActAll(s, ActsOf(hs, reg)) == s.(load := Some(w), led := w.led)
    decreases |hs|
  {
    if hs != [] {
      var v, pre, h := s.load.value, hs[..|hs| - 1], hs[|hs| - 1];
      assert hs == pre + [h];
      RunAppend(v, pre, h);
      RunsAlike(s, ids, pre, reg);
      LoadOutcome(v, ids, pre);
      LoadOutcome(v, ids, hs);
      ActAppend(s, ActsOf(pre, reg), ActOf(h, reg));
      SameStep(ActAll(s, ActsOf(pre, reg)), h, reg);
    }
  }

  /** What the loader makes of the report of a batch that ends with block `last`. */
  ghost predicate Judged(s: Session, t: Session, p: Addr, last: BlockId, x: nat)
  {
    var score := Score(t.led.tree, NumOf(t.led.tree, last));
    && t.counts == s.counts[p := 0]
    && (x <= score ==> t.load == None && t.prevDiff == None)
    && (x > score && s.prevDiff == Some(x - score) ==> t.load == None && t.prevDiff == None)
    && (x > score && s.prevDiff != Some(x - score) ==> t.load.Some? && t.prevDiff == Some(x - score))
  }

  /** The step at which a batch is delivered. */
  lemma {:induction false} DeliveryIsJudged(s: Session, h: Happening, ids: seq<BlockId>, x: nat)
    requires s.load.Some? && s.load.value.led == s.led && s.load.value.state != Idle && h.Fired?
    requires Delivered(s.load.value, Step(s.load.value, h), ids)
    ensures var t := Act(s, ActOf(h, Announced(x)));
      && t.led == Step(s.load.value, h).led
      && Judged(s, t, s.load.value.peer, ids[|ids| - 1], x)
  {
    var w, last := Step(s.load.value, h), ids[|ids| - 1];
    LcbUnused(s.load.value, h.event, h.now, h.lcb);
    LeashedBatch(s, ActOf(h, Announced(x)), w, last, x, Score(w.led.tree, NumOf(w.led.tree, last)));
  }

  /** A load ends with the batch that brings its peer's leash up to the announced score, in whatever order the blocks
      came and whatever else happened: when the last missing block arrives all requested blocks are stored, the leash is
      on the last of them, and the load is over if the announced score is not above the score of that block. If it is
      above, the load goes on, unless just this difference is remembered. */
  lemma {:induction false} LoadEndsCaughtUp(
    s: Session, ids: seq<BlockId>, pre: seq<Happening>, h: Happening, reg: Registered, x: nat)
    requires s.load.Some? && s.load.value.led == s.led && Collecting(s.load.value, ids)
    requires Undisturbed(s.load.value, ids, pre + [h])
    requires !Completes(s.load.value, ids, pre) && Completes(s.load.value, ids, pre + [h])
    ensures var t := ActAll(s, ActsOf(pre, reg) + [ActOf(h, Announced(x))]);
      var p, last := s.load.value.peer, ids[|ids| - 1];
      && (forall id :: id in ids ==> HasBlock(t.led, id))
      && p in t.led.leashes && t.led.leashes[p] == last
      && Judged(s, t, p, last, x)
  {
    var v, u, hs := s.load.value, RunAll(s.load.value, pre), pre + [h];
    assert hs[..|hs| - 1] == pre && hs[|hs| - 1] == h;
    RunAppend(v, pre, h);
    LoadOutcome(v, ids, pre);
    LoadOutcome(v, ids, hs);
    RunsAlike(s, ids, pre, reg);
    ActAppend(s, ActsOf(pre, reg), ActOf(h, Announced(x)));
    DeliveryIsJudged(s.(load := Some(u), led := u.led), h, ids, x);
  }
}
