/** What the loader does (loading/loader.go), one action at a time: the load in progress, the failure counters and the
    remembered gap; and what holds over whole sequences of loads. */
module Sessions {
  import opened Entities
  import opened Powers
  import opened BlockTree
  import opened Scores
  import opened Ledger
  import opened Loading

  /** After this many failures in a row a load starts from the last common block. */
  const RESTART_THRESHOLD: nat := 10

  // ----- failure counters

  /** The failure counters and the peer being loaded. */
  datatype Tracker = Tracker(counts: map<Addr, nat>, loading: Option<Addr>)

  datatype Episode = Begins(peer: Addr) | Succeeds(continues: bool) | Fails

  function Count(counts: map<Addr, nat>, a: Addr): nat
  {
    if a in counts then counts[a] else 0
  }

  /** A load begins when none is running; a success or a failure ends or continues the one running. */
  function Track(t: Tracker, e: Episode): Tracker
  {
    match (t.loading, e)
    case (None, Begins(p)) =>
      Tracker(if Count(t.counts, p) >= RESTART_THRESHOLD then t.counts[p := 0] else t.counts, Some(p))
    case (Some(p), Succeeds(continues)) => Tracker(t.counts[p := 0], if continues then Some(p) else None)
    case (Some(p), Fails) => Tracker(t.counts[p := Count(t.counts, p) + 1], None)
    case _ => t
  }

  function TrackAll(t: Tracker, es: seq<Episode>): Tracker
    decreases |es|
  {
    if es == [] then t else TrackAll(Track(t, es[0]), es[1..])
  }

  /** The counters never pass the threshold, and are below it for the peer being loaded. */
  ghost predicate InRange(t: Tracker)
  {
    && (forall a :: a in t.counts ==> t.counts[a] <= RESTART_THRESHOLD)
    && (t.loading.Some? ==> Count(t.counts, t.loading.value) < RESTART_THRESHOLD)
  }

  /** Over any run of loads, successes and failures. */
  lemma {:induction false} CountersStayInRange(t: Tracker, es: seq<Episode>)
    requires InRange(t)
    ensures InRange(TrackAll(t, es))
    decreases |es|
  {
    if es != [] {
      CountersStayInRange(Track(t, es[0]), es[1..]);
    }
  }

  lemma {:induction false} TrackAppend(t: Tracker, es: seq<Episode>, e: Episode)
    ensures TrackAll(t, es + [e]) == Track(TrackAll(t, es), e)
    decreases |es|
  {
    if es == [] {
      assert [e][1..] == [];
    } else {
      assert (es + [e])[1..] == es[1..] + [e];
      TrackAppend(Track(t, es[0]), es[1..], e);
    }
  }

  /** `n` loads of `p` in a row, all failing. */
  function FailingLoads(p: Addr, n: nat): seq<Episode>
  {
    if n == 0 then [] else FailingLoads(p, n - 1) + [Begins(p), Fails]
  }

  /** After `n` failures in a row the next load starts from the last common block exactly when `n` is a positive
      multiple of ten. */
  lemma {:induction false} EveryTenFailuresRestart(t: Tracker, p: Addr, n: nat)
    requires t.loading == None && Count(t.counts, p) == 0
    ensures var u := TrackAll(t, FailingLoads(p, n));
      && u.loading == None
      && Count(u.counts, p) == (if n == 0 then 0 else (n - 1) % 10 + 1)
      && (Count(u.counts, p) >= RESTART_THRESHOLD <==> n > 0 && n % 10 == 0)
  {
    if n > 0 {
      EveryTenFailuresRestart(t, p, n - 1);
      var es := FailingLoads(p, n - 1);
      assert FailingLoads(p, n) == (es + [Begins(p)]) + [Fails];
      TrackAppend(t, es, Begins(p));
      TrackAppend(t, es + [Begins(p)], Fails);
    }
  }

  /** A success, however the load goes on, starts the count of its peer over; nothing that happens to a load touches the
      count of another peer. */
  lemma {:induction false} SuccessForgets(t: Tracker, e: Episode)
    requires t.loading.Some?
    ensures e.Succeeds? ==> Count(Track(t, e).counts, t.loading.value) == 0
    ensures e.Fails? ==> Count(Track(t, e).counts, t.loading.value) == Count(t.counts, t.loading.value) + 1
    ensures forall a :: a != t.loading.value ==> Count(Track(t, e).counts, a) == Count(t.counts, a)
  {
  }

  /** So after a finished load of `p` the next restart comes after ten more failures in a row. */
  lemma {:induction false} TenFailuresAfterSuccess(t: Tracker, p: Addr, n: nat)
    requires t.loading == Some(p)
    ensures var u := TrackAll(t, [Succeeds(false)] + FailingLoads(p, n));
      u.loading == None && (Count(u.counts, p) >= 10 <==> n > 0 && n % 10 == 0)
  {
    var rest := FailingLoads(p, n);
    assert ([Succeeds(false)] + rest)[1..] == rest;
    EveryTenFailuresRestart(Track(t, Succeeds(false)), p, n);
  }

  // ----- the state of the loader

  /** A connected peer and the score it last announced, if any. */
  datatype Connection = Connection(addr: Addr, score: Option<nat>)

  /** What the registry answers about the peer of a finished batch: nothing when the database cannot be read, a peer
      without a score, or the score the peer last announced. */
  datatype Registered = Unreadable | NoScore | Announced(score: nat)

  /** The load in progress, the gap remembered from the last batch that led to another one, the failure counters, and
      the linkage. */
  datatype Session = Session(
    load: Option<View>,
    prevDiff: Option<int>,
    counts: map<Addr, nat>,
    genesis: BlockId,
    led: Ledger)

  /** The load works on the linkage of the loader. */
  ghost predicate Consistent(s: Session)
  {
    s.load.Some? ==> s.load.value.led == s.led
  }

  function Tracked(s: Session): Tracker
  {
    Tracker(s.counts, if s.load.None? then None else Some(s.load.value.peer))
  }

  /** How far the announced score of a peer is above the score of its leash. */
  function Gap(l: Ledger, genesis: BlockId, peer: Addr, announced: nat): int
  {
    announced - Score(l.tree, NumOf(l.tree, LeashOr(l, genesis, peer)))
  }

  /** A connected peer lags when it announces more than the score of the block it is leashed to. */
  predicate IsLagging(l: Ledger, genesis: BlockId, c: Connection)
  {
    c.score.Some? && c.score.value > Score(l.tree, NumOf(l.tree, LeashOr(l, genesis, c.addr)))
  }

  /** The lagging connections, in the order in which the registry lists them. */
  function LaggingOf(l: Ledger, genesis: BlockId, cs: seq<Connection>): seq<Connection>
  {
    if cs == [] then []
    else
      LaggingOf(l, genesis, cs[..|cs| - 1])
      + if IsLagging(l, genesis, cs[|cs| - 1]) then [cs[|cs| - 1]] else []
  }

  /** A load normally starts from the leash, after too many failures from the last common block `lcb`; the second start
      is then ignored. */
  function Begin(s: Session, peer: Addr, now: int, lcb: Result<BlockId>): Session
  {
    var v := FreshLoad(peer, s.genesis, s.led);
    var restarts := Count(s.counts, peer) >= RESTART_THRESHOLD;
    var w := if restarts then Handle(v, Restart, now, lcb).0 else v;
    s.(load := Some(Handle(w, Start, now, Failure(NotFound)).0),
       counts := if restarts then s.counts[peer := 0] else s.counts)
  }

  /** A sync: without a load in progress one begins for one of the lagging connections, if there are any. The random
      choice is `pick`. */
  function SyncStep(s: Session, cs: seq<Connection>, pick: nat, now: int, lcb: Result<BlockId>): Session
  {
    var lagging := LaggingOf(s.led, s.genesis, cs);
    if s.load.Some? || lagging == [] then s else Begin(s, lagging[pick % |lagging|].addr, now, lcb)
  }

  /** A peer that still lags is asked for more, unless the gap has not changed since the last time. */
  predicate Continues(gap: int, prevDiff: Option<int>)
  {
    gap > 0 && prevDiff != Some(gap)
  }

  /** The report of a finished batch. */
  function AfterOK(s: Session, reg: Registered, now: int): (Session, Outcome)
    requires s.load.Some?
  {
    var v := s.load.value;
    var t := s.(counts := s.counts[v.peer := 0]);
    match reg
    case Unreadable => (t, PASS)
    case NoScore => (t, Failure(Panic))
    case Announced(score) =>
      var gap := Gap(s.led, s.genesis, v.peer, score);
      if Continues(gap, s.prevDiff) then
        (t.(load := Some(Handle(v, Start, now, Failure(NotFound)).0), prevDiff := Some(gap)), PASS)
      else (t.(load := None, prevDiff := None), PASS)
  }

  /** A load begins with its counter below the threshold. */
  lemma {:induction false} BeginInRange(s: Session, peer: Addr, now: int, lcb: Result<BlockId>)
    requires InRange(Tracked(s))
    ensures InRange(Tracked(Begin(s, peer, now, lcb)))
  {
  }

  lemma {:induction false} AfterOKInRange(s: Session, reg: Registered, now: int)
    requires s.load.Some? && InRange(Tracked(s))
    ensures InRange(Tracked(AfterOK(s, reg, now).0))
  {
    HandleKeepsPeer(s.load.value, Start, now, Failure(NotFound));
  }

  /** The report of a timeout. The gap stays remembered. */
  function AfterFail(s: Session): Session
    requires s.load.Some?
  {
    var peer := s.load.value.peer;
    s.(load := None, counts := s.counts[peer := Count(s.counts, peer) + 1])
  }

  /** The load with the effect of the event, before its report is handled. */
  function Handled(s: Session, e: Event, now: int): Session
    requires s.load.Some?
  {
    var h := Handle(s.load.value, e, now, Failure(NotFound)).0;
    s.(load := Some(h), led := h.led)
  }

  /** An event for the load in progress, and the report it leads to. */
  function Deliver(s: Session, e: Event, reg: Registered, now: int): (Session, Outcome)
    requires s.load.Some?
  {
    var v, t := s.load.value, Handled(s, e, now);
    if t.load.value.oks > v.oks then AfterOK(t, reg, now)
    else if t.load.value.fails > v.fails then (AfterFail(t), PASS)
    else (t, PASS)
  }

  /** OK is reported on entering `Idle`, failure on entering `Done`. */
  lemma ReportsTellState(v: View, e: Event, now: int)
    requires e.IDs? || e.BlockArrived? || e.Tick?
    ensures forall lcb :: Handle(v, e, now, lcb) == Handle(v, e, now, Failure(NotFound))
    ensures var h := Handle(v, e, now, Failure(NotFound)).0;
            (h.oks > v.oks ==> h.state == Idle) && (h.fails > v.fails ==> h.state == Done)
  {
  }

  // ----- sequences of loads

  /** A load begins, an event arrives for the load in progress, or another component calls the linkage. */
  datatype Action =
    | Syncs(peer: Addr, now: int, lcb: Result<BlockId>)
    | Delivers(event: Event, reg: Registered, now: int)
    | Elsewhere(op: Op)

  function Act(s: Session, a: Action): Session
  {
    match a
    case Syncs(p, now, lcb) => if s.load.Some? then s else Begin(s, p, now, lcb)
    case Delivers(e, reg, now) => if s.load.None? then s else Deliver(s, e, reg, now).0
    case Elsewhere(op) =>
      var l := Apply(s.led, op);
      s.(led := l, load := if s.load.None? then None else Some(s.load.value.(led := l)))
  }

  function ActAll(s: Session, acts: seq<Action>): Session
    decreases |acts|
  {
    if acts == [] then s else ActAll(Act(s, acts[0]), acts[1..])
  }

  lemma {:induction false} ActAppend(s: Session, acts: seq<Action>, a: Action)
    ensures ActAll(s, acts + [a]) == Act(ActAll(s, acts), a)
    decreases |acts|
  {
    if acts == [] {
      assert [a][1..] == [];
    } else {
      assert (acts + [a])[1..] == acts[1..] + [a];
      ActAppend(Act(s, acts[0]), acts[1..], a);
    }
  }

  // ----- what an action reports

  /** The load in progress reports a finished batch, with this gap to the announced score. */
  ghost predicate ReportsGap(s: Session, a: Action, gap: int)
  {
    && a.Delivers? && s.load.Some? && a.reg.Announced?
    && var v := s.load.value; var h := Handle(v, a.event, a.now, Failure(NotFound)).0;
       h.oks > v.oks && gap == Gap(h.led, s.genesis, v.peer, a.reg.score)
  }

  /** The action leads to no report. */
  ghost predicate Silent(s: Session, a: Action)
  {
    a.Delivers? && s.load.Some? ==>
      var v := s.load.value; var h := Handle(v, a.event, a.now, Failure(NotFound)).0;
      h.oks == v.oks && h.fails == v.fails
  }

  ghost predicate AllSilent(s: Session, acts: seq<Action>)
    decreases |acts|
  {
    acts == [] || (Silent(s, acts[0]) && AllSilent(Act(s, acts[0]), acts[1..]))
  }

  /** Which load it is. */
  ghost predicate SameLoad(s: Session, t: Session)
  {
    && s.load.Some? && t.load.Some? && t.load.value.peer == s.load.value.peer
    && t.prevDiff == s.prevDiff && t.counts == s.counts && t.genesis == s.genesis
  }

  lemma {:induction false} SilentStep(s: Session, a: Action)
    requires s.load.Some? && Silent(s, a)
    ensures SameLoad(s, Act(s, a))
  {
    if a.Delivers? {
      HandleKeepsPeer(s.load.value, a.event, a.now, Failure(NotFound));
    }
  }

  lemma {:induction false} HandleKeepsPeer(v: View, e: Event, now: int, lcb: Result<BlockId>)
    ensures var w := Handle(v, e, now, lcb).0;
      && w.peer == v.peer && w.genesis == v.genesis
      && v.oks <= w.oks <= v.oks + 1 && v.fails <= w.fails <= v.fails + 1 && (w.oks > v.oks ==> w.state == Idle)
  {
  }

  /** Until it reports, a load keeps its peer, and the gap and the counters stay. */
  lemma {:induction false} SilentRun(s: Session, acts: seq<Action>)
    requires s.load.Some? && AllSilent(s, acts)
    ensures SameLoad(s, ActAll(s, acts))
    decreases |acts|
  {
    if acts != [] {
      SilentStep(s, acts[0]);
      SilentRun(Act(s, acts[0]), acts[1..]);
    }
  }

  lemma {:induction false} AnnouncedOK(t: Session, score: nat, now: int, gap: int)
    requires t.load.Some? && gap == Gap(t.led, t.genesis, t.load.value.peer, score)
    ensures var u := AfterOK(t, Announced(score), now).0;
      && (u.load.Some? <==> Continues(gap, t.prevDiff))
      && u.prevDiff == if Continues(gap, t.prevDiff) then Some(gap) else None
  {
  }

  lemma {:induction false} DeliverByReport(s: Session, e: Event, reg: Registered, now: int)
    requires s.load.Some?
    ensures var v, t := s.load.value, Handled(s, e, now);
      && Tracked(t) == Tracked(s)
      && Deliver(s, e, reg, now).0 == if t.load.value.oks > v.oks then AfterOK(t, reg, now).0
                                      else if t.load.value.fails > v.fails then AfterFail(t) else t
  {
    HandleKeepsPeer(s.load.value, e, now, Failure(NotFound));
  }

  /** A batch with gap `gap` leads to another one exactly if the peer still lags and the remembered gap is another; then
      the new gap is remembered, otherwise none. */
  lemma {:induction false} BatchOutcome(s: Session, a: Action, gap: int)
    requires ReportsGap(s, a, gap)
    ensures var t := Act(s, a);
      && (t.load.Some? <==> gap > 0 && s.prevDiff != Some(gap))
      && t.prevDiff == if t.load.Some? then Some(gap) else None
  {
    DeliverByReport(s, a.event, a.reg, a.now);
    AnnouncedOK(Handled(s, a.event, a.now), a.reg.score, a.now, gap);
  }

  /** In terms of scores: the load of a peer leashed to block `id` ends when the announced score is not above the score
      of that block, whatever is remembered; otherwise it goes on, unless just this difference is remembered. */
  lemma {:induction false} LeashedBatch(s: Session, a: Action, h: View, id: BlockId, x: nat, score: nat)
    requires s.load.Some? && a.Delivers? && a.reg == Announced(x)
    requires h == Handle(s.load.value, a.event, a.now, Failure(NotFound)).0 && h.oks > s.load.value.oks
    requires h.peer in h.led.leashes && h.led.leashes[h.peer] == id && score == Score(h.led.tree, NumOf(h.led.tree, id))
    ensures var t := Act(s, a);
      && t.led == h.led && t.genesis == s.genesis && t.counts == s.counts[s.load.value.peer := 0]
      && (x <= score ==> t.load == None && t.prevDiff == None)
      && (x > score && s.prevDiff == Some(x - score) ==> t.load == None && t.prevDiff == None)
      && (x > score && s.prevDiff != Some(x - score) ==>
            t.load.Some? && t.prevDiff == Some(x - score)
            && t.load.value.state == WaitingForIDs && t.load.value.stamp == Some(a.now))
  {
    HandleKeepsPeer(s.load.value, a.event, a.now, Failure(NotFound));
    DeliverByReport(s, a.event, a.reg, a.now);
    OKByScore(Handled(s, a.event, a.now), x, a.now, score);
  }

  /** An unleashed peer is measured against genesis. */
  lemma {:induction false} UnleashedBatch(s: Session, a: Action, h: View, x: nat, score: nat)
    requires s.load.Some? && a.Delivers? && a.reg == Announced(x)
    requires h == Handle(s.load.value, a.event, a.now, Failure(NotFound)).0 && h.oks > s.load.value.oks
    requires h.peer !in h.led.leashes && score == Score(h.led.tree, NumOf(h.led.tree, s.genesis))
    ensures var t := Act(s, a);
      && (x <= score ==> t.load == None && t.prevDiff == None)
      && (x > score && s.prevDiff == Some(x - score) ==> t.load == None && t.prevDiff == None)
      && (x > score && s.prevDiff != Some(x - score) ==> t.load.Some? && t.prevDiff == Some(x - score))
  {
    HandleKeepsPeer(s.load.value, a.event, a.now, Failure(NotFound));
    DeliverByReport(s, a.event, a.reg, a.now);
    OKByScore(Handled(s, a.event, a.now), x, a.now, score);
  }

  lemma {:induction false} OKByScore(t: Session, x: nat, now: int, score: nat)
    requires t.load.Some? && t.load.value.state == Idle
    requires var p := t.load.value.peer;
             score == Score(t.led.tree, NumOf(t.led.tree, if p in t.led.leashes then t.led.leashes[p] else t.genesis))
    ensures var u := AfterOK(t, Announced(x), now).0;
      && u.led == t.led && u.genesis == t.genesis && u.counts == t.counts[t.load.value.peer := 0]
      && (x <= score ==> u.load == None && u.prevDiff == None)
      && (x > score && t.prevDiff == Some(x - score) ==> u.load == None && u.prevDiff == None)
      && (x > score && t.prevDiff != Some(x - score) ==>
            u.load.Some? && u.prevDiff == Some(x - score)
            && u.load.value.state == WaitingForIDs && u.load.value.stamp == Some(now))
  {
  }

  // ----- who is loaded

  /** A connection lags exactly if its peer has announced a score, and that is above the score of the block the peer is
      leashed to, or of genesis for an unleashed peer. */
  lemma {:induction false} LaggingExactly(l: Ledger, genesis: BlockId, c: Connection)
    ensures c.score.None? ==> !IsLagging(l, genesis, c)
    ensures c.score.Some? && c.addr in l.leashes ==>
              (IsLagging(l, genesis, c) <==> c.score.value > Score(l.tree, NumOf(l.tree, l.leashes[c.addr])))
    ensures c.score.Some? && c.addr !in l.leashes ==>
              (IsLagging(l, genesis, c) <==> c.score.value > Score(l.tree, NumOf(l.tree, genesis)))
    ensures IsLagging(l, genesis, c) <==> c.score.Some? && Gap(l, genesis, c.addr, c.score.value) > 0
  {
  }

  lemma {:induction false} LaggingElements(l: Ledger, genesis: BlockId, cs: seq<Connection>, c: Connection)
    ensures c in LaggingOf(l, genesis, cs) <==> c in cs && IsLagging(l, genesis, c)
  {
    if cs != [] {
      LaggingElements(l, genesis, cs[..|cs| - 1], c);
      assert cs == cs[..|cs| - 1] + [cs[|cs| - 1]];
    }
  }

  /** The announced score of a connection is not above what its peer has. */
  ghost predicate UpToDate(l: Ledger, genesis: BlockId, c: Connection)
  {
    c.score.None? ||
    c.score.value <= Score(l.tree, NumOf(l.tree, if c.addr in l.leashes then l.leashes[c.addr] else genesis))
  }

  /** A load begins exactly if some connection is not up to date, and then for one that is not. */
  lemma {:induction false} SyncExactly(s: Session, cs: seq<Connection>, pick: nat, now: int, lcb: Result<BlockId>)
    requires s.load.None?
    ensures var t := SyncStep(s, cs, pick, now, lcb);
      && (t.load.Some? <==> exists c :: c in cs && !UpToDate(s.led, s.genesis, c))
      && (t.load.Some? ==>
            exists c :: c in cs && c.addr == t.load.value.peer && !UpToDate(s.led, s.genesis, c))
      && (t.load.None? ==> t == s)
  {
    var lagging := LaggingOf(s.led, s.genesis, cs);
    forall c
      ensures c in lagging <==> c in cs && !UpToDate(s.led, s.genesis, c)
    {
      LaggingElements(s.led, s.genesis, cs, c);
    }
    if lagging != [] {
      var c := lagging[pick % |lagging|];
      assert c in lagging;
      BeginsFor(s, c.addr, now, lcb);
    }
  }

  /** Every connection that is not up to date can be the one chosen. */
  lemma {:induction false} AnyoneCanBeChosen(
    s: Session, cs: seq<Connection>, c: Connection, now: int, lcb: Result<BlockId>) returns (pick: nat)
    requires s.load.None? && c in cs && !UpToDate(s.led, s.genesis, c)
    ensures SyncStep(s, cs, pick, now, lcb) == Begin(s, c.addr, now, lcb)
  {
    var lagging := LaggingOf(s.led, s.genesis, cs);
    LaggingElements(s.led, s.genesis, cs, c);
    pick :| 0 <= pick < |lagging| && lagging[pick] == c;
    SmallRemainder(pick, |lagging|);
  }

  /** A registry that cannot be read leaves the load where it is; a record without a score makes the process panic. */
  lemma {:induction false} WithoutAScore(s: Session, now: int)
    requires s.load.Some?
    ensures var (t, r) := AfterOK(s, Unreadable, now);
      r == PASS && t.load == s.load && t.prevDiff == s.prevDiff && t.counts == s.counts[s.load.value.peer := 0]
    ensures AfterOK(s, NoScore, now).1 == Failure(Panic)
    ensures forall x :: AfterOK(s, Announced(x), now).1 == PASS
  {
  }

  /** Such a load stays idle for good: no sync replaces it, and nothing its peer sends moves it. */
  lemma {:induction false} LeftIdle(s: Session, acts: seq<Action>)
    requires s.load.Some? && s.load.value.state == Idle && s.load.value.led == s.led
    requires forall a :: a in acts ==> a.Syncs? || (a.Delivers? && !a.event.Start? && !a.event.Restart?)
    ensures ActAll(s, acts) == s
    decreases |acts|
  {
    if acts != [] {
      assert acts[0] in acts;
      assert Act(s, acts[0]) == s;
      assert forall a :: a in acts[1..] ==> a in acts;
      LeftIdle(s, acts[1..]);
    }
  }

  /** After a load has ended because its peer had caught up, a sync over that connection alone changes nothing. */
  lemma {:induction false} CaughtUpStaysIdle(
    s: Session, a: Action, h: View, id: BlockId, x: nat, score: nat, pick: nat, now: int, lcb: Result<BlockId>)
    requires s.load.Some? && a.Delivers? && a.reg == Announced(x)
    requires h == Handle(s.load.value, a.event, a.now, Failure(NotFound)).0 && h.oks > s.load.value.oks
    requires h.peer in h.led.leashes && h.led.leashes[h.peer] == id && score == Score(h.led.tree, NumOf(h.led.tree, id))
    requires x <= score
    ensures SyncStep(Act(s, a), [Connection(h.peer, Some(x))], pick, now, lcb) == Act(s, a)
    ensures Act(s, a).load == None
  {
    LeashedBatch(s, a, h, id, x, score);
    SyncExactly(Act(s, a), [Connection(h.peer, Some(x))], pick, now, lcb);
  }

  /** When the first batch of a load leads to another one: exactly if the peer still lags, and the gap is not the one
      remembered from before the load, which an earlier load, of whatever peer, may have left. */
  lemma {:induction false} FirstBatch(
    s: Session, p: Addr, now: int, lcb: Result<BlockId>, acts: seq<Action>, a: Action, gap: int)
    requires s.load.None? && AllSilent(Begin(s, p, now, lcb), acts)
    requires ReportsGap(ActAll(Begin(s, p, now, lcb), acts), a, gap)
    ensures var t := ActAll(s, [Syncs(p, now, lcb)] + acts + [a]);
      && (t.load.Some? <==> gap > 0 && s.prevDiff != Some(gap))
      && (t.load.Some? ==> t.load.value.peer == p)
      && t.prevDiff == if t.load.Some? then Some(gap) else None
  {
    var u := Begin(s, p, now, lcb);
    assert ([Syncs(p, now, lcb)] + acts)[1..] == acts;
    ActAppend(s, [Syncs(p, now, lcb)] + acts, a);
    BeginsFor(s, p, now, lcb);
    SilentRun(u, acts);
    BatchOutcome(ActAll(u, acts), a, gap);
    if Act(ActAll(u, acts), a).load.Some? {
      ActKeepsPeer(ActAll(u, acts), a);
    }
  }

  lemma {:induction false} BeginsFor(s: Session, p: Addr, now: int, lcb: Result<BlockId>)
    ensures var t := Begin(s, p, now, lcb);
      && t.load.Some? && t.load.value.peer == p && t.load.value.state == WaitingForIDs
      && t.prevDiff == s.prevDiff && t.led == s.led && t.load.value.led == s.led
      && t.load.value.stamp == if Count(s.counts, p) < 10 || lcb.Success? then Some(now) else None
  {
  }

  lemma {:induction false} ActKeepsPeer(s: Session, a: Action)
    requires s.load.Some? && Act(s, a).load.Some?
    ensures Act(s, a).load.value.peer == s.load.value.peer
  {
    if a.Delivers? {
      var v := s.load.value;
      var h := Handle(v, a.event, a.now, Failure(NotFound)).0;
      HandleKeepsPeer(v, a.event, a.now, Failure(NotFound));
      HandleKeepsPeer(h, Start, a.now, Failure(NotFound));
    }
  }

  // ----- where the remembered gap comes from

  /** Action `j` of the run is a report with this gap. */
  ghost predicate ReportsAt(s: Session, acts: seq<Action>, j: nat, gap: int)
    requires j < |acts|
  {
    ReportsGap(ActAll(s, acts[..j]), acts[j], gap)
  }

  /** Action `j` is the last report with a gap. */
  ghost predicate LastReport(s: Session, acts: seq<Action>, j: nat, gap: int)
    requires j < |acts|
  {
    ReportsAt(s, acts, j, gap) && forall i, g :: j < i < |acts| ==> !ReportsAt(s, acts, i, g)
  }

  lemma {:induction false} GapKept(s: Session, a: Action)
    requires forall g :: !ReportsGap(s, a, g)
    ensures Act(s, a).prevDiff == s.prevDiff
  {
    if a.Delivers? && s.load.Some? {
      var v := s.load.value;
      var h := Handle(v, a.event, a.now, Failure(NotFound)).0;
      if h.oks > v.oks && a.reg.Announced? {
        assert ReportsGap(s, a, Gap(h.led, s.genesis, v.peer, a.reg.score));
      }
    }
  }

  lemma {:induction false} ReportsInPrefix(s: Session, pre: seq<Action>, a: Action, j: nat, gap: int)
    requires j < |pre| + 1
    ensures j < |pre| ==> (ReportsAt(s, pre + [a], j, gap) <==> ReportsAt(s, pre, j, gap))
    ensures j == |pre| ==> (ReportsAt(s, pre + [a], j, gap) <==> ReportsGap(ActAll(s, pre), a, gap))
  {
    if j < |pre| {
      assert (pre + [a])[..j] == pre[..j];
    } else {
      assert (pre + [a])[..j] == pre;
    }
  }

  /** Action `j` is the last report with a gap, and the load goes on after it. */
  ghost predicate Leaves(s: Session, acts: seq<Action>, j: nat, gap: int)
    requires j < |acts|
  {
    LastReport(s, acts, j, gap) && ActAll(s, acts[..j + 1]).load.Some?
  }

  lemma {:induction false} NotTheLast(s: Session, acts: seq<Action>, j: nat, i: nat, g: int, gap: int)
    requires j < i < |acts| && ReportsAt(s, acts, i, g)
    ensures !Leaves(s, acts, j, gap)
  {
  }

  /** A report at the end decides alone. */
  lemma {:induction false} LeavesAtReport(s: Session, pre: seq<Action>, a: Action, g: int, gap: int)
    requires ReportsGap(ActAll(s, pre), a, g)
    ensures (exists j :: 0 <= j < |pre| + 1 && Leaves(s, pre + [a], j, gap)) <==>
            gap == g && Act(ActAll(s, pre), a).load.Some?
  {
    var acts, last := pre + [a], |pre|;
    ActAppend(s, pre, a);
    ReportsInPrefix(s, pre, a, last, g);
    ReportsInPrefix(s, pre, a, last, gap);
    assert acts[..last + 1] == acts;
    if gap == g && Act(ActAll(s, pre), a).load.Some? {
      assert Leaves(s, acts, last, gap);
    }
    forall j | 0 <= j < |acts| && Leaves(s, acts, j, gap)
      ensures gap == g && Act(ActAll(s, pre), a).load.Some?
    {
      if j < last {
        NotTheLast(s, acts, j, last, g, gap);
      }
    }
  }

  /** Any other action changes nothing about earlier reports. */
  lemma {:induction false} LeavesBefore(s: Session, pre: seq<Action>, a: Action, j: nat, gap: int)
    requires forall g :: !ReportsGap(ActAll(s, pre), a, g)
    requires j < |pre| + 1
    ensures Leaves(s, pre + [a], j, gap) <==> j < |pre| && Leaves(s, pre, j, gap)
  {
    ReportsInPrefix(s, pre, a, j, gap);
    if j < |pre| {
      assert (pre + [a])[..j + 1] == pre[..j + 1];
      forall i, g | j < i < |pre| + 1
        ensures ReportsAt(s, pre + [a], i, g) <==> i < |pre| && ReportsAt(s, pre, i, g)
      {
        ReportsInPrefix(s, pre, a, i, g);
      }
    }
  }

  /** Over whole sequences: a gap is remembered exactly if the last batch reported, of whatever peer, had this gap and
      led to another one; failures, new loads and calls of other components in between change nothing about it. */
  lemma {:induction false} RememberedGap(s: Session, acts: seq<Action>, gap: int)
    requires s.prevDiff == None
    ensures ActAll(s, acts).prevDiff == Some(gap) <==> exists j :: 0 <= j < |acts| && Leaves(s, acts, j, gap)
    decreases |acts|
  {
    if acts != [] {
      var pre, a := acts[..|acts| - 1], acts[|acts| - 1];
      assert acts == pre + [a];
      ActAppend(s, pre, a);
      RememberedGap(s, pre, gap);
      if exists g :: ReportsGap(ActAll(s, pre), a, g) {
        var g :| ReportsGap(ActAll(s, pre), a, g);
        BatchOutcome(ActAll(s, pre), a, g);
        LeavesAtReport(s, pre, a, g, gap);
      } else {
        GapKept(ActAll(s, pre), a);
        forall j | 0 <= j < |acts|
          ensures Leaves(s, acts, j, gap) <==> j < |pre| && Leaves(s, pre, j, gap)
        {
          LeavesBefore(s, pre, a, j, gap);
        }
      }
    }
  }

  // ----- the counters over whole sequences

  /** What an action means for the counters. */
  function Episodes(s: Session, a: Action): seq<Episode>
  {
    match a
    case Syncs(p, _, _) => if s.load.Some? then [] else [Begins(p)]
    case Delivers(e, reg, now) =>
      if s.load.None? then []
      else
        var v := s.load.value;
        var h := Handle(v, e, now, Failure(NotFound)).0;
        if h.oks > v.oks then [Succeeds(Act(s, a).load.Some?)] else if h.fails > v.fails then [Fails] else []
    case Elsewhere(_) => []
  }

  lemma {:induction false} OKTracks(t: Session, reg: Registered, now: int)
    requires t.load.Some?
    ensures var u := AfterOK(t, reg, now).0; Tracked(u) == Track(Tracked(t), Succeeds(u.load.Some?))
  {
    HandleKeepsPeer(t.load.value, Start, now, Failure(NotFound));
  }

  lemma {:induction false} ActTracks(s: Session, a: Action)
    ensures Tracked(Act(s, a)) == TrackAll(Tracked(s), Episodes(s, a))
  {
    if s.load.Some? && a.Delivers? {
      DeliverByReport(s, a.event, a.reg, a.now);
      OKTracks(Handled(s, a.event, a.now), a.reg, a.now);
    }
    if s.load.None? && a.Syncs? {
      BeginsFor(s, a.peer, a.now, a.lcb);
    }
    OneEpisode(Tracked(s), Episodes(s, a));
  }

  lemma {:induction false} OneEpisode(t: Tracker, es: seq<Episode>)
    requires |es| <= 1
    ensures TrackAll(t, es) == if es == [] then t else Track(t, es[0])
  {
    if es != [] {
      assert es[1..] == [];
    }
  }

  /** Over all sequences of loads, events and calls the counters never pass the threshold. */
  lemma {:induction false} CountersOverRuns(s: Session, acts: seq<Action>)
    requires InRange(Tracked(s))
    ensures InRange(Tracked(ActAll(s, acts)))
    decreases |acts|
  {
    if acts != [] {
      ActTracks(s, acts[0]);
      CountersStayInRange(Tracked(s), Episodes(s, acts[0]));
      CountersOverRuns(Act(s, acts[0]), acts[1..]);
    }
  }

  // ----- leashes over whole sequences

  /** Other components move leashes to stored blocks only. */
  ghost predicate CarefulActs(s: Session, acts: seq<Action>)
    decreases |acts|
  {
    acts == [] ||
    ((acts[0].Elsewhere? && acts[0].op.MoveLeash? ==> HasBlock(s.led, acts[0].op.id))
     && CarefulActs(Act(s, acts[0]), acts[1..]))
  }

  lemma {:induction false} ActKeepsSound(s: Session, a: Action)
    requires Consistent(s) && Sound(s.led)
    requires a.Elsewhere? && a.op.MoveLeash? ==> HasBlock(s.led, a.op.id)
    ensures Consistent(Act(s, a)) && Sound(Act(s, a).led)
  {
    match a
    case Syncs(_, _, _) =>
    case Delivers(e, reg, now) =>
      if s.load.Some? {
        HandleKeepsSound(s.load.value, e, now, Failure(NotFound));
      }
    case Elsewhere(op) => ApplyKeepsSound(s.led, op);
  }

  /** Over all sequences of loads and careful calls, the load in progress works on the shared linkage and every leash
      stays on a stored block. */
  lemma {:induction false} SessionsStaySound(s: Session, acts: seq<Action>)
    requires Consistent(s) && Sound(s.led) && CarefulActs(s, acts)
    ensures Consistent(ActAll(s, acts)) && Sound(ActAll(s, acts).led)
    decreases |acts|
  {
    if acts != [] {
      ActKeepsSound(s, acts[0]);
      SessionsStaySound(Act(s, acts[0]), acts[1..]);
    }
  }

  // ----- a load that ends too early

  /** An answer that names only the genesis block, to a load of an unleashed peer. */
  lemma {:induction false} GenesisAnswer(v: View, now: int)
    requires v.state == WaitingForIDs && HasBlock(v.led, v.genesis) && v.peer !in v.led.leashes
    ensures Handle(v, IDs([v.genesis]), now, Failure(NotFound)).0 == v.(state := Idle, oks := v.oks + 1)
  {
    var ids := [v.genesis];
    assert ids[..1] == ids && ids[1..] == [];
    assert KnownPrefix(v.led, ids) == 1;
    assert Follow(v.led, v.genesis, v.peer, ids) == Follow(v.led, v.genesis, v.peer, ids[1..]);
  }

  /** The first batch of a load of `p`, after that answer. */
  lemma {:induction false} FirstAnswer(s: Session, p: Addr, x: nat, now: int)
    requires s.load.None? && HasBlock(s.led, s.genesis) && p !in s.led.leashes
    requires Count(s.counts, p) < RESTART_THRESHOLD
    ensures var t := Act(Act(s, Syncs(p, now, Failure(NotFound))), Delivers(IDs([s.genesis]), Announced(x), now));
      var gap := Gap(s.led, s.genesis, p, x);
      && t.led == s.led && t.genesis == s.genesis && t.counts == s.counts[p := 0]
      && (if gap > 0 && s.prevDiff != Some(gap)
          then t.prevDiff == Some(gap)
               && t.load == Some(FreshLoad(p, s.genesis, s.led).(state := WaitingForIDs, stamp := Some(now),
                                                                 entries := 2, oks := 1))
          else t.prevDiff == None && t.load == None)
  {
    var v := FreshLoad(p, s.genesis, s.led).(state := WaitingForIDs, stamp := Some(now), entries := 1);
    assert Act(s, Syncs(p, now, Failure(NotFound))) == s.(load := Some(v));
    GenesisAnswer(v, now);
  }

  /** A timeout with nothing received. */
  lemma {:induction false} EmptyTimeout(s: Session, reg: Registered, time: int)
    requires s.load.Some? && s.load.value.led == s.led
    requires s.load.value.state == WaitingForIDs && s.load.value.items == [] && Expired(s.load.value.stamp, time)
    ensures Act(s, Delivers(Tick(time), reg, time))
         == s.(load := None, counts := s.counts[s.load.value.peer := Count(s.counts, s.load.value.peer) + 1])
  {
  }

  /** Two peers announce the same score. The load of the first goes on after one batch and then fails; the load of the
      second ends after its first batch, although it lags as before. Without the first load it would have gone on. */
  lemma {:induction false} LeftoverGapEndsLoad(
    genesis: BlockId, l: Ledger, p: Addr, q: Addr, x: nat, now: int, time: int)
    requires HasBlock(l, genesis) && p != q && p !in l.leashes && q !in l.leashes
    requires Gap(l, genesis, q, x) > 0 && time - now > TIMEOUT
    ensures var s := Session(None, None, map[], genesis, l);
      var first := [Syncs(p, now, Failure(NotFound)), Delivers(IDs([genesis]), Announced(x), now),
                    Delivers(Tick(time), Unreadable, time)];
      var second := [Syncs(q, time, Failure(NotFound)), Delivers(IDs([genesis]), Announced(x), time)];
      && ActAll(s, first + second).load == None && ActAll(s, first + second).led == l
      && IsLagging(l, genesis, Connection(q, Some(x)))
      && ActAll(s, second).load.Some?
  {
    var s := Session(None, None, map[], genesis, l);
    var a1, a2 := Syncs(p, now, Failure(NotFound)), Delivers(IDs([genesis]), Announced(x), now);
    var a3 := Delivers(Tick(time), Unreadable, time);
    var b1, b2 := Syncs(q, time, Failure(NotFound)), Delivers(IDs([genesis]), Announced(x), time);
    FirstAnswer(s, p, x, now);
    EmptyTimeout(Act(Act(s, a1), a2), Unreadable, time);
    FirstAnswer(Act(Act(Act(s, a1), a2), a3), q, x, time);
    FirstAnswer(s, q, x, time);
    ThreeActs(s, a1, a2, a3);
    TwoActs(ActAll(s, [a1, a2, a3]), b1, b2);
    TwoActs(s, b1, b2);
    ActConcat(s, [a1, a2, a3], [b1, b2]);
  }

  lemma {:induction false} ActConcat(s: Session, acts: seq<Action>, more: seq<Action>)
    ensures ActAll(s, acts + more) == ActAll(ActAll(s, acts), more)
    decreases |acts|
  {
    if acts == [] {
      assert [] + more == more;
    } else {
      assert (acts + more)[1..] == acts[1..] + more;
      ActConcat(Act(s, acts[0]), acts[1..], more);
    }
  }

  lemma {:induction false} TwoActs(s: Session, a: Action, b: Action)
    ensures ActAll(s, [a, b]) == Act(Act(s, a), b)
  {
    assert [a, b][1..] == [b] && [b][1..] == [];
    assert ActAll(s, [a, b]) == ActAll(Act(s, a), [b]) == ActAll(Act(Act(s, a), b), []);
  }

  lemma {:induction false} ThreeActs(s: Session, a: Action, b: Action, c: Action)
    ensures ActAll(s, [a, b, c]) == Act(Act(Act(s, a), b), c)
  {
    TwoActs(s, a, b);
    ActAppend(s, [a, b], c);
    assert [a, b] + [c] == [a, b, c];
  }
}
