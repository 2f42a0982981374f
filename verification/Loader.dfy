/** The loader (loading/loader.go): one load at a time, and a failure counter per peer. */
module Loader {
  import opened Entities
  import opened Ledger
  import opened Linkage
  import opened Loading
  import opened PeerLoader
  import opened Sessions

  // ----- the loader

  class Loader {
    const linkage: Linkage
    var pl: PeerLoader?
    var prevDiff: Option<int>
    var fc: map<Addr, nat>

    ghost predicate Valid()
      reads this, pl, linkage.st, if pl == null then {} else {pl.queue.q, pl.hp.st}
    {
      && linkage.Valid() && LeashesStored(linkage.State())
      && (pl != null ==> pl.hp == linkage && pl.pending == [])
      && InRange(Tracked(Now()))
    }

    ghost function Now(): Session
      reads this, pl, linkage.st, if pl == null then {} else {pl.queue.q, pl.hp.st}
    {
      Session(if pl == null then None else Some(pl.Now()), prevDiff, fc, linkage.genesis, linkage.State())
    }

    ghost function Footprint(): set<object>
      reads this, pl
    {
      if pl == null then {} else {pl, pl.queue.q}
    }

    constructor (linkage: Linkage)
      requires linkage.Valid() && LeashesStored(linkage.State())
      ensures Valid() && this.linkage == linkage
      ensures Now() == Session(None, None, map[], linkage.genesis, linkage.State())
    {
      this.linkage := linkage;
      pl, prevDiff, fc := null, None, map[];
    }

    /** Starts a load with one of the peers whose announced score is above the score of their leash. The random
        choice among them is `pick`. */
    method Sync(connections: seq<Connection>, pick: nat, now: int) returns (ghost lcb: Result<BlockId>)
      requires Valid()
      modifies this, Footprint(), linkage.st
      ensures Valid()
      ensures Now() == SyncStep(old(Now()), connections, pick, now, lcb)
      ensures old(pl) != null ==> pl == old(pl)
      ensures old(pl) == null && pl != null ==> fresh(pl) && FirstRequest(old(Now()), lcb)
      ensures old(pl) == null && pl != null ==>
                exists c :: c in connections && c.addr == pl.peer && !UpToDate(linkage.State(), linkage.genesis, c)
      ensures old(pl) == null && pl == null ==>
                forall c :: c in connections ==> UpToDate(linkage.State(), linkage.genesis, c)
    {
      lcb := Failure(NotFound);
      if pl != null { return; }
      ghost var before := Now();
      var lagging := FindLagging(connections);
      if |lagging| == 0 {
        SyncExactly(before, connections, pick, now, lcb);
        return;
      }
      var p := lagging[pick % |lagging|];
      lcb := BeginLoad(p.addr, now);
      SyncExactly(before, connections, pick, now, lcb);
    }

    /** The IDs last sent are those of the peer's leash and its nearest ancestors. */
    ghost predicate AsksFromLeash()
      reads this, pl, linkage.st
    {
      var l := linkage.State();
      pl != null && AsksFrom(l, if pl.peer in l.leashes then l.leashes[pl.peer] else linkage.genesis, pl.asked)
    }

    /** The IDs sent with the first request of a load that began in `before`: those of the peer's leash and its nearest
        ancestors, after ten failures in a row those of the last common block. */
    ghost predicate FirstRequest(before: Session, lcb: Result<BlockId>)
      reads this, pl, linkage.st
    {
      var l := linkage.State();
      pl != null &&
      if Count(before.counts, pl.peer) >= 10 then
        LcbAnswer(l, linkage.genesis, pl.peer, lcb) && (lcb.Success? ==> AsksFrom(l, lcb.value, pl.asked))
      else AsksFromLeash()
    }

    method BeginLoad(peer: Addr, now: int) returns (ghost lcb: Result<BlockId>)
      requires Valid() && pl == null
      modifies this, linkage.st
      ensures Valid() && pl != null && fresh(pl) && pl.peer == peer
      ensures Now() == Begin(old(Now()), peer, now, lcb) && FirstRequest(old(Now()), lcb)
    {
      ghost var before := Now();
      pl := new PeerLoader(peer, linkage);
      lcb := Launch(now);
      BeginInRange(before, peer, now, lcb);
    }

    /** A load normally starts from the leash, after too many failures from the last common block. The second start
        is then ignored. */
    method Launch(now: int) returns (ghost lcb: Result<BlockId>)
      requires linkage.Valid() && LeashesStored(linkage.State())
      requires pl != null && pl.hp == linkage && pl.pending == [] && pl.state == Idle && pl.asked == []
      modifies this`fc, pl, pl.queue.q, linkage.st
      ensures linkage.Valid() && linkage.State() == old(linkage.State()) && pl.pending == []
      ensures pl.queue == old(pl.queue) || fresh(pl.queue.q)
      ensures var v, restarts := old(pl.Now()), Count(old(fc), pl.peer) >= RESTART_THRESHOLD;
              && fc == (if restarts then old(fc)[pl.peer := 0] else old(fc))
              && pl.Now() == Handle(if restarts then Handle(v, Restart, now, lcb).0 else v, Start, now,
                                    Failure(NotFound)).0
              && pl.Asked(Idle, [], if restarts then Restart else Start, if restarts then lcb else Failure(NotFound))
    {
      lcb := Failure(NotFound);
      ghost var restarts := Count(fc, pl.peer) >= RESTART_THRESHOLD;
      if Count(fc, pl.peer) >= RESTART_THRESHOLD {
        lcb := RestartSync(now);
      }
      ghost var asked, from := pl.asked, pl.state;
      ContinueSync(now);
      assert restarts ==> pl.asked == asked && from == WaitingForIDs;
    }

    method FindLagging(connections: seq<Connection>) returns (lagging: seq<Connection>)
      requires linkage.Valid() && LeashesStored(linkage.State())
      ensures lagging == LaggingOf(linkage.State(), linkage.genesis, connections)
    {
      lagging := [];
      for i := 0 to |connections|
        invariant lagging == LaggingOf(linkage.State(), linkage.genesis, connections[..i])
      {
        var cp := connections[i];
        assert connections[..i + 1][..i] == connections[..i];
        if cp.score.None? { continue; }
        var score := linkage.LeashScore(cp.addr);
        StoredLeash(linkage.State(), linkage.genesis, cp.addr);
        if score.Success? && cp.score.value > score.value {
          lagging := lagging + [cp];
        }
      }
      assert connections[..|connections|] == connections;
    }

    method ContinueSync(now: int)
      requires linkage.Valid() && LeashesStored(linkage.State())
      requires pl != null && pl.hp == linkage && pl.pending == []
      modifies pl, pl.queue.q, linkage.st
      ensures linkage.Valid() && linkage.State() == old(linkage.State()) && pl.pending == []
      ensures pl.Now() == Handle(old(pl.Now()), Start, now, Failure(NotFound)).0
      ensures pl.queue == old(pl.queue) || fresh(pl.queue.q)
      ensures pl.Asked(old(pl.state), old(pl.asked), Start, Failure(NotFound))
    {
      var r, _ := pl.Fire(Start, now);
    }

    /** Forgets the failures and starts from the last common block. */
    method RestartSync(now: int) returns (ghost lcb: Result<BlockId>)
      requires linkage.Valid() && LeashesStored(linkage.State())
      requires pl != null && pl.hp == linkage && pl.pending == [] && pl.state == Idle
      modifies this`fc, pl, pl.queue.q, linkage.st
      ensures linkage.Valid() && linkage.State() == old(linkage.State()) && pl.pending == []
      ensures fc == old(fc)[pl.peer := 0] && pl.Now() == Handle(old(pl.Now()), Restart, now, lcb).0
      ensures pl.queue == old(pl.queue) || fresh(pl.queue.q)
      ensures pl.Asked(Idle, old(pl.asked), Restart, lcb)
    {
      fc := fc[pl.peer := 0];
      var r;
      r, lcb := pl.Fire(Restart, now);
    }

    /** The report of a finished batch. `reg` is what the registry answers about the peer: without a record, which takes
        a failure of its database, the load is left as it is; a record without a score makes the comparison panic. A
        peer that still lags is asked for more, unless the gap has not changed. */
    method OK(reg: Registered, now: int) returns (r: Outcome)
      requires Valid() && pl != null && pl.state == Idle
      modifies this, Footprint(), linkage.st
      ensures Valid() && (Now(), r) == AfterOK(old(Now()), reg, now)
      ensures pl == null || pl == old(pl)
      ensures pl != null && pl.state == WaitingForIDs ==> AsksFromLeash()
    {
      AfterOKInRange(Now(), reg, now);
      fc := fc[pl.peer := 0];
      if reg.Unreadable? { return PASS; }
      var score := linkage.LeashScore(pl.peer);
      StoredLeash(linkage.State(), linkage.genesis, pl.peer);
      if score.Failure? { return PASS; }
      if reg.NoScore? { return Failure(Panic); } // a nil score
      var diff := reg.score - score.value;
      assert diff == Gap(linkage.State(), linkage.genesis, pl.peer, reg.score);
      if reg.score > score.value && (prevDiff.None? || prevDiff.value != diff) {
        prevDiff := Some(diff);
        ContinueSync(now);
      } else {
        ResetLoadingPeer();
      }
      r := PASS;
    }

    method ResetLoadingPeer()
      modifies this`pl, this`prevDiff
      ensures pl == null && prevDiff == None
    {
      pl, prevDiff := null, None;
    }

    /** The report of a timeout. */
    method Fail()
      requires Valid() && pl != null
      modifies this
      ensures Valid() && pl == null && Now() == AfterFail(old(Now()))
    {
      fc := fc[pl.peer := Count(fc, pl.peer) + 1];
      pl := null;
    }

    /** Hands an event to the load in progress and acts on its report. */
    method Deliver(e: Event, reg: Registered, now: int) returns (r: Outcome)
      requires Valid() && pl != null && (e.IDs? || e.BlockArrived? || e.Tick?)
      modifies this, Footprint(), linkage.st
      ensures Valid() && (Now(), r) == Sessions.Deliver(old(Now()), e, reg, now)
      ensures pl == null || pl == old(pl)
      ensures pl != null && pl.oks > old(pl.oks) && pl.state == WaitingForIDs ==> AsksFromLeash()
    {
      var oks, fails := pl.oks, pl.fails;
      ghost var v := pl.Now();
      var fired, _ := pl.Fire(e, now);
      ReportsTellState(v, e, now);
      r := PASS;
      if pl.oks > oks {
        r := OK(reg, now);
      } else if pl.fails > fails {
        Fail();
      }
    }

    /** IDs count only for the load in progress and only from its peer; an empty list is ignored. */
    method HandleIDs(from: Addr, ids: seq<BlockId>, reg: Registered, now: int) returns (r: Outcome)
      requires Valid()
      modifies this, Footprint(), linkage.st
      ensures Valid()
      ensures (Now(), r) == if old(pl) == null || ids == [] || from != old(pl).peer then (old(Now()), PASS)
                            else Sessions.Deliver(old(Now()), IDs(ids), reg, now)
    {
      if pl == null || |ids| == 0 || from != pl.peer { return PASS; }
      r := Deliver(IDs(ids), reg, now);
    }

    method HandleBlock(from: Addr, block: ProtoBlock, reg: Registered, now: int) returns (r: Outcome)
      requires Valid()
      modifies this, Footprint(), linkage.st
      ensures Valid()
      ensures (Now(), r) == if old(pl) == null || from != old(pl).peer then (old(Now()), PASS)
                            else Sessions.Deliver(old(Now()), BlockArrived(block), reg, now)
    {
      if pl == null || from != pl.peer { return PASS; }
      r := Deliver(BlockArrived(block), reg, now);
    }

    method HandleTick(reg: Registered, now: int) returns (r: Outcome)
      requires Valid()
      modifies this, Footprint(), linkage.st
      ensures Valid()
      ensures (Now(), r) == if old(pl) == null then (old(Now()), PASS)
                            else Sessions.Deliver(old(Now()), Tick(now), reg, now)
    {
      if pl == null { return PASS; }
      r := Deliver(Tick(now), reg, now);
    }
  }
}
