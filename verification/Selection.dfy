/** Choosing the main chain among the groups of peers (chains/linkage.go, chains/entities.go). */
module Selection {
  import opened Entities
  import opened Heads

  /** The peers leashed to one block: the block, its score and the number of peers. */
  datatype Group = Group(id: BlockId, score: nat, peers: nat)

  /** The order of `byScoreAndPeersDesc`: the higher score first, then the larger number of peers. */
  predicate Better(a: Group, b: Group)
  {
    a.score > b.score || (a.score == b.score && a.peers > b.peers)
  }

  ghost predicate IsMaximal(gs: set<Group>, g: Group)
  {
    g in gs && forall h :: h in gs ==> !Better(h, g)
  }

  /** The running choice of the folds in `LCB` and `Fork`: nothing chosen is score 0 with 0 peers. */
  datatype Choice = Choice(score: nat, peers: nat, longest: Option<BlockId>)

  const NOTHING := Choice(0, 0, None)

  function Consider(c: Choice, g: Group): Choice
  {
    if c.score == g.score then
      if g.peers > c.peers then Choice(g.score, g.peers, Some(g.id)) else c
    else if c.score < g.score then Choice(g.score, g.peers, Some(g.id))
    else c
  }

  /** The fold over the groups in the order in which the map iteration delivers them. */
  function Choose(c: Choice, order: seq<Group>): Choice
    decreases |order|
  {
    if order == [] then c else Choose(Consider(c, order[0]), order[1..])
  }

  /** `order` delivers every group exactly once. */
  ghost predicate Enumerates(order: seq<Group>, gs: set<Group>)
  {
    NoDuplicates(order) && forall g :: g in order <==> g in gs
  }

  /** Groups have peers, and one group stands for one block. */
  ghost predicate ProperGroups(gs: set<Group>)
  {
    && (forall g :: g in gs ==> g.peers >= 1)
    && (forall g, h :: g in gs && h in gs && g.id == h.id ==> g == h)
  }

  ghost predicate Chosen(c: Choice, g: Group)
  {
    c == Choice(g.score, g.peers, Some(g.id))
  }

  predicate Beats(c: Choice, g: Group)
  {
    c.score > g.score || (c.score == g.score && c.peers >= g.peers)
  }

  /** The fold ends on the previous choice or on a group, and that beats everything seen. */
  lemma {:induction false} ChooseBeatsAll(c: Choice, order: seq<Group>)
    ensures var d := Choose(c, order);
      && (d == c || exists g :: g in order && Chosen(d, g))
      && (d.score > c.score || (d.score == c.score && d.peers >= c.peers))
      && forall g :: g in order ==> Beats(d, g)
    decreases |order|
  {
    if order != [] {
      ChooseBeatsAll(Consider(c, order[0]), order[1..]);
      var d := Choose(c, order);
      assert order[0] in order;
      forall g | g in order
        ensures Beats(d, g)
      {
        if g != order[0] { assert g in order[1..]; }
      }
      if d != Consider(c, order[0]) {
        var g :| g in order[1..] && Chosen(d, g);
        assert g in order;
      }
    }
  }

  /** A choice that nothing beats survives the rest of the fold. */
  lemma {:induction false} ChooseKeepsMaximum(c: Choice, order: seq<Group>)
    requires forall g :: g in order ==> Beats(c, g)
    ensures Choose(c, order) == c
    decreases |order|
  {
    if order != [] {
      assert order[0] in order;
      assert Consider(c, order[0]) == c;
      ChooseKeepsMaximum(c, order[1..]);
    }
  }

  /** Whatever the order, the fold selects a group maximal in (score, peers). */
  lemma {:induction false} ChoiceIsMaximal(order: seq<Group>, gs: set<Group>)
    requires ProperGroups(gs) && gs != {} && Enumerates(order, gs)
    ensures exists g :: IsMaximal(gs, g) && Chosen(Choose(NOTHING, order), g)
  {
    ChooseBeatsAll(NOTHING, order);
    var d := Choose(NOTHING, order);
    var h :| h in gs;
    assert h in order && Beats(d, h) && d != NOTHING;
    var g :| g in order && Chosen(d, g);
    assert IsMaximal(gs, g);
  }

  /** Every maximal group is selected under some order of the map iteration. */
  lemma {:induction false} EveryMaximumCanBeChosen(gs: set<Group>, g: Group) returns (order: seq<Group>)
    requires ProperGroups(gs) && IsMaximal(gs, g)
    ensures Enumerates(order, gs) && Chosen(Choose(NOTHING, order), g)
  {
    var rest := AnyOrder(gs - {g});
    order := [g] + rest;
    assert order[1..] == rest;
    forall h
      ensures h in order <==> h in gs
    {
    }
    ChooseKeepsMaximum(Choice(g.score, g.peers, Some(g.id)), rest);
    assert Choose(NOTHING, order) == Choose(Consider(NOTHING, g), rest);
  }

  lemma {:induction false} AnyOrder(gs: set<Group>) returns (order: seq<Group>)
    ensures Enumerates(order, gs)
    decreases |gs|
  {
    if gs == {} {
      order := [];
    } else {
      var g :| g in gs;
      var rest := AnyOrder(gs - {g});
      order := [g] + rest;
    }
  }

  ghost predicate UniqueMaximum(gs: set<Group>)
  {
    forall g, h :: IsMaximal(gs, g) && IsMaximal(gs, h) ==> g == h
  }

  ghost predicate OrderIndependent(gs: set<Group>)
  {
    forall o1, o2 :: Enumerates(o1, gs) && Enumerates(o2, gs) ==> Choose(NOTHING, o1) == Choose(NOTHING, o2)
  }

  /** The choice of the main chain is independent of the map iteration order exactly when no two groups tie for
      the highest score and the most peers. */
  lemma {:induction false} IndependentIffUnique(gs: set<Group>)
    requires ProperGroups(gs) && gs != {}
    ensures OrderIndependent(gs) <==> UniqueMaximum(gs)
  {
    if UniqueMaximum(gs) {
      forall o1, o2 | Enumerates(o1, gs) && Enumerates(o2, gs)
        ensures Choose(NOTHING, o1) == Choose(NOTHING, o2)
      {
        ChoiceIsMaximal(o1, gs);
        ChoiceIsMaximal(o2, gs);
      }
    } else {
      var g, h :| IsMaximal(gs, g) && IsMaximal(gs, h) && g != h;
      var o1 := EveryMaximumCanBeChosen(gs, g);
      var o2 := EveryMaximumCanBeChosen(gs, h);
      assert Choose(NOTHING, o1) != Choose(NOTHING, o2);
    }
  }

  // ----- sorting

  /** No later element is better than an earlier one. */
  ghost predicate SortedDesc(gs: seq<Group>)
  {
    forall i, j :: 0 <= i < j < |gs| ==> !Better(gs[j], gs[i])
  }

  /** `forks` sorts and takes the first: again a maximal group, so the same one when the maximum is unique. */
  lemma FirstOfSortedIsMaximal(sorted: seq<Group>, gs: set<Group>)
    requires Enumerates(sorted, gs) && SortedDesc(sorted) && gs != {}
    ensures sorted != [] && IsMaximal(gs, sorted[0])
  {
    var h :| h in gs;
    assert h in sorted;
    forall g | g in gs
      ensures !Better(g, sorted[0])
    {
      assert g in sorted;
      var i :| 0 <= i < |sorted| && sorted[i] == g;
    }
  }
}
