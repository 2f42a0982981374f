/** What a fork report says (chains/linkage.go, chains/entities.go). */
module Forks {
  import opened Entities
  import opened BlockTree
  import opened CommonAncestor
  import opened Heads
  import opened Scores
  import opened Database
  import opened Selection
  import opened Storage

  /** The last common block is `None` only in the report for a peer nobody knows. */
  datatype Fork = Fork(
    longest: bool,
    headBlock: Option<BlockId>,
    headHeight: nat,
    headGenerator: Generator,
    score: nat,
    peers: seq<Addr>,
    lastCommonBlock: Option<BlockId>,
    length: int)

  type Leashes = map<Addr, BlockId>

  /** The leashes a lookup is about: all of them when no peers are named. */
  function Filtered(ls: Leashes, peers: set<Addr>): Leashes
  {
    map a | a in ls && (peers == {} || a in peers) :: ls[a]
  }

  ghost function PeersOf(ls: Leashes, id: BlockId): set<Addr>
  {
    set a | a in ls && ls[a] == id
  }

  ghost function GroupOf(t: Tree, ls: Leashes, id: BlockId): Group
  {
    Group(id, Score(t, NumOf(t, id)), |PeersOf(ls, id)|)
  }

  ghost function Groups(t: Tree, ls: Leashes): set<Group>
  {
    set a | a in ls :: GroupOf(t, ls, ls[a])
  }

  /** Block `id` heads a main chain: no group of peers has a higher score, or the same score and more peers. */
  ghost predicate IsMain(t: Tree, ls: Leashes, id: BlockId)
  {
    IsMaximal(Groups(t, ls), GroupOf(t, ls, id))
  }

  ghost predicate AllStored(t: Tree, ls: Leashes)
  {
    forall a :: a in ls ==> NumOf(t, ls[a]) != 0
  }

  /** The report for the chain headed by `head`, the main chain being headed by `main`. */
  ghost predicate Reports(t: Tree, ls: Leashes, main: BlockId, head: BlockId, f: Fork)
  {
    var n := NumOf(t, head);
    && 1 <= n < |t|
    && f.longest == (head == main)
    && f.headBlock == Some(head) && f.headHeight == Height(t, n) && f.headGenerator == t[n].generator
    && f.score == Score(t, n)
    && NoDuplicates(f.peers) && (forall a :: a in f.peers <==> a in PeersOf(ls, head))
    && LcaAnswer(t, main, head).Success?
    && f.lastCommonBlock == Some(LcaAnswer(t, main, head).value)
    && f.length == Height(t, n) - Height(t, NumOf(t, LcaAnswer(t, main, head).value))
  }

  /** The zero value of a report. */
  const ZERO_FORK := Fork(false, None, 0, [], 0, [], None, 0)

  /** A report before the last common block is known. */
  function Draft(b: Block, peers: seq<Addr>): Fork
  {
    Fork(false, Some(b.id), b.height, b.generator, b.score, peers, Some(b.id), b.height)
  }

  ghost predicate Drafts(t: Tree, ls: Leashes, id: BlockId, f: Fork)
  {
    && NumOf(t, id) != 0
    && f == Draft(RecordOf(t, NumOf(t, id)), f.peers)
    && NoDuplicates(f.peers) && (forall a :: a in f.peers <==> a in PeersOf(ls, id))
  }

  /** The report as far as the last common block can be computed. */
  ghost predicate ReportAnswer(t: Tree, ls: Leashes, main: BlockId, head: BlockId, r: Result<Fork>)
  {
    match LcaAnswer(t, main, head)
    case Success(_) => r.Success? && Reports(t, ls, main, head, r.value)
    case Failure(e) => r == Failure(e)
  }

  lemma ProperGroupsOf(t: Tree, ls: Leashes)
    ensures ProperGroups(Groups(t, ls))
  {
    forall g | g in Groups(t, ls)
      ensures g.peers >= 1
    {
      var a :| a in ls && g == GroupOf(t, ls, ls[a]);
      assert a in PeersOf(ls, ls[a]);
    }
  }

  /** The three selections agree when no two groups tie: there is only one main chain. */
  lemma MainIsUnique(t: Tree, ls: Leashes, m1: BlockId, m2: BlockId)
    requires UniqueMaximum(Groups(t, ls)) && IsMain(t, ls, m1) && IsMain(t, ls, m2)
    ensures m1 == m2
  {
    assert GroupOf(t, ls, m1) == GroupOf(t, ls, m2);
  }

  // ----- the length of a fork

  /** The blocks of a chain that are not on the main chain. */
  ghost function OffMain(t: Tree, main: nat, head: nat): set<nat>
  {
    set x: nat | 1 <= x < |t| && AncestorOrSelf(t, x, head) && !AncestorOrSelf(t, x, main)
  }

  /** The first `k` blocks of a chain, counted from its head. */
  ghost function TopOf(t: Tree, head: nat, k: nat): set<nat>
  {
    set j: nat | j < k :: Anc(t, head, j)
  }

  lemma {:induction false} TopOneMore(t: Tree, head: nat, k: nat)
    ensures TopOf(t, head, k + 1) == TopOf(t, head, k) + {Anc(t, head, k)}
  {
  }

  lemma {:induction false} NotInTop(t: Tree, head: nat, k: nat)
    requires head < |t| && k < Height(t, head)
    ensures Anc(t, head, k) !in TopOf(t, head, k)
  {
    AncHeight(t, head, k);
    forall j: nat | j < k
      ensures Anc(t, head, j) != Anc(t, head, k)
    {
      AncHeight(t, head, j);
    }
  }

  lemma {:induction false} TopCardinality(t: Tree, head: nat, k: nat)
    requires head < |t| && k <= Height(t, head)
    ensures |TopOf(t, head, k)| == k
  {
    if k > 0 {
      TopCardinality(t, head, k - 1);
      NotInTop(t, head, k - 1);
      TopOneMore(t, head, k - 1);
    }
  }

  lemma {:induction false} OffMainIsTop(t: Tree, main: nat, head: nat)
    requires WellFormed(t) && 1 <= main < |t| && 1 <= head < |t|
    ensures OffMain(t, main, head) == TopOf(t, head, Height(t, head) - Height(t, WalkLca(t, main, head)))
  {
    var c := WalkLca(t, main, head);
    var k := Height(t, head) - Height(t, c);
    LcaIsDeepestCommonAncestor(t, main, head);
    forall x: nat
      ensures x in OffMain(t, main, head) <==> x in TopOf(t, head, k)
    {
      if x in OffMain(t, main, head) {
        AncestorAtHeight(t, x, head);
        var j := Height(t, head) - Height(t, x);
        if j >= k {
          AncestorAtHeight(t, c, head);
          AncAdd(t, head, k, j - k);
          AncestorTransitive(t, x, c, main, j - k);
        }
        assert Anc(t, head, j) == x;
      }
      if x in TopOf(t, head, k) {
        var j: nat :| j < k && Anc(t, head, j) == x;
        AncHeight(t, head, j);
        if AncestorOrSelf(t, x, main) {
          assert IsCommonAncestor(t, x, main, head);
          AncestorAtHeight(t, x, c);
        }
      }
    }
  }

  lemma AncestorTransitive(t: Tree, x: nat, y: nat, z: nat, i: nat)
    requires Anc(t, y, i) == x && AncestorOrSelf(t, y, z)
    ensures AncestorOrSelf(t, x, z)
  {
    var j: nat :| Anc(t, z, j) == y;
    AncAdd(t, z, j, i);
  }

  /** The length of a fork is the number of its blocks that the main chain does not have. It is zero exactly when
      the head is on the main chain, which is exactly when the last common block is the head itself. */
  lemma {:induction false} ForkLengthMeaning(t: Tree, main: nat, head: nat)
    requires WellFormed(t) && 1 <= main < |t| && 1 <= head < |t|
    ensures var length := Height(t, head) - Height(t, WalkLca(t, main, head));
      && length >= 0
      && length == |OffMain(t, main, head)|
      && (length == 0 <==> AncestorOrSelf(t, head, main))
      && (length == 0 <==> WalkLca(t, main, head) == head)
  {
    var c := WalkLca(t, main, head);
    OffMainIsTop(t, main, head);
    TopCardinality(t, head, Height(t, head) - Height(t, c));
    LcaIsArgument(t, main, head);
    WalkIsAncestor(t, main, head);
    LcaIsDeepestCommonAncestor(t, main, head);
    AncestorAtHeight(t, c, head);
  }

  /** The blocks of a chain, down to genesis. */
  ghost function ChainOf(t: Tree, n: nat): set<nat>
  {
    set x: nat | 1 <= x < |t| && AncestorOrSelf(t, x, n)
  }

  lemma {:induction false} HeightIsChainLength(t: Tree, n: nat)
    requires 1 <= n < |t|
    ensures Height(t, n) == |ChainOf(t, n)|
  {
    TopCardinality(t, n, Height(t, n));
    forall x: nat
      ensures x in ChainOf(t, n) <==> x in TopOf(t, n, Height(t, n))
    {
      if x in ChainOf(t, n) {
        AncestorAtHeight(t, x, n);
      }
      if x in TopOf(t, n, Height(t, n)) {
        var j: nat :| j < Height(t, n) && Anc(t, n, j) == x;
        AncHeight(t, n, j);
      }
    }
    assert ChainOf(t, n) == TopOf(t, n, Height(t, n));
  }

  /** What the other fields of a report say: the height is the number of blocks of the chain, the peers are those
      leashed to the head, each once, and the last common block is the deepest block that both chains have. */
  lemma {:induction false} ReportFields(t: Tree, ls: Leashes, main: BlockId, head: BlockId, f: Fork)
    requires WellFormed(t) && NumOf(t, main) != 0 && Reports(t, ls, main, head, f)
    ensures f.headBlock == Some(head) && (f.longest <==> head == main)
    ensures f.headHeight == |ChainOf(t, NumOf(t, head))|
    ensures f.headGenerator == t[NumOf(t, head)].generator && f.score == Score(t, NumOf(t, head))
    ensures forall a :: a in f.peers <==> a in ls && ls[a] == head
    ensures forall i, j :: 0 <= i < j < |f.peers| ==> f.peers[i] != f.peers[j]
    ensures f.lastCommonBlock.Some? && NumOf(t, f.lastCommonBlock.value) != 0
    ensures var c := NumOf(t, f.lastCommonBlock.value);
      && AncestorOrSelf(t, c, NumOf(t, main)) && AncestorOrSelf(t, c, NumOf(t, head))
      && forall d: nat :: d >= 1 && AncestorOrSelf(t, d, NumOf(t, main)) && AncestorOrSelf(t, d, NumOf(t, head)) ==>
           AncestorOrSelf(t, d, c)
  {
    var m, h := NumOf(t, main), NumOf(t, head);
    HeightIsChainLength(t, h);
    LcaIsDeepestCommonAncestor(t, m, h);
    assert Indexed(t, WalkLca(t, m, h));
    forall d: nat | d >= 1 && AncestorOrSelf(t, d, m) && AncestorOrSelf(t, d, h)
      ensures AncestorOrSelf(t, d, WalkLca(t, m, h))
    {
      assert IsCommonAncestor(t, d, m, h);
    }
  }

  /** What a report says about the head and the last common block, by the numbers. */
  lemma {:induction false} ReportMeaning(t: Tree, ls: Leashes, main: BlockId, head: BlockId, f: Fork)
    requires WellFormed(t) && NumOf(t, main) != 0 && Reports(t, ls, main, head, f)
    ensures var m, h := NumOf(t, main), NumOf(t, head);
      && f.length == |OffMain(t, m, h)|
      && (f.length == 0 <==> AncestorOrSelf(t, h, m))
      && (f.length == 0 <==> f.lastCommonBlock == f.headBlock)
      && (f.longest ==> f.length == 0)
  {
    var m, h := NumOf(t, main), NumOf(t, head);
    var c := WalkLca(t, m, h);
    LcaIsDeepestCommonAncestor(t, m, h);
    assert Indexed(t, c) && Indexed(t, h);
    ForkLengthMeaning(t, m, h);
  }

  /** All blocks after `m` up to its descendant `d` have base target zero. */
  predicate AddsNothing(t: Tree, m: nat, d: nat)
  {
    var j := Height(t, d) - Height(t, m);
    j >= 0 && ZeroTargets(t, d, j) == j
  }

  /** Exactly when a leashed block is not ranked above a leashed ancestor of it: every block in between, itself
      included, adds a score of zero, and it has no more peers. */
  lemma {:induction false} NotAboveAncestor(t: Tree, ls: Leashes, id: BlockId, desc: BlockId)
    requires WellFormed(t) && NumOf(t, id) != 0 && NumOf(t, desc) != 0
    requires AncestorOrSelf(t, NumOf(t, id), NumOf(t, desc))
    ensures !Better(GroupOf(t, ls, desc), GroupOf(t, ls, id)) <==>
            AddsNothing(t, NumOf(t, id), NumOf(t, desc)) && |PeersOf(ls, desc)| <= |PeersOf(ls, id)|
  {
    DescendantScore(t, NumOf(t, id), NumOf(t, desc));
  }

  /** So a leashed proper descendant of a main head can only add blocks of score zero, and has no more peers. */
  lemma {:induction false} MainHeadIsTop(t: Tree, ls: Leashes, main: BlockId, a: Addr)
    requires WellFormed(t) && NumOf(t, main) != 0 && IsMain(t, ls, main)
    requires a in ls && NumOf(t, ls[a]) != 0
    requires AncestorOrSelf(t, NumOf(t, main), NumOf(t, ls[a]))
    ensures AddsNothing(t, NumOf(t, main), NumOf(t, ls[a])) && |PeersOf(ls, ls[a])| <= |PeersOf(ls, main)|
  {
    NotAboveAncestor(t, ls, main, ls[a]);
    assert GroupOf(t, ls, ls[a]) in Groups(t, ls);
  }

  /** When every leashed block is comparable with the candidate the condition is exact for being main. */
  lemma {:induction false} MainOnOneChain(t: Tree, ls: Leashes, main: BlockId)
    requires WellFormed(t) && AllStored(t, ls) && exists a :: a in ls && ls[a] == main
    requires forall a :: a in ls ==> AncestorOrSelf(t, NumOf(t, main), NumOf(t, ls[a]))
    ensures IsMain(t, ls, main) <==>
            forall a :: a in ls ==> AddsNothing(t, NumOf(t, main), NumOf(t, ls[a]))
                                    && |PeersOf(ls, ls[a])| <= |PeersOf(ls, main)|
  {
    forall a | a in ls
      ensures !Better(GroupOf(t, ls, ls[a]), GroupOf(t, ls, main)) <==>
              AddsNothing(t, NumOf(t, main), NumOf(t, ls[a])) && |PeersOf(ls, ls[a])| <= |PeersOf(ls, main)|
      ensures GroupOf(t, ls, ls[a]) in Groups(t, ls)
    {
      NotAboveAncestor(t, ls, main, ls[a]);
    }
  }

  /** With positive base targets no leashed block is a proper descendant of a main head. */
  lemma {:induction false} PositiveMainHeadIsTop(t: Tree, ls: Leashes, main: BlockId, a: Addr)
    requires WellFormed(t) && NumOf(t, main) != 0 && IsMain(t, ls, main)
    requires a in ls && NumOf(t, ls[a]) != 0 && t[NumOf(t, ls[a])].target > 0
    ensures AncestorOrSelf(t, NumOf(t, main), NumOf(t, ls[a])) <==> ls[a] == main
  {
    var m, d := NumOf(t, main), NumOf(t, ls[a]);
    if AncestorOrSelf(t, m, d) {
      MainHeadIsTop(t, ls, main, a);
      AncestorAtHeight(t, m, d);
    }
    if ls[a] == main {
      SelfIsAncestor(t, m);
    }
  }

  // ----- scores before peers

  /** Of two chains that part at their last blocks, one with at most half the base target of the other is ranked above
      it, however many peers are on either. */
  lemma {:induction false} HalfTargetOutranks(t: Tree, ls: Leashes, id: BlockId, other: BlockId)
    requires WellFormed(t) && NumOf(t, id) >= 2 && NumOf(t, other) >= 2
    requires var x, y := t[NumOf(t, id)], t[NumOf(t, other)];
             x.parent == y.parent && 0 < x.target && 2 * x.target <= y.target
    ensures Better(GroupOf(t, ls, id), GroupOf(t, ls, other))
    ensures id in ls.Values ==> !IsMain(t, ls, other)
  {
    var m, n := NumOf(t, id), NumOf(t, other);
    assert Placed(t, m) && Placed(t, n) && Indexed(t, n);
    HalfTargetScoresDouble(t[m].target, t[n].target);
    if id in ls.Values {
      var a :| a in ls && ls[a] == id;
      assert GroupOf(t, ls, ls[a]) in Groups(t, ls);
    }
  }

  // ----- reports about named peers

  /** A main head of all peers is one among the named peers exactly if some named peer is on it, and no chain of the
      same score has more of the named peers. Otherwise `Forks` compares the named peers with another chain. */
  lemma {:induction false} NamedPeersMain(t: Tree, ls: Leashes, peers: set<Addr>, main: BlockId)
    requires IsMain(t, ls, main)
    ensures var f := Filtered(ls, peers);
      IsMain(t, f, main) <==>
        && (exists a :: a in f && f[a] == main)
        && (forall a :: a in f && Score(t, NumOf(t, f[a])) == Score(t, NumOf(t, main)) ==>
              |PeersOf(f, f[a])| <= |PeersOf(f, main)|)
  {
    var f := Filtered(ls, peers);
    forall a | a in f
      ensures Better(GroupOf(t, f, f[a]), GroupOf(t, f, main)) <==>
              Score(t, NumOf(t, f[a])) == Score(t, NumOf(t, main)) && |PeersOf(f, f[a])| > |PeersOf(f, main)|
      ensures GroupOf(t, f, f[a]) in Groups(t, f)
    {
      assert GroupOf(t, ls, ls[a]) in Groups(t, ls);
    }
  }
}
