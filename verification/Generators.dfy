/** Counting the blocks of each generator (`ForkGenerators` in chains/linkage.go). */
module Generators {
  import opened Entities
  import opened Heads
  import opened Database
  import opened Sorting

  datatype GeneratorStats = GeneratorStats(generator: Generator, blocks: nat)

  function Count(bs: seq<Block>, g: Generator): nat
  {
    if bs == [] then 0 else (if bs[|bs| - 1].generator == g then 1 else 0) + Count(bs[..|bs| - 1], g)
  }

  /** The positions of the blocks that `g` made. */
  ghost function MadeBy(bs: seq<Block>, g: Generator): set<nat>
  {
    set i: nat | i < |bs| && bs[i].generator == g
  }

  lemma {:induction false} CountIsCardinality(bs: seq<Block>, g: Generator)
    ensures Count(bs, g) == |MadeBy(bs, g)|
  {
    if bs != [] {
      var init, last := bs[..|bs| - 1], |bs| - 1;
      CountIsCardinality(init, g);
      assert MadeBy(bs, g) == MadeBy(init, g) + if bs[last].generator == g then {last} else {};
    }
  }

  /** One entry for every generator that occurs, with the number of its blocks. */
  ghost predicate AreCounts(bs: seq<Block>, stats: seq<GeneratorStats>)
  {
    && (forall i, j :: 0 <= i < j < |stats| ==> stats[i].generator != stats[j].generator)
    && (forall s :: s in stats ==> s.blocks == Count(bs, s.generator) > 0)
    && (forall g :: Count(bs, g) > 0 ==> GeneratorStats(g, Count(bs, g)) in stats)
  }

  function Total(stats: seq<GeneratorStats>): nat
  {
    if stats == [] then 0 else stats[0].blocks + Total(stats[1..])
  }

  function Without(bs: seq<Block>, g: Generator): seq<Block>
  {
    if bs == [] then []
    else Without(bs[..|bs| - 1], g) + if bs[|bs| - 1].generator == g then [] else [bs[|bs| - 1]]
  }

  lemma {:induction false} CountWithout(bs: seq<Block>, g: Generator, h: Generator)
    ensures |Without(bs, g)| == |bs| - Count(bs, g)
    ensures Count(Without(bs, g), h) == if g == h then 0 else Count(bs, h)
  {
    if bs != [] {
      var init, last := bs[..|bs| - 1], bs[|bs| - 1];
      CountWithout(init, g, h);
      if last.generator != g {
        var w := Without(init, g) + [last];
        assert w[..|w| - 1] == Without(init, g);
      } else {
        assert Without(init, g) + [] == Without(init, g);
      }
    }
  }

  /** The counts add up to the number of blocks looked at. */
  lemma {:induction false} CountsAddUp(bs: seq<Block>, stats: seq<GeneratorStats>)
    requires AreCounts(bs, stats)
    ensures Total(stats) == |bs|
    decreases |stats|
  {
    if stats == [] {
      if bs != [] {
        SomeCount(bs);
      }
    } else {
      var g := stats[0].generator;
      var rest := stats[1..];
      assert stats[0] in stats;
      CountWithout(bs, g, g);
      forall s | s in rest
        ensures s.blocks == Count(Without(bs, g), s.generator) > 0
      {
        assert s in stats;
        CountWithout(bs, g, s.generator);
      }
      forall h | Count(Without(bs, g), h) > 0
        ensures GeneratorStats(h, Count(Without(bs, g), h)) in rest
      {
        CountWithout(bs, g, h);
        assert GeneratorStats(h, Count(bs, h)) in stats;
      }
      CountsAddUp(Without(bs, g), rest);
    }
  }

  lemma SomeCount(bs: seq<Block>)
    requires bs != []
    ensures Count(bs, bs[|bs| - 1].generator) > 0
  {
  }

  /** The entries of the generators still to be listed follow those already listed. */
  method CountGenerators(bs: seq<Block>) returns (stats: seq<GeneratorStats>)
    ensures AreCounts(bs, stats) && Total(stats) == |bs|
    ensures forall i, j :: 0 <= i < j < |stats| ==> stats[i].blocks >= stats[j].blocks
  {
    var m: map<Generator, nat> := map[];
    for i := 0 to |bs|
      invariant forall g :: (g in m <==> Count(bs[..i], g) > 0) && (g in m ==> m[g] == Count(bs[..i], g))
    {
      var g := bs[i].generator;
      assert bs[..i + 1][..i] == bs[..i];
      m := m[g := (if g in m then m[g] else 0) + 1];
    }
    assert bs[..|bs|] == bs;
    var list := ListCounts(m);
    assert AreCounts(bs, list);
    stats := SortDesc(list, (s: GeneratorStats) => s.blocks, (s: GeneratorStats) => 0);
    SameCounts(bs, list, stats);
    CountsAddUp(bs, stats);
    forall i, j | 0 <= i < j < |stats|
      ensures stats[i].blocks >= stats[j].blocks
    {
      assert !Before((s: GeneratorStats) => s.blocks, (s: GeneratorStats) => 0, stats[j], stats[i]);
    }
  }

  method ListCounts(m: map<Generator, nat>) returns (list: seq<GeneratorStats>)
    ensures forall i, j :: 0 <= i < j < |list| ==> list[i].generator != list[j].generator
    ensures forall s :: s in list <==> s.generator in m && m[s.generator] == s.blocks
    ensures NoDuplicates(list)
  {
    list := [];
    var rest := m.Keys;
    while rest != {}
      invariant rest <= m.Keys
      invariant forall i, j :: 0 <= i < j < |list| ==> list[i].generator != list[j].generator
      invariant forall s :: s in list <==> s.generator in m.Keys - rest && m[s.generator] == s.blocks
      decreases |rest|
    {
      var g :| g in rest;
      assert forall s :: s in list ==> s.generator != g;
      list := list + [GeneratorStats(g, m[g])];
      rest := rest - {g};
    }
  }

  lemma {:induction false} SameCounts(bs: seq<Block>, a: seq<GeneratorStats>, b: seq<GeneratorStats>)
    requires AreCounts(bs, a) && NoDuplicates(b) && forall s :: s in b <==> s in a
    ensures AreCounts(bs, b)
  {
    forall i, j | 0 <= i < j < |b|
      ensures b[i].generator != b[j].generator
    {
      assert b[i] in a && b[j] in a && b[i] != b[j];
    }
  }
}
