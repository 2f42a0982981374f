/** Chain heads: the numbered pointers to the ends of chains. */
module Heads {
  import opened BlockTree

  /** The head list after block `n` is placed on block `base`: `n` takes over the head of `base`,
      or opens a new head when `base` has none (any more). Head number i + 1 is at position i. */
  function PlaceHead(hs: seq<nat>, base: nat, n: nat): seq<nat>
  {
    if hs == [] then [n]
    else if hs[0] == base then [n] + hs[1..]
    else [hs[0]] + PlaceHead(hs[1..], base, n)
  }

  function HeadList(t: Tree): seq<nat>
  {
    if |t| <= 1 then []
    else PlaceHead(HeadList(t[..|t| - 1]), t[|t| - 1].base, |t| - 1)
  }

  /** The blocks on which nothing was placed later, neither a key-block nor a micro-block. */
  ghost predicate IsTip(t: Tree, n: nat)
  {
    1 <= n < |t| && forall m :: n < m < |t| ==> t[m].base != n
  }

  ghost predicate NoDuplicates<T(!new)>(s: seq<T>)
  {
    forall i, j :: 0 <= i < j < |s| ==> s[i] != s[j]
  }

  lemma {:induction false} PlaceHeadElements(hs: seq<nat>, base: nat, n: nat, x: nat)
    requires NoDuplicates(hs)
    ensures x in PlaceHead(hs, base, n) <==> x == n || (x in hs && x != base)
  {
    if hs == [] {
    } else if hs[0] == base {
      assert hs == [hs[0]] + hs[1..];
    } else {
      PlaceHeadElements(hs[1..], base, n, x);
      assert hs == [hs[0]] + hs[1..];
    }
  }

  lemma {:induction false} PlaceHeadNoDuplicates(hs: seq<nat>, base: nat, n: nat)
    requires NoDuplicates(hs) && n !in hs
    ensures NoDuplicates(PlaceHead(hs, base, n))
  {
    if hs != [] && hs[0] != base {
      PlaceHeadNoDuplicates(hs[1..], base, n);
      PlaceHeadElements(hs[1..], base, n, hs[0]);
    }
  }

  /** What becomes of each position of the head list. */
  lemma {:induction false} PlaceHeadAt(hs: seq<nat>, base: nat, n: nat)
    requires NoDuplicates(hs)
    ensures base in hs ==> |PlaceHead(hs, base, n)| == |hs|
    ensures base in hs ==>
              forall i :: 0 <= i < |hs| ==> PlaceHead(hs, base, n)[i] == if hs[i] == base then n else hs[i]
    ensures base !in hs ==> PlaceHead(hs, base, n) == hs + [n]
  {
    if hs == [] {
    } else if hs[0] == base {
    } else {
      PlaceHeadAt(hs[1..], base, n);
    }
  }

  /** Every tip has exactly one head and heads point to nothing else. */
  lemma {:induction false} HeadsAreTips(t: Tree)
    requires forall n :: 1 <= n < |t| ==> t[n].base < n
    ensures NoDuplicates(HeadList(t))
    ensures forall n :: n in HeadList(t) <==> IsTip(t, n)
  {
    if |t| > 1 {
      var last := |t| - 1;
      var u := t[..last];
      HeadsAreTips(u);
      assert last !in HeadList(u);
      PlaceHeadNoDuplicates(HeadList(u), t[last].base, last);
      forall n: nat
        ensures n in HeadList(t) <==> IsTip(t, n)
      {
        PlaceHeadElements(HeadList(u), t[last].base, last, n);
        TipStep(t, n);
      }
    }
  }

  lemma TipStep(t: Tree, n: nat)
    requires |t| > 1 && t[|t| - 1].base < |t| - 1
    ensures IsTip(t, n) <==> n == |t| - 1 || (IsTip(t[..|t| - 1], n) && n != t[|t| - 1].base)
  {
    var u := t[..|t| - 1];
    if n < |t| - 1 && IsTip(t, n) {
      assert t[|t| - 1].base != n;
      assert forall m :: n < m < |u| ==> u[m].base == t[m].base;
      assert IsTip(u, n);
    }
    if IsTip(u, n) && n != t[|t| - 1].base {
      forall m | n < m < |t|
        ensures t[m].base != n
      {
        if m < |u| { assert u[m].base != n; }
      }
    }
  }

  /** The head list of a grown tree, as the storage computes it. */
  lemma {:induction false} HeadListAppend(t: Tree, x: Node)
    requires |t| >= 1
    ensures HeadList(t + [x]) == PlaceHead(HeadList(t), x.base, |t|)
  {
    var u := t + [x];
    assert u[..|u| - 1] == t && u[|u| - 1] == x;
    assert HeadList(u) == PlaceHead(HeadList(u[..|u| - 1]), u[|u| - 1].base, |u| - 1);
  }

  lemma WellFormedHeads(t: Tree)
    requires WellFormed(t)
    ensures NoDuplicates(HeadList(t))
    ensures forall n :: n in HeadList(t) <==> IsTip(t, n)
  {
    forall n | 1 <= n < |t|
      ensures t[n].base < n
    {
      if n >= 2 { assert Placed(t, n); }
    }
    HeadsAreTips(t);
  }
}
