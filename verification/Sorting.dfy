/** Stands for the sorting library: callers rely only on the contract of `SortDesc`. */
module Sorting {
  import opened Heads

  /** Whether `x` belongs before `y` in descending order. */
  predicate Before<T>(major: T -> nat, minor: T -> nat, x: T, y: T)
  {
    major(x) > major(y) || (major(x) == major(y) && minor(x) > minor(y))
  }

  ghost predicate Descending<T>(major: T -> nat, minor: T -> nat, s: seq<T>)
  {
    forall i, j :: 0 <= i < j < |s| ==> !Before(major, minor, s[j], s[i])
  }

  /** The same elements, none of them twice, in descending order; the order of equals is open. */
  method SortDesc<T(!new)>(a: seq<T>, major: T -> nat, minor: T -> nat) returns (s: seq<T>)
    requires NoDuplicates(a)
    ensures NoDuplicates(s) && forall x :: x in s <==> x in a
    ensures Descending(major, minor, s)
  {
    s := [];
    for i := 0 to |a|
      invariant NoDuplicates(s) && forall x :: x in s <==> x in a[..i]
      invariant Descending(major, minor, s)
    {
      assert a[i] !in a[..i];
      s := Insert(s, a[i], major, minor);
      assert a[..i + 1] == a[..i] + [a[i]];
    }
    assert a[..|a|] == a;
  }

  method Insert<T(!new)>(s: seq<T>, x: T, major: T -> nat, minor: T -> nat) returns (r: seq<T>)
    requires NoDuplicates(s) && x !in s
    requires Descending(major, minor, s)
    ensures NoDuplicates(r) && forall y :: y in r <==> y in s || y == x
    ensures Descending(major, minor, r)
  {
    var p := 0;
    while p < |s| && !Before(major, minor, x, s[p])
      invariant 0 <= p <= |s|
      invariant forall j :: 0 <= j < p ==> !Before(major, minor, x, s[j])
    {
      p := p + 1;
    }
    r := s[..p] + [x] + s[p..];
    assert s == s[..p] + s[p..];
  }
}
