/** Powers of two and the logarithm that sizes a jump table. */
module Powers {

  function Pow2(n: nat): (p: nat)
    ensures p >= 1
  {
    if n == 0 then 1 else 2 * Pow2(n - 1)
  }

  /** The rounded-up binary logarithm of a positive number. */
  function CeilLog2(h: nat): nat
  {
    if h <= 1 then 0 else 1 + CeilLog2((h + 1) / 2)
  }

  /** `CeilLog2(h)` counts the powers of two below `h`. */
  lemma {:induction false} PowerBelow(h: nat, l: nat)
    requires h >= 1
    ensures l < CeilLog2(h) <==> Pow2(l) < h
  {
    if h > 1 && l > 0 {
      PowerBelow((h + 1) / 2, l - 1);
    }
  }

  lemma {:induction false} PowMonotone(m: nat, n: nat)
    requires m <= n
    ensures Pow2(m) <= Pow2(n)
  {
    if m < n {
      PowMonotone(m, n - 1);
    }
  }

  lemma MultipleAtLeast(d: int, p: nat)
    requires d >= 1
    ensures d * p >= p
  {
    assert d * p == (d - 1) * p + p;
  }

  lemma DivModUnique(k: nat, p: nat, q: nat, r: nat)
    requires k == q * p + r && r < p
    ensures k / p == q && k % p == r
  {
    var q', r' := k / p, k % p;
    assert (q - q') * p == r' - r;
    if q < q' {
      MultipleAtLeast(q' - q, p);
      assert false;
    } else if q' < q {
      MultipleAtLeast(q - q', p);
      assert false;
    }
  }

  lemma DivMod(k: nat, m: nat) returns (q: nat, r: nat)
    requires m >= 1
    ensures k == q * m + r && r < m && r == k % m
  {
    q, r := k / m, k % m;
  }

  lemma DoubleProduct(q: nat, p: nat, m: nat)
    requires m == 2 * p
    ensures q * m == (2 * q) * p
  {
  }

  lemma OneMore(q: nat, p: nat)
    ensures (q + 1) * p == q * p + p
  {
  }

  lemma HalfOfRemainder(k: nat, p: nat, q: nat, r: nat)
    requires r < 2 * p && k == q * p + r
    ensures k % p == if r >= p then r - p else r
  {
    if r < p {
      DivModUnique(k, p, q, r);
    } else {
      OneMore(q, p);
      DivModUnique(k, p, q + 1, r - p);
    }
  }

  lemma HalfRemainder(k: nat, p: nat, m: nat)
    requires p >= 1 && m == 2 * p
    ensures k % m == k % p + (if k % m >= p then p else 0)
  {
    var q, r := DivMod(k, m);
    DoubleProduct(q, p, m);
    HalfOfRemainder(k, p, 2 * q, r);
  }

  /** Clearing bit `i`: the remainder by 2^(i+1) is the one by 2^i, plus 2^i when bit `i` is set. */
  lemma RemainderStep(k: nat, i: nat)
    ensures k % Pow2(i + 1) == k % Pow2(i) + (if k % Pow2(i + 1) >= Pow2(i) then Pow2(i) else 0)
  {
    HalfRemainder(k, Pow2(i), Pow2(i + 1));
  }

  lemma SmallRemainder(k: nat, p: nat)
    requires k < p
    ensures k % p == k
  {
    DivModUnique(k, p, 0, k);
  }
}
