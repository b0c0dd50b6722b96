/** Powers of two. */
module Powers {
  function Pow2(n: nat): (r: nat)
    ensures r > 0
  {
    if n == 0 then 1 else 2 * Pow2(n - 1)
  }

  lemma {:induction false} PowSum(m: nat, n: nat)
    ensures Pow2(m + n) == Pow2(m) * Pow2(n)
  {
    if m == 0 {
    } else {
      PowSum(m - 1, n);
    }
  }

  lemma {:induction false} PowLess(m: nat, n: nat)
    requires m < n
    ensures Pow2(m) < Pow2(n)
  {
    if m + 1 == n {
    } else {
      PowLess(m, n - 1);
    }
  }

  lemma TwoTo64()
    ensures Pow2(64) == 0x1_0000_0000_0000_0000
  {
    assert Pow2(4) == 16;
    assert Pow2(8) == 0x100 by { PowSum(4, 4); }
    assert Pow2(16) == 0x1_0000 by { PowSum(8, 8); }
    assert Pow2(32) == 0x1_0000_0000 by { PowSum(16, 16); }
    PowSum(32, 32);
  }
}
