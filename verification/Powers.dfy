/** Powers of two. */
module Powers {
  function Pow2(k: nat): (r: nat)
    ensures r >= 1
  {
    if k == 0 then 1 else 2 * Pow2(k - 1)
  }

  lemma {:induction false} Pow2Monotone(j: nat, k: nat)
    requires j <= k
    ensures Pow2(j) <= Pow2(k)
  {
    if j < k { Pow2Monotone(j, k - 1); }
  }

  lemma Pow2Of17()
    ensures Pow2(17) == 131072
  {
    assert Pow2(2) == 4;
    assert Pow2(4) == 16;
    assert Pow2(6) == 64;
    assert Pow2(8) == 256;
    assert Pow2(10) == 1024;
    assert Pow2(12) == 4096;
    assert Pow2(14) == 16384;
    assert Pow2(16) == 65536;
  }

  lemma Pow2Of32()
    ensures Pow2(32) == 0x1_0000_0000
  {
    Pow2Of17();
    assert Pow2(19) == 524288;
    assert Pow2(21) == 2097152;
    assert Pow2(23) == 8388608;
    assert Pow2(25) == 33554432;
    assert Pow2(27) == 134217728;
    assert Pow2(29) == 536870912;
    assert Pow2(31) == 2147483648;
  }

  lemma MulMonotone(x: int, y: int, w: nat)
    requires x <= y
    ensures x * w <= y * w
  {
    assert (y - x) * w >= 0;
  }
}
