/** Powers of two and the arithmetic the codecs and prefixes need of them. */
module Powers {

  function Pow2(n: nat): (r: nat)
    ensures r > 0
  {
    if n == 0 then 1 else 2 * Pow2(n - 1)
  }

  lemma {:induction false} Pow2Add(a: nat, b: nat)
    ensures Pow2(a + b) == Pow2(a) * Pow2(b)
  {
    if b == 0 {
    } else {
      Pow2Add(a, b - 1);
      calc {
        Pow2(a + b);
        2 * Pow2(a + (b - 1));
        2 * (Pow2(a) * Pow2(b - 1));
        Pow2(a) * (2 * Pow2(b - 1));
      }
    }
  }

  lemma {:induction false} Pow2Monotone(a: nat, b: nat)
    requires a < b
    ensures Pow2(a) < Pow2(b)
  {
    if a + 1 < b {
      Pow2Monotone(a, b - 1);
    }
  }

  lemma Pow2Eight()
    ensures Pow2(8) == 256
  {
    assert Pow2(4) == 16;
    Pow2Add(4, 4);
  }

  /** The remainder is the one number below `n` that differs by a multiple of `n`. */
  lemma ModUnique(a: nat, r: nat, q: int, n: nat)
    requires n > 0 && r < n && a == r + q * n
    ensures a % n == r && a / n == q
  {
    var d := a / n;
    assert a == d * n + a % n;
    if d < q {
      assert (q - d) * n >= n by { MulAtLeast(q - d, n); }
    } else if q < d {
      assert (d - q) * n >= n by { MulAtLeast(d - q, n); }
    }
    assert (q - d) * n == q * n - d * n;
  }

  lemma MulAtLeast(k: nat, n: nat)
    requires k >= 1
    ensures k * n >= n
  {
    assert (k - 1) * n >= 0;
  }

  /** Number of bits of the binary form, as big.Int.BitLen gives it. */
  function BitLen(n: nat): nat {
    if n == 0 then 0 else 1 + BitLen(n / 2)
  }

  lemma {:induction false} BitLenBounds(n: nat)
    requires n > 0
    ensures BitLen(n) > 0 && Pow2(BitLen(n) - 1) <= n < Pow2(BitLen(n))
  {
    if n > 1 {
      BitLenBounds(n / 2);
    } else {
      assert BitLen(0) == 0;
    }
  }

  /** The high-bit test finds the exponent of a power of two, and only of one. */
  lemma BitLenOfPow2(k: nat)
    ensures BitLen(Pow2(k)) == k + 1
  {
    BitLenBounds(Pow2(k));
    var b := BitLen(Pow2(k));
    if b - 1 > k {
      Pow2Monotone(k, b - 1);
    } else if b < k + 1 {
      if b < k {
        Pow2Monotone(b, k);
      }
    }
  }
}
