/** Powers of two, alignment to them, and the position of the lowest and highest set bit. */
module Powers {

  function Pow2(n: nat): (r: nat)
    ensures r >= 1
  {
    if n == 0 then 1 else 2 * Pow2(n - 1)
  }

  lemma {:induction false} Pow2Add(a: nat, b: nat)
    ensures Pow2(a + b) == Pow2(a) * Pow2(b)
  {
    if a == 0 {
    } else {
      Pow2Add(a - 1, b);
      assert Pow2(a + b) == 2 * Pow2(a - 1 + b);
    }
  }

  lemma {:induction false} Pow2Monotone(a: nat, b: nat)
    requires a <= b
    ensures Pow2(a) <= Pow2(b)
    ensures a < b ==> 2 * Pow2(a) <= Pow2(b)
  {
    if a < b {
      Pow2Monotone(a, b - 1);
    }
  }

  lemma MultipleOf(q: int, m: nat)
    requires m > 0
    ensures (q * m) % m == 0 && (m * q) % m == 0
  {
    MultipleMod(q, m, 0);
  }

  lemma Distribute(n: int, a: int, b: int)
    ensures n * (a + b) == n * a + n * b
  {
  }

  lemma NonNegative(a: nat, b: nat)
    ensures a * b >= 0
  {
  }

  lemma AtLeast(a: int, m: nat)
    requires a >= 1
    ensures a * m >= m
  {
  }

  lemma MultipleMod(q: int, m: nat, r: nat)
    requires r < m
    ensures (q * m + r) % m == r && (q * m + r) / m == q
  {
    DivisionUnique(q * m + r, m, q, r);
  }

  lemma DivisionUnique(x: int, m: nat, q: int, r: nat)
    requires r < m && x == q * m + r
    ensures x % m == r && x / m == q
  {
    var d, e := x / m, x % m;
    assert x == d * m + e;
    assert (d - q) * m == r - e;
    if d > q {
      AtLeast(d - q, m);
      assert false;
    } else if d < q {
      AtLeast(q - d, m);
      assert false;
    }
  }

  /** The k lowest bits of x are zero. */
  predicate LowBitsZero(x: int, k: nat)
    decreases k
  {
    k == 0 || (x % 2 == 0 && LowBitsZero(x / 2, k - 1))
  }

  predicate Aligned(x: int, k: nat) {
    LowBitsZero(x, k)
  }

  /** Alignment to a power of two implies alignment to every smaller one. */
  lemma {:induction false} AlignedSmaller(x: int, a: nat, b: nat)
    requires a <= b && Aligned(x, b)
    ensures Aligned(x, a)
    decreases a
  {
    if a == 0 {
    } else {
      AlignedSmaller(x / 2, a - 1, b - 1);
    }
  }

  lemma Halved(x: int)
    ensures 2 * x / 2 == x && 2 * x % 2 == 0
  {
  }

  lemma EvenSum(x: int, y: int)
    requires x % 2 == 0 && y % 2 == 0
    ensures (x + y) % 2 == 0 && (x + y) / 2 == x / 2 + y / 2
    ensures (x - y) % 2 == 0 && (x - y) / 2 == x / 2 - y / 2
  {
  }

  lemma {:induction false} Pow2Aligned(k: nat, a: nat)
    requires a <= k
    ensures Aligned(Pow2(k), a)
  {
    if a == 0 {
    } else {
      Halved(Pow2(k - 1));
      Pow2Aligned(k - 1, a - 1);
    }
  }

  lemma {:induction false} AlignedSum(x: int, y: int, k: nat)
    requires Aligned(x, k) && Aligned(y, k)
    ensures Aligned(x + y, k) && Aligned(x - y, k)
    decreases k
  {
    if k == 0 {
    } else {
      EvenSum(x, y);
      AlignedSum(x / 2, y / 2, k - 1);
    }
  }

  /** Aligned numbers that differ are at least the alignment apart. */
  lemma {:induction false} AlignedApart(x: int, y: int, k: nat)
    requires Aligned(x, k) && Aligned(y, k) && x < y
    ensures x + Pow2(k) <= y
    decreases k
  {
    if k == 0 {
    } else {
      AlignedApart(x / 2, y / 2, k - 1);
    }
  }

  /** Adding or taking away one unit of an alignment turns the next bit over. */
  lemma {:induction false} AlignedNext(x: int, k: nat)
    requires Aligned(x, k)
    ensures Aligned(x + Pow2(k), k) && Aligned(x - Pow2(k), k)
    ensures Aligned(x, k + 1) <==> !Aligned(x + Pow2(k), k + 1)
    ensures Aligned(x, k + 1) <==> !Aligned(x - Pow2(k), k + 1)
    decreases k
  {
    if k > 0 {
      AlignedNext(x / 2, k - 1);
      assert (x + Pow2(k)) / 2 == x / 2 + Pow2(k - 1) && (x - Pow2(k)) / 2 == x / 2 - Pow2(k - 1);
    } else {
      assert Aligned(x, 1) <==> x % 2 == 0;
    }
  }

  lemma DoubleProduct(x: int, m: int)
    ensures x * (2 * m) == 2 * (x * m)
  {
  }

  lemma {:induction false} AlignedScaled(x: int, j: nat, k: nat)
    ensures Aligned(x * Pow2(j), j + k) <==> Aligned(x, k)
    decreases j
  {
    if j == 0 {
    } else {
      AlignedScaled(x, j - 1, k);
      DoubleProduct(x, Pow2(j - 1));
    }
  }

  /** Exclusive or with the k-th power of two: the k-th bit turned over. */
  function FlipBit(x: int, k: nat): int
    decreases k
  {
    if k == 0 then (if x % 2 == 0 then x + 1 else x - 1)
    else 2 * FlipBit(x / 2, k - 1) + x % 2
  }

  /** On a number with no bits below the k-th, exclusive or adds or takes away. */
  lemma {:induction false} FlipBitOfAligned(x: int, k: nat)
    requires Aligned(x, k)
    ensures FlipBit(x, k) == if Aligned(x, k + 1) then x + Pow2(k) else x - Pow2(k)
    decreases k
  {
    if k > 0 {
      FlipBitOfAligned(x / 2, k - 1);
    } else {
      assert Aligned(x, 1) <==> x % 2 == 0;
    }
  }

  /** The number of trailing zero bits. */
  function TrailingZeros(x: nat): (c: nat)
    requires x > 0
  {
    if x % 2 == 1 then 0 else 1 + TrailingZeros(x / 2)
  }

  /** TrailingZeros is the largest exponent whose power of two divides x. */
  lemma {:induction false} TrailingZerosIsLargest(x: nat, k: nat)
    requires x > 0
    ensures Aligned(x, k) <==> k <= TrailingZeros(x)
    ensures Pow2(TrailingZeros(x)) <= x
  {
    if x % 2 == 0 {
      TrailingZerosIsLargest(x / 2, if k == 0 then 0 else k - 1);
    }
  }

  /** The position of the highest set bit. */
  function FloorLog2(x: nat): (c: nat)
    requires x > 0
    ensures Pow2(c) <= x < 2 * Pow2(c)
  {
    if x == 1 then 0 else 1 + FloorLog2(x / 2)
  }

  /** The least exponent whose power of two reaches x. */
  function CeilLog2(x: nat): nat
    requires x > 0
  {
    var low := FloorLog2(x);
    if x == Pow2(low) then low else low + 1
  }

  lemma CeilLog2IsLeast(x: nat)
    requires x > 0
    ensures x <= Pow2(CeilLog2(x)) && forall k: nat :: x <= Pow2(k) ==> CeilLog2(x) <= k
  {
    var low := FloorLog2(x);
    forall k: nat | x <= Pow2(k)
      ensures CeilLog2(x) <= k
    {
      if k < CeilLog2(x) {
        Pow2Monotone(k, low);
        assert false;
      }
    }
  }
}
