/** Unsigned machine words as naturals, with the shift and the bitwise or written out bit by bit. */
module Words {

  function Pow2(n: nat): (p: nat)
    ensures p >= 1
  {
    if n == 0 then 1 else 2 * Pow2(n - 1)
  }

  /** The logical right shift. */
  function Shr(x: nat, j: nat): nat {
    if j == 0 then x else Shr(x / 2, j - 1)
  }

  function Or(x: nat, y: nat): nat
    decreases x + y
  {
    if x == 0 && y == 0 then 0
    else 2 * Or(x / 2, y / 2) + if x % 2 == 1 || y % 2 == 1 then 1 else 0
  }

  /** `x` fits in `n` bits and its highest `j` bits are ones. */
  ghost predicate TopOnes(x: nat, n: nat, j: nat) {
    j <= n && Pow2(n) - Pow2(n - j) <= x < Pow2(n)
  }

  function Min(a: nat, b: nat): nat { if a < b then a else b }

  /** Oring ones below a run of ones lengthens the run. */
  lemma {:induction false} OrTopOnes(x: nat, y: nat, n: nat, j: nat, i: nat)
    requires j + i <= n && TopOnes(x, n, j) && TopOnes(y, n - j, i)
    ensures TopOnes(Or(x, y), n, j + i)
    decreases n
  {
    if n == 0 {
    } else if n == j {
      OrZero(x);
    } else if i < n - j {
      HalfTopOnes(x, n, j);
      HalfTopOnes(y, n - j, i);
      OrTopOnes(x / 2, y / 2, n - 1, j, i);
    } else {
      HalfTopOnes(x, n, j);
      HalfTopOnes(y, n - j, i);
      assert y % 2 == 1;
      OrTopOnes(x / 2, y / 2, n - 1, j, i - 1);
    }
  }

  lemma {:induction false} OrZero(x: nat)
    ensures Or(x, 0) == x
  {
    if x > 0 { OrZero(x / 2); }
  }

  lemma HalfTopOnes(x: nat, n: nat, j: nat)
    requires n > 0 && TopOnes(x, n, j)
    ensures TopOnes(x / 2, n - 1, Min(j, n - 1))
  {}

  lemma {:induction false} ShrTopOnes(x: nat, n: nat, j: nat, i: nat)
    requires i <= n && TopOnes(x, n, j)
    ensures TopOnes(Shr(x, i), n - i, Min(j, n - i))
    decreases i
  {
    if i > 0 {
      HalfTopOnes(x, n, j);
      ShrTopOnes(x / 2, n - 1, Min(j, n - 1), i - 1);
    }
  }

  lemma {:induction false} ShrAll(x: nat, n: nat, i: nat)
    requires x < Pow2(n) && n <= i
    ensures Shr(x, i) == 0
    decreases i
  {
    if i > 0 { ShrAll(x / 2, if n == 0 then 0 else n - 1, i - 1); }
  }

  /** One smearing step doubles the run of leading ones, up to the whole word. */
  lemma Smear(x: nat, n: nat, j: nat)
    requires TopOnes(x, n, Min(j, n))
    ensures TopOnes(Or(x, Shr(x, j)), n, Min(2 * j, n))
  {
    if n <= j {
      ShrAll(x, n, j);
      OrZero(x);
    } else {
      ShrTopOnes(x, n, j, j);
      OrTopOnes(x, Shr(x, j), n, j, Min(j, n - j));
    }
  }

  lemma {:induction false} BitLength(x: nat, m: nat) returns (n: nat)
    requires 1 <= x < Pow2(m)
    ensures 1 <= n <= m && Pow2(n - 1) <= x < Pow2(n)
  {
    if m == 1 || Pow2(m - 1) <= x {
      n := m;
    } else {
      n := BitLength(x, m - 1);
    }
  }
}
