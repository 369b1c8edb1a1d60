/** Arithmetic of ring-buffer tickets: ticket `k` belongs to slot `k % n`, on revolution `k / n`. */
module Tickets {

  /** The number of tickets below `k` that belong to slot `i` of a ring of `n` slots. */
  ghost function Claims(k: nat, i: nat, n: nat): nat
    requires n > 0
  {
    if k == 0 then 0 else Claims(k - 1, i, n) + if (k - 1) % n == i then 1 else 0
  }

  lemma DivModNext(k: nat, n: nat)
    requires n > 0
    ensures (k + 1) / n == (if k % n == n - 1 then k / n + 1 else k / n)
    ensures (k + 1) % n == (if k % n == n - 1 then 0 else k % n + 1)
  {
    var q, m := k / n, k % n;
    assert k == q * n + m;
    if m == n - 1 {
      assert k + 1 == (q + 1) * n;
      DivModUnique(k + 1, n, q + 1, 0);
    } else {
      DivModUnique(k + 1, n, q, m + 1);
    }
  }

  /** Dividing by a variable: the facts every lemma below is derived from. */
  lemma DivMod(k: nat, n: nat)
    requires n > 0
    ensures k == (k / n) * n + k % n && 0 <= k % n < n && k / n >= 0
  {}

  lemma QuotientOrder(q: nat, m: nat, q': nat, m': nat, n: nat)
    requires m < n && m' < n && q < q'
    ensures q * n + m < q' * n + m'
  {
    assert q' * n == (q' - q - 1) * n + q * n + n;
    assert (q' - q - 1) * n >= 0;
  }

  lemma DivModUnique(k: nat, n: nat, q: nat, m: nat)
    requires m < n
    requires k == q * n + m
    ensures k / n == q && k % n == m
  {
    DivMod(k, n);
    if q < k / n {
      QuotientOrder(q, m, k / n, k % n, n);
    } else if k / n < q {
      QuotientOrder(k / n, k % n, q, m, n);
    }
  }

  /** Claims has a closed form: complete revolutions, plus one when the current one has passed `i`. */
  lemma {:induction false} ClaimsClosed(k: nat, i: nat, n: nat)
    requires i < n
    ensures Claims(k, i, n) == k / n + if i < k % n then 1 else 0
  {
    if k == 0 {
      DivModUnique(0, n, 0, 0);
    } else {
      ClaimsClosed(k - 1, i, n);
      DivModNext(k - 1, n);
    }
  }

  /** A ticket is determined by its slot and its revolution. */
  lemma TicketUnique(a: nat, b: nat, n: nat)
    requires n > 0
    requires a % n == b % n && a / n == b / n
    ensures a == b
  {
    assert a == a / n * n + a % n;
    assert b == b / n * n + b % n;
  }

  /** Ticket `k` was handed out before `m` exactly when its revolution is below the count of its slot. */
  lemma {:induction false} ClaimedIff(k: nat, m: nat, n: nat)
    requires n > 0
    ensures k < m <==> k / n < Claims(m, k % n, n)
  {
    ClaimsClosed(m, k % n, n);
    DivMod(k, n);
    DivMod(m, n);
    if k / n < m / n {
      QuotientOrder(k / n, k % n, m / n, m % n, n);
    } else if k / n > m / n {
      QuotientOrder(m / n, m % n, k / n, k % n, n);
    }
  }

  /** The ticket that makes the `c`-th claim on slot `i`. */
  lemma TicketOfCount(m: nat, i: nat, n: nat, c: nat) returns (k: nat)
    requires i < n && c < Claims(m, i, n)
    ensures k < m && k % n == i && k / n == c
  {
    k := c * n + i;
    DivModUnique(k, n, c, i);
    ClaimedIff(k, m, n);
  }

  lemma NextRevolution(k: nat, n: nat)
    requires n > 0
    ensures (k + n) / n == k / n + 1 && (k + n) % n == k % n
  {
    DivMod(k, n);
    DivModUnique(k + n, n, k / n + 1, k % n);
  }

  /** Tickets less than a revolution apart have different slots. */
  lemma DistinctSlots(a: nat, b: nat, n: nat)
    requires n > 0 && a < b < a + n
    ensures a % n != b % n
  {
    DivMod(a, n);
    DivMod(b, n);
    MultipleIsFar(b / n - a / n, n);
    assert (b / n - a / n) * n == b / n * n - a / n * n;
  }

  lemma MultipleIsFar(d: int, n: nat)
    ensures d * n <= 0 || d * n >= n
  {
    if d >= 1 {
      assert d * n == (d - 1) * n + n;
      assert (d - 1) * n >= 0;
    }
  }

  /** A ring is full when the last revolution's ticket on the front slot is still unclaimed. */
  lemma FullIff(r: nat, w: nat, n: nat)
    requires n > 0 && r <= w <= r + n
    requires Claims(r, w % n, n) <= w / n
    ensures Claims(r, w % n, n) == w / n <==> w - r < n
  {
    if w >= n {
      NextRevolution(w - n, n);
      ClaimedIff(w - n, r, n);
    } else {
      DivModUnique(w, n, 0, w);
    }
  }
}
