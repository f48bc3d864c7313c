/**
 The arithmetic of a rotation driven by a 64-bit counter: how often each index is picked, and what
 happens when the counter wraps.
 */
module Rotation {

  const TWO_64: nat := 0x1_0000_0000_0000_0000

  function Advance(counter: nat, steps: nat): nat { (counter + steps) % TWO_64 }

  lemma AdvanceByNone(counter: nat)
    requires counter < TWO_64
    ensures Advance(counter, 0) == counter
  {
  }

  lemma AdvanceByOne(counter: nat)
    requires counter + 1 < TWO_64
    ensures Advance(counter, 1) == counter + 1
  {
  }

  // ---------- quotients ----------

  lemma Large(d: nat, n: nat)
    requires d > 0
    ensures d * n >= n
  {
  }

  lemma Distribute(x: int, y: int, n: int)
    ensures (x - y) * n == x * n - y * n && (x + y) * n == x * n + y * n
  {
  }

  lemma {:induction false} QuotientIsUnique(q: nat, r: nat, q': nat, r': nat, n: nat)
    requires r < n && r' < n && q * n + r == q' * n + r'
    ensures q == q' && r == r'
  {
    Distribute(q, q', n);
    Distribute(q', q, n);
    if q < q' { Large(q' - q, n); }
    if q' < q { Large(q - q', n); }
  }

  lemma Parts(a: nat, n: nat)
    requires n > 0
    ensures (a / n) * n + a % n == a
  {
  }

  lemma {:induction false} Quotient(a: nat, q: nat, r: nat, n: nat)
    requires r < n && a == q * n + r
    ensures a / n == q && a % n == r
  {
    Parts(a, n);
    QuotientIsUnique(a / n, a % n, q, r, n);
  }

  lemma {:induction false} DivStep(a: nat, n: nat)
    requires n > 0
    ensures (a + 1) / n == a / n + (if (a + 1) % n == 0 then 1 else 0)
    ensures (a + 1) % n == if a % n == n - 1 then 0 else a % n + 1
  {
    var q, r := a / n, a % n;
    Parts(a, n);
    Distribute(q, 1, n);
    if r == n - 1 {
      Quotient(a + 1, q + 1, 0, n);
    } else {
      Quotient(a + 1, q, r + 1, n);
    }
  }

  /** A number selects i exactly when n divides it shifted up by n - i. */
  lemma {:induction false} ModShift(m: nat, n: nat, i: nat)
    requires i < n
    ensures m % n == i <==> (m + (n - 1 - i) + 1) % n == 0
  {
    var q, r := m / n, m % n;
    Parts(m, n);
    Distribute(q, 1, n);
    if r < i {
      Quotient(m + (n - 1 - i) + 1, q, r + n - i, n);
    } else {
      Quotient(m + (n - 1 - i) + 1, q + 1, r - i, n);
    }
  }

  lemma {:induction false} SumOfParts(a: nat, k: nat, q: nat, r: nat, p: nat, s: nat, n: nat)
    requires a == q * n + r && k == p * n + s && r < n && s < n
    ensures (a + k) / n == q + p + if r + s < n then 0 else 1
  {
    Distribute(q, p, n);
    Distribute(q + p, 1, n);
    if r + s < n {
      Quotient(a + k, q + p, r + s, n);
    } else {
      Quotient(a + k, q + p + 1, r + s - n, n);
    }
  }

  lemma {:induction false} FloorSum(a: nat, k: nat, n: nat)
    requires n > 0
    ensures k / n <= (a + k) / n - a / n <= k / n + 1
    ensures k % n == 0 ==> (a + k) / n - a / n == k / n
  {
    Parts(a, n);
    Parts(k, n);
    SumOfParts(a, k, a / n, a % n, k / n, k % n, n);
  }

  lemma {:induction false} Ceiling(k: nat, n: nat)
    requires n > 0
    ensures (k + n - 1) / n == k / n + if k % n == 0 then 0 else 1
  {
    var p, s := k / n, k % n;
    Parts(k, n);
    Distribute(p, 1, n);
    if s > 0 {
      Quotient(k + n - 1, p + 1, s - 1, n);
    } else {
      Quotient(k + n - 1, p, n - 1, n);
    }
  }

  /** Every index is one of the n next ones. */
  lemma OffsetOf(c: nat, i: nat, n: nat) returns (j: nat)
    requires i < n
    ensures j < n && (c + j) % n == i
  {
    var q, r := c / n, c % n;
    Parts(c, n);
    Distribute(q, 1, n);
    if r <= i {
      j := i - r;
      Quotient(c + j, q, i, n);
    } else {
      j := i + n - r;
      Quotient(c + j, q + 1, i, n);
    }
  }

  // ---------- rotation ----------

  /** How many of k consecutive counter values from c on select index i among n. */
  function Picks(c: nat, k: nat, n: nat, i: nat): nat
    requires n > 0
  {
    if k == 0 then 0 else Picks(c, k - 1, n, i) + if (c + k - 1) % n == i then 1 else 0
  }

  /** How many numbers below m select index i. */
  function Below(m: nat, n: nat, i: nat): nat
    requires i < n
  {
    (m + (n - 1 - i)) / n
  }

  lemma {:induction false} BelowStep(m: nat, n: nat, i: nat)
    requires i < n
    ensures Below(m + 1, n, i) == Below(m, n, i) + if m % n == i then 1 else 0
  {
    DivStep(m + (n - 1 - i), n);
    ModShift(m, n, i);
  }

  lemma {:induction false} PicksAreBelow(c: nat, k: nat, n: nat, i: nat)
    requires i < n
    ensures Picks(c, k, n, i) == Below(c + k, n, i) - Below(c, n, i)
  {
    hide Below;
    if k > 0 {
      PicksAreBelow(c, k - 1, n, i);
      BelowStep(c + k - 1, n, i);
    }
  }

  /** Until the counter wraps, k consecutive picks take each index the floor or the ceiling of k / n times. */
  lemma {:induction false} RotationIsFair(c: nat, k: nat, n: nat, i: nat)
    requires i < n && c + k <= 0x1_0000_0000_0000_0000
    ensures k / n <= Picks(c, k, n, i) <= (k + n - 1) / n
  {
    hide Picks;
    var a := c + (n - 1 - i);
    PicksAreBelow(c, k, n, i);
    assert Below(c + k, n, i) == (a + k) / n;
    hide Below;
    FloorSum(a, k, n);
    Ceiling(k, n);
  }

  /** At the wrap the next index follows the last one exactly when n divides 2^64. */
  lemma {:induction false} WrapKeepsTheOrder(n: nat)
    requires n > 0
    ensures Advance(0xFFFF_FFFF_FFFF_FFFF, 1) % n == (0xFFFF_FFFF_FFFF_FFFF % n + 1) % n <==> 0x1_0000_0000_0000_0000 % n == 0
  {
    var r := (TWO_64 - 1) % n;
    assert Advance(TWO_64 - 1, 1) == 0;
    Quotient(0, 0, 0, n);
    DivStep(TWO_64 - 1, n);
    if r == n - 1 {
      Quotient(n, 1, 0, n);
    } else {
      Quotient(r + 1, 0, r + 1, n);
    }
  }
}
