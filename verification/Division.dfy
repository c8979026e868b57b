/** Powers of two, and elementary facts on products, quotients and remainders of integers. */
module Division {

  function Pow2(n: nat): (r: nat)
    ensures r >= 1
  {
    if n == 0 then 1 else 2 * Pow2(n - 1)
  }

  lemma Exchange(a: int, b: int, c: int)
    ensures a * (b * c) == b * (a * c)
  {
  }

  lemma Distribute(a: int, b: int, w: int)
    ensures (a + b) * w == a * w + b * w
  {
  }

  lemma Below(x: int, b: int, w: nat)
    requires x < b
    ensures x * w + w <= b * w
  {
    assert 0 <= (b - x - 1) * w == b * w - x * w - w;
  }

  lemma Shrinks(x: nat, d: nat)
    requires d >= 1
    ensures 0 <= x / d <= x
  {
    if x / d > 0 { Below(0, d, x / d); }
  }

  lemma Divide(x: nat, d: nat) returns (q: nat, r: nat)
    requires d >= 1
    ensures q == x / d && r == x % d && x == q * d + r && r < d
  {
    Shrinks(x, d);
    q, r := x / d, x % d;
  }

  /** A remainder is recognised by its quotient. */
  lemma Remainder(t: nat, m: nat, q: nat, r: nat)
    requires t == r + q * m && r < m
    ensures t % m == r && t / m == q
  {
    var q', r' := t / m, t % m;
    assert t == q' * m + r';
    if q' < q {
      Below(q', q, m);
    } else if q < q' {
      Below(q, q', m);
    }
  }
}
