/** Numbers as sequences of 32-bit limbs, least significant first. */
module Limbs {
  import opened Division

  const BASE := 0x1_0000_0000

  type Limb = x: nat | x < BASE

  /** The weight of limb n. */
  function Weight(n: nat): (r: nat)
    ensures r >= 1
  {
    if n == 0 then 1 else BASE * Weight(n - 1)
  }

  function Val(s: seq<Limb>): nat {
    if s == [] then 0 else Val(s[..|s| - 1]) + s[|s| - 1] * Weight(|s| - 1)
  }

  // ----- powers -----

  lemma {:induction false} PowAdd(m: nat, n: nat)
    ensures Pow2(m + n) == Pow2(m) * Pow2(n)
  {
    if n != 0 {
      PowAdd(m, n - 1);
      assert Pow2(m + n) == 2 * Pow2(m + (n - 1));
      Exchange(2, Pow2(m), Pow2(n - 1));
    }
  }

  lemma {:induction false} PowLess(m: nat, n: nat)
    requires m <= n
    ensures Pow2(m) <= Pow2(n)
  {
    if m < n { PowLess(m, n - 1); }
  }

  lemma Pow2Of8()
    ensures Pow2(8) == 256
  {
    assert Pow2(4) == 16;
  }

  lemma Pow2Of32()
    ensures Pow2(16) == 65536 && Pow2(32) == BASE
  {
    Pow2Of8();
    PowAdd(8, 8);
    PowAdd(16, 16);
  }

  lemma {:induction false} WeightIsPower(n: nat)
    ensures Weight(n) == Pow2(32 * n)
  {
    if n != 0 {
      WeightIsPower(n - 1);
      Pow2Of32();
      PowAdd(32, 32 * (n - 1));
    }
  }

  lemma WeightAdd(m: nat, n: nat)
    ensures Weight(m + n) == Weight(m) * Weight(n)
  {
    WeightIsPower(m);
    WeightIsPower(n);
    WeightIsPower(m + n);
    PowAdd(32 * m, 32 * n);
  }

  // ----- values -----

  lemma Push(s: seq<Limb>, x: Limb)
    ensures Val(s + [x]) == Val(s) + x * Weight(|s|)
  {
    assert (s + [x])[..|s + [x]| - 1] == s;
  }

  lemma Take(s: seq<Limb>, i: nat)
    requires i < |s|
    ensures Val(s[..i + 1]) == Val(s[..i]) + s[i] * Weight(i)
  {
    assert s[..i + 1] == s[..i] + [s[i]];
    Push(s[..i], s[i]);
  }

  lemma {:induction false} Bound(s: seq<Limb>)
    ensures Val(s) < Weight(|s|)
  {
    if s != [] {
      var n := |s| - 1;
      Bound(s[..n]);
      Below(s[n], BASE, Weight(n));
    }
  }

  lemma {:induction false} Split(s: seq<Limb>, k: nat)
    requires k <= |s|
    ensures Val(s) == Val(s[..k]) + Weight(k) * Val(s[k..])
  {
    if k == |s| {
      assert s[..k] == s;
    } else {
      var n := |s| - 1;
      var init := s[..n];
      Split(init, k);
      assert init[..k] == s[..k] && s[k..] == init[k..] + [s[n]];
      Push(init[k..], s[n]);
      WeightAdd(k, n - k);
      Spread(Weight(k), Val(init[k..]), s[n], Weight(n - k));
    }
  }

  lemma Spread(w: int, v: int, x: int, u: int)
    ensures w * (v + x * u) == w * v + x * (w * u)
  {
  }

  lemma {:induction false} Zeros(s: seq<Limb>)
    requires forall i :: 0 <= i < |s| ==> s[i] == 0
    ensures Val(s) == 0
  {
    if s != [] { Zeros(s[..|s| - 1]); }
  }

  /** The step all the carry loops share: a sum splits into a new limb and a carry. */
  lemma Carry(done: seq<Limb>, lo: Limb, hi: nat, carry: nat, more: nat, total: int)
    requires Val(done) + carry * Weight(|done|) == total && lo + BASE * hi == carry + more
    ensures Val(done + [lo]) + hi * Weight(|done| + 1) == total + more * Weight(|done|)
  {
    var w := Weight(|done|);
    Push(done, lo);
    CarryMath(lo, hi, carry, more, w, BASE * w);
  }

  lemma CarryMath(lo: int, hi: int, carry: int, more: int, w: int, next: int)
    requires lo + BASE * hi == carry + more && next == BASE * w
    ensures lo * w + hi * next == carry * w + more * w
  {
    calc {
      lo * w + hi * next;
      lo * w + (BASE * hi) * w;
      (lo + BASE * hi) * w;
      (carry + more) * w;
    }
  }

  // ----- bits of one limb -----

  function Or(x: nat, y: nat): nat
    decreases x + y
  {
    if x == 0 && y == 0 then 0 else 2 * Or(x / 2, y / 2) + (if x % 2 == 1 || y % 2 == 1 then 1 else 0)
  }

  /** Where no bit is set in both numbers, "or" adds. */
  lemma {:induction false} OrAdds(x: nat, y: nat, n: nat)
    requires x < Pow2(n)
    ensures Or(x, y * Pow2(n)) == x + y * Pow2(n) == Or(y * Pow2(n), x)
    decreases n, y
  {
    hide Or;
    if n == 0 {
      OrZero(y);
    } else {
      var p := Pow2(n - 1);
      assert Pow2(n) == 2 * p;
      hide Pow2;
      OrAdds(x / 2, y, n - 1);
      Exchange(y, 2, p);
      OrStep(x, y * (2 * p), y * p);
    }
  }

  lemma OrStep(x: nat, z: nat, half: nat)
    requires z == 2 * half && Or(x / 2, half) == x / 2 + half == Or(half, x / 2)
    ensures Or(x, z) == x + z == Or(z, x)
  {
    OrUnfolds(x, z);
    OrUnfolds(z, x);
    hide Or;
    assert z / 2 == half && z % 2 == 0;
  }

  lemma OrUnfolds(x: nat, y: nat)
    ensures Or(x, y) == 2 * Or(x / 2, y / 2) + (if x % 2 == 1 || y % 2 == 1 then 1 else 0)
  {
  }

  lemma {:induction false} OrZero(y: nat)
    ensures Or(0, y) == y == Or(y, 0)
  {
    if y != 0 { OrZero(y / 2); }
  }

  function ShiftLeft32(x: Limb, n: nat): Limb { (x * Pow2(n)) % BASE }

  function ShiftRight32(x: Limb, n: nat): Limb
  {
    Shrinks(x, Pow2(n));
    x / Pow2(n)
  }

  function LowBits(x: nat, n: nat): (r: nat)
    ensures r < Pow2(n)
  {
    x % Pow2(n)
  }

  /** The two halves of a shifted limb. */
  lemma ShiftSplit(x: Limb, n: nat)
    requires n <= 32
    ensures x * Pow2(n) == ShiftLeft32(x, n) + BASE * ShiftRight32(x, 32 - n)
    ensures ShiftRight32(x, 32 - n) < Pow2(n)
    ensures ShiftLeft32(x, n) == LowBits(x, 32 - n) * Pow2(n)
  {
    PowAdd(n, 32 - n);
    Pow2Of32();
    hide Pow2;
    Halves(x, Pow2(n), Pow2(32 - n));
  }

  lemma LimbSplit(x: Limb, n: nat)
    ensures x == ShiftRight32(x, n) * Pow2(n) + LowBits(x, n)
  {
    var q, r := Divide(x, Pow2(n));
  }

  /** Shifted limbs that meet in one limb do not overlap. */
  lemma OrFits(h: Limb, x: Limb, n: nat)
    requires n <= 32 && h < Pow2(n)
    ensures Or(h, ShiftLeft32(x, n)) == h + ShiftLeft32(x, n) < BASE
  {
    ShiftSplit(x, n);
    PowAdd(n, 32 - n);
    Pow2Of32();
    var low := LowBits(x, 32 - n);
    OrAdds(h, low, n);
    hide Pow2, Or, ShiftLeft32, ShiftRight32, LowBits;
    Fits(h, low, Pow2(n), Pow2(32 - n));
  }

  lemma Fits(h: nat, low: nat, p: nat, d: nat)
    requires h < p && low < d && p * d == BASE
    ensures h + low * p < BASE
  {
    Below(low, d, p);
  }

  lemma Halves(x: Limb, p: nat, d: nat)
    requires p * d == BASE && p >= 1 && d >= 1
    ensures x * p == (x * p) % BASE + BASE * (x / d) && x / d < p && (x * p) % BASE == (x % d) * p
  {
    var q, r := Divide(x, d);
    ShiftMath(x, p, d, q, r);
    Remainder(x * p, BASE, q, r * p);
  }

  lemma ShiftMath(x: nat, p: nat, d: nat, q: nat, r: nat)
    requires x == q * d + r && r < d && p * d == BASE && p >= 1
    requires d >= 1
    ensures x * p == r * p + q * BASE && r * p < BASE && (x < BASE ==> q < p)
  {
    calc {
      x * p;
      (q * d) * p + r * p;
      { Exchange(q, d, p); }
      q * (p * d) + r * p;
    }
    Below(r, d, p);
    if q >= p { Below(p - 1, q, d); }
  }
}
