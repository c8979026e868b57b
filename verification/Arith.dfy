/** 256-bit unsigned integers: eight limbs updated in place, equal to integers modulo 2^256. */
module Arith {
  import opened Division
  import opened Limbs

  const WIDTH := 8

  function Modulus(): nat { Weight(WIDTH) }

  datatype Order = Less | Equal | Greater

  class BaseUint {
    const pn: array<Limb>

    ghost predicate Valid() { pn.Length == WIDTH }

    ghost function Value(): (v: nat)
      requires Valid()
      reads pn
      ensures v < Modulus()
    {
      Bound(pn[..]);
      Val(pn[..])
    }

    /** Zero. */
    constructor ()
      ensures Valid() && fresh(pn) && Value() == 0
    {
      var a := new Limb[WIDTH](i => 0);
      pn := a;
      new;
      Zeros(pn[..]);
    }

    constructor Copy(b: BaseUint)
      requires b.Valid()
      ensures Valid() && fresh(pn) && pn[..] == b.pn[..]
    {
      var a := new Limb[WIDTH](i requires 0 <= i < WIDTH && b.Valid() reads b.pn => b.pn[i]);
      pn := a;
    }

    method Assign(b: BaseUint)
      requires Valid() && b.Valid()
      modifies pn
      ensures pn[..] == old(b.pn[..]) && Value() == old(b.Value())
    {
      forall i | 0 <= i < WIDTH { pn[i] := b.pn[i]; }
      assert pn[..] == old(b.pn[..]);
    }

    method AssignWord(b: nat)
      requires Valid() && b < BASE * BASE
      modifies pn
      ensures Value() == b && forall i :: 2 <= i < WIDTH ==> pn[i] == 0
    {
      pn[0] := b % BASE;
      pn[1] := b / BASE;
      forall i | 2 <= i < WIDTH { pn[i] := 0; }
      Word(pn[..], b);
    }

    // ----- addition and subtraction -----

    method Add(b: BaseUint)
      requires Valid() && b.Valid()
      modifies pn
      ensures Value() == (old(Value()) + old(b.Value())) % Modulus()
    {
      hide Val, Weight;
      ghost var x, y := pn[..], b.pn[..];
      var carry, i := 0, 0;
      Empty(pn[..], x, y);
      while i < WIDTH
        invariant i <= WIDTH && 0 <= carry <= 1 && pn[i..] == x[i..] && b.pn[i..] == y[i..]
        invariant Val(pn[..i]) + carry * Weight(i) == Val(x[..i]) + Val(y[..i])
      {
        var n := carry + pn[i] + b.pn[i];
        assert pn[i] == x[i] && b.pn[i] == y[i];
        ghost var done := pn[..i];
        pn[i] := n % BASE;
        Carry(done, n % BASE, n / BASE, carry, n - carry, Val(x[..i]) + Val(y[..i]));
        assert pn[..i + 1] == done + [n % BASE];
        Take(x, i);
        Take(y, i);
        Distribute(x[i], y[i], Weight(i));
        carry := n / BASE;
        i := i + 1;
      }
      assert pn[..i] == pn[..] && x[..i] == x && y[..i] == y;
      Remainder(Val(x) + Val(y), Modulus(), carry, Value());
    }

    method Increment()
      requires Valid()
      modifies pn
      ensures Value() == (old(Value()) + 1) % Modulus()
    {
      hide Val, Weight;
      ghost var x := pn[..];
      var carry, i := true, 0;
      Empty(pn[..], x, x);
      while i < WIDTH && carry
        invariant i <= WIDTH && pn[i..] == x[i..]
        invariant Val(pn[..i]) + (if carry then Weight(i) else 0) == Val(x[..i]) + 1
      {
        ghost var done := pn[..i];
        pn[i] := (pn[i] + 1) % BASE;
        Carry(done, (x[i] + 1) % BASE, (x[i] + 1) / BASE, 1, x[i], Val(x[..i]) + 1);
        assert pn[..i + 1] == done + [(x[i] + 1) % BASE];
        Take(x, i);
        carry := pn[i] == 0;
        i := i + 1;
      }
      SameTail(pn[..], x, i);
      Bound(x);
      if carry {
        assert i == WIDTH && x[..i] == x;
        Remainder(Val(x) + 1, Modulus(), 1, Value());
      } else {
        Remainder(Val(x) + 1, Modulus(), 0, Value());
      }
    }

    method Complement() returns (r: BaseUint)
      requires Valid()
      ensures r.Valid() && fresh(r) && fresh(r.pn) && r.Value() == Modulus() - 1 - Value()
    {
      hide Val, Weight;
      r := new BaseUint();
      var i := 0;
      Empty(pn[..], r.pn[..], pn[..]);
      while i < WIDTH
        invariant i <= WIDTH && Val(r.pn[..i]) + Val(pn[..i]) == Weight(i) - 1
      {
        ghost var done := r.pn[..i];
        r.pn[i] := BASE - 1 - pn[i];
        assert r.pn[..i + 1] == done + [r.pn[i]];
        Push(done, r.pn[i]);
        Take(pn[..], i);
        assert pn[..][..i + 1] == pn[..i + 1] && pn[..][..i] == pn[..i];
        NextWeight(i);
        Distribute(r.pn[i], pn[i], Weight(i));
        i := i + 1;
      }
      assert r.pn[..i] == r.pn[..] && pn[..i] == pn[..];
    }

    method Negate() returns (r: BaseUint)
      requires Valid()
      ensures r.Valid() && fresh(r) && fresh(r.pn) && r.Value() == if Value() == 0 then 0 else Modulus() - Value()
    {
      hide Val, Weight;
      r := Complement();
      Wrap(r.Value() + 1, Modulus());
      r.Increment();
    }

    method Subtract(b: BaseUint)
      requires Valid() && b.Valid()
      modifies pn
      ensures var (x, y) := (old(Value()), old(b.Value())); Value() == if x >= y then x - y else x - y + Modulus()
    {
      hide Val, Weight;
      var r := b.Negate();
      Wrap(Value() + r.Value(), Modulus());
      Add(r);
    }

    method CompareTo(b: BaseUint) returns (r: Order)
      requires Valid() && b.Valid()
      ensures r.Less? <==> Value() < b.Value()
      ensures r.Greater? <==> Value() > b.Value()
    {
      hide Val, Weight;
      var i := WIDTH;
      while i > 0
        invariant 0 <= i <= WIDTH && pn[i..] == b.pn[i..]
      {
        i := i - 1;
        assert pn[..][i + 1..] == pn[i + 1..] == b.pn[i + 1..] == b.pn[..][i + 1..];
        if pn[i] < b.pn[i] {
          Smaller(pn[..], b.pn[..], i);
          return Less;
        }
        if pn[i] > b.pn[i] {
          Smaller(b.pn[..], pn[..], i);
          return Greater;
        }
      }
      assert pn[..] == pn[0..] == b.pn[0..] == b.pn[..];
      return Equal;
    }

    method IsZero() returns (z: bool)
      requires Valid()
      ensures z <==> Value() == 0
    {
      hide Weight;
      var i := WIDTH;
      while i > 0
        invariant 0 <= i <= WIDTH && forall k :: i <= k < WIDTH ==> pn[k] == 0
      {
        i := i - 1;
        if pn[i] != 0 {
          Positive(pn[..], i);
          return false;
        }
      }
      Zeros(pn[..]);
      return true;
    }

    /** The position of the highest bit, counted from one. */
    method Bits() returns (n: nat)
      requires Valid()
      ensures n <= 32 * WIDTH && Value() < Pow2(n) && (n > 0 ==> Pow2(n - 1) <= Value())
    {
      hide Val, Weight, Pow2;
      var i := WIDTH;
      while i > 0
        invariant 0 <= i <= WIDTH && forall k :: i <= k < WIDTH ==> pn[k] == 0
      {
        i := i - 1;
        if pn[i] != 0 {
          var b := 31;
          Pow2Of32();
          while b > 0 && (pn[i] / Pow2(b)) % 2 == 0
            invariant 0 <= b <= 31 && pn[i] < Pow2(b + 1)
          {
            NoBit(pn[i], b);
            b := b - 1;
          }
          TopBit(pn[i], b);
          HighLimb(pn[..], i, b);
          return 32 * i + b + 1;
        }
      }
      Zeros(pn[..]);
      return 0;
    }

    // ----- multiplication -----

    method MultiplyWord(b: Limb)
      requires Valid()
      modifies pn
      ensures Value() == (old(Value()) * b) % Modulus()
    {
      hide Val, Weight;
      ghost var x := pn[..];
      var carry, i := 0, 0;
      Empty(pn[..], x, x);
      while i < WIDTH
        invariant i <= WIDTH && 0 <= carry < BASE && pn[i..] == x[i..]
        invariant Val(pn[..i]) + carry * Weight(i) == Val(x[..i]) * b
      {
        WordProduct(carry, 0, b, pn[i]);
        var n := carry + b * pn[i];
        assert pn[i] == x[i];
        ghost var done := pn[..i];
        pn[i] := n % BASE;
        Carry(done, n % BASE, n / BASE, carry, b * x[i], Val(x[..i]) * b);
        assert pn[..i + 1] == done + [n % BASE];
        Take(x, i);
        Regroup(b, x[i], Weight(i), Val(x[..i]));
        carry := n / BASE;
        i := i + 1;
      }
      assert pn[..i] == pn[..] && x[..i] == x;
      Remainder(Val(x) * b, Modulus(), carry, Value());
    }

    /** One row of the schoolbook product; the carry out of the top limb is dropped. */
    method AddRow(j: nat, x: Limb, b: BaseUint) returns (ghost dropped: nat)
      requires Valid() && b.Valid() && pn != b.pn && j < WIDTH
      modifies pn
      ensures Value() + dropped * Modulus() == old(Value()) + x * Weight(j) * Val(b.pn[..WIDTH - j])
    {
      hide Val, Weight;
      ghost var old0, y := pn[..], b.pn[..];
      var carry, i := 0, 0;
      Empty(y, y, y);
      assert pn[..j] == old0[..j];
      while i + j < WIDTH
        invariant i + j <= WIDTH && 0 <= carry < BASE && pn[i + j..] == old0[i + j..] && b.pn[..] == y
        invariant Val(pn[..i + j]) + carry * Weight(i + j) == Val(old0[..i + j]) + x * Weight(j) * Val(y[..i])
      {
        WordProduct(carry, pn[i + j], x, b.pn[i]);
        var n := carry + pn[i + j] + x * b.pn[i];
        assert pn[i + j] == old0[i + j];
        ghost var done := pn[..i + j];
        pn[i + j] := n % BASE;
        Carry(done, n % BASE, n / BASE, carry, n - carry, Val(old0[..i + j]) + x * Weight(j) * Val(y[..i]));
        assert pn[..i + j + 1] == done + [n % BASE];
        Take(old0, i + j);
        Take(y, i);
        WeightAdd(j, i);
        RowStep(old0[i + j], x, y[i], Weight(j), Weight(i), Val(y[..i]));
        carry := n / BASE;
        i := i + 1;
      }
      assert pn[..i + j] == pn[..] && old0[..i + j] == old0 && y[..i] == b.pn[..WIDTH - j];
      dropped := carry;
    }

    method Multiply(b: BaseUint)
      requires Valid() && b.Valid()
      modifies pn
      ensures Value() == (old(Value()) * old(b.Value())) % Modulus()
    {
      hide Val, Weight;
      ghost var x, y := pn[..], b.pn[..];
      var a := new BaseUint();
      var j := 0;
      ghost var over: nat := 0;
      Empty(x, y, y);
      while j < WIDTH
        invariant j <= WIDTH && a.Valid() && fresh(a.pn) && pn[..] == x && b.pn[..] == y
        invariant a.Value() + over * Modulus() == Val(x[..j]) * Val(y)
      {
        ghost var before := a.Value();
        assert b.pn[..WIDTH - j] == y[..WIDTH - j];
        ghost var dropped := a.AddRow(j, pn[j], b);
        over := NextRow(x, y, j, a.Value(), before, dropped, over);
        j := j + 1;
      }
      assert x[..j] == x;
      Assign(a);
      Remainder(Val(x) * Val(y), Modulus(), over, Value());
    }

    // ----- shifts -----

    method ShiftLeft(shift: nat)
      requires Valid()
      modifies pn
      ensures Value() == (old(Value()) * Pow2(shift)) % Modulus()
    {
      hide Val, Weight, Pow2, ShiftLeft32, ShiftRight32, Or, LowBits, LeftDone;
      ghost var x := pn[..];
      var a := new BaseUint.Copy(this);
      forall i | 0 <= i < WIDTH { pn[i] := 0; }
      var k, s := shift / 32, shift % 32;
      ghost var m, high := 0, 0;
      LeftBegins(x, pn[..], k, s);
      var i := 0;
      while i < WIDTH
        invariant i <= WIDTH && a.pn[..] == x && high >= 0
        invariant m == if i + k <= WIDTH then i else if k <= WIDTH then WIDTH - k else 0
        invariant LeftDone(x, pn[..], m, k, s, high)
      {
        ghost var before := pn[..];
        var up, down := ShiftRight32(a.pn[i], 32 - s), ShiftLeft32(a.pn[i], s);
        if i + k < WIDTH { LeftFits(x, before, i, k, s, high); }
        if i + k + 1 < WIDTH && s != 0 {
          pn[i + k + 1] := Or(pn[i + k + 1], up);
        }
        if i + k < WIDTH {
          pn[i + k] := Or(pn[i + k], down);
          LeftStep(x, before, pn[..], i, k, s, high);
          high := up;
          m := i + 1;
        }
        i := i + 1;
      }
      LeftResult(x, pn[..], m, k, s, high, shift);
    }

    method ShiftRight(shift: nat)
      requires Valid()
      modifies pn
      ensures Value() == old(Value()) / Pow2(shift)
    {
      hide Val, Weight, Pow2, ShiftLeft32, ShiftRight32, Or, LowBits, RightDone;
      ghost var x := pn[..];
      var a := new BaseUint.Copy(this);
      forall i | 0 <= i < WIDTH { pn[i] := 0; }
      var k, s := shift / 32, shift % 32;
      RightBegins(x, pn[..], k, s);
      var i := 0;
      while i < WIDTH
        invariant i <= WIDTH && a.pn[..] == x && RightDone(x, pn[..], i, k, s)
      {
        ghost var before := pn[..];
        RightFits(x, before, i, k, s);
        if i - k - 1 >= 0 && s != 0 {
          pn[i - k - 1] := Or(pn[i - k - 1], ShiftLeft32(a.pn[i], 32 - s));
        }
        if i - k >= 0 {
          pn[i - k] := Or(pn[i - k], ShiftRight32(a.pn[i], s));
        }
        RightStep(x, before, pn[..], i, k, s);
        i := i + 1;
      }
      RightResult(x, pn[..], i, k, s, shift);
    }

    // ----- division -----

    method SetBit(n: nat)
      requires Valid() && n < 32 * WIDTH && ClearTo(pn[..], n)
      modifies pn
      ensures Value() == old(Value()) + Pow2(n) && (n > 0 ==> ClearTo(pn[..], n - 1))
    {
      hide Val, Weight, Pow2, Or;
      ghost var x := pn[..];
      BitFits(x, n);
      pn[n / 32] := Or(pn[n / 32], Pow2(n % 32));
      BitAdds(x, pn[..], n);
    }

    /** Long division by shifting and subtracting; fails on a zero divisor only. */
    method Divide(b: BaseUint) returns (ok: bool)
      requires Valid() && b.Valid()
      modifies pn
      ensures ok <==> old(b.Value()) != 0
      ensures ok ==> Value() == old(Value()) / old(b.Value())
      ensures !ok ==> Value() == 0
    {
      hide Val, Weight, Pow2, ClearTo, Dividing, Modulus;
      ghost var n, d := Value(), b.Value();
      var div := new BaseUint.Copy(b);
      var num := new BaseUint.Copy(this);
      AssignWord(0);
      var numBits := num.Bits();
      var divBits := div.Bits();
      if divBits == 0 {
        PowZero();
        return false;
      }
      if divBits > numBits {
        PowLess(numBits, divBits - 1);
        Remainder(n, d, 0, n);
        return true;
      }
      var shift := numBits - divBits;
      Aligned(n, d, numBits, divBits, shift);
      div.ShiftLeft(shift);
      NothingSet(pn[..], shift);
      LongDivide(num, div, shift, n, d);
      return true;
    }

    /** Subtract the shifted divisor where it fits, from the highest bit of the quotient down. */
    method LongDivide(num: BaseUint, div: BaseUint, top: nat, ghost n: nat, ghost d: nat)
      requires Valid() && num.Valid() && div.Valid() && pn != num.pn && pn != div.pn && num.pn != div.pn
      requires top <= 255 && div.Value() == d * Pow2(top) && ClearTo(pn[..], top)
      requires Dividing(n, d, Value(), num.Value(), top)
      modifies pn, num.pn, div.pn
      ensures d != 0 && Value() == n / d
    {
      hide Val, Weight, Pow2, ClearTo, Dividing, Modulus;
      var shift: int := top;
      while shift >= 0
        invariant -1 <= shift <= 255
        invariant shift >= 0 ==> div.Value() == d * Pow2(shift) && ClearTo(pn[..], shift)
        invariant Dividing(n, d, Value(), num.Value(), shift)
        decreases shift
      {
        DivideStep(n, d, Value(), num.Value(), shift);
        var order := num.CompareTo(div);
        if !order.Less? {
          num.Subtract(div);
          SetBit(shift);
        } else if shift > 0 {
          StillClear(pn[..], shift);
        }
        div.ShiftRight(1);
        Halved(d, shift);
        shift := shift - 1;
      }
      Divided(n, d, Value(), num.Value(), shift);
    }
  }

  lemma Empty(a: seq<Limb>, b: seq<Limb>, c: seq<Limb>)
    ensures Val(a[..0]) == Val(b[..0]) == Val(c[..0]) == 0 && Weight(0) == 1
  {
  }

  lemma Word(s: seq<Limb>, b: nat)
    requires |s| == WIDTH && b < BASE * BASE && s[0] == b % BASE && s[1] == b / BASE
    requires forall i :: 2 <= i < WIDTH ==> s[i] == 0
    ensures Val(s) == b
  {
    hide Val, Weight;
    Split(s, 2);
    Zeros(s[2..]);
    Take(s, 1);
    Take(s, 0);
    Empty(s, s, s);
    NextWeight(0);
  }

  lemma SameTail(s: seq<Limb>, t: seq<Limb>, k: nat)
    requires |s| == |t| && k <= |s| && s[k..] == t[k..]
    ensures Val(s) - Val(t) == Val(s[..k]) - Val(t[..k])
  {
    hide Val, Weight;
    Split(s, k);
    Split(t, k);
  }

  lemma NextWeight(i: nat)
    ensures Weight(i + 1) == BASE * Weight(i)
  {
  }

  lemma Wrap(t: nat, m: nat)
    requires t < 2 * m
    ensures t % m == if t < m then t else t - m
  {
    if t < m { Remainder(t, m, 0, t); } else { Remainder(t, m, 1, t - m); }
  }

  lemma Smaller(s: seq<Limb>, t: seq<Limb>, i: nat)
    requires |s| == |t| && i < |s| && s[i] < t[i] && s[i + 1..] == t[i + 1..]
    ensures Val(s) < Val(t)
  {
    hide Val, Weight;
    SameTail(s, t, i + 1);
    Take(s, i);
    Take(t, i);
    Bound(s[..i]);
    Below(s[i], t[i], Weight(i));
  }

  lemma Positive(s: seq<Limb>, i: nat)
    requires i < |s| && s[i] != 0
    ensures Val(s) > 0
  {
    hide Val, Weight;
    Split(s, i + 1);
    Take(s, i);
    Below(0, s[i], Weight(i));
    Below(-1, Val(s[i + 1..]), Weight(i + 1));
  }

  lemma NoBit(x: nat, b: nat)
    requires b > 0 && x < Pow2(b + 1) && (x / Pow2(b)) % 2 == 0
    ensures x < Pow2(b)
  {
    var q, r := Divide(x, Pow2(b));
    if q >= 2 { Below(1, q, Pow2(b)); }
  }

  lemma TopBit(x: nat, b: nat)
    requires x > 0 && x < Pow2(b + 1) && (b == 0 || (x / Pow2(b)) % 2 != 0)
    ensures Pow2(b) <= x
  {
    var q, r := Divide(x, Pow2(b));
    if b > 0 { Below(0, q, Pow2(b)); }
  }

  lemma HighLimb(s: seq<Limb>, i: nat, b: nat)
    requires i < |s| && Pow2(b) <= s[i] < Pow2(b + 1) && forall k :: i < k < |s| ==> s[k] == 0
    ensures Pow2(32 * i + b) <= Val(s) < Pow2(32 * i + b + 1)
  {
    hide Pow2, Val, Weight;
    var w := Weight(i);
    Split(s, i + 1);
    Zeros(s[i + 1..]);
    Take(s, i);
    Bound(s[..i]);
    WeightIsPower(i);
    PowAdd(32 * i, b);
    PowAdd(32 * i, b + 1);
    Between(Val(s[..i]), s[i], w, Pow2(b), Pow2(b + 1));
    assert Pow2(32 * i + (b + 1)) == Pow2(32 * i + b + 1);
  }

  lemma Between(v: nat, x: nat, w: nat, lo: nat, hi: nat)
    requires v < w && lo <= x < hi
    ensures w * lo <= v + x * w < w * hi
  {
    Below(x, hi, w);
    Below(lo - 1, x, w);
  }

  /** The running sum of a product never leaves 64 bits. */
  lemma WordProduct(carry: Limb, a: Limb, x: Limb, y: Limb)
    ensures carry + a + x * y < BASE * BASE
  {
    Below(y, BASE, x);
    Below(x, BASE, BASE);
  }

  lemma Regroup(b: int, x: int, w: int, v: int)
    ensures v * b + (b * x) * w == (v + x * w) * b
  {
  }

  lemma RowStep(a: int, x: int, y: int, wj: int, wi: int, v: int)
    ensures x * wj * v + (a + x * y) * (wj * wi) == a * (wj * wi) + x * wj * (v + y * wi)
  {
    assert (a + x * y) * (wj * wi) == a * (wj * wi) + (x * y) * (wj * wi);
    assert (x * y) * (wj * wi) == (x * wj) * (y * wi);
  }

  lemma NextRow(x: seq<Limb>, y: seq<Limb>, j: nat, after: nat, before: nat, dropped: nat, over: nat) returns (next: nat)
    requires |x| == |y| == WIDTH && j < WIDTH
    requires after + dropped * Modulus() == before + x[j] * Weight(j) * Val(y[..WIDTH - j])
    requires before + over * Modulus() == Val(x[..j]) * Val(y)
    ensures after + next * Modulus() == Val(x[..j + 1]) * Val(y)
  {
    hide Val, Weight;
    var low, high := Val(y[..WIDTH - j]), Val(y[WIDTH - j..]);
    Take(x, j);
    Split(y, WIDTH - j);
    WeightAdd(j, WIDTH - j);
    RowMath(after, before, dropped, over, Val(x[..j]), x[j], Weight(j), Weight(WIDTH - j), low, high, Val(y));
    next := over + dropped + x[j] * high;
  }

  lemma RowMath(after: int, before: int, dropped: int, over: int, xs: int, x: int, wj: int, wk: int, low: int, high: int,
                all: int)
    requires after + dropped * (wj * wk) == before + x * wj * low && before + over * (wj * wk) == xs * all
    requires all == low + wk * high
    ensures after + (over + dropped + x * high) * (wj * wk) == (xs + x * wj) * all
  {
    calc {
      (xs + x * wj) * all;
      xs * all + (x * wj) * (low + wk * high);
      xs * all + x * wj * low + (x * wj) * (wk * high);
      { assert (x * wj) * (wk * high) == (x * high) * (wj * wk); }
      xs * all + x * wj * low + (x * high) * (wj * wk);
    }
    Distribute(over, dropped, wj * wk);
    Distribute(over + dropped, x * high, wj * wk);
  }

  lemma PowZero()
    ensures Pow2(0) == 1 && Pow2(1) == 2
  {
  }

  lemma NoLowBits(x: Limb)
    ensures LowBits(x, 0) == 0
  {
  }

  // ----- left shift -----

  /** The first m limbs of x, shifted, fill the first m + k limbs of r; the bits that go
      further wait in the next limb. */
  ghost predicate LeftDone(x: seq<Limb>, r: seq<Limb>, m: nat, k: nat, s: nat, high: nat) {
    && |x| == |r| == WIDTH && m <= WIDTH && high < Pow2(s)
    && (forall t :: 0 <= t < WIDTH && m + k < t ==> r[t] == 0)
    && (m + k < WIDTH ==> r[m + k] == high)
    && (if m + k <= WIDTH then Val(r[..m + k]) + high * Weight(m + k) == Val(x[..m]) * (Pow2(s) * Weight(k))
        else Val(r) == 0)
  }

  lemma LeftBegins(x: seq<Limb>, r: seq<Limb>, k: nat, s: nat)
    requires |x| == |r| == WIDTH && forall t :: 0 <= t < WIDTH ==> r[t] == 0
    ensures LeftDone(x, r, 0, k, s, 0)
  {
    Zeros(r);
    if k <= WIDTH { Zeros(r[..k]); }
    Empty(x, x, x);
    hide Val, Weight, Pow2;
  }

  lemma LeftFits(x: seq<Limb>, r: seq<Limb>, i: nat, k: nat, s: nat, high: nat)
    requires LeftDone(x, r, i, k, s, high) && i + k < WIDTH && s < 32
    ensures var (up, down) := (ShiftRight32(x[i], 32 - s), ShiftLeft32(x[i], s));
      && Or(r[i + k], down) == high + down < BASE && up < Pow2(s)
      && (i + k + 1 < WIDTH ==> Or(r[i + k + 1], up) == up)
    ensures forall t :: i + k < t < WIDTH ==> r[t] == 0
  {
    hide Val, Weight, Pow2, ShiftLeft32, ShiftRight32, Or, LowBits;
    ShiftSplit(x[i], s);
    OrFits(high, x[i], s);
    OrZero(ShiftRight32(x[i], 32 - s));
  }

  lemma LeftStep(x: seq<Limb>, r: seq<Limb>, r': seq<Limb>, i: nat, k: nat, s: nat, high: nat)
    requires LeftDone(x, r, i, k, s, high) && i + k < WIDTH && s < 32 && |r'| == WIDTH
    requires r'[..i + k] == r[..i + k] && r'[i + k] == high + ShiftLeft32(x[i], s)
    requires i + k + 1 < WIDTH ==> r'[i + k + 1] == if s == 0 then 0 else ShiftRight32(x[i], 32 - s)
    requires forall t :: i + k + 1 < t < WIDTH ==> r'[t] == 0
    ensures LeftDone(x, r', i + 1, k, s, ShiftRight32(x[i], 32 - s))
  {
    hide Val, Weight, Pow2, ShiftLeft32, ShiftRight32;
    var up := ShiftRight32(x[i], 32 - s);
    ShiftSplit(x[i], s);
    PowZero();
    Carry(r[..i + k], r'[i + k], up, high, x[i] * Pow2(s), Val(x[..i]) * (Pow2(s) * Weight(k)));
    assert r'[..i + 1 + k] == r[..i + k] + [r'[i + k]];
    Take(x, i);
    WeightAdd(i, k);
    LeftMath(Val(x[..i]), x[i], Pow2(s), Weight(i), Weight(k));
    assert Weight(i + k + 1) == Weight(i + 1 + k);
  }

  lemma LeftMath(v: int, x: int, p: int, wi: int, wk: int)
    ensures v * (p * wk) + (x * p) * (wi * wk) == (v + x * wi) * (p * wk)
  {
    assert (x * p) * (wi * wk) == (x * wi) * (p * wk);
    Distribute(v, x * wi, p * wk);
  }

  lemma PowSplit(k: nat, s: nat)
    ensures Pow2(32 * k + s) == Pow2(s) * Weight(k)
  {
    WeightIsPower(k);
    PowAdd(s, 32 * k);
  }

  lemma LeftValue(x: seq<Limb>, r: seq<Limb>, m: nat, k: nat, s: nat, high: nat, shift: nat) returns (q: nat, t: nat)
    requires LeftDone(x, r, m, k, s, high) && m == (if k <= WIDTH then WIDTH - k else 0) && shift == 32 * k + s
    ensures t == Val(x) * Pow2(shift) && t == Val(r) + q * Modulus()
  {
    hide Val, Weight, Pow2;
    PowSplit(k, s);
    t := Val(x) * Pow2(shift);
    if k <= WIDTH {
      assert m + k == WIDTH && r[..m + k] == r;
      var low, top := Val(x[..m]), Val(x[m..]);
      Split(x, m);
      WeightAdd(m, k);
      LeftSum(low, top, Pow2(s), Weight(k), Weight(m));
      q := high + top * Pow2(s);
      Distribute(high, top * Pow2(s), Modulus());
    } else {
      WeightAdd(WIDTH, k - WIDTH);
      q := Val(x) * (Pow2(s) * Weight(k - WIDTH));
      Whole(Val(x), Pow2(s), Modulus(), Weight(k - WIDTH));
    }
  }

  lemma LeftResult(x: seq<Limb>, r: seq<Limb>, m: nat, k: nat, s: nat, high: nat, shift: nat)
    requires LeftDone(x, r, m, k, s, high) && m == (if k <= WIDTH then WIDTH - k else 0) && shift == 32 * k + s
    ensures Val(r) == (Val(x) * Pow2(shift)) % Modulus()
  {
    hide Val, Weight, Pow2;
    Bound(r);
    assert Val(r) < Modulus();
    hide LeftDone, Modulus;
    var q, t := LeftValue(x, r, m, k, s, high, shift);
    Remainder(t, Modulus(), q, Val(r));
  }

  lemma Whole(v: int, p: int, m: int, w: int)
    ensures v * (p * (m * w)) == (v * (p * w)) * m
  {
    Exchange(p, m, w);
  }

  lemma LeftSum(low: int, top: int, p: int, wk: int, wr: int)
    ensures (low + wr * top) * (p * wk) == low * (p * wk) + (top * p) * (wr * wk)
  {
    Distribute(low, wr * top, p * wk);
    assert (wr * top) * (p * wk) == (top * p) * (wr * wk);
  }

  // ----- right shift -----

  /** The limbs of x from k up to i, shifted, fill the first i - k limbs of r; the top one
      still misses the bits of the next limb. */
  ghost predicate RightDone(x: seq<Limb>, r: seq<Limb>, i: nat, k: nat, s: nat) {
    && |x| == |r| == WIDTH && i <= WIDTH
    && (forall t :: 0 <= t < WIDTH && i - k <= t ==> r[t] == 0)
    && (i > k ==> Val(x[k..i]) == Pow2(s) * Val(r[..i - k]) + LowBits(x[k], s) &&
                  r[i - k - 1] == ShiftRight32(x[i - 1], s))
  }

  lemma RightBegins(x: seq<Limb>, r: seq<Limb>, k: nat, s: nat)
    requires |x| == |r| == WIDTH && forall t :: 0 <= t < WIDTH ==> r[t] == 0
    ensures RightDone(x, r, 0, k, s)
  {
  }

  lemma RightFits(x: seq<Limb>, r: seq<Limb>, i: nat, k: nat, s: nat)
    requires RightDone(x, r, i, k, s) && i < WIDTH && s < 32
    ensures i > k && s != 0 ==>
      Or(r[i - k - 1], ShiftLeft32(x[i], 32 - s)) == r[i - k - 1] + LowBits(x[i], s) * Pow2(32 - s) < BASE
    ensures i >= k ==> Or(r[i - k], ShiftRight32(x[i], s)) == ShiftRight32(x[i], s)
  {
    hide Val, Weight, Pow2, ShiftLeft32, ShiftRight32, Or, LowBits;
    if i > k && s != 0 { MeetRight(r[i - k - 1], x[i - 1], x[i], s); }
    OrZero(ShiftRight32(x[i], s));
  }

  lemma MeetRight(h: Limb, prev: Limb, x: Limb, s: nat)
    requires 0 < s < 32 && h == ShiftRight32(prev, s)
    ensures Or(h, ShiftLeft32(x, 32 - s)) == h + LowBits(x, s) * Pow2(32 - s) < BASE
  {
    hide Pow2, ShiftLeft32, ShiftRight32, Or, LowBits;
    ShiftSplit(prev, 32 - s);
    ShiftSplit(x, 32 - s);
    OrFits(h, x, 32 - s);
  }

  lemma RightStep(x: seq<Limb>, r: seq<Limb>, r': seq<Limb>, i: nat, k: nat, s: nat)
    requires RightDone(x, r, i, k, s) && i < WIDTH && s < 32 && |r'| == WIDTH
    requires forall t :: 0 <= t < WIDTH && (t < i - k - 1 || i - k < t) ==> r'[t] == r[t]
    requires i > k ==> r'[i - k - 1] == r[i - k - 1] + if s == 0 then 0 else LowBits(x[i], s) * Pow2(32 - s)
    requires i >= k ==> r'[i - k] == ShiftRight32(x[i], s)
    ensures RightDone(x, r', i + 1, k, s)
  {
    hide Val, Weight, Pow2, ShiftLeft32, ShiftRight32, LowBits;
    if i >= k {
      if s == 0 { NoLowBits(x[i]); }
      var m := i - k;
      var before, after := r[..m], r'[..m + 1];
      assert m > 0 ==> after[..m - 1] == before[..m - 1];
      RightMore(x, before, after, k, i, s);
      assert x[k..i + 1] == x[k..][..m + 1];
    }
  }

  lemma RightMore(x: seq<Limb>, before: seq<Limb>, after: seq<Limb>, k: nat, i: nat, s: nat)
    requires |x| == WIDTH && k <= i < WIDTH && |before| == i - k && |after| == i - k + 1 && s < 32
    requires after[i - k] == ShiftRight32(x[i], s)
    requires i > k ==> Val(x[k..i]) == Pow2(s) * Val(before) + LowBits(x[k], s)
    requires i > k ==> after[..i - k - 1] == before[..i - k - 1]
    requires i > k ==> after[i - k - 1] == before[i - k - 1] + LowBits(x[i], s) * Pow2(32 - s)
    ensures Val(x[k..i + 1]) == Pow2(s) * Val(after) + LowBits(x[k], s)
  {
    hide Val, Weight, Pow2, ShiftRight32, LowBits;
    var p, m := Pow2(s), i - k;
    LimbSplit(x[i], s);
    var q, r := ShiftRight32(x[i], s), LowBits(x[i], s);
    assert x[k..i + 1] == x[k..i] + [x[i]] && after == after[..m] + [q];
    Push(x[k..i], x[i]);
    Push(after[..m], q);
    if m > 0 {
      Take(after, m - 1);
      Take(before, m - 1);
      assert before[..m] == before;
      NextWeight(m - 1);
      PowAdd(s, 32 - s);
      Pow2Of32();
      assert after[..m][..m - 1] == before[..m - 1];
      RightMath(p, Pow2(32 - s), Val(before[..m - 1]), before[m - 1], r, q, Weight(m - 1));
    } else {
      Empty(x, after, after);
      assert x[k..i] == x[..0];
    }
  }

  lemma RightMath(p: int, d: int, v: int, b: int, r: int, q: int, w: int)
    requires p * d == BASE
    ensures p * (v + (b + r * d) * w + q * (BASE * w)) == p * (v + b * w) + (q * p + r) * (BASE * w)
  {
    assert p * ((r * d) * w) == (r * (p * d)) * w == r * (BASE * w);
    assert p * (q * (BASE * w)) == (q * p) * (BASE * w);
    assert (b + r * d) * w == b * w + (r * d) * w;
    Distribute(q * p, r, BASE * w);
  }

  lemma RightResult(x: seq<Limb>, r: seq<Limb>, i: nat, k: nat, s: nat, shift: nat)
    requires RightDone(x, r, i, k, s) && i == WIDTH && shift == 32 * k + s
    ensures Val(r) == Val(x) / Pow2(shift)
  {
    hide Val, Weight, Pow2, RightDone;
    var rest := RightValue(x, r, i, k, s);
    Remainder(Val(x), Pow2(shift), Val(r), rest);
  }

  lemma RightValue(x: seq<Limb>, r: seq<Limb>, i: nat, k: nat, s: nat) returns (rest: nat)
    requires RightDone(x, r, i, k, s) && i == WIDTH
    ensures Val(x) == rest + Val(r) * Pow2(32 * k + s) && rest < Pow2(32 * k + s)
  {
    hide RightDone, Val, Weight, Pow2;
    if k < WIDTH { rest := RightValueNear(x, r, i, k, s); } else { rest := RightValueFar(x, r, i, k, s); }
  }

  lemma RightValueNear(x: seq<Limb>, r: seq<Limb>, i: nat, k: nat, s: nat) returns (rest: nat)
    requires RightDone(x, r, i, k, s) && i == WIDTH && k < WIDTH
    ensures Val(x) == rest + Val(r) * Pow2(32 * k + s) && rest < Pow2(32 * k + s)
  {
    hide Val, Weight, Pow2, LowBits;
    var low, v, l, p, w := Val(x[..k]), Val(r[..i - k]), LowBits(x[k], s), Pow2(s), Weight(k);
    assert x[k..i] == x[k..];
    Zeros(r[i - k..]);
    Split(r, i - k);
    TimesZero(Weight(i - k));
    Split(x, k);
    Bound(x[..k]);
    PowSplit(k, s);
    hide RightDone;
    Quotient(Val(x), low, Val(x[k..]), v, l, p, w, Pow2(32 * k + s));
    rest := low + l * w;
  }

  lemma RightValueFar(x: seq<Limb>, r: seq<Limb>, i: nat, k: nat, s: nat) returns (rest: nat)
    requires RightDone(x, r, i, k, s) && i == WIDTH && k >= WIDTH
    ensures Val(x) == rest + Val(r) * Pow2(32 * k + s) && rest < Pow2(32 * k + s)
  {
    hide Val, Weight, Pow2;
    Zeros(r);
    hide RightDone;
    rest := Val(x);
    Bound(x);
    WeightAdd(WIDTH, k - WIDTH);
    PowSplit(k, s);
    TimesZero(Pow2(32 * k + s));
    Larger(Modulus(), Weight(k - WIDTH), Pow2(s));
  }

  lemma TimesZero(x: int)
    ensures 0 * x == x * 0 == 0
  {
  }

  lemma Larger(m: nat, w: nat, p: nat)
    requires w >= 1 && p >= 1
    ensures m <= p * (m * w)
  {
    Below(0, w, m);
    Below(0, p, m * w);
  }

  lemma Quotient(x: nat, low: nat, top: nat, v: nat, r: nat, p: nat, w: nat, d: nat)
    requires low < w && r < p && x == low + w * top && top == p * v + r && d == p * w
    ensures x == (low + r * w) + v * d && low + r * w < d
  {
    assert w * (p * v + r) == v * (p * w) + r * w;
    Below(r, p, w);
  }

  // ----- division -----

  /** Bits n and below are not set. */
  ghost predicate ClearTo(s: seq<Limb>, n: nat) {
    && |s| == WIDTH && n < 32 * WIDTH
    && (forall t :: 0 <= t < n / 32 ==> s[t] == 0)
    && LowBits(s[n / 32], n % 32 + 1) == 0
  }

  lemma NothingSet(s: seq<Limb>, n: nat)
    requires |s| == WIDTH && n < 32 * WIDTH && Val(s) == 0
    ensures ClearTo(s, n)
  {
    hide Val, LowBits, Pow2;
    forall t | 0 <= t < WIDTH ensures s[t] == 0 {
      if s[t] != 0 { Positive(s, t); }
    }
    ZeroLow(n % 32 + 1);
  }

  lemma StillClear(s: seq<Limb>, n: nat)
    requires ClearTo(s, n) && n > 0
    ensures ClearTo(s, n - 1)
  {
    hide LowBits, Pow2;
    if n % 32 == 0 {
      assert s[(n - 1) / 32] == 0;
      ZeroLow(32);
    } else {
      FewerBits(s[n / 32], n % 32);
    }
  }

  lemma FewerBits(x: Limb, n: nat)
    requires LowBits(x, n + 1) == 0
    ensures LowBits(x, n) == 0
  {
    var p := Pow2(n);
    LimbSplit(x, n + 1);
    var q := ShiftRight32(x, n + 1);
    hide ShiftRight32;
    assert q * Pow2(n + 1) == (q * 2) * p;
    hide Pow2;
    Remainder(x, p, q * 2, 0);
  }

  lemma BitFits(s: seq<Limb>, n: nat)
    requires ClearTo(s, n)
    ensures Or(s[n / 32], Pow2(n % 32)) == s[n / 32] + Pow2(n % 32) < BASE
  {
    hide Pow2, Or, ShiftRight32, LowBits;
    var x, b := s[n / 32], n % 32;
    LimbSplit(x, b + 1);
    var q := ShiftRight32(x, b + 1);
    DoublePow(b, 1);
    OrAdds(Pow2(b), q, b + 1);
    PowAdd(b + 1, 31 - b);
    Pow2Of32();
    FitBit(q, Pow2(b + 1), Pow2(31 - b), Pow2(b));
  }

  lemma FitBit(q: nat, p: nat, d: nat, bit: nat)
    requires p * d == BASE && q * p < BASE && bit < p
    ensures q * p + bit < BASE
  {
    if q >= d { Below(d - 1, q, p); }
    Below(q, d, p);
  }

  lemma BitAdds(s: seq<Limb>, t: seq<Limb>, n: nat)
    requires ClearTo(s, n) && |t| == WIDTH && t[n / 32] == s[n / 32] + Pow2(n % 32)
    requires forall i :: 0 <= i < WIDTH && i != n / 32 ==> t[i] == s[i]
    ensures Val(t) == Val(s) + Pow2(n) && (n > 0 ==> ClearTo(t, n - 1))
  {
    hide Val, Weight, Pow2, LowBits;
    var i := n / 32;
    assert t[i + 1..] == s[i + 1..] && t[..i] == s[..i];
    SameTail(s, t, i + 1);
    Take(s, i);
    Take(t, i);
    PowSplit(i, n % 32);
    Distribute(s[i], Pow2(n % 32), Weight(i));
    if n > 0 {
      if n % 32 == 0 {
        assert t[(n - 1) / 32] == 0;
        ZeroLow(32);
      } else {
        NewLow(s[i], n % 32);
      }
    }
  }

  lemma ZeroLow(n: nat)
    ensures LowBits(0, n) == 0
  {
    Remainder(0, Pow2(n), 0, 0);
  }

  lemma NewLow(x: Limb, b: nat)
    requires LowBits(x, b + 1) == 0
    ensures LowBits(x + Pow2(b), b) == 0
  {
    var p := Pow2(b);
    LimbSplit(x, b + 1);
    var q := ShiftRight32(x, b + 1);
    hide ShiftRight32;
    assert q * Pow2(b + 1) + p == (q * 2 + 1) * p;
    hide Pow2;
    Remainder(x + p, p, q * 2 + 1, 0);
  }

  lemma Aligned(n: nat, d: nat, numBits: nat, divBits: nat, shift: nat)
    requires numBits <= 32 * WIDTH && n < Pow2(numBits) && 0 < divBits && Pow2(divBits - 1) <= d < Pow2(divBits)
    requires shift == numBits - divBits
    ensures (d * Pow2(shift)) % Modulus() == d * Pow2(shift) && Dividing(n, d, 0, n, shift)
  {
    hide Pow2, Weight;
    PowAdd(divBits, shift);
    PowAdd(divBits - 1, shift + 1);
    PowLess(numBits, 32 * WIDTH);
    WeightIsPower(WIDTH);
    Stretch(d, Pow2(divBits - 1), Pow2(divBits), Pow2(shift), Pow2(shift + 1));
    var t := d * Pow2(shift);
    Remainder(t, Modulus(), 0, t);
  }

  lemma Stretch(d: nat, lo: nat, hi: nat, p: nat, p': nat)
    requires lo <= d < hi && p >= 1
    ensures d * p < hi * p && lo * p' <= d * p'
  {
    Below(d, hi, p);
    Below(lo - 1, d, p');
  }

  lemma DoublePow(shift: nat, d: nat)
    ensures d * Pow2(shift + 1) == d * Pow2(shift) + d * Pow2(shift)
  {
  }

  /** Long division before bit number shift of the quotient is decided. */
  ghost predicate Dividing(n: nat, d: nat, q: nat, r: nat, shift: int) {
    shift >= -1 && q * d + r == n && r < d * Pow2(shift + 1)
  }

  lemma DivideStep(n: nat, d: nat, q: nat, r: nat, shift: nat)
    requires Dividing(n, d, q, r, shift)
    ensures r >= d * Pow2(shift) ==> Dividing(n, d, q + Pow2(shift), r - d * Pow2(shift), shift - 1)
    ensures r < d * Pow2(shift) ==> Dividing(n, d, q, r, shift - 1)
  {
    DoublePow(shift, d);
    Distribute(q, Pow2(shift), d);
    hide Pow2;
  }

  lemma Divided(n: nat, d: nat, q: nat, r: nat, shift: int)
    requires Dividing(n, d, q, r, shift) && shift == -1
    ensures d != 0 && n / d == q
  {
    assert Pow2(shift + 1) == 1;
    Remainder(n, d, q, r);
  }

  lemma Halved(d: nat, shift: nat)
    ensures shift > 0 ==> (d * Pow2(shift)) / Pow2(1) == d * Pow2(shift - 1)
  {
    if shift > 0 {
      PowZero();
      DoublePow(shift - 1, d);
    }
  }
}
