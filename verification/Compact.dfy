/** The 32-bit "compact" form of a target, and the work a block proves. */
module Compact {
  import opened Division
  import opened Limbs
  import opened Arith

  const SIGN := 0x80_0000
  const BYTE3 := 0x100_0000

  function Pow256(n: nat): (r: nat)
    ensures r >= 1
  {
    Pow2(8 * n)
  }

  function Mantissa(c: nat): nat { c % SIGN }

  function Exponent(c: nat): nat { c / BYTE3 }

  predicate Signed(c: nat) { (c / SIGN) % 2 == 1 }

  /** mantissa * 256^(exponent - 3), rounded down and without any limit. */
  function CompactValue(c: nat): nat {
    var w, e := Mantissa(c), Exponent(c);
    if e <= 3 then Shrinks(w, Pow256(3 - e)); w / Pow256(3 - e) else w * Pow256(e - 3)
  }

  /** The least number of bytes that holds v and leaves its top bit free. */
  ghost predicate IsSize(v: nat, e: nat) { 2 * v < Pow256(e) && (e > 0 ==> Pow256(e - 1) <= 2 * v) }

  /** c is the compact form of v. */
  ghost predicate IsCompact(c: nat, v: nat, negative: bool) {
    && c < BASE && IsSize(v, Exponent(c))
    && Mantissa(c) == (if Exponent(c) <= 3 then v * Pow256(3 - Exponent(c)) else v / Pow256(Exponent(c) - 3))
    && (Signed(c) <==> negative && Mantissa(c) != 0)
  }

  // ----- powers of 256 -----

  lemma PowAdd256(m: nat, n: nat)
    ensures Pow256(m + n) == Pow256(m) * Pow256(n)
  {
    PowAdd(8 * m, 8 * n);
  }

  lemma PowLess256(m: nat, n: nat)
    requires m <= n
    ensures Pow256(m) <= Pow256(n)
  {
    PowLess(8 * m, 8 * n);
  }

  lemma Small256()
    ensures Pow256(0) == 1 && Pow256(1) == 256 && Pow256(2) == 65536 && Pow256(3) == BYTE3
  {
    Pow2Of8();
    Pow2Of32();
    PowAdd(16, 8);
  }

  lemma Modulus256()
    ensures Modulus() == Pow256(32)
  {
    WeightIsPower(WIDTH);
  }

  // ----- reading -----

  /** Overflow is reported exactly when the number does not fit. */
  lemma OverflowIff(w: nat, e: nat)
    requires w < SIGN && e > 3
    ensures w * Pow256(e - 3) >= Modulus() <==>
      w != 0 && (e > 34 || (w > 0xff && e > 33) || (w > 0xffff && e > 32))
  {
    hide Pow256, Modulus;
    Modulus256();
    Small256();
    var p := Pow256(e - 3);
    if e > 34 {
      PowLess256(32, e - 3);
      if w > 0 { Below(0, w, p); }
    } else if e == 34 {
      PowAdd256(1, 31);
      Threshold(w, 256, p);
    } else if e == 33 {
      PowAdd256(2, 30);
      Threshold(w, 65536, p);
    } else {
      PowLess256(e - 3, 29);
      PowAdd256(3, 29);
      Below(w, BYTE3, p);
      Below(p - 1, Pow256(29), BYTE3);
    }
  }

  lemma Threshold(w: nat, k: nat, p: nat)
    requires p >= 1
    ensures w * p >= k * p <==> w >= k
  {
    if w < k { Below(w, k, p); } else { Below(k - 1, w, p); }
  }

  method SetCompact(u: BaseUint, c: nat) returns (negative: bool, overflow: bool)
    requires u.Valid() && c < BASE
    modifies u.pn
    ensures u.Value() == CompactValue(c) % Modulus()
    ensures negative <==> Signed(c) && CompactValue(c) != 0
    ensures overflow <==> CompactValue(c) >= Modulus()
  {
    hide Pow256, Modulus, Pow2, Weight, Val;
    var size, word := c / BYTE3, c % SIGN;
    BigModulus();
    if size <= 3 {
      Shrinks(word, Pow256(3 - size));
      word := word / Pow256(3 - size);
      u.AssignWord(word);
      Remainder(word, Modulus(), 0, word);
    } else {
      u.AssignWord(word);
      ShiftIs256(size - 3);
      u.ShiftLeft(8 * (size - 3));
      OverflowIff(word, size);
      NonZero(word, Pow256(size - 3));
    }
    negative := word != 0 && (c / SIGN) % 2 == 1;
    overflow := word != 0 && (size > 34 || (word > 0xff && size > 33) || (word > 0xffff && size > 32));
  }

  lemma BigModulus()
    ensures Modulus() > BASE * BASE
  {
    assert Weight(2) == BASE * BASE;
    WeightAdd(2, 6);
    WeightAdd(1, 5);
    Below(0, Weight(5), BASE);
    Below(1, Weight(6), Weight(2));
  }

  lemma ShiftIs256(n: nat)
    ensures Pow2(8 * n) == Pow256(n)
  {
  }

  lemma NonZero(w: nat, p: nat)
    requires p >= 1
    ensures w * p == 0 <==> w == 0
  {
  }

  // ----- writing -----

  method GetLow64(u: BaseUint) returns (x: nat)
    requires u.Valid()
    ensures x == u.Value() % (BASE * BASE)
  {
    hide Val, Weight;
    x := u.pn[0] + u.pn[1] * BASE;
    ghost var q := Low(u.pn[..]);
    Remainder(u.Value(), BASE * BASE, q, x);
  }

  lemma Low(s: seq<Limb>) returns (q: nat)
    requires |s| == WIDTH
    ensures Val(s) == s[0] + s[1] * BASE + q * (BASE * BASE)
  {
    hide Val, Weight;
    Split(s, 2);
    Take(s, 1);
    Take(s, 0);
    Empty(s, s, s);
    NextWeight(0);
    NextWeight(1);
    q := Val(s[2..]);
  }

  /** Counted in whole bytes, the length of v. */
  ghost predicate IsLength(v: nat, n: nat) { v < Pow256(n) && (n > 0 ==> Pow256(n - 1) <= v) }

  lemma Bytes(v: nat, bits: nat)
    requires v < Pow2(bits) && (bits > 0 ==> Pow2(bits - 1) <= v)
    ensures IsLength(v, (bits + 7) / 8)
  {
    var n := (bits + 7) / 8;
    PowLess(bits, 8 * n);
    if n > 0 { PowLess(8 * (n - 1), bits - 1); }
  }

  /** The three leading bytes of a number of n bytes. */
  function Leading(v: nat, n: nat): nat {
    if n <= 3 then v * Pow256(3 - n) else Shrinks(v, Pow256(n - 3)); v / Pow256(n - 3)
  }

  lemma LeadingFits(v: nat, n: nat)
    requires v < Pow256(n)
    ensures Leading(v, n) < BYTE3 && (Leading(v, n) >= SIGN <==> 2 * v >= Pow256(n))
  {
    hide Pow256;
    Small256();
    if n <= 3 {
      PowAdd256(n, 3 - n);
      Scaled(v, Pow256(n), Pow256(3 - n));
    } else {
      PowAdd256(3, n - 3);
      var q, r := Divide(v, Pow256(n - 3));
      Cut(v, q, r, Pow256(n - 3));
    }
  }

  lemma Scaled(v: nat, p: nat, d: nat)
    requires v < p && p * d == BYTE3 && d >= 1
    ensures v * d < BYTE3 && (v * d >= SIGN <==> 2 * v >= p)
  {
    Below(v, p, d);
    assert 2 * (v * d) == (2 * v) * d;
    Threshold(2 * v, p, d);
  }

  lemma Cut(v: nat, q: nat, r: nat, d: nat)
    requires v == q * d + r && r < d && v < BYTE3 * d
    ensures q < BYTE3 && (q >= SIGN <==> 2 * v >= BYTE3 * d)
  {
    if q >= BYTE3 { Below(BYTE3 - 1, q, d); }
    if q >= SIGN { Below(SIGN - 1, q, d); } else { Below(q, SIGN, d); }
  }

  /** Where the sign bit is taken, one more byte is spent on the length. */
  lemma NextSize(v: nat, n: nat)
    requires IsLength(v, n)
    ensures 2 * v < Pow256(n) ==> IsSize(v, n)
    ensures 2 * v >= Pow256(n) ==> IsSize(v, n + 1) && Leading(v, n) / 256 == Leading(v, n + 1)
  {
    hide Pow256;
    Small256();
    PowAdd256(1, n);
    if n <= 2 {
      PowAdd256(1, 2 - n);
      var t := v * Pow256(2 - n);
      assert Leading(v, n) == 256 * t;
    } else {
      PowAdd256(1, n - 3);
      TwoCuts(v, Pow256(n - 3));
    }
  }

  lemma TwoCuts(v: nat, d: nat)
    requires d >= 1
    ensures (v / d) / 256 == v / (256 * d)
  {
    var q, r := Divide(v, d);
    var t, u := q / 256, q % 256;
    assert (256 * t + u) * d + r == t * (256 * d) + (u * d + r);
    Below(u, 256, d);
    Remainder(v, 256 * d, t, u * d + r);
  }

  lemma LengthBound(v: nat, n: nat)
    requires IsLength(v, n) && v < Modulus()
    ensures n <= 32
  {
    Modulus256();
    if n > 32 { PowLess256(32, n - 1); }
  }

  /** The number written as a whole: leading bytes, length and sign. */
  lemma Packed(m: nat, size: nat, sign: bool) returns (c: nat)
    requires m < SIGN && size < 256
    ensures c == m + size * BYTE3 + (if sign then SIGN else 0) && c < BASE
    ensures Mantissa(c) == m && Exponent(c) == size && (Signed(c) <==> sign)
  {
    c := m + size * BYTE3 + (if sign then SIGN else 0);
  }

  method GetCompact(u: BaseUint, negative: bool) returns (c: nat)
    requires u.Valid()
    ensures IsCompact(c, u.Value(), negative)
  {
    hide Val, Weight, Modulus, Pow2, IsLength, IsSize, Leading, Or, Pow256, Mantissa, Exponent, Signed;
    ghost var v := u.Value();
    var bits := u.Bits();
    var size := (bits + 7) / 8;
    Bytes(v, bits);
    LengthBound(v, size);
    var compact := LeadingBytes(u, size);
    NextSize(v, size);
    if (compact / SIGN) % 2 == 1 {
      compact := compact / 256;
      size := size + 1;
    }
    assert compact < SIGN && size < 256;
    c := Pack(compact, size, negative);
    IsLeading(v, size);
  }

  /** Mantissa, exponent and sign in one word. */
  method Pack(m: nat, size: nat, negative: bool) returns (c: nat)
    requires m < SIGN && size < 256
    ensures c < BASE && Mantissa(c) == m && Exponent(c) == size && (Signed(c) <==> negative && m != 0)
  {
    hide Or;
    FlagBits(m, size);
    var compact := Or(m, size * BYTE3);
    var sign := if negative && compact % SIGN != 0 then SIGN else 0;
    ghost var packed := Packed(m, size, sign != 0);
    c := Or(compact, sign);
  }

  method LeadingBytes(u: BaseUint, size: nat) returns (x: nat)
    requires u.Valid() && IsLength(u.Value(), size)
    ensures x == Leading(u.Value(), size) < BYTE3 && (x >= SIGN <==> 2 * u.Value() >= Pow256(size))
  {
    hide Val, Weight, Modulus, Pow2, Pow256;
    LeadingFits(u.Value(), size);
    if size <= 3 {
      x := GetLow64(u);
      WordSize(u.Value(), size);
      x := x * Pow256(3 - size);
    } else {
      var bn := new BaseUint.Copy(u);
      ShiftIs256(size - 3);
      bn.ShiftRight(8 * (size - 3));
      x := GetLow64(bn);
    }
  }

  lemma WordSize(v: nat, n: nat)
    requires v < Pow256(n) && n <= 3
    ensures v < BYTE3
  {
    Small256();
    PowLess256(n, 3);
  }

  lemma FlagBits(m: nat, size: nat)
    requires m < SIGN && size < 256
    ensures Or(m, size * BYTE3) == m + size * BYTE3
    ensures Or(m + size * BYTE3, SIGN) == m + size * BYTE3 + SIGN && Or(m + size * BYTE3, 0) == m + size * BYTE3
  {
    hide Or;
    Pow2Of8();
    Pow2Of32();
    PowAdd(16, 8);
    assert Pow2(24) == 2 * Pow2(23);
    hide Pow2;
    OrAdds(m, size, 24);
    OrSets(m, size, 23);
    OrZero(m + size * BYTE3);
  }

  lemma {:induction false} OrSets(low: nat, high: nat, n: nat)
    requires low < Pow2(n)
    ensures Or(low + (2 * high) * Pow2(n), Pow2(n)) == low + (2 * high) * Pow2(n) + Pow2(n)
  {
    hide Or;
    var x, p := low + (2 * high) * Pow2(n), Pow2(n);
    OrUnfolds(x, p);
    if n == 0 {
      OrZero(high);
    } else {
      OrSets(low / 2, high, n - 1);
      Exchange(2 * high, 2, Pow2(n - 1));
      HalfOf(x, low, (2 * high) * Pow2(n - 1));
      HalfOf(p, 0, Pow2(n - 1));
    }
  }

  lemma HalfOf(x: nat, low: nat, h: nat)
    requires x == low + 2 * h
    ensures x / 2 == low / 2 + h && x % 2 == low % 2
  {
  }

  lemma IsLeading(v: nat, n: nat)
    ensures Leading(v, n) == if n <= 3 then v * Pow256(3 - n) else v / Pow256(n - 3)
  {
  }

  // ----- there and back -----

  /** Reading back never gives more, and loses less than one unit of the last byte kept. */
  lemma RoundTrip(c: nat, v: nat, negative: bool)
    requires IsCompact(c, v, negative)
    ensures CompactValue(c) <= v
    ensures Exponent(c) <= 3 ==> CompactValue(c) == v
    ensures Exponent(c) > 3 ==> v - CompactValue(c) < Pow256(Exponent(c) - 3)
  {
    hide Pow256, IsSize;
    var e := Exponent(c);
    if e <= 3 {
      Remainder(v * Pow256(3 - e), Pow256(3 - e), v, 0);
    } else {
      var q, r := Divide(v, Pow256(e - 3));
    }
  }

  /** Once rounded, a number has the same compact form again. */
  lemma Stable(c: nat, v: nat, negative: bool)
    requires IsCompact(c, v, negative)
    ensures IsCompact(c, CompactValue(c), negative)
  {
    RoundTrip(c, v, negative);
    hide Pow256;
    var e := Exponent(c);
    if e > 3 {
      var d, v' := Pow256(e - 3), CompactValue(c);
      var q, r := Divide(v, d);
      PowAdd256(2, e - 3);
      Small256();
      if q < 32768 { Below(q, 32768, d); }
      Below(32767, q, d);
      Remainder(v', d, q, 0);
    }
  }

  /** The compact form is unique. */
  lemma OneForm(c: nat, c': nat, v: nat, negative: bool)
    requires IsCompact(c, v, negative) && IsCompact(c', v, negative)
    ensures c == c'
  {
    hide Pow256, Mantissa, Exponent, Signed;
    if Exponent(c) < Exponent(c') { PowLess256(Exponent(c), Exponent(c') - 1); }
    if Exponent(c') < Exponent(c) { PowLess256(Exponent(c'), Exponent(c) - 1); }
    Parts(c);
    Parts(c');
  }

  lemma Parts(c: nat)
    ensures c == Mantissa(c) + Exponent(c) * BYTE3 + if Signed(c) then SIGN else 0
  {
  }

  // ----- the work of a block -----

  predicate Rejected(c: nat) { (Signed(c) && CompactValue(c) != 0) || CompactValue(c) >= Modulus() || CompactValue(c) == 0 }

  /** How many hashes it takes on average to meet the target. */
  method GetBlockProof(bits: nat) returns (r: BaseUint)
    requires bits < BASE
    ensures r.Valid() && fresh(r) && fresh(r.pn)
    ensures Rejected(bits) ==> r.Value() == 0
    ensures !Rejected(bits) ==> r.Value() == Modulus() / (CompactValue(bits) + 1)
  {
    hide Val, Weight, Modulus, CompactValue, Signed;
    var target := new BaseUint();
    var negative, overflow := SetCompact(target, bits);
    var zero := target.IsZero();
    r := new BaseUint();
    ghost var t := CompactValue(bits);
    if t < Modulus() { Remainder(t, Modulus(), 0, t); }
    if negative || overflow || zero {
      return;
    }
    TargetBelow(bits);
    Proof(t, Modulus());
    r := target.Complement();
    var one := new BaseUint();
    one.AssignWord(1);
    target.Add(one);
    var ok := r.Divide(target);
    r.Add(one);
  }

  lemma TargetBelow(c: nat)
    ensures CompactValue(c) != Modulus() - 1
  {
    hide Pow256, Modulus;
    BigModulus();
    Modulus256();
    Small256();
    var w, e := Mantissa(c), Exponent(c);
    if e <= 3 {
      Shrinks(w, Pow256(3 - e));
    } else {
      PowAdd256(1, 31);
      PowAdd256(1, e - 4);
      assert w * (256 * Pow256(e - 4)) == 256 * (w * Pow256(e - 4));
    }
  }

  /** The formula that stays within 256 bits computes the quotient of a number that does not. */
  lemma Proof(t: nat, m: nat)
    requires 0 < t && t + 1 < m
    ensures (t + 1) % m == t + 1 && (m - 1 - t) / (t + 1) + 1 == m / (t + 1)
    ensures ((m - 1 - t) / (t + 1) + 1) % m == m / (t + 1)
  {
    var d := t + 1;
    var q, r := Divide(m - 1 - t, d);
    Distribute(q, 1, d);
    Remainder(m, d, q + 1, r);
    Remainder(d, m, 0, d);
    Below(0, d - 1, q + 1);
    Remainder(q + 1, m, 0, q + 1);
  }
}
