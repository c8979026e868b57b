/** Positional notation in any base, most significant digit first. */
module Radix {
  import opened Division

  function Pow(b: nat, n: nat): (r: nat)
    ensures b > 0 ==> r > 0
  {
    if n == 0 then 1 else b * Pow(b, n - 1)
  }

  function Num(b: nat, s: seq<nat>): nat {
    if s == [] then 0 else Num(b, s[..|s| - 1]) * b + s[|s| - 1]
  }

  /** The shortest digits of a number; none for zero. */
  function Digits(b: nat, v: nat): seq<nat>
    requires b > 1
  {
    if v == 0 then [] else Smaller(v, b); Digits(b, v / b) + [v % b]
  }

  lemma Smaller(v: nat, b: nat)
    requires v > 0 && b > 1
    ensures 0 <= v / b < v
  {
    Shrinks(v, b);
    if v / b == v { Below(1, b, v); }
  }

  predicate AllBelow(b: nat, s: seq<nat>) { forall i :: 0 <= i < |s| ==> s[i] < b }

  predicate NoLeadingZero(s: seq<nat>) { s == [] || s[0] != 0 }

  function Zeros(n: nat): seq<nat> { seq(n, _ => 0) }

  lemma {:induction false} PowAdd(b: nat, m: nat, n: nat)
    ensures Pow(b, m + n) == Pow(b, m) * Pow(b, n)
  {
    if m != 0 {
      PowAdd(b, m - 1, n);
      assert Pow(b, m + n) == b * Pow(b, (m - 1) + n);
      Group(b, Pow(b, m - 1), Pow(b, n));
    }
  }

  lemma Group(a: int, b: int, c: int)
    ensures a * (b * c) == (a * b) * c
  {
  }

  lemma {:induction false} PowMore(b: nat, m: nat, n: nat)
    requires b > 0 && m <= n
    ensures Pow(b, m) <= Pow(b, n)
  {
    if m < n {
      PowMore(b, m, n - 1);
      Below(0, b, Pow(b, n - 1));
    }
  }

  // ----- values and digits -----

  lemma {:induction false} NumFront(b: nat, x: nat, s: seq<nat>)
    ensures Num(b, [x] + s) == x * Pow(b, |s|) + Num(b, s)
  {
    if s == [] {
      assert Num(b, [x]) == Num(b, []) * b + x;
    } else {
      var n := |s| - 1;
      var t := [x] + s;
      assert t[..|t| - 1] == [x] + s[..n];
      NumFront(b, x, s[..n]);
      Exchange(x, b, Pow(b, n));
      Distribute(x * Pow(b, n), Num(b, s[..n]), b);
    }
  }

  lemma {:induction false} NumZeros(b: nat, n: nat, s: seq<nat>)
    ensures Num(b, Zeros(n) + s) == Num(b, s)
  {
    if n == 0 {
      assert Zeros(0) + s == s;
    } else {
      assert Zeros(n) + s == [0] + (Zeros(n - 1) + s);
      NumFront(b, 0, Zeros(n - 1) + s);
      NumZeros(b, n - 1, s);
    }
  }

  lemma {:induction false} NumBound(b: nat, s: seq<nat>)
    requires AllBelow(b, s)
    ensures Num(b, s) < Pow(b, |s|)
  {
    if s != [] {
      var n := |s| - 1;
      NumBound(b, s[..n]);
      Below(Num(b, s[..n]), Pow(b, n), b);
    }
  }

  /** Digits without a leading zero are the digits of their own value. */
  lemma {:induction false} Canonical(b: nat, s: seq<nat>)
    requires b > 1 && AllBelow(b, s) && NoLeadingZero(s)
    ensures Digits(b, Num(b, s)) == s && (s != [] ==> Num(b, s) > 0)
  {
    if s != [] {
      var n := |s| - 1;
      var init, v := s[..n], Num(b, s);
      Canonical(b, init);
      Remainder(v, b, Num(b, init), s[n]);
      if init != [] { Below(0, Num(b, init), b); } else { assert s[n] != 0; }
      assert s == init + [s[n]];
    }
  }

  lemma {:induction false} DigitsValue(b: nat, v: nat)
    requires b > 1
    ensures Num(b, Digits(b, v)) == v && AllBelow(b, Digits(b, v)) && NoLeadingZero(Digits(b, v))
  {
    if v != 0 {
      Smaller(v, b);
      DigitsValue(b, v / b);
      var q, r := Divide(v, b);
      var s := Digits(b, v);
      assert s[..|s| - 1] == Digits(b, q);
    }
  }

  /** A nonzero first digit is there exactly when the number needs it. */
  lemma FirstDigit(b: nat, s: seq<nat>)
    requires b > 1 && AllBelow(b, s) && s != []
    ensures s[0] != 0 <==> Num(b, s) >= Pow(b, |s| - 1)
  {
    var rest := s[1..];
    assert s == [s[0]] + rest;
    NumFront(b, s[0], rest);
    NumBound(b, rest);
    if s[0] != 0 { Below(0, s[0], Pow(b, |rest|)); }
  }

  // ----- multiply and add, in place -----

  /** The digits of a number, right-aligned in a buffer. */
  ghost predicate Holds(b: nat, s: seq<nat>, v: nat, length: nat)
    requires b > 1
  {
    length == |Digits(b, v)| <= |s| && s == Zeros(|s| - length) + Digits(b, v)
  }

  lemma HoldsZero(b: nat, n: nat)
    requires b > 1
    ensures Holds(b, Zeros(n), 0, 0)
  {
  }

  /** What the inner loop has done after i digits. */
  ghost predicate Scaled(b: nat, x: seq<nat>, y: seq<nat>, i: nat, carry: nat, mult: nat, digit: nat) {
    && |x| == |y| && i <= |x| && x[..|x| - i] == y[..|x| - i] && AllBelow(b, y)
    && Num(b, y[|x| - i..]) + carry * Pow(b, i) == mult * Num(b, x[|x| - i..]) + digit
  }

  lemma ScaledStep(b: nat, x: seq<nat>, y: seq<nat>, z: seq<nat>, i: nat, carry: nat, mult: nat, digit: nat)
    requires b > 1 && Scaled(b, x, y, i, carry, mult, digit) && i < |x|
    requires var t := carry + mult * x[|x| - 1 - i]; z == y[|x| - 1 - i := t % b]
    ensures Scaled(b, x, z, i + 1, (carry + mult * x[|x| - 1 - i]) / b, mult, digit)
  {
    var k := |x| - 1 - i;
    var t := carry + mult * x[k];
    var q, r := Divide(t, b);
    assert x[k..] == [x[k]] + x[k + 1..] && z[k..] == [r] + y[k + 1..];
    NumFront(b, x[k], x[k + 1..]);
    NumFront(b, r, y[k + 1..]);
    ScaleMath(b, carry, mult, x[k], q, r, Pow(b, i), Num(b, y[k + 1..]), Num(b, x[k + 1..]), digit);
    assert z[..k] == x[..k];
  }

  lemma ScaleMath(b: int, carry: int, mult: int, x: int, q: int, r: int, p: int, y: int, v: int, digit: int)
    requires y + carry * p == mult * v + digit && carry + mult * x == q * b + r
    ensures (r * p + y) + q * (b * p) == mult * (x * p + v) + digit
  {
    calc {
      r * p + q * (b * p);
      { Group(q, b, p); Distribute(q * b, r, p); }
      (q * b + r) * p;
      { Distribute(carry, mult * x, p); }
      carry * p + (mult * x) * p;
      { Group(mult, x, p); }
      carry * p + mult * (x * p);
    }
    assert mult * (x * p + v) == mult * (x * p) + mult * v;
  }

  /** The loop has run far enough: no carry is left and the old digits are used up. */
  lemma ScaledDone(b: nat, x: seq<nat>, y: seq<nat>, i: nat, carry: nat, mult: nat, digit: nat, v: nat, length: nat)
    requires b > 1 && Holds(b, x, v, length) && Scaled(b, x, y, i, carry, mult, digit) && mult > 0
    requires (carry == 0 && i >= length) || i == |x|
    requires mult * v + digit < Pow(b, |x|)
    requires carry == 0 && i > length ==> y[|x| - i] != 0
    ensures carry == 0 && Holds(b, y, mult * v + digit, i)
  {
    hide Num, Pow, Digits, Holds, Zeros;
    HoldsDigits(b, x, v, length);
    TailValue(b, x, i, v, length);
    if carry > 0 { Below(0, carry, Pow(b, i)); }
    DigitsValue(b, v);
    var tail := y[|x| - i..];
    if i == length && i > 0 {
      HoldsLength(b, x, v, length);
      TopStays(b, Digits(b, v), tail, mult, digit);
    }
    HoldsTail(b, y, i, mult * v + digit);
  }

  lemma HoldsLength(b: nat, x: seq<nat>, v: nat, length: nat)
    requires b > 1 && Holds(b, x, v, length)
    ensures |Digits(b, v)| == length
  {
  }

  lemma HoldsTail(b: nat, y: seq<nat>, i: nat, v: nat)
    requires b > 1 && i <= |y| && (forall k :: 0 <= k < |y| - i ==> y[k] == 0) && AllBelow(b, y)
    requires Num(b, y[|y| - i..]) == v && NoLeadingZero(y[|y| - i..])
    ensures Holds(b, y, v, i)
  {
    hide Num, Digits;
    var n := |y| - i;
    Canonical(b, y[n..]);
    assert y == y[..n] + y[n..] && y[..n] == Zeros(n);
  }

  lemma TailValue(b: nat, x: seq<nat>, i: nat, v: nat, length: nat)
    requires b > 1 && Holds(b, x, v, length) && length <= i <= |x|
    ensures Num(b, x[|x| - i..]) == v
  {
    hide Num, Digits;
    DigitsValue(b, v);
    assert x[|x| - i..] == Zeros(i - length) + Digits(b, v);
    NumZeros(b, i - length, Digits(b, v));
  }

  lemma TopStays(b: nat, s: seq<nat>, t: seq<nat>, mult: nat, digit: nat)
    requires b > 1 && mult > 0 && s != [] && |s| == |t| && s == Digits(b, Num(b, s)) && AllBelow(b, t)
    requires Num(b, t) == mult * Num(b, s) + digit
    ensures t[0] != 0
  {
    hide Num, Pow, Digits;
    DigitsValue(b, Num(b, s));
    FirstDigit(b, s);
    Below(0, mult, Num(b, s));
    FirstDigit(b, t);
  }

  method MultiplyAdd(buf: array<nat>, b: nat, mult: nat, digit: nat, length: nat, ghost v: nat) returns (i: nat)
    requires b > 1 && mult > 0 && Holds(b, buf[..], v, length) && mult * v + digit < Pow(b, buf.Length)
    modifies buf
    ensures Holds(b, buf[..], mult * v + digit, i) && i >= length
  {
    ghost var x := buf[..];
    HoldsDigits(b, x, v, length);
    hide Scaled, Holds, Num, Digits, Pow;
    var carry: nat := digit;
    i := 0;
    ScaledBegins(b, x, digit, mult);
    while (carry != 0 || i < length) && i < buf.Length
      invariant 0 <= i <= buf.Length && Scaled(b, x, buf[..], i, carry, mult, digit)
      invariant buf[..buf.Length - i] == x[..buf.Length - i]
      invariant carry == 0 && i > length ==> buf[buf.Length - i] != 0
    {
      ghost var y := buf[..];
      var k := buf.Length - 1 - i;
      assert buf[k] == buf[..buf.Length - i][k] == x[k];
      ghost var before := carry;
      carry := carry + mult * buf[k];
      ghost var t := carry;
      buf[k] := carry % b;
      Shrinks(carry, b);
      carry := carry / b;
      ScaledStep(b, x, y, buf[..], i, before, mult, digit);
      if carry == 0 && i >= length { Whole(t, b); }
      i := i + 1;
    }
    ScaledDone(b, x, buf[..], i, carry, mult, digit, v, length);
  }

  lemma Whole(t: nat, b: nat)
    requires b > 1 && t / b == 0
    ensures t % b == t
  {
    var q, r := Divide(t, b);
  }

  lemma HoldsDigits(b: nat, s: seq<nat>, v: nat, length: nat)
    requires b > 1 && Holds(b, s, v, length)
    ensures AllBelow(b, s) && length <= |s| && forall k :: 0 <= k < |s| - length ==> s[k] == 0
  {
    DigitsValue(b, v);
  }

  lemma ScaledBegins(b: nat, x: seq<nat>, digit: nat, mult: nat)
    requires AllBelow(b, x)
    ensures Scaled(b, x, x, 0, digit, mult, digit)
  {
    assert x[|x|..] == [];
  }
}
