/** Bech32 and Bech32m: a linear checksum over 5-bit symbols, and the text form around it. */
module Bech32 {
  import opened Wrappers

  type Symbol = bv5

  // ----- exclusive or -----

  function Xor(a: bv32, b: bv32): bv32 { a ^ b }

  function Plus(v: Symbol, w: Symbol): Symbol { v ^ w }

  function Widen(v: Symbol): bv32 { v as bv32 }

  lemma XorAssoc(a: bv32, b: bv32, c: bv32)
    ensures Xor(Xor(a, b), c) == Xor(a, Xor(b, c)) && Xor(b, c) == Xor(c, b)
  {
  }

  lemma XorSwap(a: bv32, b: bv32, c: bv32, d: bv32)
    ensures Xor(Xor(a, b), Xor(c, d)) == Xor(Xor(a, c), Xor(b, d))
  {
    hide Xor;
    XorAssoc(a, b, Xor(c, d));
    XorAssoc(b, c, d);
    XorAssoc(c, b, d);
    XorAssoc(a, c, Xor(b, d));
    XorAssoc(a, c, b);
  }

  lemma XorIs(a: bv32, b: bv32)
    ensures Xor(a, b) == a ^ b
  {
  }

  lemma XorSelf(a: bv32)
    ensures Xor(a, a) == 0 && Xor(a, 0) == a && Xor(0, a) == a
  {
  }

  lemma XorZero(a: bv32, b: bv32)
    ensures Xor(a, b) == 0 <==> a == b
  {
  }

  lemma PlusZero(v: Symbol, w: Symbol)
    ensures Plus(v, w) == 0 <==> v == w
    ensures Widen(Plus(v, w)) == Xor(Widen(v), Widen(w))
  {
  }

  // ----- the checksum -----

  function Pick(x: bool, k: bv32): bv32 { if x then k else 0 }

  predicate Bit(c: bv32, n: nat)
    requires n < 32
  {
    (c >> n) & 1 == 1
  }

  /** The top coefficient times x^6, reduced. */
  function Feed(c: bv32): bv32 {
    Xor(Xor(Xor(Xor(Pick(Bit(c, 25), 0x3b6a57b2), Pick(Bit(c, 26), 0x26508e6d)), Pick(Bit(c, 27), 0x1ea119fa)),
            Pick(Bit(c, 28), 0x3d4233dd)), Pick(Bit(c, 29), 0x2a1462b3))
  }

  function Shift(c: bv32): bv32 { (c & 0x1ffffff) << 5 }

  /** One symbol more: multiply by x and reduce, on six packed coefficients. */
  function Step(c: bv32, v: Symbol): bv32 { Xor(Xor(Shift(c), Widen(v)), Feed(c)) }

  const TOP: bv32 := 0x40000000

  lemma StepBound(c: bv32, v: Symbol)
    requires c < TOP
    ensures Step(c, v) < TOP
  {
  }

  lemma PickLinear(x: bool, y: bool, k: bv32)
    ensures Pick(x != y, k) == Xor(Pick(x, k), Pick(y, k))
  {
    XorSelf(k);
    XorSelf(0);
    hide Xor;
  }

  lemma BitLinear(c: bv32, d: bv32)
    ensures Bit(Xor(c, d), 25) == (Bit(c, 25) != Bit(d, 25)) && Bit(Xor(c, d), 26) == (Bit(c, 26) != Bit(d, 26))
    ensures Bit(Xor(c, d), 27) == (Bit(c, 27) != Bit(d, 27)) && Bit(Xor(c, d), 28) == (Bit(c, 28) != Bit(d, 28))
    ensures Bit(Xor(c, d), 29) == (Bit(c, 29) != Bit(d, 29))
  {
    XorIs(c, d);
    TopBits(c, d);
    hide Xor, Bit;
  }

  lemma TopBits(c: bv32, d: bv32)
    ensures Bit(c ^ d, 25) == (Bit(c, 25) != Bit(d, 25)) && Bit(c ^ d, 26) == (Bit(c, 26) != Bit(d, 26))
    ensures Bit(c ^ d, 27) == (Bit(c, 27) != Bit(d, 27)) && Bit(c ^ d, 28) == (Bit(c, 28) != Bit(d, 28))
    ensures Bit(c ^ d, 29) == (Bit(c, 29) != Bit(d, 29))
  {
  }

  lemma FiveLinear(t1: bv32, u1: bv32, t2: bv32, u2: bv32, t3: bv32, u3: bv32, t4: bv32, u4: bv32, t5: bv32, u5: bv32)
    ensures Xor(Xor(Xor(Xor(Xor(t1, u1), Xor(t2, u2)), Xor(t3, u3)), Xor(t4, u4)), Xor(t5, u5)) ==
            Xor(Xor(Xor(Xor(Xor(t1, t2), t3), t4), t5), Xor(Xor(Xor(Xor(u1, u2), u3), u4), u5))
  {
    hide Xor;
    XorSwap(t1, u1, t2, u2);
    XorSwap(Xor(t1, t2), Xor(u1, u2), t3, u3);
    XorSwap(Xor(Xor(t1, t2), t3), Xor(Xor(u1, u2), u3), t4, u4);
    XorSwap(Xor(Xor(Xor(t1, t2), t3), t4), Xor(Xor(Xor(u1, u2), u3), u4), t5, u5);
  }

  lemma FeedLinear(c: bv32, d: bv32)
    ensures Feed(Xor(c, d)) == Xor(Feed(c), Feed(d))
  {
    hide Xor, Pick, Bit;
    BitLinear(c, d);
    PickLinear(Bit(c, 25), Bit(d, 25), 0x3b6a57b2);
    PickLinear(Bit(c, 26), Bit(d, 26), 0x26508e6d);
    PickLinear(Bit(c, 27), Bit(d, 27), 0x1ea119fa);
    PickLinear(Bit(c, 28), Bit(d, 28), 0x3d4233dd);
    PickLinear(Bit(c, 29), Bit(d, 29), 0x2a1462b3);
    FiveLinear(Pick(Bit(c, 25), 0x3b6a57b2), Pick(Bit(d, 25), 0x3b6a57b2), Pick(Bit(c, 26), 0x26508e6d),
               Pick(Bit(d, 26), 0x26508e6d), Pick(Bit(c, 27), 0x1ea119fa), Pick(Bit(d, 27), 0x1ea119fa),
               Pick(Bit(c, 28), 0x3d4233dd), Pick(Bit(d, 28), 0x3d4233dd), Pick(Bit(c, 29), 0x2a1462b3),
               Pick(Bit(d, 29), 0x2a1462b3));
  }

  lemma ShiftLinear(c: bv32, d: bv32)
    ensures Shift(Xor(c, d)) == Xor(Shift(c), Shift(d))
  {
  }

  lemma StepLinear(c: bv32, d: bv32, v: Symbol, w: Symbol)
    ensures Step(Xor(c, d), Plus(v, w)) == Xor(Step(c, v), Step(d, w))
  {
    hide Xor, Shift, Feed, Plus, Widen;
    ShiftLinear(c, d);
    PlusZero(v, w);
    FeedLinear(c, d);
    XorSwap(Shift(c), Shift(d), Widen(v), Widen(w));
    XorSwap(Xor(Shift(c), Widen(v)), Xor(Shift(d), Widen(w)), Feed(c), Feed(d));
  }

  /** Only the zero state steps to zero without a symbol. */
  lemma StepKernel(c: bv32)
    requires c < TOP && Step(c, 0) == 0
    ensures c == 0
  {
  }

  lemma XorBound(c: bv32, d: bv32)
    requires c < TOP && d < TOP
    ensures Xor(c, d) < TOP
  {
  }

  /** The step with the same symbol merges no two states. */
  lemma StepInjective(c: bv32, d: bv32, v: Symbol)
    requires c < TOP && d < TOP && Step(c, v) == Step(d, v)
    ensures c == d
  {
    hide Step, Xor, Plus;
    StepLinear(c, d, v, v);
    PlusZero(v, v);
    XorZero(Step(c, v), Step(d, v));
    XorBound(c, d);
    StepKernel(Xor(c, d));
    XorZero(c, d);
  }

  /** As long as the top coefficient is zero the symbols just line up. */
  lemma StepShifts(c: bv32, v: Symbol)
    requires c < 0x2000000
    ensures Step(c, v) == (c << 5) | Widen(v)
  {
    NoTop(c, v);
    XorSelf(0);
    XorSelf((c << 5) | Widen(v));
    hide Xor, Bit, Shift, Widen;
  }

  lemma NoTop(c: bv32, v: Symbol)
    requires c < 0x2000000
    ensures !Bit(c, 25) && !Bit(c, 26) && !Bit(c, 27) && !Bit(c, 28) && !Bit(c, 29)
    ensures Xor(Shift(c), Widen(v)) == (c << 5) | Widen(v)
  {
  }

  // ----- sequences of symbols -----

  /** The state after the given symbols. */
  function After(c: bv32, s: seq<Symbol>): bv32 {
    if s == [] then c else Step(After(c, s[..|s| - 1]), s[|s| - 1])
  }

  function PolyMod(s: seq<Symbol>): bv32 { After(1, s) }

  lemma {:induction false} AfterBound(c: bv32, s: seq<Symbol>)
    requires c < TOP
    ensures After(c, s) < TOP
  {
    hide Step;
    if s != [] {
      AfterBound(c, s[..|s| - 1]);
      StepBound(After(c, s[..|s| - 1]), s[|s| - 1]);
    }
  }

  lemma {:induction false} AfterConcat(c: bv32, s: seq<Symbol>, t: seq<Symbol>)
    ensures After(c, s + t) == After(After(c, s), t)
  {
    hide Step;
    if t == [] {
      assert s + t == s;
    } else {
      var n := |t| - 1;
      AfterConcat(c, s, t[..n]);
      assert (s + t)[..|s + t| - 1] == s + t[..n];
    }
  }

  function Difference(s: seq<Symbol>, t: seq<Symbol>): seq<Symbol>
    requires |s| == |t|
  {
    seq(|s|, i requires 0 <= i < |s| => Plus(s[i], t[i]))
  }

  /** The checksum is linear: differences of states and symbols give the difference of the results. */
  lemma {:induction false} AfterLinear(c: bv32, d: bv32, s: seq<Symbol>, t: seq<Symbol>)
    requires |s| == |t|
    ensures After(Xor(c, d), Difference(s, t)) == Xor(After(c, s), After(d, t))
  {
    hide Step, Xor, Plus;
    if s != [] {
      var n := |s| - 1;
      AfterLinear(c, d, s[..n], t[..n]);
      assert Difference(s, t)[..n] == Difference(s[..n], t[..n]);
      StepLinear(After(c, s[..n]), After(d, t[..n]), s[n], t[n]);
    }
  }

  /** The same symbols at the end keep different states apart. */
  lemma {:induction false} TailInjective(c: bv32, d: bv32, s: seq<Symbol>)
    requires c < TOP && d < TOP && After(c, s) == After(d, s)
    ensures c == d
  {
    hide Step;
    if s != [] {
      var n := |s| - 1;
      AfterBound(c, s[..n]);
      AfterBound(d, s[..n]);
      StepInjective(After(c, s[..n]), After(d, s[..n]), s[n]);
      TailInjective(c, d, s[..n]);
    }
  }

  /** One more than the largest value of n symbols. */
  function Room(n: nat): bv32
    requires n <= 6
  {
    if n == 0 then 1 else if n == 1 then 0x20 else if n == 2 then 0x400 else if n == 3 then 0x8000
    else if n == 4 then 0x100000 else if n == 5 then 0x2000000 else 0x40000000
  }

  lemma LineUp(c: bv32, v: Symbol, n: nat)
    requires n < 6 && c < Room(n)
    ensures Step(c, v) < Room(n + 1) && (Step(c, v) == 0 <==> c == 0 && v == 0)
  {
    assert c < 0x2000000;
    StepShifts(c, v);
    hide Step;
  }

  /** From zero, up to six symbols fill the state side by side: only zeros give zero. */
  lemma {:induction false} SixSymbols(s: seq<Symbol>)
    requires |s| <= 6
    ensures After(0, s) < Room(|s|) && (After(0, s) == 0 <==> forall i :: 0 <= i < |s| ==> s[i] == 0)
  {
    hide Step;
    if s != [] {
      var n := |s| - 1;
      SixSymbols(s[..n]);
      LineUp(After(0, s[..n]), s[n], n);
      assert forall i :: 0 <= i < n ==> s[..n][i] == s[i];
    }
  }

  lemma SixInjective(c: bv32, s: seq<Symbol>, t: seq<Symbol>)
    requires |s| == |t| <= 6 && After(c, s) == After(c, t)
    ensures s == t
  {
    hide After, Plus, Xor;
    AfterLinear(c, c, s, t);
    XorZero(c, c);
    XorZero(After(c, s), After(c, t));
    SixSymbols(Difference(s, t));
    forall i | 0 <= i < |s| ensures s[i] == t[i] {
      assert Difference(s, t)[i] == 0;
      PlusZero(s[i], t[i]);
    }
  }

  /** Any change confined to six consecutive symbols changes the checksum, at any length. */
  lemma BurstDetected(front: seq<Symbol>, a: seq<Symbol>, b: seq<Symbol>, back: seq<Symbol>)
    requires |a| == |b| <= 6 && a != b
    ensures PolyMod(front + a + back) != PolyMod(front + b + back)
  {
    hide Step;
    var c := After(1, front);
    AfterConcat(1, front + a, back);
    AfterConcat(1, front, a);
    AfterConcat(1, front + b, back);
    AfterConcat(1, front, b);
    AfterBound(1, front);
    AfterBound(c, a);
    AfterBound(c, b);
    hide After;
    if PolyMod(front + a + back) == PolyMod(front + b + back) {
      TailInjective(After(c, a), After(c, b), back);
      SixInjective(c, a, b);
    }
  }

  // ----- making a checksum -----

  datatype Encoding = BECH32 | BECH32M

  function EncodingConstant(e: Encoding): bv32 { if e.BECH32? then 1 else 0x2bc830a3 }

  /** The last n coefficients of a state. */
  function Groups(m: bv32, n: nat): (s: seq<Symbol>)
    ensures |s| == n
  {
    if n == 0 then [] else Groups(Rest(m), n - 1) + [Last(m)]
  }

  function Rest(m: bv32): bv32 { m >> 5 }

  function Last(m: bv32): Symbol { (m & 31) as bv5 }

  function ZeroSymbols(n: nat): seq<Symbol> { seq(n, _ => 0) }

  function Checksum(e: Encoding, front: seq<Symbol>): seq<Symbol> {
    Groups(Xor(PolyMod(front + ZeroSymbols(6)), EncodingConstant(e)), 6)
  }

  lemma LowGroup(m: bv32)
    ensures Widen(Last(m)) == m & 31
  {
  }

  lemma Rejoin(m: bv32)
    ensures ((m >> 5) << 5) | (m & 31) == m
  {
  }

  /** The state fits into n symbols. */
  predicate Fits(m: bv32, n: nat) { n <= 6 && m < Room(n) }

  lemma RestFits(m: bv32, n: nat)
    requires Fits(m, n) && n > 0
    ensures Fits(Rest(m), n - 1) && Rest(m) < 0x2000000
  {
  }

  lemma LastStep(m: bv32)
    requires Rest(m) < 0x2000000
    ensures Step(Rest(m), Last(m)) == m
  {
    StepShifts(Rest(m), Last(m));
    LowGroup(m);
    Rejoin(m);
    hide Step, Widen, Last;
  }

  lemma NothingFits(m: bv32)
    requires Fits(m, 0)
    ensures m == 0
  {
  }

  /** The groups of a state, read from zero, are that state. */
  lemma {:induction false} GroupsRead(m: bv32, n: nat)
    requires Fits(m, n)
    ensures After(0, Groups(m, n)) == m
    decreases n
  {
    hide Step, Last, Rest, Fits;
    if n == 0 {
      NothingFits(m);
    } else {
      RestFits(m, n);
      LastStep(m);
      GroupsRead(Rest(m), n - 1);
      var s := Groups(m, n);
      assert s[..|s| - 1] == Groups(Rest(m), n - 1) && s[|s| - 1] == Last(m);
    }
  }

  lemma PlusNothing(s: seq<Symbol>)
    ensures Difference(ZeroSymbols(|s|), s) == s
  {
    forall i | 0 <= i < |s| ensures Plus(0, s[i]) == s[i] { NothingPlus(s[i]); }
  }

  lemma NothingPlus(v: Symbol)
    ensures Plus(0, v) == v
  {
  }

  lemma XorTwice(a: bv32, b: bv32)
    ensures Xor(a, Xor(a, b)) == b
  {
    hide Xor;
    XorAssoc(a, a, b);
    XorSelf(a);
    XorSelf(b);
  }

  /** Whatever comes before, the checksum completes it to a valid sequence. */
  lemma ChecksumValid(e: Encoding, front: seq<Symbol>)
    ensures PolyMod(front + Checksum(e, front)) == EncodingConstant(e)
  {
    hide Step, Xor, After, Groups, Difference;
    var c, chk, k := After(1, front), Checksum(e, front), EncodingConstant(e);
    var p := PolyMod(front + ZeroSymbols(6));
    AfterConcat(1, front, ZeroSymbols(6));
    AfterConcat(1, front, chk);
    AfterBound(1, front + ZeroSymbols(6));
    XorBound(p, k);
    assert Fits(Xor(p, k), 6);
    GroupsRead(Xor(p, k), 6);
    AfterLinear(c, 0, ZeroSymbols(6), chk);
    PlusNothing(chk);
    XorSelf(c);
    XorTwice(p, k);
  }

  /** No other six symbols would do. */
  lemma ChecksumUnique(e: Encoding, front: seq<Symbol>, last: seq<Symbol>)
    requires |last| == 6 && PolyMod(front + last) == EncodingConstant(e)
    ensures last == Checksum(e, front)
  {
    hide Step, Xor, After, Groups;
    ChecksumValid(e, front);
    AfterConcat(1, front, last);
    AfterConcat(1, front, Checksum(e, front));
    SixInjective(After(1, front), last, Checksum(e, front));
  }

  // ----- text -----

  /** The 32 characters in order, in two halves. */
  function CharOf(v: Symbol): char { if v < 16 then LowChar(v) else HighChar(v) }

  function LowChar(v: Symbol): char {
    if v == 0 then 'q' else if v == 1 then 'p' else if v == 2 then 'z' else if v == 3 then 'r' else
    if v == 4 then 'y' else if v == 5 then '9' else if v == 6 then 'x' else if v == 7 then '8' else
    if v == 8 then 'g' else if v == 9 then 'f' else if v == 10 then '2' else if v == 11 then 't' else
    if v == 12 then 'v' else if v == 13 then 'd' else if v == 14 then 'w' else '0'
  }

  function HighChar(v: Symbol): char {
    if v == 16 then 's' else if v == 17 then '3' else if v == 18 then 'j' else if v == 19 then 'n' else
    if v == 20 then '5' else if v == 21 then '4' else if v == 22 then 'k' else if v == 23 then 'h' else
    if v == 24 then 'c' else if v == 25 then 'e' else if v == 26 then '6' else if v == 27 then 'm' else
    if v == 28 then 'u' else if v == 29 then 'a' else if v == 30 then '7' else 'l'
  }

  function LowerCase(c: char): char { if 'A' <= c <= 'Z' then c - 'A' + 'a' else c }

  function SymbolOf(c: char): Option<Symbol> {
    var d := LowerCase(c);
    if LowSymbol(d).Some? then LowSymbol(d) else HighSymbol(d)
  }

  function LowSymbol(c: char): Option<Symbol> {
    if c == 'q' then Some(0) else if c == 'p' then Some(1) else if c == 'z' then Some(2) else if c == 'r' then Some(3) else
    if c == 'y' then Some(4) else if c == '9' then Some(5) else if c == 'x' then Some(6) else if c == '8' then Some(7) else
    if c == 'g' then Some(8) else if c == 'f' then Some(9) else if c == '2' then Some(10) else if c == 't' then Some(11) else
    if c == 'v' then Some(12) else if c == 'd' then Some(13) else if c == 'w' then Some(14) else if c == '0' then Some(15) else
    None
  }

  function HighSymbol(c: char): Option<Symbol> {
    if c == 's' then Some(16) else if c == '3' then Some(17) else if c == 'j' then Some(18) else if c == 'n' then Some(19) else
    if c == '5' then Some(20) else if c == '4' then Some(21) else if c == 'k' then Some(22) else if c == 'h' then Some(23) else
    if c == 'c' then Some(24) else if c == 'e' then Some(25) else if c == '6' then Some(26) else if c == 'm' then Some(27) else
    if c == 'u' then Some(28) else if c == 'a' then Some(29) else if c == '7' then Some(30) else if c == 'l' then Some(31) else
    None
  }

  /** A character of the alphabet: printable, not a capital, not the separator. */
  predicate Plain(c: char) { '!' <= c <= '~' && c != '1' && !('A' <= c <= 'Z') }

  lemma LowRead(v: Symbol)
    requires v < 16
    ensures LowSymbol(LowChar(v)) == Some(v) && Plain(LowChar(v))
  {
  }

  lemma HighRead(v: Symbol)
    requires v >= 16
    ensures LowSymbol(HighChar(v)) == None && HighSymbol(HighChar(v)) == Some(v) && Plain(HighChar(v))
  {
  }

  lemma CharRead(v: Symbol)
    ensures SymbolOf(CharOf(v)) == Some(v) && Plain(CharOf(v))
  {
    if v < 16 { LowRead(v); } else { HighRead(v); }
    hide LowChar, HighChar, LowSymbol, HighSymbol;
  }

  lemma ReadLow(c: char)
    requires LowSymbol(c).Some?
    ensures LowSymbol(c).value < 16 && LowChar(LowSymbol(c).value) == c
  {
  }

  lemma ReadHigh(c: char)
    requires HighSymbol(c).Some?
    ensures HighSymbol(c).value >= 16 && HighChar(HighSymbol(c).value) == c
  {
  }

  lemma ReadChar(c: char)
    requires SymbolOf(c).Some?
    ensures CharOf(SymbolOf(c).value) == LowerCase(c)
  {
    hide LowChar, HighChar, LowSymbol, HighSymbol, LowerCase;
    var d := LowerCase(c);
    if LowSymbol(d).Some? { ReadLow(d); } else { ReadHigh(d); }
  }

  function Chars(s: seq<Symbol>): (t: string)
    ensures |t| == |s|
  {
    seq(|s|, i requires 0 <= i < |s| => CharOf(s[i]))
  }

  function Lower(s: string): (t: string)
    ensures |t| == |s|
  {
    seq(|s|, i requires 0 <= i < |s| => LowerCase(s[i]))
  }

  predicate Readable(s: string) { forall i :: 0 <= i < |s| ==> SymbolOf(s[i]).Some? }

  function Symbols(s: string): (t: seq<Symbol>)
    requires Readable(s)
    ensures |t| == |s|
  {
    seq(|s|, i requires 0 <= i < |s| => SymbolOf(s[i]).value)
  }

  /** The readable part, spread over symbols: the high bits, a zero, the low bits. */
  function ExpandHRP(hrp: string): seq<Symbol> {
    seq(|hrp|, i requires 0 <= i < |hrp| => (hrp[i] as int % 256 / 32) as bv5) + [0] +
    seq(|hrp|, i requires 0 <= i < |hrp| => (hrp[i] as int % 32) as bv5)
  }

  function Encode(e: Encoding, hrp: string, values: seq<Symbol>): string {
    hrp + "1" + Chars(values + Checksum(e, ExpandHRP(hrp) + values))
  }

  // ----- decoding -----

  predicate Mixed(s: string) {
    (exists i :: 0 <= i < |s| && 'a' <= s[i] <= 'z') && (exists i :: 0 <= i < |s| && 'A' <= s[i] <= 'Z')
  }

  predicate CharactersOk(s: string) { (forall i :: 0 <= i < |s| ==> '!' <= s[i] <= '~') && !Mixed(s) }

  /** The place of the last separator, or -1. */
  function RFind(s: string): (p: int)
    ensures -1 <= p < |s| && (p >= 0 ==> s[p] == '1') && forall i :: p < i < |s| ==> s[i] != '1'
  {
    if s == [] then -1 else if s[|s| - 1] == '1' then |s| - 1 else RFind(s[..|s| - 1])
  }

  datatype Decoded = Decoded(encoding: Encoding, hrp: string, values: seq<Symbol>)

  function Verify(hrp: string, values: seq<Symbol>): Option<Encoding> {
    var check := PolyMod(ExpandHRP(hrp) + values);
    if check == EncodingConstant(BECH32) then Some(BECH32)
    else if check == EncodingConstant(BECH32M) then Some(BECH32M) else None
  }

  predicate Shaped(s: string) {
    var p := RFind(s);
    CharactersOk(s) && |s| <= 140 && 0 < p <= 83 && p + 7 <= |s| && Readable(s[p + 1..])
  }

  function Decode(s: string): Option<Decoded> {
    if !Shaped(s) then None
    else
      var p := RFind(s);
      var hrp, values := Lower(s[..p]), Symbols(s[p + 1..]);
      match Verify(hrp, values)
      case None => None
      case Some(e) => Some(Decoded(e, hrp, values[..|values| - 6]))
  }

  /** A readable part that may be encoded. */
  predicate GoodHRP(hrp: string) {
    1 <= |hrp| <= 83 && forall i :: 0 <= i < |hrp| ==> '!' <= hrp[i] <= '~' && !('A' <= hrp[i] <= 'Z')
  }

  // ----- there and back -----

  lemma CharsRead(s: seq<Symbol>)
    ensures Readable(Chars(s)) && Symbols(Chars(s)) == s
    ensures forall i :: 0 <= i < |s| ==> Plain(Chars(s)[i])
  {
    forall i | 0 <= i < |s| ensures SymbolOf(Chars(s)[i]) == Some(s[i]) && Plain(Chars(s)[i]) {
      CharRead(s[i]);
    }
    hide SymbolOf, CharOf;
  }

  lemma {:induction false} LastSeparator(hrp: string, rest: string)
    requires forall i :: 0 <= i < |rest| ==> rest[i] != '1'
    ensures RFind(hrp + "1" + rest) == |hrp|
  {
    var s := hrp + "1" + rest;
    if rest == [] {
      assert s[|s| - 1] == '1';
    } else {
      var n := |rest| - 1;
      LastSeparator(hrp, rest[..n]);
      assert s[|s| - 1] == rest[n] && s[..|s| - 1] == hrp + "1" + rest[..n];
    }
  }

  /** What is encoded within the limits decodes to itself. */
  lemma DecodeOfEncode(e: Encoding, hrp: string, values: seq<Symbol>)
    requires GoodHRP(hrp) && |hrp| + 1 + |values| + 6 <= 140
    ensures Decode(Encode(e, hrp, values)) == Some(Decoded(e, hrp, values))
  {
    hide PolyMod, Xor, Groups, SymbolOf, CharOf, Chars, RFind, Symbols, Readable, ExpandHRP;
    var front := ExpandHRP(hrp) + values;
    var all := values + Checksum(e, front);
    var rest, s := Chars(all), Encode(e, hrp, values);
    CharsRead(all);
    LastSeparator(hrp, rest);
    assert s[|hrp| + 1..] == rest && s[..|hrp|] == hrp && Lower(hrp) == hrp;
    PlainText(hrp, rest);
    assert ExpandHRP(hrp) + all == front + Checksum(e, front);
    ChecksumValid(e, front);
    assert all[..|all| - 6] == values;
  }

  lemma PlainText(hrp: string, rest: string)
    requires GoodHRP(hrp) && forall i :: 0 <= i < |rest| ==> Plain(rest[i])
    ensures CharactersOk(hrp + "1" + rest)
  {
    var s := hrp + "1" + rest;
    forall i | 0 <= i < |s| ensures '!' <= s[i] <= '~' && !('A' <= s[i] <= 'Z') {
      if i < |hrp| {
        assert s[i] == hrp[i];
      } else if i > |hrp| {
        assert s[i] == rest[i - |hrp| - 1];
      }
    }
  }

  /** What decodes is, in lower case, the encoding of its result: there are no two texts for one. */
  lemma EncodeOfDecode(s: string)
    requires Decode(s).Some?
    ensures var d := Decode(s).value; Encode(d.encoding, d.hrp, d.values) == Lower(s)
  {
    hide PolyMod, Chars, RFind, Symbols, Readable, ExpandHRP, Checksum, Lower, CharactersOk, Verify, EncodingConstant;
    assert Shaped(s);
    var p: nat, d := RFind(s), Decode(s).value;
    var values := Symbols(s[p + 1..]);
    Verified(d.hrp, values);
    Completed(d.encoding, ExpandHRP(d.hrp), values);
    ReadChars(s[p + 1..]);
    LowerParts(s, p);
  }

  lemma Verified(hrp: string, values: seq<Symbol>)
    requires Verify(hrp, values).Some?
    ensures PolyMod(ExpandHRP(hrp) + values) == EncodingConstant(Verify(hrp, values).value)
  {
    hide PolyMod, ExpandHRP;
  }

  /** Behind a valid sequence stands the checksum of what comes before. */
  lemma Completed(e: Encoding, front: seq<Symbol>, values: seq<Symbol>)
    requires |values| >= 6 && PolyMod(front + values) == EncodingConstant(e)
    ensures var n := |values| - 6; values == values[..n] + Checksum(e, front + values[..n])
  {
    hide PolyMod, Checksum;
    var n := |values| - 6;
    assert front + values == (front + values[..n]) + values[n..];
    ChecksumUnique(e, front + values[..n], values[n..]);
    assert values == values[..n] + values[n..];
  }

  lemma ReadChars(s: string)
    requires Readable(s)
    ensures Chars(Symbols(s)) == Lower(s)
  {
    forall i | 0 <= i < |s| ensures Chars(Symbols(s))[i] == LowerCase(s[i]) {
      ReadChar(s[i]);
    }
    hide SymbolOf, CharOf, LowerCase;
  }

  lemma LowerParts(s: string, p: nat)
    requires p < |s| && s[p] == '1'
    ensures Lower(s) == Lower(s[..p]) + "1" + Lower(s[p + 1..])
  {
  }

  // ----- the loops -----

  method ComputePolyMod(v: seq<Symbol>) returns (c: bv32)
    ensures c == PolyMod(v)
  {
    hide Step;
    c := 1;
    var i := 0;
    while i < |v|
      invariant i <= |v| && c == After(1, v[..i])
    {
      c := Step(c, v[i]);
      assert v[..i + 1][..i] == v[..i];
      i := i + 1;
    }
    assert v[..i] == v;
  }

  /** Every character out of range, and every letter of the case that came second. */
  method CheckCharacters(s: string) returns (errors: seq<nat>)
    ensures errors == [] <==> CharactersOk(s)
  {
    errors := [];
    var lower, upper, i := false, false, 0;
    while i < |s|
      invariant i <= |s|
      invariant errors == [] ==> (forall k :: 0 <= k < i ==> '!' <= s[k] <= '~')
      invariant errors == [] ==> (lower <==> exists k :: 0 <= k < i && 'a' <= s[k] <= 'z')
      invariant errors == [] ==> (upper <==> exists k :: 0 <= k < i && 'A' <= s[k] <= 'Z')
      invariant errors == [] ==> !(lower && upper)
      invariant lower ==> exists k :: 0 <= k < i && 'a' <= s[k] <= 'z'
      invariant upper ==> exists k :: 0 <= k < i && 'A' <= s[k] <= 'Z'
      invariant errors != [] ==> !CharactersOk(s)
    {
      var c := s[i];
      if 'a' <= c <= 'z' {
        if upper { errors := errors + [i]; } else { lower := true; }
      } else if 'A' <= c <= 'Z' {
        if lower { errors := errors + [i]; } else { upper := true; }
      } else if c < '!' || c > '~' {
        errors := errors + [i];
      }
      i := i + 1;
    }
  }

  method DecodeText(s: string) returns (r: Option<Decoded>)
    ensures r == Decode(s)
  {
    hide CharactersOk, RFind, PolyMod, ExpandHRP, SymbolOf, LowerCase, EncodingConstant;
    var errors := CheckCharacters(s);
    if errors != [] { return None; }
    var pos := RFind(s);
    if |s| > 140 || pos == -1 || pos == 0 || pos + 7 > |s| || pos > 83 { return None; }
    var text := s[pos + 1..];
    var values: seq<Symbol>, i := [], 0;
    while i < |text|
      invariant i <= |text| == |s| - 1 - pos && Readable(text[..i]) && values == Symbols(text[..i])
    {
      var rev := SymbolOf(text[i]);
      if rev.None? { return None; }
      values := values + [rev.value];
      i := i + 1;
    }
    assert text[..i] == text;
    var hrp, k := "", 0;
    while k < pos
      invariant 0 <= k <= pos && hrp == Lower(s[..k])
    {
      hrp := hrp + [LowerCase(s[k])];
      k := k + 1;
    }
    var check := ComputePolyMod(ExpandHRP(hrp) + values);
    if check == EncodingConstant(BECH32) {
      return Some(Decoded(BECH32, hrp, values[..|values| - 6]));
    }
    if check == EncodingConstant(BECH32M) {
      return Some(Decoded(BECH32M, hrp, values[..|values| - 6]));
    }
    return None;
  }
}
