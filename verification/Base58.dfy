/** Base58 as an in-place change of base, with a bound on the buffer for every length. */
module Base58 {
  import opened Division
  import opened Radix
  import opened Wrappers

  // ----- the alphabet -----

  /** The digits and letters in order, without 0, I, O and l. */
  function CharOf(d: nat): char
    requires d < 58
  {
    if d < 9 then '1' + d as char
    else if d < 17 then 'A' + (d - 9) as char
    else if d < 22 then 'J' + (d - 17) as char
    else if d < 33 then 'P' + (d - 22) as char
    else if d < 44 then 'a' + (d - 33) as char
    else 'm' + (d - 44) as char
  }

  function ValueOf(c: char): (v: int)
    ensures -1 <= v < 58
  {
    if '1' <= c <= '9' then c as int - '1' as int
    else if 'A' <= c <= 'H' then 9 + c as int - 'A' as int
    else if 'J' <= c <= 'N' then 17 + c as int - 'J' as int
    else if 'P' <= c <= 'Z' then 22 + c as int - 'P' as int
    else if 'a' <= c <= 'k' then 33 + c as int - 'a' as int
    else if 'm' <= c <= 'z' then 44 + c as int - 'm' as int
    else -1
  }

  lemma CharInverse(d: nat)
    requires d < 58
    ensures ValueOf(CharOf(d)) == d && !IsSpace(CharOf(d)) && CharOf(d) != '\0'
    ensures CharOf(d) == '1' <==> d == 0
  {
  }

  lemma ValueInverse(c: char)
    requires ValueOf(c) != -1
    ensures CharOf(ValueOf(c)) == c
  {
  }

  predicate IsSpace(c: char) {
    c == ' ' || c == 12 as char || c == '\n' || c == '\r' || c == '\t' || c == 11 as char
  }

  // ----- the buffers are large enough -----

  lemma Trade(a: nat, x: nat, b: nat, y: nat, m: nat, e: nat)
    requires Pow(a, x) <= Pow(b, y) && Pow(a, m) <= Pow(b, e)
    ensures Pow(a, m + x) <= Pow(b, e + y)
  {
    PowAdd(a, m, x);
    PowAdd(b, e, y);
    Larger(Pow(a, m), Pow(b, e), Pow(a, x), Pow(b, y));
  }

  lemma Larger(a: nat, a': nat, b: nat, b': nat)
    requires a <= a' && b <= b'
    ensures a * b <= a' * b'
  {
    Below(a - 1, a', b);
    Below(b - 1, b', a');
  }

  lemma SmallPowers()
    ensures Pow(256, 1) <= Pow(58, 2) && Pow(256, 2) <= Pow(58, 3)
    ensures Pow(256, 5) <= Pow(58, 7) && Pow(256, 8) <= Pow(58, 11)
    ensures Pow(58, 1) <= Pow(256, 1) && Pow(58, 4) <= Pow(256, 3)
  {
    assert Pow(58, 2) == 3364 && Pow(256, 2) == 65536;
    PowAdd(58, 2, 1);
    PowAdd(58, 2, 2);
    PowAdd(58, 4, 3);
    PowAdd(58, 7, 4);
    PowAdd(256, 2, 1);
    PowAdd(256, 3, 2);
    PowAdd(256, 5, 3);
  }

  lemma LargePowers()
    ensures Pow(58, 15) <= Pow(256, 11) && Pow(58, 71) <= Pow(256, 52)
  {
    assert Pow(58, 2) == 3364 && Pow(256, 2) == 0x10000;
    PowAdd(58, 2, 2);
    PowAdd(58, 4, 4);
    PowAdd(58, 8, 4);
    PowAdd(58, 12, 2);
    PowAdd(58, 14, 1);
    PowAdd(256, 2, 2);
    PowAdd(256, 4, 4);
    PowAdd(256, 8, 2);
    PowAdd(256, 10, 1);
    assert Pow(58, 15) == 282761256881297307761016832;
    PowAdd(58, 15, 15);
    PowAdd(58, 30, 30);
    PowAdd(58, 60, 8);
    PowAdd(58, 68, 2);
    PowAdd(58, 70, 1);
    PowAdd(256, 8, 8);
    PowAdd(256, 16, 10);
    PowAdd(256, 26, 26);
  }

  /** How many base-58 digits n bytes may take, composed of a few exact comparisons. */
  function DigitsFor(n: nat): nat {
    if n >= 8 then 11 + DigitsFor(n - 8) else if n >= 5 then 7 + DigitsFor(n - 5)
    else if n >= 2 then 3 + DigitsFor(n - 2) else 2 * n
  }

  lemma {:induction false} EncodeFits(n: nat)
    ensures Pow(256, n) <= Pow(58, DigitsFor(n)) && DigitsFor(n) <= n * 138 / 100 + 1
  {
    hide Pow;
    SmallPowers();
    PowZero();
    if n >= 8 {
      EncodeFits(n - 8);
      Trade(256, 8, 58, 11, n - 8, DigitsFor(n - 8));
    } else if n >= 5 {
      EncodeFits(n - 5);
      Trade(256, 5, 58, 7, n - 5, DigitsFor(n - 5));
    } else if n >= 2 {
      EncodeFits(n - 2);
      Trade(256, 2, 58, 3, n - 2, DigitsFor(n - 2));
    }
  }

  lemma PowZero()
    ensures Pow(58, 0) == Pow(256, 0) == 1
  {
  }

  /** How many bytes n base-58 digits may take. */
  function BytesFor(n: nat): nat {
    if n >= 71 then 52 + BytesFor(n - 71) else if n >= 15 then 11 + BytesFor(n - 15)
    else if n >= 4 then 3 + BytesFor(n - 4) else n
  }

  lemma {:induction false} DecodeFits(n: nat)
    ensures Pow(58, n) <= Pow(256, BytesFor(n))
  {
    hide Pow;
    SmallPowers();
    LargePowers();
    PowZero();
    if n >= 71 {
      DecodeFits(n - 71);
      Trade(58, 71, 256, 52, n - 71, BytesFor(n - 71));
    } else if n >= 15 {
      DecodeFits(n - 15);
      Trade(58, 15, 256, 11, n - 15, BytesFor(n - 15));
    } else if n >= 4 {
      DecodeFits(n - 4);
      Trade(58, 4, 256, 3, n - 4, BytesFor(n - 4));
    } else if n > 0 {
      DecodeFits(n - 1);
      Trade(58, 1, 256, 1, n - 1, n - 1);
    }
  }

  lemma {:induction false} BytesBound(n: nat)
    ensures BytesFor(n) <= n * 733 / 1000 + 1
  {
    if n >= 71 {
      BytesBound(n - 71);
    } else {
      FewBytes(n);
    }
  }

  lemma FewBytes(n: nat)
    requires n < 71
    ensures BytesFor(n) <= n * 733 / 1000 + 1
  {
    var q, t := n / 15, n % 15;
    Fifteens(q, t);
    Fours(t / 4, t % 4);
  }

  lemma {:induction false} Fifteens(q: nat, t: nat)
    requires t < 15 && 15 * q + t < 71
    ensures BytesFor(15 * q + t) == 11 * q + BytesFor(t)
  {
    if q > 0 { Fifteens(q - 1, t); }
  }

  lemma {:induction false} Fours(q: nat, t: nat)
    requires t < 4 && 4 * q + t < 15
    ensures BytesFor(4 * q + t) == 3 * q + t
  {
    if q > 0 { Fours(q - 1, t); }
  }

  // ----- what encoding and decoding mean -----

  function Ones(n: nat): string { seq(n, _ => '1') }

  function LeadingZeros(s: seq<nat>): (n: nat)
    ensures n <= |s| && s[..n] == Zeros(n) && NoLeadingZero(s[n..])
  {
    if s == [] || s[0] != 0 then 0 else 1 + LeadingZeros(s[1..])
  }

  function Chars(ds: seq<nat>): (s: string)
    requires AllBelow(58, ds)
    ensures |s| == |ds|
  {
    seq(|ds|, i requires 0 <= i < |ds| => CharOf(ds[i]))
  }

  predicate Readable(s: string) { forall i :: 0 <= i < |s| ==> ValueOf(s[i]) != -1 }

  function Values(s: string): (ds: seq<nat>)
    requires Readable(s)
    ensures |ds| == |s| && AllBelow(58, ds)
  {
    seq(|s|, i requires 0 <= i < |s| => ValueOf(s[i]))
  }

  /** A one for every leading zero, then the shortest base-58 digits. */
  ghost function Encode(bytes: seq<nat>): string {
    DigitsValue(58, Num(256, bytes));
    Ones(LeadingZeros(bytes)) + Chars(Digits(58, Num(256, bytes)))
  }

  function SkipSpaces(s: string): (t: string)
    ensures t == [] || !IsSpace(t[0])
  {
    if s == [] || !IsSpace(s[0]) then s else SkipSpaces(s[1..])
  }

  /** The part before the first space. */
  function Word(s: string): (w: string)
    ensures |w| <= |s| && w == s[..|w|] && (forall i :: 0 <= i < |w| ==> !IsSpace(w[i]))
    ensures |w| < |s| ==> IsSpace(s[|w|])
  {
    if s == [] || IsSpace(s[0]) then [] else [s[0]] + Word(s[1..])
  }

  predicate Blank(s: string) { SkipSpaces(s) == [] }

  /** Spaces around one word of the alphabet; its leading ones become zeros. */
  ghost function Decode(s: string): Option<seq<nat>> {
    var t := SkipSpaces(s);
    var w := Word(t);
    if '\0' in s || !Readable(w) || !Blank(t[|w|..]) then None
    else Some(Zeros(LeadingZeros(Values(w))) + Digits(256, Num(58, Values(w))))
  }

  // ----- inverse in both directions -----

  lemma {:induction false} LeadingExact(n: nat, s: seq<nat>)
    requires NoLeadingZero(s)
    ensures LeadingZeros(Zeros(n) + s) == n
  {
    if n == 0 {
      assert Zeros(n) + s == s;
    } else {
      assert (Zeros(n) + s)[1..] == Zeros(n - 1) + s;
      LeadingExact(n - 1, s);
    }
  }

  /** A number keeps its value without its leading zeros, and its digits are the rest. */
  lemma WithoutZeros(b: nat, s: seq<nat>)
    requires b > 1 && AllBelow(b, s)
    ensures Zeros(LeadingZeros(s)) + Digits(b, Num(b, s)) == s
  {
    hide Num, Digits;
    var z := LeadingZeros(s);
    assert s == Zeros(z) + s[z..];
    NumZeros(b, z, s[z..]);
    Canonical(b, s[z..]);
  }

  lemma {:induction false} NotSpaced(w: string)
    requires forall i :: 0 <= i < |w| ==> !IsSpace(w[i])
    ensures SkipSpaces(w) == w && Word(w) == w && Blank(w[|w|..])
  {
    if w != [] {
      NotSpaced(w[1..]);
      assert w == [w[0]] + w[1..];
    }
  }

  lemma CharsRead(ds: seq<nat>)
    requires AllBelow(58, ds)
    ensures Readable(Chars(ds)) && Values(Chars(ds)) == ds && '\0' !in Chars(ds)
    ensures forall i :: 0 <= i < |ds| ==> !IsSpace(Chars(ds)[i])
  {
    forall i | 0 <= i < |ds|
      ensures ValueOf(Chars(ds)[i]) == ds[i] && !IsSpace(Chars(ds)[i]) && Chars(ds)[i] != '\0'
    {
      CharInverse(ds[i]);
    }
  }

  lemma ReadChars(w: string)
    requires Readable(w)
    ensures Chars(Values(w)) == w
  {
    forall i | 0 <= i < |w| ensures Chars(Values(w))[i] == w[i] { ValueInverse(w[i]); }
  }

  lemma OnesAreZeros(n: nat, ds: seq<nat>)
    requires AllBelow(58, ds)
    ensures Ones(n) + Chars(ds) == Chars(Zeros(n) + ds)
  {
    var all := Zeros(n) + ds;
    forall i | 0 <= i < |all| ensures (Ones(n) + Chars(ds))[i] == Chars(all)[i] {
      if i >= n { assert all[i] == ds[i - n]; }
    }
  }

  /** Every byte string comes back. */
  lemma DecodeOfEncode(bytes: seq<nat>)
    requires AllBelow(256, bytes)
    ensures Decode(Encode(bytes)) == Some(bytes)
  {
    hide Num, Digits, Chars, Values, LeadingZeros, SkipSpaces, Word, Zeros;
    var v, z := Num(256, bytes), LeadingZeros(bytes);
    var ds := Digits(58, v);
    DigitsValue(58, v);
    OnesAreZeros(z, ds);
    ZerosBelow(58, z, ds);
    var all, s := Zeros(z) + ds, Encode(bytes);
    CharsRead(all);
    NotSpaced(s);
    LeadingExact(z, ds);
    NumZeros(58, z, ds);
    WithoutZeros(256, bytes);
  }

  lemma ZerosBelow(b: nat, n: nat, s: seq<nat>)
    requires b > 0 && AllBelow(b, s)
    ensures AllBelow(b, Zeros(n) + s)
  {
  }

  /** Whatever decodes is, without the spaces around it, what its bytes encode to. */
  lemma EncodeOfDecode(s: string)
    requires Decode(s).Some?
    ensures AllBelow(256, Decode(s).value) && Encode(Decode(s).value) == Word(SkipSpaces(s))
  {
    hide Num, Digits, Chars, Values, LeadingZeros, SkipSpaces, Word, Zeros;
    var w := Word(SkipSpaces(s));
    var ds := Values(w);
    var v, z := Num(58, ds), LeadingZeros(ds);
    var bytes := Zeros(z) + Digits(256, v);
    DigitsValue(256, v);
    ZerosBelow(256, z, Digits(256, v));
    LeadingExact(z, Digits(256, v));
    NumZeros(256, z, Digits(256, v));
    WithoutZeros(58, ds);
    DigitsValue(58, v);
    OnesAreZeros(z, Digits(58, v));
    ReadChars(w);
  }

  /** Text without spaces and bytes correspond one to one. */
  lemma OneToOne(s: string, bytes: seq<nat>)
    requires AllBelow(256, bytes) && forall i :: 0 <= i < |s| ==> !IsSpace(s[i])
    ensures Decode(s) == Some(bytes) <==> s == Encode(bytes)
  {
    hide Decode, Encode;
    DecodeOfEncode(bytes);
    NotSpaced(s);
    if Decode(s).Some? { EncodeOfDecode(s); }
  }

  // ----- the loops -----

  /** One more digit of a number in the source base. */
  lemma NextDigit(a: nat, b: nat, s: seq<nat>, k: nat, size: nat, need: nat)
    requires a > 0 && b > 0 && k < |s| && AllBelow(a, s) && Pow(a, |s|) <= Pow(b, need) && need <= size
    ensures Num(a, s[..k + 1]) == a * Num(a, s[..k]) + s[k] < Pow(b, size)
  {
    assert s[..k + 1][..k] == s[..k];
    NumBound(a, s[..k + 1]);
    PowMore(a, k + 1, |s|);
    PowMore(b, need, size);
  }

  method EncodeBase58(input: seq<nat>) returns (str: string)
    requires AllBelow(256, input)
    ensures str == Encode(input)
  {
    hide Num, Digits, Holds, Pow, DigitsFor, LeadingZeros;
    var zeroes := CountZeros(input);
    var rest := input[zeroes..];
    var size := |rest| * 138 / 100 + 1;
    var b58 := new nat[size](_ => 0);
    var length, k := 0, 0;
    EncodeFits(|rest|);
    BeginDigits(58, b58[..], 256, rest);
    while k < |rest|
      invariant k <= |rest| && b58.Length == size && Holds(58, b58[..], Num(256, rest[..k]), length)
    {
      NextDigit(256, 58, rest, k, size, DigitsFor(|rest|));
      length := MultiplyAdd(b58, 58, 256, rest[k], length, Num(256, rest[..k]));
      k := k + 1;
    }
    assert rest[..k] == rest;
    ghost var v := Num(256, input);
    NumZeros(256, zeroes, rest);
    assert input == Zeros(zeroes) + rest;
    TailDigits(58, b58[..], v, length);
    var it := SkipZeros(b58, size - length, v);
    DigitsValue(58, v);
    str := Letters(zeroes, b58, it);
  }

  /** Leading zeros do not change the value; without them the digits are the shortest ones. */
  method SkipZeros(buf: array<nat>, from: nat, ghost v: nat) returns (it: nat)
    requires from <= buf.Length && AllBelow(58, buf[from..]) && Num(58, buf[from..]) == v
    ensures it <= buf.Length && buf[it..] == Digits(58, v)
  {
    hide Num, Digits;
    it := from;
    while it < buf.Length && buf[it] == 0
      invariant from <= it <= buf.Length && Num(58, buf[it..]) == v && AllBelow(58, buf[it..])
    {
      assert buf[it..] == [0] + buf[it + 1..];
      NumFront(58, 0, buf[it + 1..]);
      assert buf[it + 1..] == buf[it..][1..];
      it := it + 1;
    }
    assert it < buf.Length ==> buf[it..][0] == buf[it];
    Canonical(58, buf[it..]);
  }

  method Letters(zeroes: nat, buf: array<nat>, from: nat) returns (str: string)
    requires from <= buf.Length && AllBelow(58, buf[from..])
    ensures str == Ones(zeroes) + Chars(buf[from..])
  {
    ghost var ds := buf[from..];
    str := Ones(zeroes);
    var it := from;
    while it < buf.Length
      invariant from <= it <= buf.Length && str == Ones(zeroes) + Chars(ds[..it - from])
    {
      assert buf[it] == ds[it - from];
      MoreChars(ds, it - from);
      str := str + [CharOf(buf[it])];
      it := it + 1;
    }
    assert ds[..it - from] == ds;
  }

  lemma BeginDigits(b: nat, s: seq<nat>, a: nat, rest: seq<nat>)
    requires b > 1 && forall i :: 0 <= i < |s| ==> s[i] == 0
    ensures Holds(b, s, Num(a, rest[..0]), 0)
  {
    assert s == Zeros(|s|);
    HoldsZero(b, |s|);
  }

  lemma TailDigits(b: nat, s: seq<nat>, v: nat, length: nat)
    requires b > 1 && Holds(b, s, v, length)
    ensures length <= |s| && s[|s| - length..] == Digits(b, v)
    ensures AllBelow(b, s[|s| - length..]) && Num(b, s[|s| - length..]) == v
  {
    DigitsValue(b, v);
  }

  lemma MoreChars(ds: seq<nat>, n: nat)
    requires AllBelow(58, ds) && n < |ds|
    ensures Chars(ds[..n + 1]) == Chars(ds[..n]) + [CharOf(ds[n])]
  {
  }

  method CountZeros(s: seq<nat>) returns (n: nat)
    ensures n == LeadingZeros(s)
  {
    n := 0;
    while n < |s| && s[n] == 0
      invariant n <= |s| && LeadingZeros(s) == n + LeadingZeros(s[n..])
    {
      assert s[n..][1..] == s[n + 1..];
      n := n + 1;
    }
  }

  // ----- decoding under a limit -----

  /** What a limit on the length lets through. */
  ghost function Limited(r: Option<seq<nat>>, max: int): Option<seq<nat>> {
    if r.Some? && r.value != [] && |r.value| > max then None else r
  }

  /** Only text without a word decodes to nothing. */
  lemma NothingIffBlank(s: string)
    ensures Decode(s) == Some([]) <==> Blank(s)
  {
    hide Num, Digits;
    var t := SkipSpaces(s);
    EmptyDigits();
    if Blank(s) {
      BlankText(s);
      assert Word(t) == [] && Values(Word(t)) == [] && t[|Word(t)|..] == [];
      assert LeadingZeros([]) == 0;
    } else if Decode(s) == Some([]) {
      var ds := Values(Word(t));
      assert Word(t) != [];
      hide SkipSpaces, Word;
      assert LeadingZeros(ds) == 0 && ds[0..] == ds;
      Canonical(58, ds);
      DigitsValue(256, Num(58, ds));
    }
  }

  lemma EmptyDigits()
    ensures Digits(256, Num(58, [])) == [] && Num(256, []) == 0
  {
  }

  lemma {:induction false} BlankText(s: string)
    requires Blank(s)
    ensures '\0' !in s
  {
    if s != [] {
      BlankText(s[1..]);
      assert s == [s[0]] + s[1..];
    }
  }

  /** A limit admits exactly the results within it, if and only if it is not negative or the text
      is not blank. */
  lemma LimitIff(s: string, max: int)
    ensures (Limited(Decode(s), max).Some? <==> Decode(s).Some? && |Decode(s).value| <= max)
       <==> max >= 0 || !Blank(s)
  {
    NothingIffBlank(s);
    hide Decode, Blank;
  }

  /** A blank text decodes to nothing, which even a negative limit lets through. */
  lemma NothingPasses()
    ensures Limited(Decode(""), -1) == Some([])
  {
    assert SkipSpaces("") == "" && Word("") == "";
  }

  lemma {:induction false} PrefixNum(b: nat, s: seq<nat>, k: nat)
    requires b > 0 && k <= |s|
    ensures Num(b, s[..k]) <= Num(b, s)
  {
    if k == |s| {
      assert s[..k] == s;
    } else {
      var init := s[..|s| - 1];
      PrefixNum(b, init, k);
      assert init[..k] == s[..k];
      Below(0, b, Num(b, init));
    }
  }

  lemma {:induction false} MoreDigits(b: nat, v: nat, v': nat)
    requires b > 1 && v <= v'
    ensures |Digits(b, v)| <= |Digits(b, v')|
    decreases v'
  {
    if v != 0 {
      var q, r := Divide(v, b);
      var q', r' := Divide(v', b);
      Smaller(v', b);
      if q > q' { Below(q', q, b); }
      MoreDigits(b, q, q');
    }
  }

  /** The ones in front are counted exactly. */
  ghost predicate OnesEnd(w: string, zeroes: nat) {
    && zeroes <= |w| && (forall i :: 0 <= i < zeroes ==> w[i] == '1')
    && (zeroes < |w| ==> w[zeroes] != '1')
  }

  lemma ZerosCounted(w: string, zeroes: nat)
    requires OnesEnd(w, zeroes) && Readable(w)
    ensures LeadingZeros(Values(w)) == zeroes && Values(w)[..zeroes] == Zeros(zeroes)
    ensures zeroes < |w| ==> Values(w)[zeroes] != 0
  {
    var ds := Values(w);
    assert ds == Zeros(zeroes) + ds[zeroes..];
    if zeroes < |w| { ValueInverse(w[zeroes]); }
    LeadingExact(zeroes, ds[zeroes..]);
  }

  /** With ones to spare there is no result within the limit. */
  lemma TooManyOnes(s: string, n: nat, max: int)
    requires var w := Word(SkipSpaces(s)); 0 < n <= |w| && forall i :: 0 <= i < n ==> w[i] == '1'
    requires n > max
    ensures Limited(Decode(s), max) == None
  {
    if Decode(s).Some? {
      hide Word, SkipSpaces, LeadingZeros, Num, Digits;
      LeadingAtLeast(Values(Word(SkipSpaces(s))), n);
    }
  }

  lemma {:induction false} LeadingAtLeast(s: seq<nat>, n: nat)
    requires n <= |s| && forall i :: 0 <= i < n ==> s[i] == 0
    ensures LeadingZeros(s) >= n
  {
    if n > 0 { LeadingAtLeast(s[1..], n - 1); }
  }

  /** What the digits read so far need, the whole word needs. */
  lemma TooLong(s: string, w: string, n: nat, zeroes: nat, max: int)
    requires w == Word(SkipSpaces(s)) && OnesEnd(w, zeroes) && zeroes < n <= |w| && Readable(w[..n])
    requires zeroes + |Digits(256, Num(58, Values(w[..n])))| > max
    ensures Limited(Decode(s), max) == None
  {
    hide Word, SkipSpaces, LeadingZeros, Num, Digits;
    if Decode(s).Some? {
      var ds := Values(w);
      assert Values(w[..n]) == ds[..n];
      ZerosCounted(w, zeroes);
      PrefixNum(58, ds, n);
      MoreDigits(256, Num(58, ds[..n]), Num(58, ds));
      Positive(ds, zeroes, n);
    }
  }

  lemma Positive(ds: seq<nat>, zeroes: nat, n: nat)
    requires zeroes < n <= |ds| && ds[zeroes] != 0
    ensures Digits(256, Num(58, ds[..n])) != []
  {
    var k := zeroes + 1;
    assert ds[..n][..k] == ds[..k];
    PrefixNum(58, ds[..n], k);
    assert Num(58, ds[..k]) >= ds[zeroes];
  }

  method SkipFrom(s: string, p: nat) returns (q: nat)
    requires p <= |s|
    ensures p <= q <= |s| && s[q..] == SkipSpaces(s[p..])
  {
    q := p;
    while q < |s| && IsSpace(s[q])
      invariant p <= q <= |s| && SkipSpaces(s[p..]) == SkipSpaces(s[q..])
    {
      assert s[q..][1..] == s[q + 1..];
      q := q + 1;
    }
  }

  lemma WordGoesOn(t: string, n: nat)
    requires n < |t| && n <= |Word(t)|
    ensures IsSpace(t[n]) ==> n == |Word(t)| || IsSpace(Word(t)[n])
    ensures !IsSpace(t[n]) ==> n < |Word(t)| && Word(t)[n] == t[n]
  {
    hide Word;
    var w := Word(t);
    assert n < |w| ==> w[n] == t[..|w|][n];
  }

  /** The ones in front take no room, so the characters that are left decide. */
  lemma DecodeBuffer(w: string, n: nat, zeroes: nat, left: nat, size: nat, v: nat, d: nat)
    requires OnesEnd(w, zeroes) && zeroes <= n < |w| && n + 1 - zeroes <= left && size == left * 733 / 1000 + 1
    requires Readable(w[..n + 1])
    requires v == Num(58, Values(w[..n])) && d == ValueOf(w[n])
    ensures Num(58, Values(w[..n + 1])) == 58 * v + d < Pow(256, size)
  {
    hide Num, Pow;
    var ds := Values(w[..n + 1]);
    var tail := ds[zeroes..];
    var k := n - zeroes;
    DecodeFits(left);
    BytesBound(left);
    PowMore(58, k + 1, left);
    NextDigit(58, 256, tail, k, size, BytesFor(left));
    assert tail[..k + 1] == tail;
    assert ds == Zeros(zeroes) + tail && Values(w[..n]) == Zeros(zeroes) + tail[..k];
    NumZeros(58, zeroes, tail);
    NumZeros(58, zeroes, tail[..k]);
  }

  method DecodeBase58(s: string, max: int) returns (r: Option<seq<nat>>)
    ensures r == Limited(Decode(s), max)
  {
    hide Num, Digits, LeadingZeros, SkipSpaces, Word, Holds, Pow, Limited;
    if '\0' in s {
      NoResult(s, max);
      return None;
    }
    var from := SkipFrom(s, 0);
    assert s[0..] == s;
    ghost var t := s[from..];
    ghost var w := Word(t);
    var pos, zeroes := from, 0;
    while pos < |s| && s[pos] == '1'
      invariant from <= pos <= |s| && zeroes == pos - from && zeroes <= |w|
      invariant (forall i :: 0 <= i < zeroes ==> w[i] == '1') && (zeroes <= max || zeroes == 0)
    {
      WordGoesOn(t, zeroes);
      zeroes := zeroes + 1;
      if zeroes > max {
        TooManyOnes(s, zeroes, max);
        return None;
      }
      pos := pos + 1;
    }
    assert zeroes < |w| ==> w[zeroes] == t[..|w|][zeroes] == s[pos];
    r := DecodeWord(s, from, zeroes, max);
  }

  lemma NoResult(s: string, max: int)
    requires Decode(s).None?
    ensures Limited(Decode(s), max) == None
  {
  }

  /** The characters after the ones. */
  method DecodeWord(s: string, from: nat, zeroes: nat, max: int) returns (r: Option<seq<nat>>)
    requires '\0' !in s && from + zeroes <= |s| && s[from..] == SkipSpaces(s) && OnesEnd(Word(s[from..]), zeroes)
    requires zeroes <= max || zeroes == 0
    ensures r == Limited(Decode(s), max)
  {
    hide Num, Digits, LeadingZeros, SkipSpaces, Word, Holds, Pow, Limited, OnesEnd, Readable, Values, ValueOf, IsSpace, Zeros;
    ghost var t := s[from..];
    ghost var w := Word(t);
    var pos := from + zeroes;
    var left := |s| - pos;
    var size := left * 733 / 1000 + 1;
    var b256 := new nat[size](_ => 0);
    var length := 0;
    ghost var n := zeroes;
    OnlyOnes(w, zeroes, b256[..]);
    while pos < |s| && !IsSpace(s[pos])
      invariant from + zeroes <= pos <= |s| && n == pos - from && zeroes <= n <= |w| && Readable(w[..n])
      invariant Holds(256, b256[..], Num(58, Values(w[..n])), length)
      invariant if n > zeroes then length + zeroes <= max else length == 0
    {
      WordGoesOn(t, n);
      var carry := ValueOf(s[pos]);
      if carry == -1 {
        BadCharacter(s, w, n, max);
        return None;
      }
      ReadOne(w, n);
      ghost var v := Num(58, Values(w[..n]));
      DecodeBuffer(w, n, zeroes, left, size, v, carry);
      length := MultiplyAdd(b256, 256, 58, carry, length, v);
      pos, n := pos + 1, n + 1;
      if length + zeroes > max {
        HoldsLength(256, b256[..], Num(58, Values(w[..n])), length);
        TooLong(s, w, n, zeroes, max);
        return None;
      }
    }
    if n < |t| { WordGoesOn(t, n); }
    assert n == |w| && w[..n] == w;
    var end := SkipFrom(s, pos);
    assert s[pos..] == t[|w|..];
    if end != |s| {
      NoResult(s, max);
      return None;
    }
    TailDigits(256, b256[..], Num(58, Values(w)), length);
    r := Some(Zeros(zeroes) + b256[..][size - length..]);
    ZerosCounted(w, zeroes);
    Passes(s, r.value, max);
  }

  lemma BadCharacter(s: string, w: string, n: nat, max: int)
    requires w == Word(SkipSpaces(s)) && n < |w| && ValueOf(w[n]) == -1
    ensures Limited(Decode(s), max) == None
  {
  }

  lemma ReadOne(w: string, n: nat)
    requires n < |w| && Readable(w[..n]) && ValueOf(w[n]) != -1
    ensures Readable(w[..n + 1])
  {
    assert forall i :: 0 <= i < n + 1 ==> w[..n + 1][i] == if i < n then w[..n][i] else w[n];
  }

  lemma Passes(s: string, x: seq<nat>, max: int)
    requires Decode(s) == Some(x) && (|x| <= max || x == [])
    ensures Limited(Decode(s), max) == Some(x)
  {
  }

  lemma OnlyOnes(w: string, zeroes: nat, buf: seq<nat>)
    requires OnesEnd(w, zeroes) && forall i :: 0 <= i < |buf| ==> buf[i] == 0
    ensures zeroes <= |w| && Readable(w[..zeroes]) && Holds(256, buf, Num(58, Values(w[..zeroes])), 0)
  {
    var ds := Values(w[..zeroes]);
    assert ds == Zeros(zeroes) + [];
    NumZeros(58, zeroes, []);
    assert buf == Zeros(|buf|);
    HoldsZero(256, |buf|);
  }

  // ----- with a checksum -----

  /** Four bytes of a hash, of which nothing else is known. */
  ghost predicate IsChecksum(hash: seq<nat> -> seq<nat>) {
    forall x {:trigger hash(x)} :: |hash(x)| == 4 && AllBelow(256, hash(x))
  }

  ghost function EncodeCheck(hash: seq<nat> -> seq<nat>, bytes: seq<nat>): string { Encode(bytes + hash(bytes)) }

  method EncodeBase58Check(hash: seq<nat> -> seq<nat>, input: seq<nat>) returns (str: string)
    requires AllBelow(256, input) && AllBelow(256, hash(input))
    ensures str == EncodeCheck(hash, input)
  {
    str := EncodeBase58(input + hash(input));
  }

  ghost function Unchecked(hash: seq<nat> -> seq<nat>, r: Option<seq<nat>>): Option<seq<nat>> {
    if r.None? || |r.value| < 4 then None
    else
      var n := |r.value| - 4;
      if r.value[n..] == hash(r.value[..n]) then Some(r.value[..n]) else None
  }

  method DecodeBase58Check(hash: seq<nat> -> seq<nat>, s: string, max: int) returns (r: Option<seq<nat>>)
    ensures r == Unchecked(hash, Limited(Decode(s), max + 4))
  {
    hide Decode, Limited;
    var v := DecodeBase58(s, max + 4);
    if v.None? || |v.value| < 4 { return None; }
    var n := |v.value| - 4;
    if v.value[n..] != hash(v.value[..n]) { return None; }
    return Some(v.value[..n]);
  }

  /** A text without spaces is accepted with some bytes exactly if it is their encoding and they
      keep within the limit. */
  lemma CheckedOneToOne(hash: seq<nat> -> seq<nat>, s: string, bytes: seq<nat>, max: int)
    requires IsChecksum(hash) && AllBelow(256, bytes) && forall i :: 0 <= i < |s| ==> !IsSpace(s[i])
    ensures Unchecked(hash, Limited(Decode(s), max + 4)) == Some(bytes) <==>
      s == EncodeCheck(hash, bytes) && |bytes| <= max
  {
    hide Decode, Encode;
    var all := bytes + hash(bytes);
    OneToOne(s, all);
    assert all[..|all| - 4] == bytes && all[|all| - 4..] == hash(bytes);
    if Unchecked(hash, Limited(Decode(s), max + 4)) == Some(bytes) {
      assert Decode(s).value == bytes + hash(bytes);
    }
  }
}
