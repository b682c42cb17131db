/** Bit strings, most significant bit first, and bytes as bit strings of length eight. */
module Bits {
  type Bits = seq<bool>
  type Byte = s: Bits | |s| == 8 witness [false, false, false, false, false, false, false, false]

  const ZERO: Byte := [false, false, false, false, false, false, false, false]
  const ONE: Byte := [false, false, false, false, false, false, false, true]

  /** The bitwise exclusive or of two strings of the same length. */
  function Xor(a: Bits, b: Bits): (r: Bits)
    requires |a| == |b|
    ensures |r| == |a|
    ensures forall i :: 0 <= i < |a| ==> r[i] == (a[i] != b[i])
  {
    seq(|a|, i requires 0 <= i < |a| => a[i] != b[i])
  }

  /** The number a bit string denotes. */
  function Value(s: Bits): nat {
    if s == [] then 0 else 2 * Value(s[..|s| - 1]) + (if s[|s| - 1] then 1 else 0)
  }

  function Pow(n: nat): (p: nat)
    ensures p >= 1
  {
    if n == 0 then 1 else 2 * Pow(n - 1)
  }

  /** The n low bits of value, as `value & (1 << i) != 0` for i from n - 1 down to 0 lists them. */
  function LowBits(value: nat, n: nat): (r: Bits)
    ensures |r| == n
  {
    if n == 0 then [] else LowBits(value / 2, n - 1) + [value % 2 == 1]
  }

  lemma {:induction false} LowBitsAt(value: nat, n: nat, k: nat)
    requires k < n
    ensures LowBits(value, n)[k] <==> (value / Pow(n - 1 - k)) % 2 == 1
  {
    if k < n - 1 {
      LowBitsAt(value / 2, n - 1, k);
      assert LowBits(value, n)[k] == LowBits(value / 2, n - 1)[k];
      DivDiv(value, Pow(n - 2 - k));
    }
  }

  lemma DivDiv(a: nat, p: nat)
    requires p >= 1
    ensures (a / 2) / p == a / (2 * p)
  {
    var q, r := a / (2 * p), a % (2 * p);
    assert a == 2 * (q * p) + r;
    var h := a / 2;
    assert h == q * p + r / 2 && r / 2 < p;
    Quotient(h, p, q, r / 2);
  }

  lemma Quotient(a: int, d: int, q: int, r: int)
    requires d > 0 && 0 <= r < d && a == q * d + r
    ensures a / d == q
  {
    var k := a / d - q;
    assert k * d == (a / d) * d - q * d;
    assert k >= 1 ==> k * d >= d;
    assert k <= -1 ==> k * d <= -d;
  }

  lemma {:induction false} ValueBound(s: Bits)
    ensures Value(s) < Pow(|s|)
  {
    if s != [] { ValueBound(s[..|s| - 1]); }
  }

  lemma {:induction false} ValueOfLowBits(value: nat, n: nat)
    requires value < Pow(n)
    ensures Value(LowBits(value, n)) == value
  {
    if n > 0 {
      ValueOfLowBits(value / 2, n - 1);
      var s := LowBits(value, n);
      assert s[..n - 1] == LowBits(value / 2, n - 1);
    }
  }

  lemma {:induction false} LowBitsOfValue(s: Bits)
    ensures LowBits(Value(s), |s|) == s
  {
    if s != [] {
      LowBitsOfValue(s[..|s| - 1]);
      assert Value(s) / 2 == Value(s[..|s| - 1]);
    }
  }
  lemma ValueInjective(a: Bits, b: Bits)
    requires |a| == |b| && Value(a) == Value(b)
    ensures a == b
  {
    LowBitsOfValue(a); LowBitsOfValue(b);
  }
  
  lemma XorSwap(a: Bits, b: Bits, c: Bits, d: Bits)
    requires |a| == |b| == |c| == |d|
    ensures Xor(Xor(a, b), Xor(c, d)) == Xor(Xor(a, c), Xor(b, d))
  {}
  lemma XorZero(a: Byte)
    ensures Xor(a, ZERO) == a && Xor(ZERO, a) == a
    ensures Xor(a, a) == ZERO
  {}
  lemma XorComm(a: Bits, b: Bits)
    requires |a| == |b|
    ensures Xor(a, b) == Xor(b, a)
  {}

  lemma PowOf8()
    ensures Pow(8) == 256
  {
    assert Pow(4) == 16;
  }

  lemma {:induction false} LowBitsZero(n: nat)
    ensures LowBits(0, n) == seq(n, i => false)
  {
    if n > 0 { LowBitsZero(n - 1); }
  }

  /** The byte that holds a number, as Go's byte(n) conversion keeps its low eight bits. */
  function ByteOf(n: nat): Byte { LowBits(n, 8) }

  lemma ValueOfByte(n: nat)
    requires n < 256
    ensures Value(ByteOf(n)) == n
  {
    PowOf8();
    ValueOfLowBits(n, 8);
  }

  lemma {:induction false} PowSum(m: nat, n: nat)
    ensures Pow(m + n) == Pow(m) * Pow(n)
  {
    if n > 0 { PowSum(m, n - 1); }
  }

  lemma {:induction false} ValueConcat(a: Bits, b: Bits)
    ensures Value(a + b) == Value(a) * Pow(|b|) + Value(b)
  {
    if b == [] {
      assert a + b == a;
    } else {
      var n := |b| - 1;
      hide Value;
      assert a + b == a + b[..n] + [b[n]] && b == b[..n] + [b[n]];
      ValueConcat(a, b[..n]);
      ValueSnoc(a + b[..n], b[n]);
      ValueSnoc(b[..n], b[n]);
      Doubled(Value(a), Pow(n));
    }
  }

  lemma Doubled(x: nat, p: nat)
    ensures x * (2 * p) == 2 * (x * p)
  {}

  function Unit(b: bool): nat { if b then 1 else 0 }

  /** The number that up to six bits denote, written out. */
  function Small(s: Bits): nat
    requires |s| == 6
  {
    32 * Unit(s[0]) + 16 * Unit(s[1]) + 8 * Unit(s[2]) + 4 * Unit(s[3]) + 2 * Unit(s[4]) + Unit(s[5])
  }

  lemma ValueOf6(s: Bits)
    requires |s| == 6
    ensures Value(s) == Small(s)
  {
    hide Value;
    assert s == [s[0], s[1], s[2], s[3], s[4]] + [s[5]];
    ValueOf4(s[0], s[1], s[2], s[3]);
    ValueSnoc([s[0], s[1], s[2], s[3]], s[4]);
    assert [s[0], s[1], s[2], s[3]] + [s[4]] == [s[0], s[1], s[2], s[3], s[4]];
    ValueSnoc([s[0], s[1], s[2], s[3], s[4]], s[5]);
  }

  lemma ValueOf4(a: bool, b: bool, c: bool, d: bool)
    ensures Value([a, b, c, d]) == 8 * Unit(a) + 4 * Unit(b) + 2 * Unit(c) + Unit(d)
  {
    hide Value;
    ValueSnoc([], a);
    ValueSnoc([a], b);
    ValueSnoc([a, b], c);
    ValueSnoc([a, b, c], d);
    assert [] + [a] == [a] && [a] + [b] == [a, b] && [a, b] + [c] == [a, b, c] && [a, b, c] + [d] == [a, b, c, d];
  }

  lemma ValueSnoc(s: Bits, b: bool)
    ensures Value(s + [b]) == 2 * Value(s) + Unit(b) && Value([]) == 0
  {
    assert (s + [b])[..|s|] == s;
  }
}
