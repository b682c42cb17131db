module Gf256 {
  import opened Bits

  // x^8 + x^4 + x^3 + x^2 + 1, nine bits.
  const POLYNOMIAL: Bits := [true, false, false, false, true, true, true, false, true]

  /** Multiplication by x modulo POLYNOMIAL: shift left, and reduce when the ninth bit appears. */
  function Xtime(a: Byte): Byte {
    var wide := a + [false];
    var reduced := if wide[0] then Xor(wide, POLYNOMIAL) else wide;
    reduced[1..]
  }

  function XtimeN(a: Byte, n: nat): Byte {
    if n == 0 then a else Xtime(XtimeN(a, n - 1))
  }

  function If(c: bool, a: Byte): Byte { if c then a else ZERO }

  /** The sum over i < k of b_i * x^i * a, where b_i is the coefficient of x^i in b. */
  function PartialProduct(a: Byte, b: Byte, k: nat): Byte
    requires k <= 8
  {
    if k == 0 then ZERO
    else Xor(PartialProduct(a, b, k - 1), If(b[8 - k], XtimeN(a, k - 1)))
  }

  function Mul(a: Byte, b: Byte): Byte { PartialProduct(a, b, 8) }

  lemma XtimeAdd(a: Byte, b: Byte)
    ensures Xtime(Xor(a, b)) == Xor(Xtime(a), Xtime(b))
  {}

  lemma {:induction false} XtimeNAdd(a: Byte, b: Byte, n: nat)
    ensures XtimeN(Xor(a, b), n) == Xor(XtimeN(a, n), XtimeN(b, n))
  {
    if n > 0 { XtimeNAdd(a, b, n - 1); XtimeAdd(XtimeN(a, n-1), XtimeN(b, n-1)); }
  }
  lemma IfXor(c: bool, d: bool, a: Byte)
    ensures If(c != d, a) == Xor(If(c, a), If(d, a))
  {}
  lemma IfAdd(c: bool, a: Byte, b: Byte)
    ensures If(c, Xor(a, b)) == Xor(If(c, a), If(c, b))
  {}
  lemma IfXtime(c: bool, a: Byte)
    ensures If(c, Xtime(a)) == Xtime(If(c, a))
  { }

  lemma {:induction false} PartialRightAdd(a: Byte, b: Byte, c: Byte, k: nat)
    requires k <= 8
    ensures PartialProduct(a, Xor(b, c), k) == Xor(PartialProduct(a, b, k), PartialProduct(a, c, k))
  {
    if k > 0 {
      PartialRightAdd(a, b, c, k - 1);
      var t := XtimeN(a, k - 1);
      IfXor(b[8 - k], c[8 - k], t);
      XorSwap(PartialProduct(a, b, k-1), PartialProduct(a, c, k-1), If(b[8 - k], t), If(c[8 - k], t));
    }
  }
  lemma {:induction false} PartialLeftAdd(a: Byte, b: Byte, c: Byte, k: nat)
    requires k <= 8
    ensures PartialProduct(Xor(a, b), c, k) == Xor(PartialProduct(a, c, k), PartialProduct(b, c, k))
  {
    if k > 0 {
      PartialLeftAdd(a, b, c, k - 1);
      XtimeNAdd(a, b, k - 1);
      var bit := c[8 - k];
      IfAdd(bit, XtimeN(a,k-1), XtimeN(b,k-1));
      XorSwap(PartialProduct(a, c, k-1), PartialProduct(b, c, k-1), If(bit, XtimeN(a,k-1)), If(bit, XtimeN(b,k-1)));
    }
  }
  lemma {:induction false} XtimeNShift(a: Byte, n: nat)
    ensures XtimeN(Xtime(a), n) == Xtime(XtimeN(a, n))
  { if n > 0 { XtimeNShift(a, n-1); } }

  lemma {:induction false} PartialLeftXtime(a: Byte, b: Byte, k: nat)
    requires k <= 8
    ensures PartialProduct(Xtime(a), b, k) == Xtime(PartialProduct(a, b, k))
  {
    if k > 0 {
      PartialLeftXtime(a, b, k - 1);
      XtimeNShift(a, k - 1);
      IfXtime(b[8 - k], XtimeN(a, k-1));
      XtimeAdd(PartialProduct(a, b, k-1), If(b[8-k], XtimeN(a, k-1)));
    } else { assert Xtime(ZERO) == ZERO; }
  }
  /** ONE is the unit: the product of ONE and b spells out b. */
  lemma {:induction false} PartialOne(b: Byte, k: nat)
    requires k <= 8
    ensures PartialProduct(ONE, b, k) == seq(8, i requires 0 <= i < 8 => i >= 8 - k && b[i])
  {
    hide Xtime;
    if k > 0 {
      PartialOne(b, k - 1);
      XtimeNOne(k - 1);
    }
  }

  lemma {:induction false} XtimeNOne(n: nat)
    requires n < 8
    ensures XtimeN(ONE, n) == seq(8, i requires 0 <= i < 8 => i == 7 - n)
  {
    if n > 0 { XtimeNOne(n - 1); }
  }

  lemma {:induction false} PartialZero(b: Byte, k: nat)
    requires k <= 8
    ensures PartialProduct(ZERO, b, k) == ZERO
  {
    if k > 0 {
      PartialZero(b, k - 1);
      XtimeNZero(k - 1);
      XorZero(ZERO);
    }
  }
  lemma {:induction false} XtimeNZero(n: nat)
    ensures XtimeN(ZERO, n) == ZERO
  {
    if n > 0 { XtimeNZero(n - 1); }
  }
  /** Multiplying by c goes through the sum that defines the other product. */
  lemma {:induction false} PartialExchange(a: Byte, b: Byte, k: nat, c: Byte, m: nat)
    requires k <= 8 && m <= 8
    ensures PartialProduct(PartialProduct(a, b, k), c, m) == PartialProduct(PartialProduct(a, c, m), b, k)
  {
    hide Xtime; hide Xor;
    PartialZero(c, m);
    if k > 0 {
      PartialExchange(a, b, k - 1, c, m);
      PartialLeftAdd(PartialProduct(a, b, k - 1), If(b[8 - k], XtimeN(a, k - 1)), c, m);
      PartialXtimeN(a, c, m, k - 1);
    }
  }

  lemma {:induction false} PartialXtimeN(a: Byte, c: Byte, m: nat, n: nat)
    requires m <= 8
    ensures PartialProduct(XtimeN(a, n), c, m) == XtimeN(PartialProduct(a, c, m), n)
  {
    hide Xtime; 
    if n > 0 {
      PartialXtimeN(a, c, m, n - 1);
      PartialLeftXtime(XtimeN(a, n - 1), c, m);
    }
  }

  lemma MulOneLeft(b: Byte)
    ensures Mul(ONE, b) == b
  {
    PartialOne(b, 8);
  }

  /** The product of the field commutes. */
  lemma MulComm(a: Byte, b: Byte)
    ensures Mul(a, b) == Mul(b, a)
  {
    MulOneLeft(a);
    MulOneLeft(b);
    PartialExchange(ONE, b, 8, a, 8);
  }

  /** The product of the field is associative. */
  lemma MulAssoc(a: Byte, b: Byte, c: Byte)
    ensures Mul(Mul(a, b), c) == Mul(a, Mul(b, c))
  {
    PartialExchange(b, a, 8, c, 8);
    MulComm(a, b);
    MulComm(a, Mul(b, c));
  }

  lemma MulOne(b: Byte)
    ensures Mul(ONE, b) == b == Mul(b, ONE)
  {
    MulOneLeft(b);
    MulComm(ONE, b);
  }

  /** The product distributes over addition, which is exclusive or. */
  lemma MulAdd(a: Byte, b: Byte, c: Byte)
    ensures Mul(a, Xor(b, c)) == Xor(Mul(a, b), Mul(a, c))
    ensures Mul(Xor(b, c), a) == Xor(Mul(b, a), Mul(c, a))
  {
    PartialRightAdd(a, b, c, 8);
    PartialLeftAdd(b, c, a, 8);
  }
  lemma MulZero(a: Byte)
    ensures Mul(ZERO, a) == ZERO == Mul(a, ZERO)
  {
    PartialZero(a, 8);
    MulComm(a, ZERO);
  }
  
  /** The powers of the generator 2. */
  function Alpha(i: nat): Byte { XtimeN(ONE, i) }

  lemma AlphaZero()
    ensures Alpha(0) == ONE
  {}

  lemma AlphaStep(i: nat)
    ensures Alpha(i + 1) == Xtime(Alpha(i))
  {}

  lemma AlphaSum(i: nat, j: nat)
    ensures Alpha(i + j) == Mul(Alpha(i), Alpha(j))
  {
    PartialXtimeN(ONE, Alpha(j), 8, i);
    MulOneLeft(Alpha(j));
    XtimeNSum(ONE, i, j);
  }

  lemma {:induction false} XtimeNSum(a: Byte, i: nat, j: nat)
    ensures XtimeN(a, i + j) == XtimeN(XtimeN(a, j), i)
  {
    if i > 0 { XtimeNSum(a, i - 1, j); }
  }

  lemma XtimeBits(a: Byte)
    ensures Xtime(a) == [a[1], a[2], a[3], a[4] != a[0], a[5] != a[0], a[6] != a[0], a[7], a[0]]
  {}

  lemma AlphaNext(i: nat)
    ensures var a := Alpha(i);
      Alpha(i + 1) == [a[1], a[2], a[3], a[4] != a[0], a[5] != a[0], a[6] != a[0], a[7], a[0]]
  {
    XtimeBits(Alpha(i));
  }

  /** A product with a power of 2, written out: x^i * b is the sum of the x^(i + t) with b_t set. */
  lemma AlphaTimes(i: nat, j: nat)
    ensures Alpha(i + j) == Xor(Xor(Xor(Xor(Xor(Xor(Xor(If(Alpha(j)[7], Alpha(i)), If(Alpha(j)[6], Alpha(i + 1))),
        If(Alpha(j)[5], Alpha(i + 2))), If(Alpha(j)[4], Alpha(i + 3))), If(Alpha(j)[3], Alpha(i + 4))),
        If(Alpha(j)[2], Alpha(i + 5))), If(Alpha(j)[1], Alpha(i + 6))), If(Alpha(j)[0], Alpha(i + 7)))
  {
    hide Xtime; hide Xor;
    AlphaSum(i, j);
    var a, b := Alpha(i), Alpha(j);
    XtimeNSum(ONE, 1, i); XtimeNSum(ONE, 2, i); XtimeNSum(ONE, 3, i); XtimeNSum(ONE, 4, i);
    XtimeNSum(ONE, 5, i); XtimeNSum(ONE, 6, i); XtimeNSum(ONE, 7, i);
    XorZero(If(b[7], a));
    assert PartialProduct(a, b, 1) == If(b[7], Alpha(i));
    assert PartialProduct(a, b, 2) == Xor(PartialProduct(a, b, 1), If(b[6], Alpha(i + 1)));
    assert PartialProduct(a, b, 3) == Xor(PartialProduct(a, b, 2), If(b[5], Alpha(i + 2)));
    assert PartialProduct(a, b, 4) == Xor(PartialProduct(a, b, 3), If(b[4], Alpha(i + 3)));
    assert PartialProduct(a, b, 5) == Xor(PartialProduct(a, b, 4), If(b[3], Alpha(i + 4)));
    assert PartialProduct(a, b, 6) == Xor(PartialProduct(a, b, 5), If(b[2], Alpha(i + 5)));
    assert PartialProduct(a, b, 7) == Xor(PartialProduct(a, b, 6), If(b[1], Alpha(i + 6)));
    assert PartialProduct(a, b, 8) == Xor(PartialProduct(a, b, 7), If(b[0], Alpha(i + 7)));
  }

  lemma Alpha17()
    ensures Alpha(15) == [false, false, true, false, false, true, true, false]
    ensures Alpha(17) == [true, false, false, true, true, false, false, false]
  {
    XtimeNOne(7);
    AlphaNext(7); AlphaNext(8); AlphaNext(9); AlphaNext(10); AlphaNext(11); AlphaNext(12); AlphaNext(13);
    AlphaNext(14); AlphaNext(15); AlphaNext(16);
  }

  lemma Alpha34()
    ensures Alpha(34) == [false, true, false, false, true, true, true, false]
  {
    hide Alpha; hide Mul;
    Alpha17();
    AlphaNext(17); AlphaNext(18); AlphaNext(19); AlphaNext(20); AlphaNext(21); AlphaNext(22); AlphaNext(23);
    AlphaTimes(17, 17);
  }

  lemma Alpha51()
    ensures Alpha(51) == [false, false, false, false, true, false, true, false]
  {
    hide Alpha; hide Mul;
    Alpha17(); Alpha34();
    AlphaNext(34); AlphaNext(35); AlphaNext(36); AlphaNext(37); AlphaNext(38); AlphaNext(39); AlphaNext(40);
    AlphaTimes(34, 17);
  }

  lemma Alpha85()
    ensures Alpha(85) == [true, true, false, true, false, true, true, false]
  {
    hide Alpha; hide Mul;
    Alpha34(); Alpha51();
    AlphaNext(51); AlphaNext(52); AlphaNext(53); AlphaNext(54); AlphaNext(55); AlphaNext(56); AlphaNext(57);
    AlphaTimes(51, 34);
  }

  lemma Alpha170()
    ensures Alpha(170) == [true, true, false, true, false, true, true, true]
  {
    hide Alpha; hide Mul;
    Alpha85();
    AlphaNext(85); AlphaNext(86); AlphaNext(87); AlphaNext(88); AlphaNext(89); AlphaNext(90); AlphaNext(91);
    AlphaTimes(85, 85);
  }

  lemma Alpha255()
    ensures Alpha(255) == [false, false, false, false, false, false, false, true]
  {
    hide Alpha; hide Mul;
    Alpha85(); Alpha170();
    AlphaNext(170); AlphaNext(171); AlphaNext(172); AlphaNext(173); AlphaNext(174); AlphaNext(175); AlphaNext(176);
    AlphaTimes(170, 85);
  }


  /** A power that is ONE makes every multiple of its exponent ONE. */
  lemma {:induction false} AlphaMultiple(e: nat, q: nat)
    requires Alpha(e) == ONE
    ensures Alpha(q * e) == ONE
  {
    hide Mul;
    if q > 0 {
      AlphaMultiple(e, q - 1);
      AlphaSum((q - 1) * e, e);
      assert q * e == (q - 1) * e + e;
      MulOne(ONE);
    }
  }

  lemma Cofactor(d: nat, q: nat)
    requires d * q == 255 && d < 255
    ensures q % 3 == 0 || q % 5 == 0 || q % 17 == 0
  {
    assert d >= 16 && q >= 16 ==> d * q >= 16 * 16;
    if d <= 15 {
      assert d == 0 || d == 1 || d == 2 || d == 3 || d == 4 || d == 5 || d == 6 || d == 7 || d == 8 || d == 9
          || d == 10 || d == 11 || d == 12 || d == 13 || d == 14 || d == 15;
    } else {
      assert q == 0 || q == 1 || q == 2 || q == 3 || q == 4 || q == 5 || q == 6 || q == 7 || q == 8 || q == 9
          || q == 10 || q == 11 || q == 12 || q == 13 || q == 14 || q == 15;
    }
  }

  /** 2 is primitive: its order is exactly 255. */
  lemma {:induction false} AlphaOrder(d: nat)
    requires 0 < d < 255
    ensures Alpha(d) != ONE
    decreases d
  {
    hide Alpha; hide Mul;
    if Alpha(d) == ONE {
      var q, r := 255 / d, 255 % d;
      AlphaMultiple(d, q);
      AlphaSum(q * d, r);
      MulOne(Alpha(r));
      Alpha255();
      if r > 0 {
        AlphaOrder(r);
      } else {
        Cofactor(d, q);
        Alpha17(); Alpha51(); Alpha85();
        if q % 3 == 0 {
          Rearrange(q, 3, d);
          AlphaMultiple(d, q / 3);
        } else if q % 5 == 0 {
          Rearrange(q, 5, d);
          AlphaMultiple(d, q / 5);
        } else {
          Rearrange(q, 17, d);
          AlphaMultiple(d, q / 17);
        }
      }
    }
  }

  lemma Rearrange(q: nat, p: nat, d: nat)
    requires p > 0 && q % p == 0
    ensures p * ((q / p) * d) == q * d
  {
    assert p * (q / p) == q;
    assert (p * (q / p)) * d == p * ((q / p) * d);
  }

  lemma AlphaNonZero(i: nat)
    ensures Alpha(i) != ZERO
  {
    // multiplying up to the next multiple of 255 gives ONE
    hide Alpha; hide Mul;
    Alpha255();
    AlphaMultiple(255, i);
    AlphaSum(i, 255 * i - i);
    MulZero(Alpha(255 * i - i));
  }

  /** The first 255 powers of 2 differ. */
  lemma AlphaDistinct(i: nat, j: nat)
    requires i < j < i + 255
    ensures Alpha(i) != Alpha(j)
  {
    hide Alpha; hide Mul;
    AlphaOrder(j - i);
    AlphaSum(i, j - i);
    if Alpha(i) == Alpha(j) {
      // cancel Alpha(i)
      Alpha255();
      AlphaMultiple(255, i);
      AlphaSum(255 * i - i, i);
      MulAssoc(Alpha(255 * i - i), Alpha(i), Alpha(j - i));
      MulOne(Alpha(j - i));
    }
  }

  lemma LogsDiffer(i: nat)
    requires i < 255
    ensures forall k: nat :: k < i ==> Value(Alpha(k)) != Value(Alpha(i))
  {
    hide Alpha; hide Mul;
    forall k: nat | k < i ensures Value(Alpha(k)) != Value(Alpha(i)) {
      AlphaDistinct(k, i);
      if Value(Alpha(k)) == Value(Alpha(i)) { ValueInjective(Alpha(k), Alpha(i)); }
    }
  }

  ghost predicate LogEntry(table: seq<Byte>, k: nat)
    requires |table| == 256
  {
    Value(Alpha(k)) < 256 && table[Value(Alpha(k))] == ByteOf(k)
  }

  lemma LogEntriesKept(table: seq<Byte>, next: seq<Byte>, i: nat)
    requires |table| == 256 && i < 255
    requires Value(Alpha(i)) < 256 && next == table[Value(Alpha(i)) := ByteOf(i)]
    requires forall k :: 0 <= k < i ==> LogEntry(table, k)
    ensures forall k :: 0 <= k <= i ==> LogEntry(next, k)
  {
    hide Alpha; hide Value; hide ByteOf; hide Mul;
    LogsDiffer(i);
    forall k | 0 <= k <= i
      ensures LogEntry(next, k)
    {
      if k < i { assert LogEntry(table, k); }
    }
  }

  ghost predicate LogTable(table: seq<Byte>) {
    && |table| == 256
    && forall a: Byte :: a != ZERO ==>
        Value(a) < 256 && Value(table[Value(a)]) < 255 && Alpha(Value(table[Value(a)])) == a
  }

  lemma LogsComplete(table: seq<Byte>)
    requires |table| == 256
    requires forall k :: 0 <= k < 255 ==> LogEntry(table, k)
    ensures LogTable(table)
  {
    hide Alpha; hide Value; hide ByteOf; hide Mul;
    forall a: Byte | a != ZERO
      ensures Value(a) < 256 && Value(table[Value(a)]) < 255 && Alpha(Value(table[Value(a)])) == a
    {
      var k := Log(a);
      assert LogEntry(table, k);
      ValueOfByte(k);
    }
  }

  ghost function Powers(n: nat): set<nat> {
    set i: nat | i < n :: Value(Alpha(i))
  }

  lemma {:induction false} PowersCount(n: nat)
    requires n <= 255
    ensures |Powers(n)| == n
  {
    hide Alpha; hide Mul;
    if n > 0 {
      PowersCount(n - 1);
      assert Powers(n) == Powers(n - 1) + {Value(Alpha(n - 1))};
      forall i: nat | i < n - 1 ensures Value(Alpha(i)) != Value(Alpha(n - 1)) {
        AlphaDistinct(i, n - 1);
        if Value(Alpha(i)) == Value(Alpha(n - 1)) { ValueInjective(Alpha(i), Alpha(n - 1)); }
      }
    } else {
      assert Powers(0) == {};
    }
  }

  ghost function Range(n: nat): (s: set<nat>)
    ensures |s| == n
    ensures forall i: nat :: i in s <==> 1 <= i <= n
  {
    if n == 0 then {} else Range(n - 1) + {n}
  }

  lemma SubsetOfSameSize(a: set<nat>, b: set<nat>)
    requires a <= b && |a| == |b|
    ensures a == b
  {
    assert b == a + (b - a);
    assert |b| == |a| + |b - a|;
  }

  lemma ByteRange(b: Byte)
    ensures Value(b) < 256
    ensures b != ZERO ==> 1 <= Value(b)
  {
    ValueBound(b);
    PowOf8();
    LowBitsOfValue(b);
    LowBitsOfValue(ZERO);
    LowBitsZero(8);
  }

  /** Every nonzero byte is a power of 2 below the 255th. */
  lemma PowersCover(b: Byte)
    requires b != ZERO
    ensures exists i: nat :: i < 255 && Alpha(i) == b
  {
    hide Alpha; hide Mul;
    PowersCount(255);
    forall i: nat | i < 255 ensures 1 <= Value(Alpha(i)) <= 255 {
      AlphaNonZero(i);
      ByteRange(Alpha(i));
    }
    SubsetOfSameSize(Powers(255), Range(255));
    ByteRange(b);
    assert Value(b) in Powers(255);
    var i: nat :| i < 255 && Value(Alpha(i)) == Value(b);
    ValueInjective(Alpha(i), b);
  }

  ghost function Log(b: Byte): (i: nat)
    requires b != ZERO
    ensures i < 255 && Alpha(i) == b
  {
    PowersCover(b);
    var i: nat :| i < 255 && Alpha(i) == b;
    i
  }

  /** The field has no zero divisors. */
  lemma MulNonZero(a: Byte, b: Byte)
    requires a != ZERO && b != ZERO
    ensures Mul(a, b) != ZERO
  {
    hide Alpha; hide Mul;
    AlphaSum(Log(a), Log(b));
    AlphaNonZero(Log(a) + Log(b));
  }

  lemma AlphaPeriod(i: nat)
    ensures Alpha(i + 255) == Alpha(i)
  {
    hide Alpha; hide Mul;
    Alpha255();
    AlphaSum(i, 255);
    MulOne(Alpha(i));
  }

  /** The exponential and logarithm tables of the field. */
  class Tables {
    const gfExp: array<Byte>
    const gfLog: array<Byte>

    ghost predicate Valid()
      reads gfExp, gfLog
    {
      && gfExp.Length == 512 && gfLog.Length == 256
      && (forall i :: 0 <= i < 512 ==> gfExp[i] == Alpha(i))
      && LogTable(gfLog[..])
    }

    constructor ()
      ensures Valid()
      ensures fresh(gfExp) && fresh(gfLog)
    {
      gfExp := new Byte[512](_ => ZERO);
      gfLog := new Byte[256](_ => ZERO);
      new;
      hide Alpha; hide Mul; hide Value; hide ByteOf; hide Pow;
      var x: Byte := ONE;
      assert x == Alpha(0) by { AlphaZero(); }
      for i := 0 to 255
        invariant x == Alpha(i)
        invariant forall k :: 0 <= k < i ==> gfExp[k] == Alpha(k)
        invariant forall k :: 0 <= k < i ==> LogEntry(gfLog[..], k)
      {
        AlphaStep(i);
        ByteRange(x);
        gfExp[i] := x;
        ghost var before := gfLog[..];
        gfLog[Value(x)] := ByteOf(i);
        LogEntriesKept(before, gfLog[..], i);
        var wide := x + [false];
        if wide[0] {
          wide := Xor(wide, POLYNOMIAL);
        }
        x := wide[1..];
      }
      for i := 255 to 512
        invariant forall k :: 0 <= k < i ==> gfExp[k] == Alpha(k)
        invariant forall k :: 0 <= k < 255 ==> LogEntry(gfLog[..], k)
      {
        AlphaPeriod(i - 255);
        gfExp[i] := gfExp[i - 255];
      }
      LogsComplete(gfLog[..]);
    }

    /** The table-driven product is the product of the field. */
    function GfMul(a: Byte, b: Byte): (r: Byte)
      requires Valid()
      reads gfExp, gfLog
      ensures r == Mul(a, b)
    {
      if a == ZERO || b == ZERO then
        MulZero(a); MulZero(b);
        ZERO
      else
        AlphaSum(Value(gfLog[Value(a)]), Value(gfLog[Value(b)]));
        gfExp[Value(gfLog[Value(a)]) + Value(gfLog[Value(b)])]
    }
  }
}
