/** Polynomials over GF(256), coefficients from the highest degree down. */
module Polynomials {
  import opened Bits
  import opened Gf256

  type Poly = seq<Byte>

  function Zeros(n: nat): (p: Poly)
    ensures |p| == n && forall i :: 0 <= i < n ==> p[i] == ZERO
  {
    seq(n, i => ZERO)
  }

  /** Coefficientwise sum of two polynomials of the same length. */
  function Add(p: Poly, q: Poly): (r: Poly)
    requires |p| == |q|
    ensures |r| == |p| && forall i :: 0 <= i < |p| ==> r[i] == Xor(p[i], q[i])
  {
    seq(|p|, i requires 0 <= i < |p| => Xor(p[i], q[i]))
  }

  function Scale(c: Byte, p: Poly): (r: Poly)
    ensures |r| == |p| && forall i :: 0 <= i < |p| ==> r[i] == Mul(c, p[i])
  {
    seq(|p|, i requires 0 <= i < |p| => Mul(c, p[i]))
  }

  /** The value at x, by Horner's rule. */
  function Eval(p: Poly, x: Byte): Byte {
    if p == [] then ZERO else Xor(Mul(Eval(p[..|p| - 1], x), x), p[|p| - 1])
  }

  lemma EvalSnoc(p: Poly, c: Byte, x: Byte)
    ensures Eval(p + [c], x) == Xor(Mul(Eval(p, x), x), c)
  {
    assert (p + [c])[..|p|] == p;
  }

  lemma {:induction false} EvalZeros(n: nat, x: Byte)
    ensures Eval(Zeros(n), x) == ZERO
  {
    hide Mul;
    if n > 0 {
      assert Zeros(n)[..n - 1] == Zeros(n - 1);
      EvalZeros(n - 1, x);
      MulZero(x);
      XorZero(ZERO);
    }
  }

  lemma {:induction false} EvalAdd(p: Poly, q: Poly, x: Byte)
    requires |p| == |q|
    ensures Eval(Add(p, q), x) == Xor(Eval(p, x), Eval(q, x))
  {
    hide Mul; hide Xor;
    if p == [] {
      XorZero(ZERO);
    } else {
      var n := |p| - 1;
      assert Add(p, q)[..n] == Add(p[..n], q[..n]);
      EvalAdd(p[..n], q[..n], x);
      MulAdd(x, Eval(p[..n], x), Eval(q[..n], x));
      XorSwap(Mul(Eval(p[..n], x), x), Mul(Eval(q[..n], x), x), p[n], q[n]);
    }
  }

  lemma {:induction false} EvalScale(c: Byte, p: Poly, x: Byte)
    ensures Eval(Scale(c, p), x) == Mul(c, Eval(p, x))
  {
    hide Mul; hide Xor;
    if p == [] {
      MulZero(c);
    } else {
      var n := |p| - 1;
      assert Scale(c, p)[..n] == Scale(c, p[..n]);
      EvalScale(c, p[..n], x);
      MulAssoc(c, Eval(p[..n], x), x);
      MulAdd(c, Mul(Eval(p[..n], x), x), p[n]);
    }
  }

  /** Leading zeros do not change a value. */
  lemma {:induction false} EvalLeadingZeros(n: nat, p: Poly, x: Byte)
    ensures Eval(Zeros(n) + p, x) == Eval(p, x)
  {
    hide Mul; hide Xor;
    if p == [] {
      assert Zeros(n) + p == Zeros(n);
      EvalZeros(n, x);
    } else {
      var m := |p| - 1;
      assert (Zeros(n) + p)[..n + m] == Zeros(n) + p[..m];
      EvalLeadingZeros(n, p[..m], x);
    }
  }

  /** Trailing zeros keep a root. */
  lemma {:induction false} RootTrailingZeros(p: Poly, n: nat, x: Byte)
    requires Eval(p, x) == ZERO
    ensures Eval(p + Zeros(n), x) == ZERO
  {
    hide Mul; hide Xor;
    if n == 0 {
      assert p + Zeros(0) == p;
    } else {
      RootTrailingZeros(p, n - 1, x);
      assert p + Zeros(n) == (p + Zeros(n - 1)) + [ZERO];
      EvalSnoc(p + Zeros(n - 1), ZERO, x);
      MulZero(x);
      XorZero(ZERO);
    }
  }

  /** p times (x + r). */
  function TimesRoot(p: Poly, r: Byte): (s: Poly)
    ensures |s| == |p| + 1
  {
    Add(p + [ZERO], [ZERO] + Scale(r, p))
  }

  /** Multiplying by (x + r) multiplies every value by (x + r). */
  lemma EvalTimesRoot(p: Poly, r: Byte, x: Byte)
    ensures Eval(TimesRoot(p, r), x) == Mul(Eval(p, x), Xor(x, r))
  {
    hide Mul; hide Xor;
    EvalAdd(p + [ZERO], [ZERO] + Scale(r, p), x);
    EvalSnoc(p, ZERO, x);
    XorZero(Mul(Eval(p, x), x));
    assert [ZERO] == Zeros(1);
    EvalLeadingZeros(1, Scale(r, p), x);
    EvalScale(r, p, x);
    MulComm(r, Eval(p, x));
    MulAdd(Eval(p, x), x, r);
  }

  /** The quotient of p by (x + r): the running values of Horner's rule, without the last. */
  function Quotient(p: Poly, r: Byte): (q: Poly)
    requires p != []
    ensures |q| == |p| - 1
  {
    seq(|p| - 1, i requires 0 <= i < |p| - 1 => Eval(p[..i + 1], r))
  }

  /** Division by (x + r) leaves the value at r. */
  lemma Division(p: Poly, r: Byte)
    requires p != []
    ensures p == Add(TimesRoot(Quotient(p, r), r), Zeros(|p| - 1) + [Eval(p, r)])
  {
    hide Mul; hide Xor;
    var q := Quotient(p, r);
    var n := |p| - 1;
    var t := TimesRoot(q, r);
    var s := Add(t, Zeros(n) + [Eval(p, r)]);
    forall i | 0 <= i <= n ensures s[i] == p[i] {
      // Horner: Eval(p[..i + 1]) = Eval(p[..i]) * r + p[i]
      assert p[..i + 1][..i] == p[..i];
      var before, now := Eval(p[..i], r), Eval(p[..i + 1], r);
      assert now == Xor(Mul(before, r), p[i]);
      MulComm(before, r);
      MulZero(r);
      assert i == n ==> p[..i + 1] == p;
      assert t[i] == Xor((q + [ZERO])[i], ([ZERO] + Scale(r, q))[i]);
      assert ([ZERO] + Scale(r, q))[i] == Mul(r, before) by {
        if i > 0 { assert q[i - 1] == Eval(p[..i], r); }
      }
      Cancel(Mul(r, before), p[i]);
    }
  }

  lemma Cancel(a: Byte, b: Byte)
    ensures Xor(Xor(Xor(a, b), a), ZERO) == b
    ensures Xor(Xor(ZERO, a), Xor(a, b)) == b
  {}

  ghost predicate VanishesAt(p: Poly, n: nat) {
    forall k :: 0 <= k < n ==> Eval(p, Alpha(k)) == ZERO
  }

  /** A polynomial of length n that vanishes at n distinct powers of 2 is zero. */
  lemma {:induction false} ManyRoots(p: Poly, n: nat)
    requires |p| == n <= 255
    requires VanishesAt(p, n)
    ensures p == Zeros(n)
    decreases n
  {
    hide Mul; hide Xor; hide Alpha;
    if n > 0 {
      var r := Alpha(n - 1);
      var q := Quotient(p, r);
      Division(p, r);
      assert Eval(p, r) == ZERO;
      assert Zeros(n - 1) + [ZERO] == Zeros(n);
      forall k | 0 <= k < n - 1 ensures Eval(q, Alpha(k)) == ZERO {
        var x := Alpha(k);
        EvalTimesRoot(q, r, x);
        EvalAdd(TimesRoot(q, r), Zeros(n), x);
        EvalZeros(n, x);
        XorZero(Eval(TimesRoot(q, r), x));
        AlphaDistinct(k, n - 1);
        XorNonZero(x, r);
        if Eval(q, x) != ZERO { MulNonZero(Eval(q, x), Xor(x, r)); }
      }
      ManyRoots(q, n - 1);
      forall i | 0 <= i < n ensures p[i] == ZERO {
        MulZero(r);
        XorZero(ZERO);
      }
    }
  }

  lemma XorNonZero(a: Byte, b: Byte)
    ensures Xor(a, b) == ZERO <==> a == b
  {
    if a != b {
      var i :| 0 <= i < 8 && a[i] != b[i];
      assert Xor(a, b)[i] != ZERO[i];
    }
  }
}
