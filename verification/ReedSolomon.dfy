/** Reed-Solomon error correction over GF(256), ISO/IEC 18004 clause 7.5. */
module ReedSolomon {
  import opened Bits
  import opened Gf256
  import opened Polynomials

  /** The product of (x + 2^i) over i < n, coefficient by coefficient. */
  function Generator(n: nat): (g: Poly)
    ensures |g| == n + 1
    ensures g[0] == ONE
  {
    if n == 0 then [ONE]
    else
      var g := Generator(n - 1);
      XorZero(ONE);
      TimesRoot(g, Alpha(n - 1))
  }

  /** The product of (x + 2^i) over i < n at one point. */
  function RootProduct(n: nat, x: Byte): Byte {
    if n == 0 then ONE else Mul(RootProduct(n - 1, x), Xor(x, Alpha(n - 1)))
  }

  /** The generator takes the value of the product of its roots everywhere. */
  lemma {:induction false} GeneratorIsRootProduct(n: nat, x: Byte)
    ensures Eval(Generator(n), x) == RootProduct(n, x)
  {
    hide Mul; hide Xor; hide Alpha;
    if n == 0 {
      EvalSnoc([], ONE, x);
      assert [] + [ONE] == [ONE];
      MulZero(x);
      XorZero(ONE);
    } else {
      GeneratorIsRootProduct(n - 1, x);
      EvalTimesRoot(Generator(n - 1), Alpha(n - 1), x);
    }
  }

  lemma {:induction false} RootProductVanishes(n: nat, k: nat)
    requires k < n
    ensures RootProduct(n, Alpha(k)) == ZERO
  {
    hide Mul; hide Xor; hide Alpha;
    var x := Alpha(k);
    if k == n - 1 {
      XorNonZero(x, x);
      MulZero(RootProduct(n - 1, x));
    } else {
      RootProductVanishes(n - 1, k);
      MulZero(Xor(x, Alpha(n - 1)));
    }
  }

  /** The generator's roots among the powers of 2 are exactly the first n. */
  lemma GeneratorRoots(n: nat, k: nat)
    requires n <= 255 && k < 255
    ensures Eval(Generator(n), Alpha(k)) == ZERO <==> k < n
  {
    GeneratorIsRootProduct(n, Alpha(k));
    if k < n {
      RootProductVanishes(n, k);
    } else {
      RootProductNonZero(n, k);
    }
  }

  lemma {:induction false} RootProductNonZero(n: nat, k: nat)
    requires n <= k < 255
    ensures RootProduct(n, Alpha(k)) != ZERO
  {
    hide Mul; hide Xor; hide Alpha;
    var x := Alpha(k);
    if n > 0 {
      RootProductNonZero(n - 1, k);
      AlphaDistinct(n - 1, k);
      XorNonZero(x, Alpha(n - 1));
      MulNonZero(RootProduct(n - 1, x), Xor(x, Alpha(n - 1)));
    }
  }

  /** ec is the error correction of data: together they form a polynomial that vanishes at 2^0 .. 2^(|ec| - 1). */
  ghost predicate IsParity(data: Poly, ec: Poly) {
    VanishesAt(data + ec, |ec|)
  }

  /** No block has two error corrections of the same length. */
  lemma ParityUnique(data: Poly, ec: Poly, other: Poly)
    requires |ec| == |other| <= 255
    requires IsParity(data, ec) && IsParity(data, other)
    ensures ec == other
  {
    hide Mul; hide Xor; hide Alpha;
    var n := |ec|;
    var d := Add(ec, other);
    forall k | 0 <= k < n ensures Eval(d, Alpha(k)) == ZERO {
      var x := Alpha(k);
      EvalAdd(data + ec, data + other, x);
      forall i | 0 <= i < |data| ensures Xor(data[i], data[i]) == ZERO { XorZero(data[i]); }
      assert Add(data + ec, data + other) == Zeros(|data|) + d;
      EvalLeadingZeros(|data|, d, x);
      XorZero(ZERO);
    }
    ManyRoots(d, n);
    forall i | 0 <= i < n ensures ec[i] == other[i] { XorNonZero(ec[i], other[i]); }
  }

  lemma TimesRootAt(p: Poly, r: Byte, j: nat)
    requires j <= |p|
    ensures TimesRoot(p, r)[j] ==
      if j == |p| then (if j == 0 then ZERO else Mul(p[j - 1], r))
      else Xor(if j == 0 then ZERO else Mul(p[j - 1], r), p[j])
  {
    hide Mul; hide Xor;
    var a := (p + [ZERO])[j];
    var b := ([ZERO] + Scale(r, p))[j];
    XorComm(a, b);
    if j > 0 { MulComm(p[j - 1], r); }
    XorZero(b);
  }

  /** One step of the generator's loop: g times (x + 2^i). */
  method TimesPowerOfTwo(t: Tables, g: array<Byte>, i: nat) returns (next: array<Byte>)
    requires t.Valid() && i < 512
    ensures fresh(next)
    ensures next[..] == TimesRoot(g[..], Alpha(i))
  {
    hide Mul; hide Xor; hide Alpha; hide TimesRoot;
    next := new Byte[g.Length + 1](_ => ZERO);
    ghost var p, r := g[..], Alpha(i);
    for j := 0 to g.Length
      invariant forall k :: 0 <= k < j ==> next[k] == TimesRoot(p, r)[k]
      invariant next[j] == (if j == 0 then ZERO else Mul(p[j - 1], r))
      invariant forall k :: j < k < next.Length ==> next[k] == ZERO
    {
      TimesRootAt(p, r, j);
      XorZero(Mul(p[j], r));
      var c := g[j];
      next[j] := Xor(next[j], c);
      next[j + 1] := Xor(next[j + 1], t.GfMul(c, t.gfExp[i]));
    }
    TimesRootAt(p, r, |p|);
    assert next[..] == TimesRoot(p, r);
  }

  /** rsGenerator: one factor (x + 2^i) at a time. */
  method RsGenerator(t: Tables, n: nat) returns (g: array<Byte>)
    requires t.Valid() && n <= 512
    ensures fresh(g)
    ensures g[..] == Generator(n)
  {
    hide TimesRoot; hide Alpha;
    g := new Byte[1](_ => ONE);
    assert g[..] == Generator(0);
    for i := 0 to n
      invariant fresh(g)
      invariant g[..] == Generator(i)
    {
      g := TimesPowerOfTwo(t, g, i);
    }
  }

  /** Cancel the coefficient lead of r at i with a multiple of the generator g. */
  ghost function Eliminate(r: Poly, i: nat, g: Poly, lead: Byte): (s: Poly)
    requires i + |g| <= |r|
    ensures |s| == |r|
  {
    Add(r, Zeros(i) + Scale(lead, g) + Zeros(|r| - i - |g|))
  }

  lemma EliminateKeepsRoot(r: Poly, i: nat, g: Poly, lead: Byte, x: Byte)
    requires i + |g| <= |r|
    requires Eval(g, x) == ZERO
    ensures Eval(Eliminate(r, i, g, lead), x) == Eval(r, x)
  {
    hide Mul; hide Xor;
    var s := Scale(lead, g);
    var m := |r| - i - |g|;
    EvalScale(lead, g, x);
    MulZero(lead);
    RootTrailingZeros(s, m, x);
    assert Zeros(i) + s + Zeros(m) == Zeros(i) + (s + Zeros(m));
    EvalLeadingZeros(i, s + Zeros(m), x);
    EvalAdd(r, Zeros(i) + s + Zeros(m), x);
    XorZero(Eval(r, x));
  }

  lemma EliminateAt(r: Poly, i: nat, g: Poly, lead: Byte, k: nat)
    requires i + |g| <= |r| && k < |r|
    ensures Eliminate(r, i, g, lead)[k] == if i <= k < i + |g| then Xor(r[k], Mul(g[k - i], lead)) else r[k]
  {
    hide Mul; hide Xor;
    XorZero(r[k]);
    if i <= k < i + |g| { MulComm(g[k - i], lead); }
  }

  /** One round of the division, over the remainder in place. */
  method EliminateInPlace(t: Tables, rem: array<Byte>, i: nat, gen: array<Byte>, lead: Byte)
    requires t.Valid() && i + gen.Length <= rem.Length
    requires rem != gen && rem != t.gfExp && rem != t.gfLog
    modifies rem
    ensures rem[..] == Eliminate(old(rem[..]), i, gen[..], lead)
  {
    hide Mul; hide Xor; hide Eliminate;
    ghost var r, g := rem[..], gen[..];
    for j := 0 to gen.Length
      invariant forall k :: 0 <= k < rem.Length ==>
        rem[k] == if i <= k < i + j then Eliminate(r, i, g, lead)[k] else r[k]
    {
      EliminateAt(r, i, g, lead, i + j);
      rem[i + j] := Xor(rem[i + j], t.GfMul(gen[j], lead));
    }
    forall k | 0 <= k < |r| ensures rem[k] == Eliminate(r, i, g, lead)[k] {
      EliminateAt(r, i, g, lead, k);
    }
  }

  /** rsEncode: the remainder of data * x^n divided by the generator. */
  method RsEncode(t: Tables, data: seq<Byte>, n: nat) returns (ec: seq<Byte>)
    requires t.Valid() && n <= 255
    ensures |ec| == n && IsParity(data, ec)
  {
    hide Mul; hide Xor; hide Alpha; hide Eliminate; hide Generator;
    var gen := RsGenerator(t, n);
    var rem := new Byte[|data| + n](k requires 0 <= k < |data| + n => if k < |data| then data[k] else ZERO);
    assert rem[..] == data + Zeros(n);
    for i := 0 to |data|
      invariant gen[..] == Generator(n)
      invariant forall k :: 0 <= k < i ==> rem[k] == ZERO
      invariant SameSyndromes(rem[..], data + Zeros(n), n)
    {
      var lead := rem[i];
      if lead == ZERO {
        continue;
      }
      ghost var r := rem[..];
      EliminateInPlace(t, rem, i, gen, lead);
      EliminationStep(r, i, n, lead);
    }
    ec := rem[|data|..];
    assert rem[..] == Zeros(|data|) + ec;
    RemainderIsParity(data, ec);
  }

  ghost predicate SameSyndromes(p: Poly, q: Poly, n: nat) {
    forall k :: 0 <= k < n ==> Eval(p, Alpha(k)) == Eval(q, Alpha(k))
  }

  lemma EliminationStep(r: Poly, i: nat, n: nat, lead: Byte)
    requires n <= 255 && i + n < |r| && r[i] == lead
    requires forall k :: 0 <= k < i ==> r[k] == ZERO
    ensures SameSyndromes(Eliminate(r, i, Generator(n), lead), r, n)
    ensures forall k :: 0 <= k <= i ==> Eliminate(r, i, Generator(n), lead)[k] == ZERO
  {
    hide Mul; hide Xor; hide Alpha; hide Eliminate;
    var g := Generator(n);
    forall k | 0 <= k < n ensures Eval(Eliminate(r, i, g, lead), Alpha(k)) == Eval(r, Alpha(k)) {
      GeneratorRoots(n, k);
      EliminateKeepsRoot(r, i, g, lead, Alpha(k));
    }
    forall k | 0 <= k <= i ensures Eliminate(r, i, g, lead)[k] == ZERO {
      EliminateAt(r, i, g, lead, k);
      MulOne(lead);
      XorZero(lead);
    }
  }

  lemma RemainderIsParity(data: Poly, ec: Poly)
    requires SameSyndromes(Zeros(|data|) + ec, data + Zeros(|ec|), |ec|)
    ensures IsParity(data, ec)
  {
    hide Mul; hide Xor; hide Alpha;
    var n := |ec|;
    forall k | 0 <= k < n ensures Eval(data + ec, Alpha(k)) == ZERO {
      var x := Alpha(k);
      var p, q := Zeros(|data|) + ec, data + Zeros(n);
      forall i | 0 <= i < |data| + n ensures Xor(p[i], q[i]) == (data + ec)[i] { XorZero(p[i]); XorZero(q[i]); }
      assert Add(p, q) == data + ec;
      EvalAdd(p, q, x);
      XorZero(Eval(p, x));
    }
  }
}
