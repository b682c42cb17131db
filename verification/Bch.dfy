/** Cyclic codes over bits: words that a generator polynomial divides. Bit strings list the highest power first. */
module Bch {
  import opened Bits

  function Blank(n: nat): (b: Bits)
    ensures |b| == n && forall i :: 0 <= i < n ==> !b[i]
  {
    seq(n, i => false)
  }

  /** A generator polynomial: its highest coefficient is one. */
  type Generator = g: Bits | |g| >= 1 && g[0] witness [true]

  /** The remainder of a word divided by a generator. */
  function Remainder(w: Bits, gen: Generator): (r: Bits)
    requires |w| >= |gen| - 1
    ensures |r| == |gen| - 1
    decreases |w|
  {
    if |w| == |gen| - 1 then w
    else Remainder((if w[0] then Xor(w, gen + Blank(|w| - |gen|)) else w)[1..], gen)
  }

  lemma RemainderStep(w: Bits, gen: Generator)
    requires |w| >= |gen|
    ensures Remainder(w, gen) == Remainder((if w[0] then Xor(w, gen + Blank(|w| - |gen|)) else w)[1..], gen)
  {}

  lemma RemainderOfRemainder(w: Bits, gen: Generator)
    requires |w| == |gen| - 1
    ensures Remainder(w, gen) == w
  {}

  /** Remainders add. */
  lemma {:induction false} RemainderAdd(a: Bits, b: Bits, gen: Generator)
    requires |a| == |b| >= |gen| - 1
    ensures Remainder(Xor(a, b), gen) == Xor(Remainder(a, gen), Remainder(b, gen))
    decreases |a|
  {
    hide Remainder;
    if |a| >= |gen| {
      var g, c := gen + Blank(|a| - |gen|), Xor(a, b);
      var a', b' := (if a[0] then Xor(a, g) else a)[1..], (if b[0] then Xor(b, g) else b)[1..];
      RemainderAdd(a', b', gen);
      RemainderStep(a, gen); RemainderStep(b, gen); RemainderStep(c, gen);
      assert (if c[0] then Xor(c, g) else c)[1..] == Xor(a', b');
    } else {
      RemainderOfRemainder(a, gen); RemainderOfRemainder(b, gen); RemainderOfRemainder(Xor(a, b), gen);
    }
  }

  lemma {:induction false} RemainderOfShort(n: nat, r: Bits, gen: Generator)
    requires |r| == |gen| - 1
    ensures Remainder(Blank(n) + r, gen) == r
  {
    if n > 0 {
      RemainderOfShort(n - 1, r, gen);
      assert (Blank(n) + r)[1..] == Blank(n - 1) + r;
    } else {
      assert Blank(0) + r == r;
    }
  }

  /** The generator divides itself, times any power. */
  lemma {:induction false} Multiple(n: nat, gen: Generator, m: nat)
    ensures Remainder(Blank(n) + gen + Blank(m), gen) == Blank(|gen| - 1)
  {
    var w := Blank(n) + gen + Blank(m);
    if n > 0 {
      Multiple(n - 1, gen, m);
      assert w[1..] == Blank(n - 1) + gen + Blank(m);
    } else {
      var g := gen + Blank(m);
      assert w == g && Blank(|w| - |gen|) == Blank(m);
      assert Xor(g, g)[1..] == Blank(m) + Blank(|gen| - 1);
      RemainderOfShort(m, Blank(|gen| - 1), gen);
      RemainderStep(w, gen);
    }
  }

  /** Sums of words that a generator divides are divided by it. */
  lemma SumOfMultiples(a: Bits, b: Bits, gen: Generator)
    requires |a| == |b| >= |gen| - 1 && Remainder(a, gen) == Blank(|gen| - 1) == Remainder(b, gen)
    ensures Remainder(Xor(a, b), gen) == Blank(|gen| - 1)
  {
    RemainderAdd(a, b, gen);
    assert Xor(Blank(|gen| - 1), Blank(|gen| - 1)) == Blank(|gen| - 1);
  }
}
