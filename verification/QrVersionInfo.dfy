/** Version information: clause 7.10 and Annex D of ISO/IEC 18004:2015. A word is the six bits of the version and
    twelve check bits; bit 17 comes first. */
module QrVersionInfo {
  import opened Bits
  import opened Bch
  import opened QrLayout

  // x^12 + x^11 + x^10 + x^9 + x^8 + x^5 + x^2 + 1
  const VERSION_GENERATOR: Generator := [true, true, true, true, true, false, false, true, false, false, true, false, true]

  /** f announces version v, with correct check bits. */
  ghost predicate IsVersionWord(f: Bits, v: nat) {
    |f| == 18 && Remainder(f, VERSION_GENERATOR) == Blank(12) && Value(f[..6]) == v
  }

  /** What a reader makes of eighteen bits: the version, or none when the check fails. */
  function ReadVersion(f: Bits): int
    requires |f| == 18
  {
    if Remainder(f, VERSION_GENERATOR) == Blank(12) then Value(f[..6]) else -1
  }

  /** The generator, moved up by i. */
  function Shifted(i: nat): (s: Bits)
    requires i <= 5
    ensures |s| == 18 && Remainder(s, VERSION_GENERATOR) == Blank(12)
  {
    Multiple(5 - i, VERSION_GENERATOR, i);
    Blank(5 - i) + VERSION_GENERATOR + Blank(i)
  }

  const WORD7: Bits := [false, false, false, true, true, true, true, true, false, false, true, false, false, true, false, true, false, false]
  const WORD8: Bits := [false, false, true, false, false, false, false, true, false, true, true, false, true, true, true, true, false, false]
  const WORD9: Bits := [false, false, true, false, false, true, true, false, true, false, true, false, false, true, true, false, false, true]
  const WORD10: Bits := [false, false, true, false, true, false, false, true, false, false, true, true, false, true, false, false, true, true]

  function Word(v: nat): Bits
    requires 7 <= v <= 10
  {
    if v == 7 then WORD7 else if v == 8 then WORD8 else if v == 9 then WORD9 else WORD10
  }

  lemma ShiftedAt(i: nat)
    requires i <= 5
    ensures forall k :: 0 <= k < 18 ==> Shifted(i)[k] == (5 - i <= k < 18 - i && VERSION_GENERATOR[k - (5 - i)])
  {}

  lemma WordSums()
    ensures var a, b := Xor(Shifted(3), Shifted(2)), Xor(Shifted(1), Shifted(0));
      WORD7 == Shifted(2) && WORD8 == a && WORD9 == Xor(a, Shifted(0)) && WORD10 == Xor(a, b)
  {
    hide Remainder; hide Shifted; hide Xor;
    FirstWords();
    LastWords();
  }

  lemma FirstWords()
    ensures WORD7 == Shifted(2) && WORD8 == Xor(Shifted(3), Shifted(2))
  {
    hide Remainder; hide Shifted; hide Xor;
    ShiftedAt(2); ShiftedAt(3);
  }

  lemma LastWords()
    ensures WORD9 == Xor(WORD8, Shifted(0)) && WORD10 == Xor(WORD8, Xor(Shifted(1), Shifted(0)))
  {
    hide Remainder; hide Shifted; hide Xor;
    ShiftedAt(0); ShiftedAt(1);
  }

  lemma WordsDivide(v: nat)
    requires 7 <= v <= 10
    ensures |Word(v)| == 18 && Remainder(Word(v), VERSION_GENERATOR) == Blank(12)
  {
    hide Remainder; hide Shifted; hide Xor;
    var a, b := Xor(Shifted(3), Shifted(2)), Xor(Shifted(1), Shifted(0));
    SumOfMultiples(Shifted(3), Shifted(2), VERSION_GENERATOR);
    SumOfMultiples(Shifted(1), Shifted(0), VERSION_GENERATOR);
    SumOfMultiples(a, Shifted(0), VERSION_GENERATOR);
    SumOfMultiples(a, b, VERSION_GENERATOR);
    WordSums();
  }

  lemma WordValues(v: nat)
    requires 7 <= v <= 10
    ensures |Word(v)| == 18 && Value(Word(v)) == VERSION_INFO[v] && Value(Word(v)[..6]) == v
  {
    hide Value; hide Digit; hide Remainder;
    ValueOf18(Word(v));
    WordDigits(v);
  }

  /** The value of six bits, from bit i of w on. */
  function Digit(w: Bits, i: nat): nat
    requires i + 6 <= |w|
  {
    32 * Unit(w[i]) + 16 * Unit(w[i + 1]) + 8 * Unit(w[i + 2]) + 4 * Unit(w[i + 3]) + 2 * Unit(w[i + 4]) + Unit(w[i + 5])
  }

  lemma WordDigits(v: nat)
    requires 7 <= v <= 10
    ensures |Word(v)| == 18 && Digit(Word(v), 0) == v
    ensures 4096 * v + 64 * Digit(Word(v), 6) + Digit(Word(v), 12) == VERSION_INFO[v]
  {
    hide Value; hide Remainder;
  }

  lemma ValueOf18(w: Bits)
    requires |w| == 18
    ensures Value(w[..6]) == Digit(w, 0)
    ensures Value(w) == 4096 * Digit(w, 0) + 64 * Digit(w, 6) + Digit(w, 12)
  {
    hide Value; hide Digit; hide Pow;
    ValueAt(w, 0); ValueAt(w, 6); ValueAt(w, 12);
    assert w[0..6] == w[..6] && w[12..18] == w[12..];
    ValueConcat(w[..6], w[6..12]); ValueConcat(w[..6] + w[6..12], w[12..]);
    assert w == w[..6] + w[6..12] + w[12..];
    PowOf6();
  }

  lemma ValueAt(w: Bits, i: nat)
    requires i + 6 <= |w|
    ensures Value(w[i..i + 6]) == Digit(w, i)
  {
    hide Value;
    ValueOf6(w[i..i + 6]);
  }

  lemma PowOf6()
    ensures Pow(6) == 64
  {
    assert Pow(3) == 8;
  }

  /** A version's word announces it, and is the one in the table of Annex D. */
  lemma VersionWord(v: nat)
    requires 7 <= v <= 10
    ensures IsVersionWord(Word(v), v)
    ensures Value(Word(v)) == if v == 7 then 0x07C94 else if v == 8 then 0x085BC else if v == 9 then 0x09A99 else 0x0A4D3
  {
    hide Value; hide Word;
    WordsDivide(v);
    WordValues(v);
  }

  lemma WordBit(v: nat, i: nat)
    requires 7 <= v <= 10 && i < 18
    ensures |Word(v)| == 18 && Word(v)[17 - i] == BitAt(VERSION_INFO[v], i)
  {
    hide Value; hide Word; hide BitAt;
    WordValues(v);
    BitsOfValue(Word(v), i);
  }

  lemma BitsOfValue(w: Bits, i: nat)
    requires i < |w|
    ensures w[|w| - 1 - i] == BitAt(Value(w), i)
  {
    hide Value;
    LowBitsOfValue(w);
    BitAtLow(Value(w), |w|, i);
  }

  lemma {:induction false} BitAtLow(value: nat, n: nat, i: nat)
    requires i < n
    ensures LowBits(value, n)[n - 1 - i] == BitAt(value, i)
  {
    if i > 0 { BitAtLow(value / 2, n - 1, i - 1); }
  }
}
