/** Format information: clause 7.9 of ISO/IEC 18004:2015. A word is five data bits, ten BCH check bits and a
    fixed mask; bit 14 comes first. */
module QrFormat {
  import opened Bits
  import opened Bch
  import opened QrLayout
  import opened QrZigzag

  // x^10 + x^8 + x^5 + x^4 + x^2 + x + 1
  const BCH_GENERATOR: Generator := [true, false, true, false, false, true, true, false, true, true, true]
  const FORMAT_MASK: Bits := [true, false, true, false, true, false, false, false, false, false, true, false, false, true, false]

  /** f announces level M and this mask, with correct check bits. */
  ghost predicate IsFormatWord(f: Bits, mask: nat) {
    && |f| == 15
    && var w := Xor(f, FORMAT_MASK);
    && Remainder(w, BCH_GENERATOR) == Blank(10)
    && !w[0] && !w[1] && Value(w[2..5]) == mask
  }

  /** What a reader makes of fifteen bits: the mask, or none when the level is not M or the check fails. */
  function ReadFormat(f: Bits): int
    requires |f| == 15
  {
    var w := Xor(f, FORMAT_MASK);
    if Remainder(w, BCH_GENERATOR) == Blank(10) && !w[0] && !w[1] then Value(w[2..5]) else -1
  }

  /** One round of the check-bit loop: cancel bit 14 - k with the shifted generator. */
  lemma CheckStep(before: Bits, k: nat)
    requires |before| == 15 && k < 5 && before[..k] == Blank(k)
    ensures var after := if before[k] then Xor(before, Blank(k) + BCH_GENERATOR + Blank(4 - k)) else before;
      after[..k + 1] == Blank(k + 1) && Remainder(after[k + 1..], BCH_GENERATOR) == Remainder(before[k..], BCH_GENERATOR)
  {
    hide Remainder;
    var g := BCH_GENERATOR + Blank(4 - k);
    var after := if before[k] then Xor(before, Blank(k) + BCH_GENERATOR + Blank(4 - k)) else before;
    forall i | 0 <= i <= k ensures !after[i] {
      if i < k { assert before[i] == before[..k][i]; }
    }
    assert before[k..][0] == before[k];
    assert after[k + 1..] == (if before[k] then Xor(before[k..], g) else before[k..])[1..];
    RemainderStep(before[k..], BCH_GENERATOR);
  }

  /** formatBits: level, mask, and the remainder of their division as check bits. */
  method FormatBits(mask: nat) returns (f: Bits)
    requires mask < 8
    ensures |f| == 15 && IsFormatWord(f, mask)
  {
    hide Remainder; hide LowBits;
    // level M is 00
    var data: Bits := [false, false] + LowBits(mask, 3);
    var rem := data + Blank(10);
    for k := 0 to 5
      invariant |rem| == 15 && rem[..k] == Blank(k)
      invariant Remainder(rem[k..], BCH_GENERATOR) == Remainder(data + Blank(10), BCH_GENERATOR)
    {
      // bit 14 - k
      CheckStep(rem, k);
      if rem[k] {
        rem := Xor(rem, Blank(k) + BCH_GENERATOR + Blank(4 - k));
      }
    }
    var shifted := data + Blank(10);
    var w := seq(15, i requires 0 <= i < 15 => shifted[i] || rem[i]);
    f := Xor(w, FORMAT_MASK);
    FormatCorrect(data, rem, w);
    assert Xor(f, FORMAT_MASK) == w;
    ValueOfLowBits(mask, 3);
    assert w[0] == w[..5][0] && w[1] == w[..5][1];
    assert w[2..5] == w[..5][2..] == LowBits(mask, 3);
  }

  lemma FormatCorrect(data: Bits, rem: Bits, w: Bits)
    requires |data| == 5 && |rem| == |w| == 15
    requires rem[..5] == Blank(5) && Remainder(rem[5..], BCH_GENERATOR) == Remainder(data + Blank(10), BCH_GENERATOR)
    requires forall i :: 0 <= i < 15 ==> w[i] == ((data + Blank(10))[i] || rem[i])
    ensures Remainder(w, BCH_GENERATOR) == Blank(10)
    ensures w[..5] == data
  {
    var a := data + Blank(10);
    assert rem == Blank(5) + rem[5..];
    RemainderOfShort(5, rem[5..], BCH_GENERATOR);
    assert w == Xor(a, rem);
    RemainderAdd(a, rem, BCH_GENERATOR);
    assert Xor(rem[5..], rem[5..]) == Blank(10);
  }

  /** Where bit i of the first copy is: around the top left finder. */
  function FormatModule1(i: nat): Module {
    if i <= 5 then Module(8, i)
    else if i == 6 then Module(8, 7)
    else if i == 7 then Module(8, 8)
    else if i == 8 then Module(7, 8)
    else Module(14 - i, 8)
  }

  /** Where bit i of the second copy is: below the top right finder, then beside the bottom left one. */
  function FormatModule2(size: nat, i: nat): Module {
    if i <= 7 then Module(size - 1 - i, 8) else Module(8, size - 15 + i)
  }

  /** The bit of the format word shown at (x, y), or -1. */
  function FormatBitAt(size: nat, x: int, y: int): (i: int)
    ensures y < size ==> i <= 14 || x < 0
  {
    if x == 8 && y <= 5 then y
    else if x == 8 && y == 7 then 6
    else if x == 8 && y == 8 then 7
    else if x == 7 && y == 8 then 8
    else if y == 8 && x <= 5 then 14 - x
    else if y == 8 && x >= size - 8 then size - 1 - x
    else if x == 8 && y >= size - 7 then y - (size - 15)
    else -1
  }

  lemma FormatModules(size: nat, i: nat)
    requires size >= 21 && i < 15
    ensures var m := FormatModule1(i); InSymbol(size, m) && InFormat(size, m.x, m.y) && FormatBitAt(size, m.x, m.y) == i
    ensures var m := FormatModule2(size, i);
      InSymbol(size, m) && InFormat(size, m.x, m.y) && FormatBitAt(size, m.x, m.y) == i
  {}

  /** Format bits stand only on modules reserved for them, and never on the timing patterns. */
  lemma FormatReserved(size: nat, x: int, y: int)
    requires size >= 21 && 0 <= x < size && 0 <= y < size
    ensures 0 <= FormatBitAt(size, x, y) <= 14 || (x == 8 && y == size - 8) <==> InFormat(size, x, y) && !InTiming(x, y)
    ensures FormatBitAt(size, x, y) <= 14
  {}
}
