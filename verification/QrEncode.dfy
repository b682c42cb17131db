/** Encode: from a payload to a symbol. The standard leaves no choice but the mask, and neither do the contracts
    here: the symbol for a payload and a mask is unique. */
module QrEncode {
  import opened Basics
  import opened Arithmetic
  import opened Bits
  import opened Bch
  import opened Gf256
  import opened Polynomials
  import opened ReedSolomon
  import opened QrCodewords
  import opened QrLayout
  import opened QrZigzag
  import opened QrFormat
  import opened QrSymbol

  /** g is a symbol of the smallest version for the payload, under this mask. */
  ghost predicate Encodes(payload: seq<Byte>, mask: nat, g: Grid) {
    exists k, cw ::
      && 0 <= k < |VERSIONS| && IsSmallestVersion(VERSIONS[k], |payload|)
      && IsCodewords(payload, VERSIONS[k], cw) && IsSymbol(k + 1, cw, mask, g)
  }

  /** Every symbol of a payload reads back as that payload, from either copy of the format information. */
  lemma RoundTrip(payload: seq<Byte>, mask: nat, g: Grid, copy: nat)
    requires mask < 8 && 1 <= copy <= 2
    requires Encodes(payload, mask, g)
    ensures ReadSymbol(g, copy) == Some(payload)
  {
    hide IsSymbol; hide IsCodewords; hide IsSmallestVersion; hide ReadSymbol;
    var k, cw :|
      && 0 <= k < |VERSIONS| && IsSmallestVersion(VERSIONS[k], |payload|)
      && IsCodewords(payload, VERSIONS[k], cw) && IsSymbol(k + 1, cw, mask, g);
    SymbolRoundTrip(payload, k, cw, mask, g, copy);
  }

  // ---- the symbol is determined ----

  lemma VersionUnique(k: nat, l: nat, n: nat)
    requires k < |VERSIONS| && l < |VERSIONS|
    requires IsSmallestVersion(VERSIONS[k], n) && IsSmallestVersion(VERSIONS[l], n)
    ensures k == l
  {
    hide QrVersion.Fits; hide QrVersion.WellShaped;
    VersionsWellShaped(k);
    VersionsWellShaped(l);
    var i :| 0 <= i < |VERSIONS| && VERSIONS[k] == VERSIONS[i] && VERSIONS[i].Fits(n) && forall j :: 0 <= j < i ==> !VERSIONS[j].Fits(n);
    var m :| 0 <= m < |VERSIONS| && VERSIONS[l] == VERSIONS[m] && VERSIONS[m].Fits(n) && forall j :: 0 <= j < m ==> !VERSIONS[j].Fits(n);
    VersionsWellShaped(i);
    VersionsWellShaped(m);
  }

  lemma FlattenInjective(a: seq<Byte>, b: seq<Byte>)
    requires Flatten(a) == Flatten(b)
    ensures a == b
  {
    hide Flatten;
    assert |Flatten(a)| == 8 * |a| && |Flatten(b)| == 8 * |b|;
    forall i | 0 <= i < |a| ensures a[i] == b[i] {
      FlattenSlice(a, i);
      FlattenSlice(b, i);
    }
  }

  lemma DataCodewordsUnique(payload: seq<Byte>, v: QrVersion, d: seq<Byte>, e: seq<Byte>)
    requires IsDataCodewords(payload, v, d) && IsDataCodewords(payload, v, e)
    ensures d == e
  {
    hide Flatten; hide Stream;
    var used := (8 + v.LenBits()) / 8 + |payload|;
    FlattenInjective(d[..used], e[..used]);
    forall i | 0 <= i < |d| ensures d[i] == e[i] {
      if i < used { assert d[i] == d[..used][i]; }
    }
  }

  /** Every position of the final sequence belongs to a block. */
  lemma PositionCovered(v: QrVersion, p: nat) returns (b: nat, i: nat)
    requires v.WellShaped() && p < v.Total()
    ensures b < v.Blocks()
    ensures if p < v.dataBytes then i < v.BlockLen(b) && v.DataAt(b, i) == p else i < v.ecPerBlk && v.EcAt(b, i) == p
  {
    var nb := v.Blocks();
    DataCount(v);
    if p < v.blk1 * nb {
      i, b := Split(v.blk1, nb, p);
    } else if p < v.dataBytes {
      i, b := v.blk1, v.group1 + (p - v.blk1 * nb);
    } else {
      Commute(nb, v.ecPerBlk);
      i, b := Split(v.ecPerBlk, nb, p - v.dataBytes);
    }
  }

  lemma Commute(a: nat, b: nat)
    ensures a * b == b * a
  {}

  lemma Split(n: nat, d: nat, p: nat) returns (q: nat, r: nat)
    requires p < n * d
    ensures q < n && r < d && p == q * d + r
  {
    q, r := 0, p;
    while r >= d
      invariant q < n && p == q * d + r
      decreases r
    {
      MulStep(q, n, d);
      if q + 1 == n { assert false; }
      q, r := q + 1, r - d;
    }
  }

  /** Data codewords have one interleaving, error correction included. */
  lemma InterleavingUnique(v: QrVersion, d: seq<Byte>, cw: seq<Byte>, other: seq<Byte>)
    requires v.WellShaped() && |d| == v.dataBytes
    requires IsInterleaving(v, d, cw) && IsInterleaving(v, d, other)
    ensures cw == other
  {
    hide IsParity; hide QrVersion.DataAt; hide QrVersion.EcAt; hide QrVersion.Total;
    forall p | 0 <= p < |cw| ensures cw[p] == other[p] {
      var b, i := PositionCovered(v, p);
      assert BlockInterleaved(v, d, cw, b) && BlockInterleaved(v, d, other, b);
      if p < v.dataBytes {
        assert DataBlock(v, cw, b)[i] == DataBlock(v, other, b)[i];
      } else {
        ParityUnique(DataBlock(v, cw, b), EcBlock(v, cw, b), EcBlock(v, other, b));
        assert EcBlock(v, cw, b)[i] == EcBlock(v, other, b)[i];
      }
    }
  }

  /** One format word announces a mask. */
  lemma FormatWordUnique(f: Bits, g: Bits, mask: nat)
    requires IsFormatWord(f, mask) && IsFormatWord(g, mask)
    ensures f == g
  {
    var a, b := Xor(f, FORMAT_MASK), Xor(g, FORMAT_MASK);
    ValueInjective(a[2..5], b[2..5]);
    var d := Xor(a, b);
    RemainderAdd(a, b, BCH_GENERATOR);
    forall i | 0 <= i < 5 ensures !d[i] {
      if i >= 2 { assert a[i] == a[2..5][i - 2] && b[i] == b[2..5][i - 2]; }
    }
    assert d == Blank(5) + d[5..];
    RemainderOfShort(5, d[5..], BCH_GENERATOR);
    assert Xor(Blank(10), Blank(10)) == Blank(10);
    forall i | 0 <= i < 15 ensures f[i] == g[i] {
      assert d[i] == (a[i] != b[i]);
      if i >= 5 { assert d[i] == d[5..][i - 5]; }
    }
  }

  /** Codewords and a mask have one symbol. */
  lemma SymbolUnique(v: nat, cw: seq<Byte>, mask: nat, g: Grid, h: Grid)
    requires IsSymbol(v, cw, mask, g) && IsSymbol(v, cw, mask, h)
    ensures g == h
  {
    hide IsFunction; hide PatternDark; hide MaskCondition; hide Shows; hide DataPath; hide IsFormatWord;
    hide FormatBitsOf;
    var size := Size(v);
    FormatWordUnique(FormatBitsOf(g, size, 1), FormatBitsOf(h, size, 1), mask);
    forall x, y | 0 <= x < size && 0 <= y < size ensures g[y][x] == h[y][x] {
      if !IsFunction(v, x, y) {
        DataPathExact(v, Module(x, y));
        var k :| 0 <= k < |DataPath(v)| && DataPath(v)[k] == Module(x, y);
      } else if InFormatOnly(size, x, y) {
        FormatShowsEverywhere(g, h, size, x, y);
      }
    }
    forall y | 0 <= y < size ensures g[y] == h[y] {
      assert forall x :: 0 <= x < size ==> g[y][x] == h[y][x];
    }
  }

  lemma FormatShowsEverywhere(g: Grid, h: Grid, size: nat, x: int, y: int)
    requires size >= 21 && IsSquare(g, size) && IsSquare(h, size) && 0 <= x < size && 0 <= y < size
    requires InFormatOnly(size, x, y)
    requires FormatBitsOf(g, size, 1) == FormatBitsOf(h, size, 1) && FormatBitsOf(g, size, 2) == FormatBitsOf(h, size, 2)
    requires g[size - 8][8] == h[size - 8][8]
    ensures g[y][x] == h[y][x]
  {
    if x != 8 || y != size - 8 {
      FormatReserved(size, x, y);
      var i := FormatBitAt(size, x, y);
      var copy := if x <= 8 && y <= 8 then 1 else 2;
      assert Module(x, y) == if copy == 1 then FormatModule1(i) else FormatModule2(size, i);
      assert FormatBitsOf(g, size, copy)[14 - i] == g[y][x];
      assert FormatBitsOf(h, size, copy)[14 - i] == h[y][x];
    }
  }

  lemma CodewordsUnique(payload: seq<Byte>, v: QrVersion, cw: seq<Byte>, other: seq<Byte>)
    requires IsCodewords(payload, v, cw) && IsCodewords(payload, v, other)
    ensures cw == other
  {
    hide IsInterleaving; hide Flatten; hide Stream;
    var d :| IsDataCodewords(payload, v, d) && IsInterleaving(v, d, cw);
    var e :| IsDataCodewords(payload, v, e) && IsInterleaving(v, e, other);
    DataCodewordsUnique(payload, v, d, e);
    InterleavingUnique(v, d, cw, other);
  }

  /** A payload and a mask have one symbol. */
  lemma EncodingUnique(payload: seq<Byte>, mask: nat, g: Grid, h: Grid)
    requires Encodes(payload, mask, g) && Encodes(payload, mask, h)
    ensures g == h
  {
    hide IsSymbol; hide IsSmallestVersion; hide IsCodewords;
    var k, cw :|
      && 0 <= k < |VERSIONS| && IsSmallestVersion(VERSIONS[k], |payload|)
      && IsCodewords(payload, VERSIONS[k], cw) && IsSymbol(k + 1, cw, mask, g);
    var l, other :|
      && 0 <= l < |VERSIONS| && IsSmallestVersion(VERSIONS[l], |payload|)
      && IsCodewords(payload, VERSIONS[l], other) && IsSymbol(l + 1, other, mask, h);
    VersionUnique(k, l, |payload|);
    CodewordsUnique(payload, VERSIONS[k], cw, other);
    SymbolUnique(k + 1, cw, mask, g, h);
  }

  /** Encode draws the symbol under every mask and keeps the one that scores lowest, the first of equals. The
      score is a parameter. */
  method Encode(t: Tables, payload: seq<Byte>, penalty: Grid -> nat) returns (r: Option<Grid>)
    requires t.Valid()
    ensures r.None? <==> |payload| > MAX_PAYLOAD
    ensures r.Some? ==> exists mask: nat ::
      && mask < 8 && Encodes(payload, mask, r.value)
      && (forall other: nat, g :: other < 8 && Encodes(payload, other, g) ==>
            penalty(r.value) <= penalty(g) && (other < mask ==> penalty(r.value) < penalty(g)))
    ensures r.Some? ==> ReadSymbol(r.value, 1) == Some(payload) == ReadSymbol(r.value, 2)
  {
    hide IsSymbol; hide IsSmallestVersion; hide IsCodewords; hide ReadSymbol;
    var encoded := EncodeData(t, payload);
    if encoded.None? {
      return None;
    }
    var v, data := encoded.value.0, encoded.value.1;
    ghost var k := VersionRow(v, |payload|);
    var best: int := -1;
    var bestGrid: Grid := [];
    ghost var chosen: nat := 0;
    for mask := 0 to 8
      invariant best < 0 <==> mask == 0
      invariant mask > 0 ==> chosen < mask && Encodes(payload, chosen, bestGrid) && best == penalty(bestGrid)
      invariant forall other: nat, g :: other < mask && Encodes(payload, other, g) ==>
        best <= penalty(g) && (other < chosen ==> best < penalty(g))
    {
      var m := EncodeWithMask(v.version, data, mask);
      assert Encodes(payload, mask, m);
      forall g | Encodes(payload, mask, g) ensures g == m { EncodingUnique(payload, mask, g, m); }
      var p := penalty(m);
      if best < 0 || p < best {
        best, bestGrid, chosen := p, m, mask;
      }
    }
    RoundTrip(payload, chosen, bestGrid, 1);
    RoundTrip(payload, chosen, bestGrid, 2);
    return Some(bestGrid);
  }

  lemma VersionRow(v: QrVersion, n: nat) returns (k: nat)
    requires IsSmallestVersion(v, n)
    ensures k < |VERSIONS| && VERSIONS[k] == v && v.version == k + 1
  {
    k :| 0 <= k < |VERSIONS| && v == VERSIONS[k];
    VersionsWellShaped(k);
  }
}
