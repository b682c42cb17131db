/** Symbols held against the figures and tables of ISO/IEC 18004:2015. */
module QrFigures {
  import opened Arithmetic
  import opened Bits
  import opened Bch
  import opened Gf256
  import opened QrCodewords
  import opened QrLayout
  import opened QrZigzag
  import opened QrMatrix
  import opened QrFormat
  import opened QrSymbol
  import opened QrEncode

  // ---- function patterns ----

  /** A finder pattern with its separator, at the top left (Figure 3). */
  const FINDER: seq<string> := [
    "#######.", "#.....#.", "#.###.#.", "#.###.#.", "#.###.#.", "#.....#.", "#######.", "........"
  ]

  /** An alignment pattern (Figure 6). */
  const ALIGNMENT: seq<string> := ["#####", "#...#", "#.#.#", "#...#", "#####"]

  /** The three finders look like the figure, and like its mirror images. */
  lemma FindersShown(v: nat, g: Grid, a: nat, b: nat)
    requires Draws(v, g) && a < 8 && b < 8
    ensures IsSquare(g, Size(v)) && Size(v) >= 21
    ensures g[b][a] == g[b][Size(v) - 1 - a] == g[Size(v) - 1 - b][a] == (FINDER[b][a] == '#')
  {
    FinderFigure(a, b);
    InFigure(v, a, b);
    hide PatternDark; hide IsFunction; hide InFormatOnly;
  }

  lemma FinderFigure(a: nat, b: nat)
    requires a < 8 && b < 8
    ensures |FINDER[b]| == 8 && (FINDER[b][a] == '#' <==> var r := Ring(a, b, 3, 3); r <= 3 && r != 2)
  {
    var row := FINDER[b];
    if b == 0 || b == 6 {
      assert row == "#######.";
    } else if b == 1 || b == 5 {
      assert row == "#.....#.";
    } else if b < 6 {
      assert row == "#.###.#.";
    } else {
      assert row == "........";
    }
  }

  lemma InFigure(v: nat, a: nat, b: nat)
    requires 1 <= v <= 10 && a < 8 && b < 8
    ensures var s := Size(v); var r := Ring(a, b, 3, 3); var dark := r <= 3 && r != 2;
      && PatternDark(v, a, b) == PatternDark(v, s - 1 - a, b) == PatternDark(v, a, s - 1 - b) == dark
      && IsFunction(v, a, b) && IsFunction(v, s - 1 - a, b) && IsFunction(v, a, s - 1 - b)
      && !InFormatOnly(s, a, b) && !InFormatOnly(s, s - 1 - a, b) && !InFormatOnly(s, a, s - 1 - b)
  {}

  /** The coordinates of alignment patterns: from version 2 on in the sixth column from either side, and from version
      7 on in the middle too (Annex E). */
  function Lines(v: nat): set<int> {
    if v == 1 then {} else if v < 7 then {6, Size(v) - 7} else {6, (Size(v) - 1) / 2, Size(v) - 7}
  }

  /** There is an alignment pattern wherever two such lines cross, but for the corners with finders. */
  lemma AlignmentsShown(v: nat, g: Grid, cx: int, cy: int, a: nat, b: nat)
    requires Draws(v, g) && cx in Lines(v) && cy in Lines(v) && a < 5 && b < 5
    requires !(cx == 6 && cy == 6) && !(cx == 6 && cy == Size(v) - 7) && !(cx == Size(v) - 7 && cy == 6)
    ensures IsSquare(g, Size(v)) && 2 <= cx < Size(v) - 2 && 2 <= cy < Size(v) - 2
    ensures g[cy - 2 + b][cx - 2 + a] == (ALIGNMENT[b][a] == '#')
  {
    hide PatternDark; hide IsFunction; hide InFormatOnly; hide Ring; hide Lines;
    AlignmentFigure(cx, cy, a, b);
    InCrossing(v, cx, cy, cx - 2 + a, cy - 2 + b);
  }

  lemma AlignmentFigure(cx: int, cy: int, a: nat, b: nat)
    requires a < 5 && b < 5
    ensures |ALIGNMENT[b]| == 5 && (ALIGNMENT[b][a] == '#' <==> Ring(cx - 2 + a, cy - 2 + b, cx, cy) != 1)
    ensures Abs(cx - 2 + a - cx) <= 2 && Abs(cy - 2 + b - cy) <= 2
  {}

  lemma LineIsCentre(v: nat, c: int) returns (i: nat)
    requires 1 <= v <= 10 && c in Lines(v)
    ensures i < |CENTRES[v]| && CENTRES[v][i] == c
  {
    i := if c == 6 then 0 else if v >= 7 && c == Size(v) - 7 then 2 else 1;
  }

  lemma InCrossing(v: nat, cx: int, cy: int, x: int, y: int)
    requires 1 <= v <= 10 && cx in Lines(v) && cy in Lines(v) && Abs(x - cx) <= 2 && Abs(y - cy) <= 2
    requires !(cx == 6 && cy == 6) && !(cx == 6 && cy == Size(v) - 7) && !(cx == Size(v) - 7 && cy == 6)
    ensures 4 <= cx <= Size(v) - 7 && 4 <= cy <= Size(v) - 7
    ensures IsFunction(v, x, y) && !InFormatOnly(Size(v), x, y) && PatternDark(v, x, y) == (Ring(x, y, cx, cy) != 1)
  {
    var i := LineIsCentre(v, cx);
    var j := LineIsCentre(v, cy);
    BandOf(v, i, x);
    BandOf(v, j, y);
    CentresFit(v, i);
    CentresFit(v, j);
    RegionsAreApart(v, x, y);
    hide Band; hide InFinder; hide InFormat; hide InVersion; hide InTiming; hide Ring; hide Abs;
  }

  /** The timing patterns alternate, dark on even coordinates. */
  lemma TimingShown(v: nat, g: Grid, k: nat)
    requires Draws(v, g) && 8 <= k < Size(v) - 8
    ensures IsSquare(g, Size(v)) && g[6][k] == g[k][6] == (k % 2 == 0)
  {
    OnTiming(v, k);
    hide PatternDark; hide IsFunction; hide InFormatOnly;
  }

  lemma OnTiming(v: nat, k: nat)
    requires 1 <= v <= 10 && 8 <= k < Size(v) - 8
    ensures PatternDark(v, k, 6) == PatternDark(v, 6, k) == (k % 2 == 0)
    ensures IsFunction(v, k, 6) && IsFunction(v, 6, k) && !InFormatOnly(Size(v), k, 6) && !InFormatOnly(Size(v), 6, k)
  {}

  // ---- format information ----

  /** The format words of level M, mask by mask (Table C.1). */
  const FORMAT_WORDS: seq<string> := [
    "101010000010010", "101000100100101", "101111001111100", "101101101001011",
    "100010111111001", "100000011001110", "100111110010111", "100101010100000"
  ]

  function FormatWord(mask: nat): (w: Bits)
    requires mask < 8
    ensures |w| == 15
  {
    seq(15, i requires 0 <= i < 15 => |FORMAT_WORDS[mask]| == 15 && FORMAT_WORDS[mask][i] == '1')
  }

  /** The generator, moved up by i. */
  function Times(i: nat): (w: Bits)
    requires i <= 4
    ensures |w| == 15 && Remainder(w, BCH_GENERATOR) == Blank(10)
  {
    Multiple(4 - i, BCH_GENERATOR, i);
    Blank(4 - i) + BCH_GENERATOR + Blank(i)
  }

  lemma TimesAt(i: nat)
    requires i <= 4
    ensures forall k :: 0 <= k < 15 ==> Times(i)[k] == (4 - i <= k < 15 - i && BCH_GENERATOR[k - (4 - i)])
  {}

  /** Each word of the table, without the fixed mask, is a sum of multiples of the generator. */
  function Sum(mask: nat): (w: Bits)
    requires mask < 8
    ensures |w| == 15 && Remainder(w, BCH_GENERATOR) == Blank(10)
  {
    var g0, g1, g2 := Times(0), Times(1), Times(2);
    SumOfMultiples(g0, g0, BCH_GENERATOR); SumOfMultiples(g0, g1, BCH_GENERATOR); SumOfMultiples(g0, g2, BCH_GENERATOR);
    SumOfMultiples(g1, g2, BCH_GENERATOR); SumOfMultiples(Xor(g0, g1), g2, BCH_GENERATOR);
    if mask == 0 then Xor(g0, g0) else if mask == 1 then g0 else if mask == 2 then g1 else if mask == 3 then Xor(g0, g1)
    else if mask == 4 then Xor(g0, g2) else if mask == 5 then g2 else if mask == 6 then Xor(Xor(g0, g1), g2)
    else Xor(g1, g2)
  }

  lemma WordIsSum(mask: nat)
    requires mask < 8
    ensures Xor(FormatWord(mask), FORMAT_MASK) == Sum(mask)
  {
    if mask < 4 { FirstWords(mask); } else if mask < 6 { MiddleWords(mask); } else { LastWords(mask); }
  }

  lemma FirstWords(mask: nat)
    requires mask < 4
    ensures Xor(FormatWord(mask), FORMAT_MASK) == Sum(mask)
  {
    hide Remainder; hide Xor; hide Times;
    TimesAt(0); TimesAt(1); TimesAt(2);
  }

  lemma MiddleWords(mask: nat)
    requires 4 <= mask < 6
    ensures Xor(FormatWord(mask), FORMAT_MASK) == Sum(mask)
  {
    hide Remainder; hide Xor; hide Times;
    TimesAt(0); TimesAt(2);
  }

  lemma LastWords(mask: nat)
    requires 6 <= mask < 8
    ensures Xor(FormatWord(mask), FORMAT_MASK) == Sum(mask)
  {
    hide Remainder; hide Xor; hide Times;
    TimesAt(0); TimesAt(1); TimesAt(2);
  }

  /** What announces a mask is the word of the table. */
  lemma FormatWordIs(f: Bits, mask: nat)
    requires IsFormatWord(f, mask) && mask < 8
    ensures f == FormatWord(mask)
  {
    WordIsSum(mask);
    WordMask(mask);
    hide Remainder; hide Xor; hide Value;
    FormatWordUnique(f, FormatWord(mask), mask);
  }

  lemma WordMask(mask: nat)
    requires mask < 8
    ensures var w := Xor(FormatWord(mask), FORMAT_MASK); !w[0] && !w[1] && Value(w[2..5]) == mask
  {
    var w := Xor(FormatWord(mask), FORMAT_MASK);
    ValueOf3(w[2], w[3], w[4]);
    assert w[2..5] == [w[2], w[3], w[4]];
  }

  lemma ValueOf3(a: bool, b: bool, c: bool)
    ensures Value([a, b, c]) == 4 * Unit(a) + 2 * Unit(b) + Unit(c)
  {
    hide Value;
    ValueSnoc([], a);
    ValueSnoc([a], b);
    ValueSnoc([a, b], c);
    assert [] + [a] == [a] && [a] + [b] == [a, b] && [a, b] + [c] == [a, b, c];
  }

  /** The fifteen modules of either copy, named one by one, spell that word (Figure 25). */
  lemma FormatShown(v: nat, cw: seq<Byte>, mask: nat, g: Grid)
    requires IsSymbol(v, cw, mask, g) && mask < 8
    ensures IsSquare(g, Size(v)) && Size(v) >= 21
    ensures FirstCopy(g) == FormatWord(mask) == SecondCopy(g, Size(v)) && g[Size(v) - 8][8]
  {
    hide IsFormatWord; hide Shows; hide DataPath; hide MaskCondition; hide PatternDark; hide IsFunction; hide FormatWord;
    hide FormatBitsOf;
    FormatWordIs(FormatBitsOf(g, Size(v), 1), mask);
    CopiesRead(g, Size(v));
  }

  function FirstCopy(g: Grid): Bits
    requires |g| >= 21 && IsSquare(g, |g|)
  {
    [g[8][0], g[8][1], g[8][2], g[8][3], g[8][4], g[8][5], g[8][7], g[8][8],
     g[7][8], g[5][8], g[4][8], g[3][8], g[2][8], g[1][8], g[0][8]]
  }

  function SecondCopy(g: Grid, s: nat): Bits
    requires s >= 21 && IsSquare(g, s)
  {
    [g[s - 1][8], g[s - 2][8], g[s - 3][8], g[s - 4][8], g[s - 5][8], g[s - 6][8], g[s - 7][8],
     g[8][s - 8], g[8][s - 7], g[8][s - 6], g[8][s - 5], g[8][s - 4], g[8][s - 3], g[8][s - 2], g[8][s - 1]]
  }

  lemma CopiesRead(g: Grid, s: nat)
    requires s >= 21 && IsSquare(g, s)
    ensures FormatBitsOf(g, s, 1) == FirstCopy(g) && FormatBitsOf(g, s, 2) == SecondCopy(g, s)
  {
    FirstRead(g, s);
    SecondRead(g, s);
  }

  lemma FirstRead(g: Grid, s: nat)
    requires s >= 21 && IsSquare(g, s)
    ensures FormatBitsOf(g, s, 1) == FirstCopy(g)
  {}

  lemma SecondRead(g: Grid, s: nat)
    requires s >= 21 && IsSquare(g, s)
    ensures FormatBitsOf(g, s, 2) == SecondCopy(g, s)
  {}

  // ---- masks ----

  /** The corner of each mask that repeats over the symbol (Figure 21). */
  const MASK0: seq<string> := ["#.", ".#"]
  const MASK1: seq<string> := ["#", "."]
  const MASK2: seq<string> := ["#.."]
  const MASK3: seq<string> := ["#..", "..#", ".#."]
  const MASK4: seq<string> := ["###...", "###...", "...###", "...###"]
  const MASK5: seq<string> := ["######", "#.....", "#..#..", "#.#.#.", "#..#..", "#....."]
  const MASK6: seq<string> := ["######", "###...", "##.##.", "#.#.#.", "#.##.#", "#...##"]
  const MASK7: seq<string> := ["#.#.#.", "...###", "#...##", ".#.#.#", "###...", ".###.."]

  /** In row i and column j the repeated corner has this colour. */
  predicate Tiled(t: seq<string>, i: nat, j: nat, dark: bool) {
    && |t| > 0 && |t[i % |t|]| == |t[0]| > 0
    && (t[i % |t|][j % |t[0]|] == '#') == dark
  }

  /** The masks look like the figure. */
  lemma MaskShown(mask: nat, i: nat, j: nat)
    requires mask < 8
    ensures Tiled([MASK0, MASK1, MASK2, MASK3, MASK4, MASK5, MASK6, MASK7][mask], i, j, MaskCondition(mask, i, j))
  {
    if mask == 0 { Mask0(i, j); } else if mask == 1 { Mask1(i, j); } else if mask == 2 { Mask2(i, j); }
    else if mask == 3 { Mask3(i, j); } else if mask == 4 { Mask4(i, j); } else { LargeMask(mask, i, j); }
    hide MaskCondition; hide Tiled;
  }

  lemma Mask0(i: nat, j: nat)
    ensures Tiled(MASK0, i, j, MaskCondition(0, i, j))
  {
    SumRemainder(i, j, 2);
  }

  lemma Mask1(i: nat, j: nat)
    ensures Tiled(MASK1, i, j, MaskCondition(1, i, j))
  {}

  lemma Mask2(i: nat, j: nat)
    ensures Tiled(MASK2, i, j, MaskCondition(2, i, j))
  {}

  lemma Mask3(i: nat, j: nat)
    ensures Tiled(MASK3, i, j, MaskCondition(3, i, j))
  {
    SumRemainder(i, j, 3);
  }

  lemma Mask4(i: nat, j: nat)
    ensures Tiled(MASK4, i, j, MaskCondition(4, i, j))
  {
    HalfHeight(i);
    ThirdWidth(j);
    SumRemainder(i / 2, j / 3, 2);
    assert |MASK4| == 4 && |MASK4[i % 4]| == 6;
    assert (MASK4[i % 4][j % 6] == '#') == ((i % 4 < 2) == (j % 6 < 3));
  }

  lemma HalfHeight(i: nat)
    ensures (i / 2) % 2 == if i % 4 < 2 then 0 else 1
  {}

  lemma ThirdWidth(j: nat)
    ensures (j / 3) % 2 == if j % 6 < 3 then 0 else 1
  {}

  lemma SumRemainder(i: nat, j: nat, m: nat)
    requires m == 2 || m == 3
    ensures (i + j) % m == (i % m + j % m) % m
  {
    var a, b := i / m, j / m;
    if m == 2 { Even(a + b, i % 2 + j % 2); } else { Three(a + b, i % 3 + j % 3); }
  }

  lemma Even(k: int, r: int)
    ensures (2 * k + r) % 2 == r % 2
  {}

  lemma Three(k: int, r: int)
    ensures (3 * k + r) % 3 == r % 3
  {}

  lemma LargeMask(mask: nat, i: nat, j: nat)
    requires 5 <= mask < 8
    ensures Tiled(if mask == 5 then MASK5 else if mask == 6 then MASK6 else MASK7, i, j, MaskCondition(mask, i, j))
  {
    hide MaskCondition;
    var b, d := i % 6, j % 6;
    LargeRepeats(mask, i, j);
    if mask == 5 { Mask5(b, d); } else if mask == 6 { Mask6(b, d); } else { Mask7(b, d); }
  }

  lemma LargeRepeats(mask: nat, i: nat, j: nat)
    requires 5 <= mask < 8
    ensures MaskCondition(mask, i, j) == MaskCondition(mask, i % 6, j % 6)
  {
    ProductRemainders(i, j);
    Even(3 * (i / 6 + j / 6), i % 6 + j % 6);
    assert (i + j) % 2 == (i % 6 + j % 6) % 2;
  }

  lemma ProductRemainders(i: nat, j: nat)
    ensures (i * j) % 2 == (i % 6 * (j % 6)) % 2 && (i * j) % 3 == (i % 6 * (j % 6)) % 3
  {
    var p := i % 6 * (j % 6);
    var k := ProductParts(i / 6, i % 6, j / 6, j % 6);
    assert i == 6 * (i / 6) + i % 6 && j == 6 * (j / 6) + j % 6;
    Even(3 * k, p);
    Three(2 * k, p);
  }

  lemma ProductParts(a: nat, b: nat, c: nat, d: nat) returns (k: int)
    ensures (6 * a + b) * (6 * c + d) == 6 * k + b * d
  {
    var j := 6 * c + d;
    Distribute(6 * a, b, j);
    Distribute(6 * c, d, b);
    k := a * j + b * c;
  }

  lemma Mask5(b: nat, d: nat)
    requires b < 6 && d < 6
    ensures |MASK5| == 6 == |MASK5[b]| && (MASK5[b][d] == '#') == MaskCondition(5, b, d)
  {
    Product(b, d);
  }

  lemma Mask6(b: nat, d: nat)
    requires b < 6 && d < 6
    ensures |MASK6| == 6 == |MASK6[b]| && (MASK6[b][d] == '#') == MaskCondition(6, b, d)
  {
    Product(b, d);
    Cell6(b, d, b * d);
  }

  lemma Mask7(b: nat, d: nat)
    requires b < 6 && d < 6
    ensures |MASK7| == 6 == |MASK7[b]| && (MASK7[b][d] == '#') == MaskCondition(7, b, d)
  {
    Product(b, d);
    Cell7(b, d, b * d);
  }

  /** The product of b and d, case by case. */
  predicate IsProduct(b: nat, d: nat, p: nat) {
    p == if b == 0 then 0 else if b == 1 then d else if b == 2 then 2 * d else if b == 3 then 3 * d
         else if b == 4 then 4 * d else 5 * d
  }

  lemma Product(b: nat, d: nat)
    requires b < 6
    ensures b * d >= 0 && IsProduct(b, d, b * d)
  {}

  lemma Cell6(b: nat, d: nat, p: nat)
    requires b < 6 && d < 6 && IsProduct(b, d, p)
    ensures |MASK6| == 6 == |MASK6[b]| && (MASK6[b][d] == '#') == ((p % 2 + p % 3) % 2 == 0)
  {}

  lemma Cell7(b: nat, d: nat, p: nat)
    requires b < 6 && d < 6 && IsProduct(b, d, p)
    ensures |MASK7| == 6 == |MASK7[b]| && (MASK7[b][d] == '#') == (((b + d) % 2 + p % 3) % 2 == 0)
  {}

  // ---- the order of the bits ----

  /** The pair of columns that x is in, counted from the right and without the timing column. */
  function ColumnPair(size: nat, x: int): int { if x > 6 then (size - 1 - x) / 2 else (size - 2 - x) / 2 }

  /** Pairs of columns follow each other from right to left; they are filled upwards and downwards in turn, row by row,
      the right module of a row before the left one (clause 7.7.3). */
  predicate Earlier(size: nat, m: Module, n: Module) {
    var p, q := ColumnPair(size, m.x), ColumnPair(size, n.x);
    p < q || (p == q && ((if p % 2 == 0 then m.y > n.y else m.y < n.y) || (m.y == n.y && m.x > n.x)))
  }

  ghost predicate InOrder(size: nat, w: seq<Module>) { forall i, j :: 0 <= i < j < |w| ==> Earlier(size, w[i], w[j]) }

  lemma StripEarlier(size: nat, s: nat, j: nat, k: nat)
    requires size >= 21 && size % 2 == 1 && s < Strips(size) && j < k < 2 * size
    ensures Earlier(size, StripAt(size, s, j), StripAt(size, s, k))
  {}

  lemma StripPair(size: nat, s: nat, j: nat)
    requires size >= 21 && size % 2 == 1 && s < Strips(size) && j < 2 * size
    ensures ColumnPair(size, StripAt(size, s, j).x) == s
  {}

  lemma {:induction false} WalkInOrder(size: nat, n: nat)
    requires size >= 21 && size % 2 == 1 && n <= Strips(size)
    ensures InOrder(size, Walk(size, n))
    ensures forall i :: 0 <= i < |Walk(size, n)| ==> ColumnPair(size, Walk(size, n)[i].x) < n
  {
    if n > 0 {
      WalkInOrder(size, n - 1);
      var w, t := Walk(size, n - 1), Strip(size, n - 1);
      assert Walk(size, n) == w + t;
      forall j | 0 <= j < |t| ensures ColumnPair(size, t[j].x) == n - 1 { StripPair(size, n - 1, j); }
      forall j, k | 0 <= j < k < |t| ensures Earlier(size, t[j], t[k]) { StripEarlier(size, n - 1, j, k); }
      hide Walk; hide Strip; hide StripAt; hide ColumnPair;
    }
  }

  lemma {:induction false} FreeInOrder(size: nat, v: nat, w: seq<Module>)
    requires 1 <= v <= 10 && InOrder(size, w)
    ensures InOrder(size, Free(v, w))
  {
    hide IsFunction; hide Earlier;
    if w != [] {
      var n := |w| - 1;
      FreeInOrder(size, v, w[..n]);
      var f := Free(v, w[..n]);
      forall i | 0 <= i < |f| ensures Earlier(size, f[i], w[n]) {
        InFree(v, w[..n], f[i]);
        var k :| 0 <= k < n && w[..n][k] == f[i];
        assert w[k] == f[i];
      }
    }
  }

  /** The data path is filled in that order, which leaves no choice: it lists each module once. */
  lemma DataPathInOrder(v: nat)
    requires 1 <= v <= 10
    ensures InOrder(Size(v), DataPath(v))
  {
    WalkInOrder(Size(v), Strips(Size(v)));
    hide InOrder; hide Walk;
    FreeInOrder(Size(v), v, Walk(Size(v), Strips(Size(v))));
  }

  // ---- codewords ----

  /** The data codewords of all blocks stand in the order of their places in the blocks, and for one place in the order
      of the blocks; then the error correction codewords likewise (clause 7.6). */
  lemma InterleavedInOrder(v: QrVersion, b: nat, i: nat, c: nat, j: nat)
    requires v.WellShaped() && b < v.Blocks() && c < v.Blocks()
    ensures i < v.BlockLen(b) && j < v.BlockLen(c) ==> (v.DataAt(b, i) < v.DataAt(c, j) <==> i < j || (i == j && b < c))
    ensures v.EcAt(b, i) < v.EcAt(c, j) <==> i < j || (i == j && b < c)
    ensures i < v.BlockLen(b) ==> v.DataAt(b, i) < v.EcAt(c, j)
  {
    if i < v.BlockLen(b) { DataPosition(v, b, i); }
    NonNegative(j, v.Blocks());
    if i < j { MulStep(i, j, v.Blocks()); }
    if j < i { MulStep(j, i, v.Blocks()); }
    if i < v.blk1 { MulStep(i, v.blk1, v.Blocks()); }
    if j < v.blk1 { MulStep(j, v.blk1, v.Blocks()); }
  }

  /** Shorter blocks come first, and lengths differ by at most one codeword (Table 9). */
  lemma BlocksBalanced(v: QrVersion, b: nat, c: nat)
    requires v.WellShaped() && b < c < v.Blocks()
    ensures v.BlockLen(b) <= v.BlockLen(c) <= v.BlockLen(b) + 1
    ensures v.BlockStart(0) == 0 && v.BlockStart(b + 1) == v.BlockStart(b) + v.BlockLen(b)
  {
    BlockBounds(v, b);
  }

  /** How many bytes versions 1 to 10 hold at level M (Table 7), and in how many blocks (Table 9). */
  const CAPACITIES: seq<nat> := [14, 26, 42, 62, 84, 106, 122, 152, 180, 213]
  const BLOCKS: seq<nat> := [1, 1, 1, 2, 2, 4, 4, 4, 5, 5]

  lemma Capacity(k: nat, n: nat)
    requires k < 10
    ensures |VERSIONS| == 10 && (VERSIONS[k].Fits(n) <==> n <= CAPACITIES[k]) && VERSIONS[k].Blocks() == BLOCKS[k]
  {}

  /** Pad codewords alternate between 11101100 and 00010001 (clause 7.4.10). */
  lemma Pads()
    ensures PAD0 == [true, true, true, false, true, true, false, false]
    ensures PAD1 == [false, false, false, true, false, false, false, true]
  {
    ByteIs(true, true, true, false, true, true, false, false);
    ByteIs(false, false, false, true, false, false, false, true);
  }

  /** Data codewords, half by half (clause 7.4): the mode, the length, then the payload half a codeword on, four zeros,
      and pad codewords. The length takes one codeword's worth of bits below version 10, and two from there on. */
  lemma CodewordsSpelled(payload: seq<Byte>, v: QrVersion, d: seq<Byte>)
    requires v.WellShaped() && v.Fits(|payload|) && IsDataCodewords(payload, v, d)
    ensures var lead, n := if v.version >= 10 then 2 else 1, |payload|;
      && |d| == v.dataBytes > lead + n
      && d[0][..4] == [false, true, false, false]
      && Value(if lead == 1 then d[0][4..] + d[1][..4] else d[0][4..] + d[1] + d[2][..4]) == n
      && (forall i :: 0 <= i < n ==> payload[i] == d[lead + i][4..] + d[lead + i + 1][..4])
      && d[lead + n][4..] == [false, false, false, false]
    ensures var used := (if v.version >= 10 then 3 else 2) + |payload|;
      forall i :: used <= i < |d| ==>
        d[i] == if (i - used) % 2 == 0 then [true, true, true, false, true, true, false, false]
                else [false, false, false, true, false, false, false, true]
  {
    hide Flatten; hide LowBits; hide Value; hide Pow; hide IsDataCodewords;
    DataBits(payload, v, d);
    PaddedSpelled(payload, v, d);
    HalvesSpelled(payload, d, if v.version >= 10 then 2 else 1);
  }

  lemma HalvesSpelled(payload: seq<Byte>, d: seq<Byte>, lead: nat)
    requires 1 <= lead <= 2 && |payload| < 256 && |d| > lead + |payload|
    requires var bits, n := Flatten(d), |payload|;
      && bits[..4] == BYTE_MODE && bits[4..4 + 8 * lead] == LowBits(n, 8 * lead)
      && (forall i :: 0 <= i < n ==> bits[4 + 8 * lead + 8 * i..12 + 8 * lead + 8 * i] == payload[i])
      && bits[4 + 8 * lead + 8 * n..8 + 8 * lead + 8 * n] == [false, false, false, false]
    ensures d[0][..4] == [false, true, false, false] && d[lead + |payload|][4..] == [false, false, false, false]
    ensures Value(if lead == 1 then d[0][4..] + d[1][..4] else d[0][4..] + d[1] + d[2][..4]) == |payload|
    ensures forall i :: 0 <= i < |payload| ==> payload[i] == d[lead + i][4..] + d[lead + i + 1][..4]
  {
    hide Flatten; hide LowBits; hide Value; hide Pow;
    Halves(d, 0);
    Halves(d, lead + |payload|);
    LengthSpelled(d, |payload|, 8 * lead);
    forall i | 0 <= i < |payload| ensures payload[i] == d[lead + i][4..] + d[lead + i + 1][..4] {
      Halves(d, lead + i);
      assert Flatten(d)[4 + 8 * lead + 8 * i..12 + 8 * lead + 8 * i] == payload[i];
    }
  }

  lemma PaddedSpelled(payload: seq<Byte>, v: QrVersion, d: seq<Byte>)
    requires v.WellShaped() && IsDataCodewords(payload, v, d)
    ensures var used := (if v.version >= 10 then 3 else 2) + |payload|;
      && |d| == v.dataBytes >= used
      && forall i :: used <= i < |d| ==>
           d[i] == if (i - used) % 2 == 0 then [true, true, true, false, true, true, false, false]
                   else [false, false, false, true, false, false, false, true]
  {
    hide Flatten; hide Stream; hide LowBits; hide Value; hide Pow; hide ByteOf;
    Pads();
  }

  /** The bits of the data codewords, in pieces. */
  lemma DataBits(payload: seq<Byte>, v: QrVersion, d: seq<Byte>)
    requires v.WellShaped() && IsDataCodewords(payload, v, d)
    ensures var bits, L, n := Flatten(d), v.LenBits(), |payload|;
      && |bits| >= 8 + L + 8 * n
      && bits[..4] == BYTE_MODE && bits[4..4 + L] == LowBits(n, L)
      && (forall i :: 0 <= i < n ==> bits[4 + L + 8 * i..12 + L + 8 * i] == payload[i])
      && bits[4 + L + 8 * n..8 + L + 8 * n] == [false, false, false, false]
  {
    hide Flatten; hide Stream; hide LowBits; hide Value; hide Pow; hide ByteOf;
    var L, n := v.LenBits(), |payload|;
    var used := (8 + L) / 8 + n;
    var s, bits := Stream(payload, L), Flatten(d);
    FlattenPrefix(d, used);
    assert bits[..8 * used] == s;
    StreamParts(payload, L);
    StreamEnd(payload, L);
    assert bits[..4] == s[..4] && bits[4..4 + L] == s[4..4 + L];
    assert bits[4 + L + 8 * n..8 + L + 8 * n] == s[4 + L + 8 * n..];
    forall i | 0 <= i < n ensures bits[4 + L + 8 * i..12 + L + 8 * i] == payload[i] {
      StreamPayload(payload, L, i);
      assert bits[4 + L + 8 * i..12 + L + 8 * i] == s[4 + L + 8 * i..12 + L + 8 * i];
    }
  }

  lemma StreamEnd(payload: seq<Byte>, lenBits: nat)
    ensures Stream(payload, lenBits)[4 + lenBits + 8 * |payload|..] == [false, false, false, false]
  {}

  lemma LengthSpelled(d: seq<Byte>, n: nat, L: nat)
    requires (L == 8 || L == 16) && |d| > L / 8 && n < 256 && Flatten(d)[4..4 + L] == LowBits(n, L)
    ensures Value(if L == 8 then d[0][4..] + d[1][..4] else d[0][4..] + d[1] + d[2][..4]) == n
  {
    hide Flatten; hide LowBits; hide Value; hide Pow;
    Halves(d, 0);
    Halves(d, 1);
    var bits, w := Flatten(d), if L == 8 then d[0][4..] + d[1][..4] else d[0][4..] + d[1] + d[2][..4];
    if L == 16 {
      assert bits[4..20] == bits[4..12] + bits[12..20];
      assert d[1] == d[1][..4] + d[1][4..];
    }
    assert w == bits[4..4 + L];
    PowsOf8();
    ValueOfLowBits(n, L);
  }

  lemma PowsOf8()
    ensures Pow(8) == 256 && Pow(16) >= 256
  {
    PowOf4();
    PowSum(4, 4);
    PowSum(8, 8);
  }

  /** Codeword i, and the first half of the next, among all bits. */
  lemma Halves(d: seq<Byte>, i: nat)
    requires i < |d|
    ensures Flatten(d)[8 * i..8 * i + 4] == d[i][..4] && Flatten(d)[8 * i + 4..8 * i + 8] == d[i][4..]
    ensures i + 1 < |d| ==> Flatten(d)[8 * i + 4..8 * i + 12] == d[i][4..] + d[i + 1][..4]
  {
    hide Flatten;
    var bits := Flatten(d);
    FlattenSlice(d, i);
    assert bits[8 * i..8 * i + 4] == bits[8 * i..8 * i + 8][..4] && bits[8 * i + 4..8 * i + 8] == bits[8 * i..8 * i + 8][4..];
    if i + 1 < |d| {
      FlattenSlice(d, i + 1);
      var j := 8 * i + 8;
      assert bits[j..j + 4] == bits[j..j + 8][..4];
      assert bits[j - 4..j + 4] == bits[j - 4..j] + bits[j..j + 4];
    }
  }

  /** Module k of the data path shows bit k % 8 of codeword k / 8, the most significant bit first, and what is left over
      is light, before the mask (clause 7.7.3). */
  lemma ModulesSpelled(v: nat, cw: seq<Byte>, mask: nat, g: Grid, k: nat)
    requires IsSymbol(v, cw, mask, g) && k < |DataPath(v)|
    ensures IsSquare(g, Size(v)) && InSymbol(Size(v), DataPath(v)[k])
    ensures var m := DataPath(v)[k];
      g[m.y][m.x] == ((k < 8 * |cw| && cw[k / 8][k % 8]) != MaskCondition(mask, m.y, m.x))
  {
    FlattenAt(cw, k);
    hide MaskCondition; hide IsFormatWord; hide FormatBitsOf; hide PatternDark; hide IsFunction; hide DataPath; hide Flatten;
  }

  lemma ByteIs(a: bool, b: bool, c: bool, d: bool, e: bool, f: bool, g: bool, h: bool)
    ensures var n := 128 * Unit(a) + 64 * Unit(b) + 32 * Unit(c) + 16 * Unit(d) + 8 * Unit(e) + 4 * Unit(f) + 2 * Unit(g) + Unit(h);
      Value([a, b, c, d, e, f, g, h]) == n && ByteOf(n) == [a, b, c, d, e, f, g, h]
  {
    hide Value; hide Pow; hide LowBits;
    ValueOf4(a, b, c, d);
    ValueOf4(e, f, g, h);
    ValueConcat([a, b, c, d], [e, f, g, h]);
    assert [a, b, c, d, e, f, g, h] == [a, b, c, d] + [e, f, g, h];
    PowOf4();
    LowBitsOfValue([a, b, c, d, e, f, g, h]);
  }

  lemma PowOf4()
    ensures Pow(4) == 16
  {}

  /** The field is that of 0x11d: 2 to the eighth is 0x1d, and every power of 2 is twice the one before. */
  lemma FieldIs()
    ensures Alpha(0) == ONE && Value(Alpha(8)) == 0x1d
  {
    hide Value; hide Pow; hide LowBits;
    XtimeNOne(7);
    AlphaStep(7);
    ByteIs(false, false, false, true, true, true, false, true);
    var high: Byte := [true, false, false, false, false, false, false, false];
    var p: Byte := [false, false, false, true, true, true, false, true];
    assert Alpha(7) == high;
    assert Xtime(high) == p;
  }
}
