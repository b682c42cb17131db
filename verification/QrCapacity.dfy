/** How many modules carry data: Table 1 of ISO/IEC 18004:2015, by counting. */
module QrCapacity {
  import opened Arithmetic
  import opened QrLayout
  import opened QrZigzag
  import opened QrCodewords

  function FreeAt(v: nat, x: int, y: int): nat
    requires 1 <= v <= 10
  {
    if IsFunction(v, x, y) then 0 else 1
  }

  /** Data modules of column x in the rows lo to hi - 1. */
  function ColumnCount(v: nat, x: int, lo: nat, hi: nat): nat
    requires 1 <= v <= 10
    decreases hi
  {
    if hi <= lo then 0 else ColumnCount(v, x, lo, hi - 1) + FreeAt(v, x, hi - 1)
  }

  /** Data modules of the columns lo to hi - 1. */
  function GridCount(v: nat, lo: nat, hi: nat): nat
    requires 1 <= v <= 10
    decreases hi
  {
    if hi <= lo then 0 else GridCount(v, lo, hi - 1) + ColumnCount(v, hi - 1, 0, Size(v))
  }

  lemma {:induction false} ColumnSplit(v: nat, x: int, lo: nat, mid: nat, hi: nat)
    requires 1 <= v <= 10 && lo <= mid <= hi
    ensures ColumnCount(v, x, lo, hi) == ColumnCount(v, x, lo, mid) + ColumnCount(v, x, mid, hi)
    decreases hi
  {
    hide FreeAt;
    if mid < hi { ColumnSplit(v, x, lo, mid, hi - 1); }
  }

  lemma {:induction false} GridSplit(v: nat, lo: nat, mid: nat, hi: nat)
    requires 1 <= v <= 10 && lo <= mid <= hi
    ensures GridCount(v, lo, hi) == GridCount(v, lo, mid) + GridCount(v, mid, hi)
    decreases hi
  {
    hide ColumnCount;
    if mid < hi { GridSplit(v, lo, mid, hi - 1); }
  }

  // ---- the path's length is the count over the grid ----

  lemma StripPrefix(v: nat, s: nat, i: nat)
    requires 1 <= v <= 10 && i < Size(v)
    ensures var size := Size(v); var m, n := StripAt(size, s, 2 * i), StripAt(size, s, 2 * i + 1);
      |Free(v, Strip(size, s)[..2 * i + 2])| == |Free(v, Strip(size, s)[..2 * i])| + FreeAt(v, m.x, m.y) + FreeAt(v, n.x, n.y)
  {
    hide IsFunction;
    var size := Size(v);
    var t := Strip(size, s);
    assert t[..2 * i + 2][..2 * i + 1] == t[..2 * i + 1];
    assert t[..2 * i + 1][..2 * i] == t[..2 * i];
  }

  lemma ColumnBelow(v: nat, x: int, lo: nat, hi: nat)
    requires 1 <= v <= 10 && lo < hi
    ensures ColumnCount(v, x, lo, hi) == FreeAt(v, x, lo) + ColumnCount(v, x, lo + 1, hi)
  {
    hide FreeAt;
    ColumnSplit(v, x, lo, lo + 1, hi);
  }

  lemma ColumnAbove(v: nat, x: int, lo: nat, hi: nat)
    requires 1 <= v <= 10 && lo <= hi
    ensures ColumnCount(v, x, lo, hi + 1) == ColumnCount(v, x, lo, hi) + FreeAt(v, x, hi)
  {
    hide FreeAt;
  }

  /** The data modules in the first i rows of strip s, as walked. */
  ghost predicate StripCounted(v: nat, s: nat, i: nat)
    requires 1 <= v <= 10 && i <= Size(v)
  {
    var size, r := Size(v), StripRight(Size(v), s);
    |Free(v, Strip(size, s)[..2 * i])| ==
      if s % 2 == 0 then ColumnCount(v, r, size - i, size) + ColumnCount(v, r - 1, size - i, size)
      else ColumnCount(v, r, 0, i) + ColumnCount(v, r - 1, 0, i)
  }

  lemma StripCountStep(v: nat, s: nat, i: nat)
    requires 1 <= v <= 10 && 0 < i <= Size(v) && StripCounted(v, s, i - 1)
    ensures StripCounted(v, s, i)
  {
    hide FreeAt; hide Strip; hide StripRight; hide Free; hide ColumnCount; hide Size;
    var size, r := Size(v), StripRight(Size(v), s);
    StripPrefix(v, s, i - 1);
    if s % 2 == 0 {
      ColumnBelow(v, r, size - i, size);
      ColumnBelow(v, r - 1, size - i, size);
    } else {
      ColumnAbove(v, r, 0, i - 1);
      ColumnAbove(v, r - 1, 0, i - 1);
    }
  }

  lemma {:induction false} StripCount(v: nat, s: nat, i: nat)
    requires 1 <= v <= 10 && i <= Size(v)
    ensures StripCounted(v, s, i)
  {
    hide FreeAt; hide Strip; hide IsFunction;
    if i > 0 {
      hide StripCounted;
      StripCount(v, s, i - 1);
      StripCountStep(v, s, i);
    }
  }

  /** The columns right of this one have been walked after n strips. */
  function Walked(size: nat, n: nat): int {
    if n == 0 then size else StripRight(size, n - 1) - 1
  }

  lemma {:induction false} EmptyColumn(v: nat, h: nat)
    requires 1 <= v <= 10
    ensures ColumnCount(v, 6, 0, h) == 0
  {
    if h > 0 { EmptyColumn(v, h - 1); TimingColumn(v, h - 1); }
  }

  lemma WalkedStep(v: nat, n: nat)
    requires 1 <= v <= 10 && 0 < n <= Strips(Size(v))
    ensures var r, w := StripRight(Size(v), n - 1), Walked(Size(v), n - 1);
      && Walked(Size(v), n) == r - 1 && 1 <= r < Size(v) && 0 <= w <= Size(v)
      && (w == r + 1 || (w == 7 && r == 5))
  {}

  lemma GridLeft(v: nat, lo: nat, hi: nat)
    requires 1 <= v <= 10 && lo < hi
    ensures GridCount(v, lo, hi) == ColumnCount(v, lo, 0, Size(v)) + GridCount(v, lo + 1, hi)
  {
    hide ColumnCount;
    GridSplit(v, lo, lo + 1, hi);
  }

  lemma StripGridCount(v: nat, r: int, w: int)
    requires 1 <= v <= 10 && 1 <= r < w <= Size(v)
    requires w == r + 1 || (w == 7 && r == 5)
    ensures GridCount(v, r - 1, Size(v)) ==
      ColumnCount(v, r - 1, 0, Size(v)) + ColumnCount(v, r, 0, Size(v)) + GridCount(v, w, Size(v))
  {
    hide IsFunction; hide ColumnCount; hide GridCount;
    var size := Size(v);
    GridLeft(v, r - 1, size);
    GridLeft(v, r, size);
    if w == 7 {
      EmptyColumn(v, size);
      GridLeft(v, 6, size);
    }
  }

  lemma StripTotal(v: nat, s: nat)
    requires 1 <= v <= 10
    ensures var r := StripRight(Size(v), s);
      |Free(v, Strip(Size(v), s))| == ColumnCount(v, r, 0, Size(v)) + ColumnCount(v, r - 1, 0, Size(v))
  {
    hide Free; hide Strip; hide ColumnCount; hide StripRight;
    var t := Strip(Size(v), s);
    assert t[..2 * Size(v)] == t;
    StripCount(v, s, Size(v));
  }

  lemma WalkGrows(v: nat, n: nat)
    requires 1 <= v <= 10
    ensures |Free(v, Walk(Size(v), n + 1))| == |Free(v, Walk(Size(v), n))| + |Free(v, Strip(Size(v), n))|
  {
    hide Free; hide Strip; hide Size;
    FreeConcat(v, Walk(Size(v), n), Strip(Size(v), n));
  }

  ghost predicate WalkCounted(v: nat, n: nat)
    requires 1 <= v <= 10
  {
    0 <= Walked(Size(v), n) <= Size(v) && |Free(v, Walk(Size(v), n))| == GridCount(v, Walked(Size(v), n), Size(v))
  }

  lemma WalkCountStep(v: nat, n: nat)
    requires 1 <= v <= 10 && 0 < n <= Strips(Size(v)) && WalkCounted(v, n - 1)
    ensures WalkCounted(v, n)
  {
    hide ColumnCount; hide Strip; hide StripRight; hide Free; hide GridCount; hide Walk; hide Size; hide Walked;
    WalkGrows(v, n - 1);
    StripTotal(v, n - 1);
    WalkedStep(v, n);
    StripGridCount(v, StripRight(Size(v), n - 1), Walked(Size(v), n - 1));
  }

  lemma {:induction false} WalkCount(v: nat, n: nat)
    requires 1 <= v <= 10 && n <= Strips(Size(v))
    ensures WalkCounted(v, n)
  {
    hide IsFunction; hide ColumnCount; hide Strip;
    if n > 0 {
      hide WalkCounted;
      WalkCount(v, n - 1);
      WalkCountStep(v, n);
    }
  }

  lemma DataPathCount(v: nat)
    requires 1 <= v <= 10
    ensures |DataPath(v)| == GridCount(v, 0, Size(v))
  {
    hide IsFunction; hide ColumnCount; hide Free; hide GridCount; hide Walk;
    WalkCount(v, Strips(Size(v)));
  }

  // ---- counting by segments ----

  /** Along either axis the function patterns change only at these coordinates. */
  function Cut(v: nat, k: nat): nat
    requires 1 <= v <= 10 && k <= 11
  {
    if k == 0 then 0
    else if k == 1 then 4
    else if k == 2 then 6
    else if k == 3 then 7
    else if k == 4 then 9
    else if k == 5 then (if v >= 7 then CENTRES[v][1] - 2 else 9)
    else if k == 6 then (if v >= 7 then CENTRES[v][1] + 3 else 9)
    else if k == 7 then Size(v) - 11
    else if k == 8 then Size(v) - 9
    else if k == 9 then Size(v) - 8
    else if k == 10 then Size(v) - 4
    else Size(v)
  }

  lemma CutsIncrease(v: nat, k: nat)
    requires 1 <= v <= 10 && k < 11
    ensures Cut(v, k) <= Cut(v, k + 1) <= Size(v)
  {}

  /** The alignment band of a segment. */
  function SegmentBand(v: nat, k: nat): nat
    requires 1 <= v <= 10
  {
    if v == 1 || 1 <= k <= 3 then 0
    else if 8 <= k <= 9 then (if v >= 7 then 2 else 1)
    else if v >= 7 && k == 5 then 1
    else |CENTRES[v]|
  }

  /** IsFunction, by segment. */
  predicate SegmentFunction(v: nat, k: nat, l: nat)
    requires 1 <= v <= 10
  {
    || (k <= 3 && l <= 3) || (k >= 9 && l <= 3) || (k <= 3 && l >= 9)
    || k == 2 || l == 2
    || (v >= 7 && k <= 1 && 7 <= l <= 8) || (v >= 7 && l <= 1 && 7 <= k <= 8)
    || SegmentAlignment(v, SegmentBand(v, k), SegmentBand(v, l))
  }

  predicate SegmentAlignment(v: nat, i: nat, j: nat)
    requires 1 <= v <= 10
  {
    i < |CENTRES[v]| && j < |CENTRES[v]| && (i != 0 || 0 < j < |CENTRES[v]| - 1) && (j != 0 || i < |CENTRES[v]| - 1)
  }

  /** What a segment says about a coordinate in it. */
  lemma SegmentOf(v: nat, k: nat, t: int)
    requires 1 <= v <= 10 && k < 11 && Cut(v, k) <= t < Cut(v, k + 1)
    ensures (t < 6 <==> k <= 1) && (t == 6 <==> k == 2) && (t <= 8 <==> k <= 3) && (t >= Size(v) - 8 <==> k >= 9)
    ensures Size(v) - 11 <= t < Size(v) - 8 <==> 7 <= k <= 8
    ensures Band(v, t) == SegmentBand(v, k)
  {}

  /** Finders, separators and format information fill three corners. */
  lemma Corners(size: nat, x: int, y: int)
    requires size >= 21
    ensures InFinder(size, x, y) || InFormat(size, x, y) <==>
      (x <= 8 && y <= 8) || (x >= size - 8 && y <= 8) || (x <= 8 && y >= size - 8)
  {}

  lemma AlignmentCentres(v: nat, i: nat, j: nat)
    requires 1 <= v <= 10 && i < |CENTRES[v]| && j < |CENTRES[v]|
    ensures SegmentAlignment(v, i, j) <==> !NoCentre(v, Size(v), CENTRES[v][i], CENTRES[v][j])
  {}

  lemma FunctionBySegment(v: nat, k: nat, l: nat, x: int, y: int)
    requires 1 <= v <= 10 && k < 11 && l < 11
    requires Cut(v, k) <= x < Cut(v, k + 1) && Cut(v, l) <= y < Cut(v, l + 1)
    ensures IsFunction(v, x, y) == SegmentFunction(v, k, l)
  {
    hide Band; hide InFinder; hide InFormat; hide Cut; hide SegmentBand; hide SegmentAlignment; hide NoCentre;
    SegmentOf(v, k, x);
    SegmentOf(v, l, y);
    Corners(Size(v), x, y);
    var i, j := Band(v, x), Band(v, y);
    if i < |CENTRES[v]| && j < |CENTRES[v]| { AlignmentCentres(v, i, j); }
    SegmentAlignmentBounds(v, i, j);
  }

  lemma SegmentAlignmentBounds(v: nat, i: nat, j: nat)
    requires 1 <= v <= 10
    ensures SegmentAlignment(v, i, j) ==> i < |CENTRES[v]| && j < |CENTRES[v]|
  {}

  lemma {:induction false} ColumnRun(v: nat, x: int, k: nat, l: nat, lo: nat, h: nat)
    requires 1 <= v <= 10 && k < 11 && l < 11
    requires Cut(v, k) <= x < Cut(v, k + 1) && Cut(v, l) <= lo <= h <= Cut(v, l + 1)
    ensures ColumnCount(v, x, lo, h) == if SegmentFunction(v, k, l) then 0 else h - lo
  {
    hide Cut; hide SegmentFunction; hide IsFunction;
    if h > lo {
      ColumnRun(v, x, k, l, lo, h - 1);
      FunctionBySegment(v, k, l, x, h - 1);
    }
  }

  /** Data modules of a column in segment k, in row segment l. */
  function Run(v: nat, k: nat, l: nat): int
    requires 1 <= v <= 10 && k < 11 && l < 11
  {
    if SegmentFunction(v, k, l) then 0 else Cut(v, l + 1) - Cut(v, l)
  }

  /** Data modules of a column in segment k, in the first n row segments. */
  function ColumnSum(v: nat, k: nat, n: nat): int
    requires 1 <= v <= 10 && k < 11 && n <= 11
  {
    if n == 0 then 0 else ColumnSum(v, k, n - 1) + Run(v, k, n - 1)
  }

  lemma {:induction false} ColumnSegments(v: nat, x: int, k: nat, n: nat)
    requires 1 <= v <= 10 && k < 11 && n <= 11
    requires Cut(v, k) <= x < Cut(v, k + 1)
    ensures ColumnCount(v, x, 0, Cut(v, n)) == ColumnSum(v, k, n)
  {
    assert Cut(v, 0) == 0;
    hide Cut; hide SegmentFunction; hide FreeAt; hide Size;
    if n > 0 {
      var lo, hi := Cut(v, n - 1), Cut(v, n);
      ColumnSegments(v, x, k, n - 1);
      CutsIncrease(v, n - 1);
      ColumnSplit(v, x, 0, lo, hi);
      ColumnRun(v, x, k, n - 1, lo, hi);
    }
  }

  /** Data modules of a column in segment k. */
  function ColumnTotal(v: nat, k: nat): int
    requires 1 <= v <= 10 && k < 11
  {
    ColumnSum(v, k, 11)
  }

  lemma ColumnIs(v: nat, x: int, k: nat)
    requires 1 <= v <= 10 && k < 11 && Cut(v, k) <= x < Cut(v, k + 1)
    ensures ColumnCount(v, x, 0, Size(v)) == ColumnTotal(v, k)
  {
    hide ColumnCount; hide ColumnSum;
    ColumnSegments(v, x, k, 11);
  }

  lemma {:induction false} GridRun(v: nat, k: nat, lo: nat, h: nat, c: int)
    requires 1 <= v <= 10 && k < 11 && Cut(v, k) <= lo <= h <= Cut(v, k + 1)
    requires c == ColumnTotal(v, k)
    ensures GridCount(v, lo, h) == (h - lo) * c
  {
    hide Cut; hide ColumnTotal; hide ColumnCount; hide Size;
    if h > lo {
      GridRun(v, k, lo, h - 1, c);
      ColumnIs(v, h - 1, k);
      Distribute(h - 1 - lo, 1, c);
    }
  }

  /** Data modules of the columns in segment k. */
  function Block(v: nat, k: nat): int
    requires 1 <= v <= 10 && k < 11
  {
    (Cut(v, k + 1) - Cut(v, k)) * ColumnTotal(v, k)
  }

  lemma BlockAre(v: nat, k: nat, lo: nat, hi: nat)
    requires 1 <= v <= 10 && k < 11 && lo == Cut(v, k) <= hi == Cut(v, k + 1)
    ensures GridCount(v, lo, hi) == Block(v, k)
  {
    hide Cut; hide ColumnTotal; hide GridCount;
    GridRun(v, k, lo, hi, ColumnTotal(v, k));
  }

  lemma BlockIs(v: nat, k: nat)
    requires 1 <= v <= 10 && k < 11
    ensures Cut(v, k) <= Cut(v, k + 1) && GridCount(v, Cut(v, k), Cut(v, k + 1)) == Block(v, k)
  {
    CutsIncrease(v, k);
    BlockAre(v, k, Cut(v, k), Cut(v, k + 1));
  }

  /** Data modules of the first n column segments. */
  function GridSum(v: nat, n: nat): int
    requires 1 <= v <= 10 && n <= 11
  {
    if n == 0 then 0 else GridSum(v, n - 1) + Block(v, n - 1)
  }

  lemma {:induction false} GridSegments(v: nat, n: nat)
    requires 1 <= v <= 10 && n <= 11
    ensures GridCount(v, 0, Cut(v, n)) == GridSum(v, n)
  {
    assert Cut(v, 0) == 0;
    hide Cut; hide Block; hide ColumnCount; hide Size;
    if n > 0 {
      GridSegments(v, n - 1);
      BlockIs(v, n - 1);
      GridSplit(v, 0, Cut(v, n - 1), Cut(v, n));
    }
  }

  lemma ColumnUnfold(v: nat, k: nat)
    requires 1 <= v <= 10 && k < 11
    ensures ColumnTotal(v, k) ==
      Run(v, k, 0) + Run(v, k, 1) + Run(v, k, 2) + Run(v, k, 3) + Run(v, k, 4) + Run(v, k, 5) + Run(v, k, 6)
      + Run(v, k, 7) + Run(v, k, 8) + Run(v, k, 9) + Run(v, k, 10)
  {
    hide Run; hide Cut; hide ColumnSum;
    ColumnStep(v, k, 0); ColumnStep(v, k, 1); ColumnStep(v, k, 2); ColumnStep(v, k, 3); ColumnStep(v, k, 4);
    ColumnStep(v, k, 5); ColumnStep(v, k, 6); ColumnStep(v, k, 7); ColumnStep(v, k, 8); ColumnStep(v, k, 9);
    ColumnStep(v, k, 10);
  }

  lemma ColumnStep(v: nat, k: nat, n: nat)
    requires 1 <= v <= 10 && k < 11 && n < 11
    ensures ColumnSum(v, k, n + 1) == (if n == 0 then 0 else ColumnSum(v, k, n)) + Run(v, k, n)
  {
    hide Run;
  }

  /** Data modules of a column in segment k, in closed form. */
  function ColumnFormula(v: nat, k: nat): int {
    if v >= 7 then
      if k == 0 then 4 * v - 3 else if k == 1 then 4 * v - 8 else if k == 2 then 0 else if k == 3 then 4 * v - 5
      else if k == 4 || k == 6 then 4 * v + 16 else if k == 5 then 4 * v + 2 else if k == 7 then 4 * v + 10
      else if k == 8 then 4 * v else if k == 9 then 4 * v - 2 else 4 * v + 8
    else
      if k == 0 || k == 1 || k == 3 then 4 * v else if k == 2 then 0
      else if k == 8 && v >= 2 then 4 * v + 11 else if k == 9 && v >= 2 then 4 * v + 3
      else if k == 9 || k == 10 then 4 * v + 8 else 4 * v + 16
  }

  lemma ColumnValue(v: nat, k: nat)
    requires 1 <= v <= 10 && k < 11
    ensures ColumnTotal(v, k) == ColumnFormula(v, k)
  {
    hide ColumnTotal;
    ColumnUnfold(v, k);
  }

  lemma GridUnfold(v: nat)
    requires 1 <= v <= 10
    ensures GridSum(v, 11) == Block(v, 0) + Block(v, 1) + Block(v, 2) + Block(v, 3) + Block(v, 4) + Block(v, 5)
      + Block(v, 6) + Block(v, 7) + Block(v, 8) + Block(v, 9) + Block(v, 10)
  {
    hide Block;
    assert GridSum(v, 1) == Block(v, 0);
    assert GridSum(v, 3) == GridSum(v, 1) + Block(v, 1) + Block(v, 2);
    assert GridSum(v, 5) == GridSum(v, 3) + Block(v, 3) + Block(v, 4);
    assert GridSum(v, 7) == GridSum(v, 5) + Block(v, 5) + Block(v, 6);
    assert GridSum(v, 9) == GridSum(v, 7) + Block(v, 7) + Block(v, 8);
  }

  /** The number of alignment patterns along one side. */
  function AlignmentCount(v: nat): nat { v / 7 + 2 }

  /** The standard's count of data modules, as a function of the version. */
  function DataModules(v: nat): int {
    var n := AlignmentCount(v);
    (16 * v + 128) * v + 64 - (if v >= 2 then (25 * n - 10) * n - 55 else 0) - (if v >= 7 then 36 else 0)
  }

  lemma BlockValue(v: nat, k: nat)
    requires 1 <= v <= 10 && k < 11
    ensures Block(v, k) == (Cut(v, k + 1) - Cut(v, k)) * ColumnFormula(v, k)
  {
    hide Cut; hide ColumnTotal; hide ColumnFormula;
    ColumnValue(v, k);
  }

  /** Data modules of the columns in segment k, in closed form; q is v * v. */
  function BlockFormula(v: nat, k: nat, q: int): int {
    if k == 2 then 0
    else if v >= 7 then
      if k == 0 then 16 * v - 12 else if k == 1 then 8 * v - 16 else if k == 3 then 8 * v - 10
      else if k == 4 then 8 * q + 20 * v - 48 else if k == 5 then 20 * v + 10 else if k == 6 then 8 * q + 12 * v - 80
      else if k == 7 then 8 * v + 20 else if k == 8 then 4 * v else if k == 9 then 16 * v - 8 else 16 * v + 32
    else
      if k == 0 then 16 * v else if k == 1 || k == 3 then 8 * v else if k == 4 || k == 5 then 0
      else if k == 6 then 16 * q + 52 * v - 48 else if k == 7 then 8 * v + 32
      else if k == 8 then (if v >= 2 then 4 * v + 11 else 4 * v + 16)
      else if k == 9 then (if v >= 2 then 16 * v + 12 else 16 * v + 32) else 16 * v + 32
  }

  lemma Products(v: int)
    ensures (2 * v - 3) * (4 * v + 16) == 8 * (v * v) + 20 * v - 48
    ensures (2 * v - 5) * (4 * v + 16) == 8 * (v * v) + 12 * v - 80
    ensures (4 * v - 3) * (4 * v + 16) == 16 * (v * v) + 52 * v - 48
  {}

  function Width(v: nat, k: nat): int {
    if k == 0 || k >= 9 then 4 else if k == 2 || k == 8 then 1 else if k == 1 || k == 3 || k == 7 then 2
    else if v >= 7 then (if k == 4 then 2 * v - 3 else if k == 5 then 5 else 2 * v - 5)
    else (if k == 6 then 4 * v - 3 else 0)
  }

  lemma WidthIs(v: nat, k: nat)
    requires 1 <= v <= 10 && k < 11
    ensures Cut(v, k + 1) - Cut(v, k) == Width(v, k)
  {}

  lemma WidthTimesColumn(v: nat, k: nat)
    requires 1 <= v <= 10 && k < 11
    ensures Width(v, k) * ColumnFormula(v, k) == BlockFormula(v, k, v * v)
  {
    Products(v);
  }

  lemma BlockIsFormula(v: nat, k: nat)
    requires 1 <= v <= 10 && k < 11
    ensures Block(v, k) == BlockFormula(v, k, v * v)
  {
    WidthIs(v, k);
    hide Cut; hide ColumnTotal; hide ColumnFormula; hide Width; hide BlockFormula;
    ColumnValue(v, k);
    WidthTimesColumn(v, k);
  }

  lemma GridValue(v: nat)
    requires 1 <= v <= 10
    ensures GridSum(v, 11) == 16 * (v * v) + 128 * v + (if v >= 7 then -112 else if v >= 2 then 39 else 64)
  {
    hide Block;
    GridUnfold(v);
    hide GridSum;
    BlockIsFormula(v, 0); BlockIsFormula(v, 1); BlockIsFormula(v, 2); BlockIsFormula(v, 3); BlockIsFormula(v, 4);
    BlockIsFormula(v, 5); BlockIsFormula(v, 6); BlockIsFormula(v, 7); BlockIsFormula(v, 8); BlockIsFormula(v, 9);
    BlockIsFormula(v, 10);
  }

  lemma GridTotal(v: nat)
    requires 1 <= v <= 10
    ensures GridCount(v, 0, Size(v)) == GridSum(v, 11)
  {
    assert Cut(v, 11) == Size(v);
    hide Block; hide GridCount; hide GridSum; hide Cut; hide Size;
    GridSegments(v, 11);
  }

  lemma DataModulesExpanded(v: nat)
    requires 1 <= v <= 10
    ensures DataModules(v) == 16 * (v * v) + 128 * v + (if v >= 7 then -112 else if v >= 2 then 39 else 64)
  {
    assert AlignmentCount(v) == if v >= 7 then 3 else 2;
    assert (16 * v + 128) * v == 16 * (v * v) + 128 * v;
  }

  /** Clause 6 by counting: the data path has exactly as many modules as the standard's formula says. */
  lemma DataPathLength(v: nat)
    requires 1 <= v <= 10
    ensures |DataPath(v)| == DataModules(v)
  {
    hide DataModules; hide DataPath; hide GridCount; hide GridSum; hide Size;
    DataPathCount(v);
    GridTotal(v);
    GridValue(v);
    DataModulesExpanded(v);
  }

  lemma ModuleTable()
    ensures DataModules(1) == 208 && DataModules(2) == 359 && DataModules(3) == 567 && DataModules(4) == 807
    ensures DataModules(5) == 1079 && DataModules(6) == 1383 && DataModules(7) == 1568 && DataModules(8) == 1936
    ensures DataModules(9) == 2336 && DataModules(10) == 2768
  {}

  lemma CodewordTable()
    ensures VERSIONS[0].Total() == 26 && VERSIONS[1].Total() == 44 && VERSIONS[2].Total() == 70
    ensures VERSIONS[3].Total() == 100 && VERSIONS[4].Total() == 134 && VERSIONS[5].Total() == 172
    ensures VERSIONS[6].Total() == 196 && VERSIONS[7].Total() == 242 && VERSIONS[8].Total() == 292
    ensures VERSIONS[9].Total() == 346
  {
    // one row at a time: the solver multiplies known numbers only
    assert VERSIONS[0] == QrVersion(1, 16, 10, 1, 16, 0, 0);
    assert VERSIONS[1] == QrVersion(2, 28, 16, 1, 28, 0, 0);
    assert VERSIONS[2] == QrVersion(3, 44, 26, 1, 44, 0, 0);
    assert VERSIONS[3] == QrVersion(4, 64, 18, 2, 32, 0, 0);
    assert VERSIONS[4] == QrVersion(5, 86, 24, 2, 43, 0, 0);
    assert VERSIONS[5] == QrVersion(6, 108, 16, 4, 27, 0, 0);
    assert VERSIONS[6] == QrVersion(7, 124, 18, 4, 31, 0, 0);
    assert VERSIONS[7] == QrVersion(8, 154, 22, 2, 38, 2, 39);
    assert VERSIONS[8] == QrVersion(9, 182, 22, 3, 36, 2, 37);
    assert VERSIONS[9] == QrVersion(10, 216, 26, 4, 43, 1, 44);
  }

  /** Every codeword bit has a module: the path holds 8 bits per codeword and 0 or 7 remainder bits. */
  lemma PathHoldsCodewords(k: nat)
    requires k < |VERSIONS|
    ensures |DataPath(k + 1)| == 8 * VERSIONS[k].Total() + (if 2 <= k + 1 <= 6 then 7 else 0)
  {
    hide DataPath; hide DataModules; hide QrVersion.Total;
    DataPathLength(k + 1);
    ModuleTable();
    CodewordTable();
  }
}
