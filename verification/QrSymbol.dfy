/** Filling, masking and reading a symbol: clauses 7.7 to 7.9 of ISO/IEC 18004:2015. */
module QrSymbol {
  import opened Basics
  import opened Bits
  import opened Gf256
  import opened Polynomials
  import opened ReedSolomon
  import opened QrCodewords
  import opened QrLayout
  import opened QrZigzag
  import opened QrCapacity
  import opened QrMatrix
  import opened QrFormat
  import opened QrVersionInfo

  // ---- placing the codewords ----

  ghost predicate Reserves(m: Matrix, v: nat)
    requires m.Valid() && 1 <= v <= 10
    reads m, m.isSet
  {
    m.size == Size(v) && forall i, j :: m.Inside(i, j) ==> m.Reserved(i, j) == IsFunction(v, i, j)
  }

  /** The k-th module of a data path shows bit k, and is light when the bits have run out. */
  predicate Shows(data: seq<Byte>, k: nat) { k < 8 * |data| && Flatten(data)[k] }

  ghost predicate Placed(m: Matrix, path: seq<Module>, data: seq<Byte>)
    requires m.Valid()
    reads m, m.mod
  {
    forall k :: 0 <= k < |path| ==> InSymbol(m.size, path[k]) && m.At(path[k].x, path[k].y) == Shows(data, k)
  }

  lemma {:induction false} FreeOnly(v: nat, w: seq<Module>)
    requires 1 <= v <= 10
    ensures forall k :: 0 <= k < |Free(v, w)| ==> Free(v, w)[k] in w && !IsFunction(v, Free(v, w)[k].x, Free(v, w)[k].y)
  {
    hide IsFunction;
    forall k | 0 <= k < |Free(v, w)| ensures Free(v, w)[k] in w && !IsFunction(v, Free(v, w)[k].x, Free(v, w)[k].y) {
      InFree(v, w, Free(v, w)[k]);
    }
  }

  /** The function patterns are as the standard draws them. */
  ghost predicate Patterns(m: Matrix, v: nat)
    requires m.Valid() && 1 <= v <= 10
    reads m, m.mod
  {
    forall i, j :: m.Inside(i, j) && IsFunction(v, i, j) ==> m.At(i, j) == PatternDark(v, i, j)
  }

  function Min(a: nat, b: nat): nat { if a < b then a else b }

  /** The modules of the walk so far show the first bits of data; everything else is untouched. */
  ghost predicate Progress(m: Matrix, v: nat, data: seq<Byte>, walked: seq<Module>, bit: nat)
    requires m.Valid() && 1 <= v <= 10
    reads m, m.mod, m.isSet
  {
    && Reserves(m, v) && Patterns(m, v)
    && Placed(m, Free(v, walked), data)
    && bit == Min(|Free(v, walked)|, 8 * |data|)
  }

  /** One module of the walk. */
  method PlaceModule(m: Matrix, v: nat, data: seq<Byte>, x: int, y: int, bit: nat, ghost walked: seq<Module>)
    returns (next: nat)
    requires m.Valid() && 1 <= v <= 10 && m.Inside(x, y)
    requires Module(x, y) !in walked
    requires Progress(m, v, data, walked, bit)
    modifies m.mod, m.isSet
    ensures Progress(m, v, data, walked + [Module(x, y)], next)
  {
    hide IsFunction; hide Flatten; hide PatternDark;
    next := bit;
    ghost var path := Free(v, walked);
    ghost var q := Module(x, y);
    FreeOnly(v, walked);
    assert (walked + [q])[..|walked|] == walked;
    if m.Reserved(x, y) {
      return;
    }
    var dark := false;
    if next < 8 * |data| {
      dark := data[next / 8][next % 8];
      next := next + 1;
    }
    assert dark == Shows(data, |path|) by { FlattenAt(data, bit); }
    m.Put(x, y, dark, false);
    assert Free(v, walked + [q]) == path + [q];
  }

  lemma FlattenAt(s: seq<Byte>, k: nat)
    ensures k < 8 * |s| ==> Flatten(s)[k] == s[k / 8][k % 8]
  {}

  lemma PrefixFresh<T>(w: seq<T>, t: seq<T>, j: nat)
    requires NoRepeats(w + t) && j < |t|
    ensures t[j] !in w + t[..j]
    ensures (w + t[..j]) + [t[j]] == w + t[..j + 1]
  {
    forall k | 0 <= k < |w| + j ensures (w + t[..j])[k] != t[j] {
      assert (w + t[..j])[k] == (w + t)[k] && (w + t)[|w| + j] == t[j];
    }
    assert t[..j + 1] == t[..j] + [t[j]];
  }

  lemma WalkStep(size: nat, s: nat, j: nat)
    requires size >= 21 && size % 2 == 1 && s < Strips(size) && j < 2 * size
    ensures var w := Walk(size, s) + Strip(size, s)[..j]; var q := StripAt(size, s, j);
      && InSymbol(size, q) && q !in w && w + [q] == Walk(size, s) + Strip(size, s)[..j + 1]
  {
    var t := Strip(size, s);
    assert t[j] == StripAt(size, s, j) && t[j] in t;
    hide StripAt; hide Strip; hide StripRight;
    StripInSymbol(size, s);
    WalkNoRepeats(size, s + 1);
    assert Walk(size, s + 1) == Walk(size, s) + t;
    hide Walk;
    PrefixFresh(Walk(size, s), t, j);
  }

  lemma WalkCell(v: nat, size: nat, s: nat, i: nat, dx: nat)
    requires 1 <= v <= 10 && size == Size(v) && s < Strips(size) && i < size && dx < 2
    ensures var w := Walk(size, s) + Strip(size, s)[..2 * i + dx];
      var q := Module(StripRight(size, s) - dx, if s % 2 == 0 then size - 1 - i else i);
      && 0 <= q.x < size && 0 <= q.y < size && q !in w && w + [q] == Walk(size, s) + Strip(size, s)[..2 * i + dx + 1]
  {
    hide Walk; hide Strip; hide Strips; hide StripRight;
    WalkStep(size, s, 2 * i + dx);
  }

  /** One strip, from the bottom when up. */
  method PlaceStrip(m: Matrix, v: nat, data: seq<Byte>, right: int, up: bool, bit: nat, ghost s: nat) returns (next: nat)
    requires m.Valid() && 1 <= v <= 10 && m.size == Size(v) && s < Strips(m.size)
    requires right == StripRight(m.size, s) && up == (s % 2 == 0)
    requires Progress(m, v, data, Walk(m.size, s), bit)
    modifies m.mod, m.isSet
    ensures Progress(m, v, data, Walk(m.size, s + 1), next)
  {
    hide Progress; hide Strip; hide Walk; hide StripRight; hide Strips; hide Size;
    next := bit;
    ghost var size := m.size;
    ghost var w := Walk(size, s);
    StripStart(size, s);
    for i := 0 to m.size
      invariant w == Walk(size, s) + Strip(size, s)[..2 * i] && Progress(m, v, data, w, next)
    {
      var y := i;
      if up {
        y := m.size - 1 - i;
      }
      for dx := 0 to 2
        invariant w == Walk(size, s) + Strip(size, s)[..2 * i + dx] && Progress(m, v, data, w, next)
      {
        WalkCell(v, size, s, i, dx);
        var x := right - dx;
        next := PlaceModule(m, v, data, x, y, next, w);
        w := w + [Module(x, y)];
      }
    }
    StripEnd(size, s);
  }

  /** The loop's column is the strip's right column, but for the step over column 6. */
  lemma RightColumn(size: nat, s: nat, right: int)
    requires size >= 21 && size % 2 == 1 && s <= Strips(size)
    requires right == if size - 1 - 2 * s >= 6 then size - 1 - 2 * s else size - 2 - 2 * s
    ensures right >= 1 <==> s < Strips(size)
    ensures (if right == 6 then 5 else right) == StripRight(size, s)
    ensures StripRight(size, s) - 2 == if size - 1 - 2 * (s + 1) >= 6 then size - 1 - 2 * (s + 1) else size - 2 - 2 * (s + 1)
  {}

  /** placeData: up and down the columns in pairs, from the right, around the timing column. */
  method PlaceData(m: Matrix, v: nat, data: seq<Byte>)
    requires m.Valid() && 1 <= v <= 10 && Reserves(m, v) && Patterns(m, v)
    modifies m.mod, m.isSet
    ensures Reserves(m, v) && Patterns(m, v)
    ensures Placed(m, DataPath(v), data)
  {
    hide Progress; hide Walk; hide Free; hide StripRight; hide Reserves; hide Patterns; hide Placed; hide Strips;
    var bit := 0;
    var up := true;
    var right: int := m.size - 1;
    ghost var size := m.size;
    ghost var s := 0;
    ProgressStart(m, v, data);
    while right >= 1
      invariant 0 <= s <= Strips(size) && up == (s % 2 == 0)
      invariant right == if size - 1 - 2 * s >= 6 then size - 1 - 2 * s else size - 2 - 2 * s
      invariant Progress(m, v, data, Walk(size, s), bit)
      decreases right
    {
      RightColumn(size, s, right);
      if right == 6 {
        right := 5;
      }
      bit := PlaceStrip(m, v, data, right, up, bit, s);
      up := !up;
      right := right - 2;
      s := s + 1;
    }
    RightColumn(size, s, right);
    assert s == Strips(size);
    ProgressMeans(m, v, data, Walk(size, s), bit);
  }

  lemma ProgressStart(m: Matrix, v: nat, data: seq<Byte>)
    requires m.Valid() && 1 <= v <= 10 && Reserves(m, v) && Patterns(m, v)
    ensures m.size == Size(v) && Walk(m.size, 0) == [] && Progress(m, v, data, [], 0)
  {
    hide IsFunction; hide PatternDark;
    WalkStart(v, m.size);
  }

  lemma ProgressMeans(m: Matrix, v: nat, data: seq<Byte>, w: seq<Module>, bit: nat)
    requires m.Valid() && 1 <= v <= 10 && Progress(m, v, data, w, bit)
    ensures Reserves(m, v) && Patterns(m, v) && Placed(m, Free(v, w), data)
  {}

  lemma WalkStart(v: nat, size: nat)
    requires 1 <= v <= 10
    ensures Walk(size, 0) == [] && Free(v, []) == []
  {}

  lemma StripStart(size: nat, s: nat)
    ensures |Strip(size, s)| == 2 * size && Walk(size, s) + Strip(size, s)[..0] == Walk(size, s)
  {}

  lemma StripEnd(size: nat, s: nat)
    ensures Walk(size, s) + Strip(size, s)[..2 * size] == Walk(size, s + 1)
  {}

  // ---- masking ----

  predicate MaskFn(n: nat, x: nat, y: nat) {
    if n == 0 then (x + y) % 2 == 0
    else if n == 1 then y % 2 == 0
    else if n == 2 then x % 3 == 0
    else if n == 3 then (x + y) % 3 == 0
    else if n == 4 then (y / 2 + x / 3) % 2 == 0
    else if n == 5 then (x * y) % 2 + (x * y) % 3 == 0
    else if n == 6 then ((x * y) % 2 + (x * y) % 3) % 2 == 0
    else ((x + y) % 2 + (x * y) % 3) % 2 == 0
  }

  /** The mask, over data modules only. */
  method ApplyMask(m: Matrix, v: nat, mask: nat)
    requires m.Valid() && 1 <= v <= 10 && Reserves(m, v)
    modifies m.mod, m.isSet
    ensures Reserves(m, v)
    ensures forall i, j :: m.Inside(i, j) ==>
      m.At(i, j) == (old(m.At(i, j)) != (!IsFunction(v, i, j) && MaskFn(mask, i, j)))
  {
    hide IsFunction; hide MaskFn;
    for y := 0 to m.size
      invariant Reserves(m, v)
      invariant forall i, j :: m.Inside(i, j) ==>
        m.At(i, j) == (old(m.At(i, j)) != (j < y && !IsFunction(v, i, j) && MaskFn(mask, i, j)))
    {
      for x := 0 to m.size
        invariant Reserves(m, v)
        invariant forall i, j :: m.Inside(i, j) ==>
          m.At(i, j) == (old(m.At(i, j)) != ((j < y || (j == y && i < x)) && !IsFunction(v, i, j) && MaskFn(mask, i, j)))
      {
        if !m.Reserved(x, y) && MaskFn(mask, x, y) {
          m.Put(x, y, !m.At(x, y), false);
        }
      }
    }
  }

  lemma FormatIsFunction(v: nat)
    requires 1 <= v <= 10
    ensures forall x, y :: InFormat(Size(v), x, y) ==> IsFunction(v, x, y)
  {}

  /** Copy 1, around the top left finder. */
  method WriteFirstCopy(m: Matrix, v: nat, f: Bits)
    requires m.Valid() && 1 <= v <= 10 && Reserves(m, v) && |f| == 15
    modifies m.mod, m.isSet
    ensures Reserves(m, v)
    ensures forall x, y :: m.Inside(x, y) ==>
      m.At(x, y) ==
        if x <= 8 && y <= 8 && FormatBitAt(m.size, x, y) >= 0 then f[14 - FormatBitAt(m.size, x, y)] else old(m.At(x, y))
  {
    FormatIsFunction(v);
    hide IsFunction;
    for i := 0 to 6
      invariant Reserves(m, v)
      invariant forall x, y :: m.Inside(x, y) ==> m.At(x, y) == if x == 8 && y < i then f[14 - y] else old(m.At(x, y))
    {
      m.Put(8, i, f[14 - i], true);
    }
    m.Put(8, 7, f[8], true);
    m.Put(8, 8, f[7], true);
    m.Put(7, 8, f[6], true);
    label Corner:
    for i := 9 to 15
      invariant Reserves(m, v)
      invariant forall x, y :: m.Inside(x, y) ==>
        m.At(x, y) == if y == 8 && 14 - i < x <= 5 then f[x] else old@Corner(m.At(x, y))
    {
      m.Put(14 - i, 8, f[14 - i], true);
    }
  }

  /** Copy 2, split between the other two finders. */
  method WriteSecondCopy(m: Matrix, v: nat, f: Bits)
    requires m.Valid() && 1 <= v <= 10 && Reserves(m, v) && |f| == 15
    modifies m.mod, m.isSet
    ensures Reserves(m, v)
    ensures forall x, y :: m.Inside(x, y) ==>
      m.At(x, y) ==
        if (x >= m.size - 8 || y >= m.size - 7) && FormatBitAt(m.size, x, y) >= 0 then f[14 - FormatBitAt(m.size, x, y)]
        else old(m.At(x, y))
  {
    FormatIsFunction(v);
    hide IsFunction;
    var size := m.size;
    for i := 0 to 8
      invariant Reserves(m, v)
      invariant forall x, y :: m.Inside(x, y) ==>
        m.At(x, y) == if y == 8 && x > size - 1 - i then f[14 - (size - 1 - x)] else old(m.At(x, y))
    {
      m.Put(size - 1 - i, 8, f[14 - i], true);
    }
    label Second:
    for i := 8 to 15
      invariant Reserves(m, v)
      invariant forall x, y :: m.Inside(x, y) ==>
        m.At(x, y) == if x == 8 && size - 7 <= y < size - 15 + i then f[14 - (y - (size - 15))] else old@Second(m.At(x, y))
    {
      m.Put(8, size - 15 + i, f[14 - i], true);
    }
  }

  /** Both copies, and the module that is always dark. */
  method WriteFormat(m: Matrix, v: nat, f: Bits)
    requires m.Valid() && 1 <= v <= 10 && Reserves(m, v) && |f| == 15
    modifies m.mod, m.isSet
    ensures Reserves(m, v)
    ensures forall x, y :: m.Inside(x, y) ==>
      m.At(x, y) ==
        if x == 8 && y == m.size - 8 then true
        else if FormatBitAt(m.size, x, y) >= 0 then f[14 - FormatBitAt(m.size, x, y)]
        else old(m.At(x, y))
  {
    FormatIsFunction(v);
    hide IsFunction;
    WriteFirstCopy(m, v, f);
    WriteSecondCopy(m, v, f);
    m.Put(8, m.size - 8, true, true);
  }

  // ---- the symbol ----

  /** Rows of modules; true is dark. */
  type Grid = seq<seq<bool>>

  predicate IsSquare(g: Grid, size: nat) { |g| == size && forall y :: 0 <= y < size ==> |g[y]| == size }

  /** The conditions of Table 10, by row i and column j. */
  predicate MaskCondition(mask: nat, i: nat, j: nat) {
    match mask
    case 0 => (i + j) % 2 == 0
    case 1 => i % 2 == 0
    case 2 => j % 3 == 0
    case 3 => (i + j) % 3 == 0
    case 4 => (i / 2 + j / 3) % 2 == 0
    case 5 => (i * j) % 2 + (i * j) % 3 == 0
    case 6 => ((i * j) % 2 + (i * j) % 3) % 2 == 0
    case _ => ((i + j) % 2 + (i * j) % 3) % 2 == 0
  }

  /** The code masks by column and row, the standard by row and column. */
  lemma MaskFnIsCondition(mask: nat, x: nat, y: nat)
    requires mask < 8
    ensures MaskFn(mask, x, y) == MaskCondition(mask, y, x)
  {
    assert x * y == y * x;
  }

  /** The fifteen format bits of one copy, bit 14 first. */
  function FormatBitsOf(g: Grid, size: nat, copy: nat): (f: Bits)
    requires size >= 21 && IsSquare(g, size)
    ensures |f| == 15
  {
    seq(15, k requires 0 <= k < 15 =>
      FormatModules(size, 14 - k);
      var m := if copy == 1 then FormatModule1(14 - k) else FormatModule2(size, 14 - k);
      g[m.y][m.x])
  }

  /** The eighteen bits of one block of version information, bit 17 first: bit k is in column k / 3 and row
      k % 3 of the block beside the bottom left finder, and the other way round above the top right one. */
  function VersionBitsOf(g: Grid, size: nat, copy: nat): (f: Bits)
    requires size >= 45 && IsSquare(g, size)
    ensures |f| == 18
  {
    seq(18, i requires 0 <= i < 18 =>
      var k := 17 - i;
      if copy == 1 then g[size - 11 + k % 3][k / 3] else g[k / 3][size - 11 + k % 3])
  }

  /** The codewords under a mask, read along the data path. */
  function UnmaskedBits(g: Grid, path: seq<Module>, mask: nat): (b: Bits)
    requires forall k :: 0 <= k < |path| ==> 0 <= path[k].x && 0 <= path[k].y < |g| && path[k].x < |g[path[k].y]|
    ensures |b| == |path|
  {
    seq(|path|, k requires 0 <= k < |path| => g[path[k].y][path[k].x] != MaskCondition(mask, path[k].y, path[k].x))
  }

  function Bytes(b: Bits, n: nat): (s: seq<Byte>)
    requires 8 * n <= |b|
    ensures |s| == n
  {
    seq(n, c requires 0 <= c < n => b[8 * c..8 * c + 8])
  }

  lemma PathInSymbol(v: nat)
    requires 1 <= v <= 10
    ensures forall k :: 0 <= k < |DataPath(v)| ==> InSymbol(Size(v), DataPath(v)[k])
  {
    hide DataPath; hide IsFunction;
    forall k | 0 <= k < |DataPath(v)| ensures InSymbol(Size(v), DataPath(v)[k]) {
      DataPathExact(v, DataPath(v)[k]);
    }
  }

  /** The codewords of a symbol of version k + 1 under a mask. */
  ghost function CodewordsOf(g: Grid, k: nat, mask: nat): (cw: seq<Byte>)
    requires k < |VERSIONS| && IsSquare(g, Size(k + 1))
    ensures |cw| == VERSIONS[k].Total()
  {
    hide DataPath; hide QrVersion.Total;
    PathInSymbol(k + 1);
    PathHoldsCodewords(k);
    Bytes(UnmaskedBits(g, DataPath(k + 1), mask), VERSIONS[k].Total())
  }

  /** From version 7 on, both blocks of version information announce the version. */
  predicate ShowsVersion(g: Grid, v: nat)
    requires 1 <= v <= 10 && IsSquare(g, Size(v))
  {
    v >= 7 ==>
      ReadVersion(VersionBitsOf(g, Size(v), 1)) == v && ReadVersion(VersionBitsOf(g, Size(v), 2)) == v
  }

  /** A reader of symbols written from clauses 7.4 to 7.10: the version from the size, and from version 7 on from both
      blocks of version information too, the mask from one copy of the format information, the codewords from the
      data path, the payload from the codewords. */
  ghost function ReadSymbol(g: Grid, copy: nat): Option<seq<Byte>> {
    var size := |g|;
    if size < 21 || size > 57 || (size - 17) % 4 != 0 || !IsSquare(g, size) then None
    else
      var k := (size - 21) / 4;
      var mask := ReadFormat(FormatBitsOf(g, size, copy));
      if mask < 0 || !ShowsVersion(g, k + 1) then None
      else
        VersionsWellShaped(k);
        ReadCodewords(VERSIONS[k], CodewordsOf(g, k, mask))
  }

  /** Modules that format information may overwrite. */
  predicate InFormatOnly(size: nat, x: int, y: int) { InFormat(size, x, y) && !InTiming(x, y) }

  /** g is the symbol of version v for the codewords cw under this mask. */
  ghost predicate IsSymbol(v: nat, cw: seq<Byte>, mask: nat, g: Grid) {
    && 1 <= v <= 10 && IsSquare(g, Size(v))
    && (forall k :: 0 <= k < |DataPath(v)| ==>
          var m := DataPath(v)[k];
          InSymbol(Size(v), m) && g[m.y][m.x] == (Shows(cw, k) != MaskCondition(mask, m.y, m.x)))
    && IsFormatWord(FormatBitsOf(g, Size(v), 1), mask)
    && FormatBitsOf(g, Size(v), 2) == FormatBitsOf(g, Size(v), 1)
    && (forall x, y :: 0 <= x < Size(v) && 0 <= y < Size(v) && IsFunction(v, x, y) && !InFormatOnly(Size(v), x, y) ==>
          g[y][x] == PatternDark(v, x, y))
    && g[Size(v) - 8][8]
  }

  /** The symbol that encodeWithMask draws, read off the matrix. */
  method GridOf(m: Matrix) returns (g: Grid)
    requires m.Valid()
    ensures IsSquare(g, m.size)
    ensures forall x, y :: m.Inside(x, y) ==> g[y][x] == m.At(x, y)
  {
    g := [];
    for y := 0 to m.size
      invariant |g| == y
      invariant forall j :: 0 <= j < y ==> |g[j]| == m.size
      invariant forall x, j :: m.Inside(x, j) && j < y ==> g[j][x] == m.At(x, j)
    {
      var row := [];
      for x := 0 to m.size
        invariant |row| == x
        invariant forall i :: 0 <= i < x ==> row[i] == m.At(i, y)
      {
        row := row + [m.At(x, y)];
      }
      g := g + [row];
    }
  }

  /** The data modules show the masked bits. */
  ghost predicate ShowsMasked(m: Matrix, v: nat, cw: seq<Byte>, mask: nat)
    requires m.Valid() && 1 <= v <= 10
    reads m, m.mod
  {
    forall k :: 0 <= k < |DataPath(v)| ==>
      var q := DataPath(v)[k];
      InSymbol(m.size, q) && m.At(q.x, q.y) == (Shows(cw, k) != MaskCondition(mask, q.y, q.x))
  }

  /** The symbol before its format information. */
  method DrawMasked(v: nat, cw: seq<Byte>, mask: nat) returns (m: Matrix)
    requires 1 <= v <= 10 && mask < 8
    ensures fresh(m) && m.Valid() && fresh(m.mod) && fresh(m.isSet)
    ensures Reserves(m, v) && Patterns(m, v) && ShowsMasked(m, v, cw, mask)
  {
    hide IsFunction; hide PatternDark; hide MaskFn; hide MaskCondition; hide Shows; hide DataPath;
    m := new Matrix(v * 4 + 17);
    m.Build(v);
    PlaceData(m, v, cw);
    ApplyMask(m, v, mask);
    forall k | 0 <= k < |DataPath(v)|
      ensures var q := DataPath(v)[k];
        InSymbol(m.size, q) && m.At(q.x, q.y) == (Shows(cw, k) != MaskCondition(mask, q.y, q.x))
    {
      var q := DataPath(v)[k];
      DataPathExact(v, q);
      MaskFnIsCondition(mask, q.x, q.y);
    }
  }

  /** encodeWithMask, read off as a grid. */
  method EncodeWithMask(v: nat, cw: seq<Byte>, mask: nat) returns (g: Grid)
    requires 1 <= v <= 10 && mask < 8
    ensures IsSymbol(v, cw, mask, g)
  {
    hide IsFunction; hide PatternDark; hide MaskCondition; hide Shows; hide DataPath; hide FormatBitAt; hide InFormatOnly;
    hide IsFormatWord; hide FormatBitsOf;
    var m := DrawMasked(v, cw, mask);
    var f := FormatBits(mask);
    WriteFormat(m, v, f);
    g := GridOf(m);
    var size := Size(v);
    forall x, y | 0 <= x < size && 0 <= y < size && (!IsFunction(v, x, y) || !InFormatOnly(size, x, y))
      ensures FormatBitAt(size, x, y) < 0 && !(x == 8 && y == size - 8)
    {
      NoFormatHere(v, x, y);
    }
    forall k | 0 <= k < |DataPath(v)|
      ensures var q := DataPath(v)[k]; InSymbol(size, q) && g[q.y][q.x] == (Shows(cw, k) != MaskCondition(mask, q.y, q.x))
    {
      DataPathExact(v, DataPath(v)[k]);
    }
    FormatShown(g, size, f);
  }

  lemma NoFormatHere(v: nat, x: int, y: int)
    requires 1 <= v <= 10 && 0 <= x < Size(v) && 0 <= y < Size(v)
    requires !IsFunction(v, x, y) || !InFormatOnly(Size(v), x, y)
    ensures FormatBitAt(Size(v), x, y) < 0 && !(x == 8 && y == Size(v) - 8)
  {
    FormatIsFunction(v);
    FormatReserved(Size(v), x, y);
  }

  lemma FormatShown(g: Grid, size: nat, f: Bits)
    requires size >= 21 && IsSquare(g, size) && |f| == 15
    requires forall x, y :: 0 <= x < size && 0 <= y < size && FormatBitAt(size, x, y) >= 0 && !(x == 8 && y == size - 8) ==>
      FormatBitAt(size, x, y) <= 14 && g[y][x] == f[14 - FormatBitAt(size, x, y)]
    ensures FormatBitsOf(g, size, 1) == f == FormatBitsOf(g, size, 2)
  {
    hide FormatBitAt; hide FormatModule1; hide FormatModule2;
    forall k | 0 <= k < 15
      ensures FormatBitsOf(g, size, 1)[k] == f[k] && FormatBitsOf(g, size, 2)[k] == f[k]
    {
      FormatModules(size, 14 - k);
      NotDarkModule(size, 14 - k);
    }
  }

  lemma NotDarkModule(size: nat, i: nat)
    requires size >= 21 && i < 15
    ensures FormatModule1(i) != Module(8, size - 8) && FormatModule2(size, i) != Module(8, size - 8)
  {}

  lemma SymbolCodewords(k: nat, cw: seq<Byte>, mask: nat, g: Grid)
    requires k < |VERSIONS| && |cw| == VERSIONS[k].Total()
    requires IsSymbol(k + 1, cw, mask, g)
    ensures CodewordsOf(g, k, mask) == cw
  {
    hide IsFunction; hide PatternDark; hide MaskCondition; hide DataPath; hide FormatBitsOf; hide IsFormatWord;
    hide QrVersion.Total; hide Shows;
    PathInSymbol(k + 1);
    PathHoldsCodewords(k);
    var bits := UnmaskedBits(g, DataPath(k + 1), mask);
    assert forall i :: 0 <= i < |bits| ==> bits[i] == Shows(cw, i);
    BytesShown(bits, cw);
  }

  lemma ReadSymbolSteps(g: Grid, k: nat, mask: nat, copy: nat)
    requires k < |VERSIONS| && IsSquare(g, Size(k + 1)) && ShowsVersion(g, k + 1)
    requires ReadFormat(FormatBitsOf(g, Size(k + 1), copy)) == mask
    ensures VERSIONS[k].WellShaped()
    ensures ReadSymbol(g, copy) == ReadCodewords(VERSIONS[k], CodewordsOf(g, k, mask))
  {
    hide CodewordsOf; hide FormatBitsOf; hide ReadCodewords; hide ReadFormat; hide QrVersion.WellShaped;
    hide QrVersion.Total; hide ShowsVersion;
    VersionsWellShaped(k);
  }

  /** The function patterns of a grid are those of the version. */
  ghost predicate Draws(v: nat, g: Grid) {
    && 1 <= v <= 10 && IsSquare(g, Size(v))
    && forall x, y :: 0 <= x < Size(v) && 0 <= y < Size(v) && IsFunction(v, x, y) && !InFormatOnly(Size(v), x, y) ==>
      g[y][x] == PatternDark(v, x, y)
  }

  lemma SymbolDraws(v: nat, cw: seq<Byte>, mask: nat, g: Grid)
    requires IsSymbol(v, cw, mask, g)
    ensures Draws(v, g)
  {
    hide IsFormatWord; hide FormatBitsOf; hide Shows; hide DataPath; hide MaskCondition; hide PatternDark; hide IsFunction;
    hide InFormatOnly;
  }

  /** Both blocks of version information spell the version's word: the version, and check bits that divide. */
  lemma VersionShown(v: nat, cw: seq<Byte>, mask: nat, g: Grid, copy: nat)
    requires IsSymbol(v, cw, mask, g) && v >= 7
    ensures v <= 10 && IsSquare(g, Size(v))
    ensures var f := VersionBitsOf(g, Size(v), copy);
      && IsVersionWord(f, v)
      && Value(f) == if v == 7 then 0x07C94 else if v == 8 then 0x085BC else if v == 9 then 0x09A99 else 0x0A4D3
  {
    SymbolDraws(v, cw, mask, g);
    hide IsSymbol;
    VersionBlock(v, g, copy);
    VersionWord(v);
    hide IsVersionWord; hide Value; hide Word;
  }

  lemma VersionRead(v: nat, cw: seq<Byte>, mask: nat, g: Grid)
    requires IsSymbol(v, cw, mask, g)
    ensures 1 <= v <= 10 && IsSquare(g, Size(v)) && ShowsVersion(g, v)
  {
    SymbolDraws(v, cw, mask, g);
    hide IsSymbol;
    if v >= 7 {
      VersionShown(v, cw, mask, g, 1);
      VersionShown(v, cw, mask, g, 2);
      hide VersionBitsOf; hide Value;
    }
  }

  lemma VersionBlock(v: nat, g: Grid, copy: nat)
    requires Draws(v, g) && v >= 7
    ensures VersionBitsOf(g, Size(v), copy) == Word(v)
  {
    hide Word; hide BitAt; hide PatternDark; hide IsFunction; hide InFormatOnly;
    WordBit(v, 0);
    forall i | 0 <= i < 18 ensures VersionBitsOf(g, Size(v), copy)[i] == Word(v)[i] {
      var k, size := 17 - i, Size(v);
      var x := if copy == 1 then k / 3 else size - 11 + k % 3;
      var y := if copy == 1 then size - 11 + k % 3 else k / 3;
      VersionModule(v, k, x, y);
    }
  }

  lemma VersionModule(v: nat, k: nat, x: nat, y: nat)
    requires 7 <= v <= 10 && k < 18
    requires (x == k / 3 && y == Size(v) - 11 + k % 3) || (y == k / 3 && x == Size(v) - 11 + k % 3)
    ensures x < Size(v) && y < Size(v) && IsFunction(v, x, y) && !InFormatOnly(Size(v), x, y)
    ensures |Word(v)| == 18 && PatternDark(v, x, y) == Word(v)[17 - k]
  {
    hide BitAt; hide Word;
    WordBit(v, k);
    VersionRegion(v, k, x, y);
    hide InFinder; hide InAlignment; hide InVersion; hide IsFunction; hide InFormatOnly; hide InTiming;
  }

  lemma VersionRegion(v: nat, k: nat, x: nat, y: nat)
    requires 7 <= v <= 10 && k < 18
    requires (x == k / 3 && y == Size(v) - 11 + k % 3) || (y == k / 3 && x == Size(v) - 11 + k % 3)
    ensures x < Size(v) && y < Size(v) && IsFunction(v, x, y) && !InFormatOnly(Size(v), x, y)
    ensures InVersion(v, x, y) && !InFinder(Size(v), x, y) && !InAlignment(v, x, y) && VersionIndex(v, x, y) == k
  {}

  /** Reading undoes encoding, whichever copy of the format information is read. */
  lemma SymbolRoundTrip(payload: seq<Byte>, k: nat, cw: seq<Byte>, mask: nat, g: Grid, copy: nat)
    requires k < |VERSIONS| && mask < 8 && 1 <= copy <= 2
    requires IsCodewords(payload, VERSIONS[k], cw)
    requires IsSymbol(k + 1, cw, mask, g)
    ensures ReadSymbol(g, copy) == Some(payload)
  {
    hide CodewordsOf; hide FormatBitsOf; hide ReadCodewords; hide IsFormatWord; hide ReadFormat; hide ReadSymbol;
    hide IsDataCodewords; hide QrVersion.WellShaped; hide QrVersion.Total; hide IsFunction; hide PatternDark;
    hide DataPath;
    ReadFormatWord(FormatBitsOf(g, Size(k + 1), copy), mask);
    VersionRead(k + 1, cw, mask, g);
    ReadSymbolSteps(g, k, mask, copy);
    CodewordsLength(payload, VERSIONS[k], cw);
    SymbolCodewords(k, cw, mask, g);
    CodewordsRoundTrip(payload, VERSIONS[k], cw);
  }

  lemma CodewordsLength(payload: seq<Byte>, v: QrVersion, cw: seq<Byte>)
    requires IsCodewords(payload, v, cw)
    ensures |cw| == v.Total()
  {
    hide IsDataCodewords; hide QrVersion.Total;
  }

  lemma ReadFormatWord(f: Bits, mask: nat)
    requires IsFormatWord(f, mask)
    ensures ReadFormat(f) == mask
  {}

  lemma BytesShown(bits: Bits, cw: seq<Byte>)
    requires |bits| >= 8 * |cw|
    requires forall i :: 0 <= i < |bits| ==> bits[i] == Shows(cw, i)
    ensures Bytes(bits, |cw|) == cw
  {
    hide Flatten;
    forall c | 0 <= c < |cw| ensures bits[8 * c..8 * c + 8] == cw[c] {
      FlattenSlice(cw, c);
      assert bits[8 * c..8 * c + 8] == Flatten(cw)[8 * c..8 * c + 8];
    }
  }
}
