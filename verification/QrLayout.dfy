/** Which modules of a symbol are function patterns, and what they look like: clause 6.3 and Annex E of
    ISO/IEC 18004:2015. Versions 1 to 10; x is the column, y the row. */
module QrLayout {
  function Size(v: nat): nat { v * 4 + 17 }

  function Abs(a: int): nat { if a < 0 then -a else a }

  function Max(a: int, b: int): int { if a < b then b else a }

  /** The distance of (x, y) from (cx, cy) in rings. */
  function Ring(x: int, y: int, cx: int, cy: int): nat { Max(Abs(x - cx), Abs(y - cy)) }

  // ---- finder patterns with their separators ----

  predicate InFinder(size: nat, x: int, y: int) {
    (x < 8 && y < 8) || (x >= size - 8 && y < 8) || (x < 8 && y >= size - 8)
  }

  /** Rings 0, 1 and 3 around the centre are dark; ring 2 and the separator are light. */
  predicate FinderDark(size: nat, x: int, y: int) {
    var r := Ring(x, y, if x < 8 then 3 else size - 4, if y < 8 then 3 else size - 4);
    r <= 3 && r != 2
  }

  // ---- alignment patterns ----

  /** The row and column coordinates of alignment pattern centres (Annex E). */
  const CENTRES: seq<seq<nat>> := [
    [], [], [6, 18], [6, 22], [6, 26], [6, 30], [6, 34], [6, 22, 38], [6, 24, 42], [6, 26, 46], [6, 28, 50]
  ]

  predicate NoCentre(v: nat, size: nat, cx: int, cy: int) {
    (cx == 6 && cy == 6) || (cx == 6 && cy == size - 7) || (cx == size - 7 && cy == 6)
  }

  /** The place in the table of the centre coordinate within two of t, or the table's length. */
  function Band(v: nat, t: int): nat
    requires 1 <= v <= 10
  {
    var c := CENTRES[v];
    if |c| == 0 then 0
    else if Abs(t - c[0]) <= 2 then 0
    else if Abs(t - c[1]) <= 2 then 1
    else if |c| == 2 then 2
    else if Abs(t - c[2]) <= 2 then 2
    else 3
  }

  predicate InAlignment(v: nat, x: int, y: int)
    requires 1 <= v <= 10
  {
    var c := CENTRES[v];
    var i, j := Band(v, x), Band(v, y);
    i < |c| && j < |c| && !NoCentre(v, Size(v), c[i], c[j])
  }

  /** Only the first ring around the centre is light. */
  predicate AlignmentDark(v: nat, x: int, y: int)
    requires 1 <= v <= 10 && InAlignment(v, x, y)
  {
    Ring(x, y, CENTRES[v][Band(v, x)], CENTRES[v][Band(v, y)]) != 1
  }

  // ---- format and version information ----

  predicate InFormat(size: nat, x: int, y: int) {
    (x == 8 && (y <= 8 || y >= size - 8)) || (y == 8 && (x <= 8 || x >= size - 8))
  }

  predicate InVersion(v: nat, x: int, y: int) {
    v >= 7 && ((x < 6 && Size(v) - 11 <= y < Size(v) - 8) || (y < 6 && Size(v) - 11 <= x < Size(v) - 8))
  }

  /** The version information words of versions 7 to 10 (Annex D). */
  const VERSION_INFO: map<nat, nat> := map[7 := 0x07C94, 8 := 0x085BC, 9 := 0x09A99, 10 := 0x0A4D3]

  function BitAt(value: nat, i: nat): bool {
    if i == 0 then value % 2 == 1 else BitAt(value / 2, i - 1)
  }

  /** The place of (x, y) in the version information: 3 * a + b sits a modules along the long edge and b
      across, in both copies. */
  function VersionIndex(v: nat, x: int, y: int): (k: int)
    requires InVersion(v, x, y) && 0 <= x && 0 <= y
    ensures 0 <= k < 18
  {
    if x < 6 then 3 * x + (y - (Size(v) - 11)) else 3 * y + (x - (Size(v) - 11))
  }

  predicate VersionDark(v: nat, x: int, y: int)
    requires 7 <= v <= 10 && InVersion(v, x, y) && 0 <= x && 0 <= y
  {
    BitAt(VERSION_INFO[v], VersionIndex(v, x, y))
  }

  // ---- the whole symbol ----

  predicate InTiming(x: int, y: int) { x == 6 || y == 6 }

  /** The modules that carry no data. */
  predicate IsFunction(v: nat, x: int, y: int)
    requires 1 <= v <= 10
  {
    InFinder(Size(v), x, y) || InTiming(x, y) || InAlignment(v, x, y) || InFormat(Size(v), x, y) || InVersion(v, x, y)
  }

  /** The fixed function patterns; format information and data modules read as light. */
  predicate PatternDark(v: nat, x: int, y: int)
    requires 1 <= v <= 10 && 0 <= x && 0 <= y
  {
    if InFinder(Size(v), x, y) then FinderDark(Size(v), x, y)
    else if InAlignment(v, x, y) then AlignmentDark(v, x, y)
    else if InVersion(v, x, y) then VersionDark(v, x, y)
    else InTiming(x, y) && (x + y) % 2 == 0
  }
}
