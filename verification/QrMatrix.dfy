/** The module matrix and the painting of its function patterns. */
module QrMatrix {
  import opened Arithmetic
  import opened QrLayout

  lemma IndexInRange(size: nat, x: int, y: int)
    requires 0 <= x < size && 0 <= y < size
    ensures 0 <= y * size + x < size * size
  {
    MulStep(y, size, size);
    NonNegative(y, size);
  }

  class Matrix {
    const size: nat
    const mod: array<bool>
    const isSet: array<bool>

    ghost predicate Valid()
      reads this
    {
      mod != isSet && mod.Length == size * size && isSet.Length == size * size
    }

    constructor (size: nat)
      ensures Valid() && this.size == size && fresh(mod) && fresh(isSet)
      ensures forall x, y :: 0 <= x < size && 0 <= y < size ==> !At(x, y) && !Reserved(x, y)
    {
      this.size := size;
      mod := new bool[size * size](_ => false);
      isSet := new bool[size * size](_ => false);
      new;
      forall x, y | 0 <= x < size && 0 <= y < size ensures !At(x, y) && !Reserved(x, y) {
        IndexInRange(size, x, y);
      }
    }

    predicate Inside(x: int, y: int) { 0 <= x < size && 0 <= y < size }

    predicate At(x: int, y: int)
      requires Valid() && Inside(x, y)
      reads this, mod
    {
      IndexInRange(size, x, y);
      mod[y * size + x]
    }

    predicate Reserved(x: int, y: int)
      requires Valid() && Inside(x, y)
      reads this, isSet
    {
      IndexInRange(size, x, y);
      isSet[y * size + x]
    }

    /** put: one module. */
    method Put(x: int, y: int, dark: bool, reserve: bool)
      requires Valid() && Inside(x, y)
      modifies mod, isSet
      ensures forall i, j :: Inside(i, j) ==> At(i, j) == if i == x && j == y then dark else old(At(i, j))
      ensures forall i, j :: Inside(i, j) ==>
        Reserved(i, j) == if i == x && j == y && reserve then true else old(Reserved(i, j))
    {
      IndexInRange(size, x, y);
      mod[y * size + x] := dark;
      if reserve {
        isSet[y * size + x] := true;
      }
      forall i, j | Inside(i, j)
        ensures At(i, j) == if i == x && j == y then dark else old(At(i, j))
        ensures Reserved(i, j) == if i == x && j == y && reserve then true else old(Reserved(i, j))
      {
        IndexInRange(size, i, j);
        if y * size + x == j * size + i { DivModUnique(y, x, j, i, size); }
      }
    }

    /** finder: a finder pattern and its separator, as far as they lie inside. */
    method Finder(x: int, y: int)
      requires Valid()
      modifies mod, isSet
      ensures forall i, j :: Inside(i, j) ==>
        var inside := -1 <= i - x <= 7 && -1 <= j - y <= 7;
        var r := Ring(i, j, x + 3, y + 3);
        && At(i, j) == (if inside then r <= 3 && r != 2 else old(At(i, j)))
        && Reserved(i, j) == (inside || old(Reserved(i, j)))
    {
      for dy := -1 to 8
        invariant forall i, j :: Inside(i, j) ==>
          var done := -1 <= i - x <= 7 && -1 <= j - y < dy;
          && At(i, j) == (if done then Ring(i, j, x + 3, y + 3) <= 3 && Ring(i, j, x + 3, y + 3) != 2 else old(At(i, j)))
          && Reserved(i, j) == (done || old(Reserved(i, j)))
      {
        for dx := -1 to 8
          invariant forall i, j :: Inside(i, j) ==>
            var done := (-1 <= i - x <= 7 && -1 <= j - y < dy) || (j - y == dy && -1 <= i - x < dx);
            && At(i, j) == (if done then Ring(i, j, x + 3, y + 3) <= 3 && Ring(i, j, x + 3, y + 3) != 2 else old(At(i, j)))
            && Reserved(i, j) == (done || old(Reserved(i, j)))
        {
          var px, py := x + dx, y + dy;
          if px < 0 || py < 0 || px >= size || py >= size {
            continue;
          }
          var inRing := (dx == 0 || dx == 6) && dy >= 0 && dy <= 6;
          inRing := inRing || ((dy == 0 || dy == 6) && dx >= 0 && dx <= 6);
          var inCore := dx >= 2 && dx <= 4 && dy >= 2 && dy <= 4;
          Put(px, py, inRing || inCore, true);
        }
      }
    }
  
    /** alignment: five by five around a centre. */
    method Alignment(cx: int, cy: int)
      requires Valid() && 2 <= cx < size - 2 && 2 <= cy < size - 2
      modifies mod, isSet
      ensures forall i, j :: Inside(i, j) ==>
        var inside := Abs(i - cx) <= 2 && Abs(j - cy) <= 2;
        && At(i, j) == (if inside then Ring(i, j, cx, cy) != 1 else old(At(i, j)))
        && Reserved(i, j) == (inside || old(Reserved(i, j)))
    {
      for dy := -2 to 3
        invariant forall i, j :: Inside(i, j) ==>
          var done := Abs(i - cx) <= 2 && -2 <= j - cy < dy;
          && At(i, j) == (if done then Ring(i, j, cx, cy) != 1 else old(At(i, j)))
          && Reserved(i, j) == (done || old(Reserved(i, j)))
      {
        for dx := -2 to 3
          invariant forall i, j :: Inside(i, j) ==>
            var done := (Abs(i - cx) <= 2 && -2 <= j - cy < dy) || (j - cy == dy && -2 <= i - cx < dx);
            && At(i, j) == (if done then Ring(i, j, cx, cy) != 1 else old(At(i, j)))
            && Reserved(i, j) == (done || old(Reserved(i, j)))
        {
          var dark := dx == -2 || dx == 2 || dy == -2 || dy == 2 || (dx == 0 && dy == 0);
          Put(cx + dx, cy + dy, dark, true);
        }
      }
    }

    /** The timing patterns, between the finders. */
    method Timing()
      requires Valid() && size >= 21 && size % 2 == 1
      modifies mod, isSet
      ensures forall i, j :: Inside(i, j) ==>
        var inside := (j == 6 && 8 <= i < size - 8) || (i == 6 && 8 <= j < size - 8);
        && At(i, j) == (if inside then (i + j) % 2 == 0 else old(At(i, j)))
        && Reserved(i, j) == (inside || old(Reserved(i, j)))
    {
      for k := 8 to size - 8
        invariant forall i, j :: Inside(i, j) ==>
          var done := (j == 6 && 8 <= i < k) || (i == 6 && 8 <= j < k);
          && At(i, j) == (if done then (i + j) % 2 == 0 else old(At(i, j)))
          && Reserved(i, j) == (done || old(Reserved(i, j)))
      {
        var dark := k % 2 == 0;
        Put(k, 6, dark, true);
        Put(6, k, dark, true);
      }
    }

    /** One turn of the alignment loop: the pattern of centre (b, a), unless it would hit a finder. */
    method AlignmentAt(v: nat, a: nat, b: nat)
      requires Valid() && 1 <= v <= 10 && size == Size(v) && a < |CENTRES[v]| && b < |CENTRES[v]|
      modifies mod, isSet
      ensures forall i, j :: Inside(i, j) ==>
        var inside := InAlignment(v, i, j) && Band(v, i) == b && Band(v, j) == a;
        && At(i, j) == (if inside then AlignmentDark(v, i, j) else old(At(i, j)))
        && Reserved(i, j) == (inside || old(Reserved(i, j)))
    {
      hide Band; hide Ring; hide Abs;
      var cy: int, cx: int := CENTRES[v][a], CENTRES[v][b];
      if (cx == 6 && cy == 6) || (cx == 6 && cy == size - 7) || (cx == size - 7 && cy == 6) {
        return;
      }
      CentresFit(v, a); CentresFit(v, b);
      forall i, j | Inside(i, j)
        ensures Abs(i - cx) <= 2 && Abs(j - cy) <= 2 <==> Band(v, i) == b && Band(v, j) == a
      {
        BandOf(v, b, i); BandOf(v, a, j);
      }
      Alignment(cx, cy);
    }

    /** Every alignment pattern but those that would meet a finder. */
    method Alignments(v: nat)
      requires Valid() && 1 <= v <= 10 && size == Size(v)
      modifies mod, isSet
      ensures forall i, j :: Inside(i, j) ==>
        && At(i, j) == (if InAlignment(v, i, j) then AlignmentDark(v, i, j) else old(At(i, j)))
        && Reserved(i, j) == (InAlignment(v, i, j) || old(Reserved(i, j)))
    {
      hide Band; hide Ring; hide Abs; hide AlignmentDark;
      for a := 0 to |CENTRES[v]|
        invariant forall i, j :: Inside(i, j) ==>
          var done := InAlignment(v, i, j) && Band(v, j) < a;
          && At(i, j) == (if done then AlignmentDark(v, i, j) else old(At(i, j)))
          && Reserved(i, j) == (done || old(Reserved(i, j)))
      {
        for b := 0 to |CENTRES[v]|
          invariant forall i, j :: Inside(i, j) ==>
            var done := InAlignment(v, i, j) && (Band(v, j) < a || (Band(v, j) == a && Band(v, i) < b));
            && At(i, j) == (if done then AlignmentDark(v, i, j) else old(At(i, j)))
            && Reserved(i, j) == (done || old(Reserved(i, j)))
        {
          AlignmentAt(v, a, b);
        }
      }
    }

    /** The dark module and the areas for format information. */
    method FormatArea()
      requires Valid() && size >= 21
      modifies mod, isSet
      ensures forall i, j :: Inside(i, j) ==>
        && At(i, j) == (if InFormat(size, i, j) && !(old(Reserved(i, j)) && i <= 8 && j <= 8) then false else old(At(i, j)))
        && Reserved(i, j) == (InFormat(size, i, j) || old(Reserved(i, j)))
    {
      Put(8, size - 8, true, true);
      for k := 0 to 9
        invariant forall i, j :: Inside(i, j) ==>
          var done := (i < k && j == 8) || (i == 8 && j < k);
          var dark := i == 8 && j == size - 8;
          && At(i, j) == (if dark then true else if done && !old(Reserved(i, j)) then false else old(At(i, j)))
          && Reserved(i, j) == (done || dark || old(Reserved(i, j)))
      {
        if !Reserved(k, 8) {
          Put(k, 8, false, true);
        }
        if !Reserved(8, k) {
          Put(8, k, false, true);
        }
      }
      for k := 0 to 8
        invariant forall i, j :: Inside(i, j) ==>
          var first := (i <= 8 && j == 8) || (i == 8 && j <= 8);
          var done := (i > size - 1 - k && j == 8) || (i == 8 && j > size - 1 - k);
          var dark := i == 8 && j == size - 8;
          && At(i, j) == (if done then false else if dark then true else if first && !old(Reserved(i, j)) then false else old(At(i, j)))
          && Reserved(i, j) == (done || first || dark || old(Reserved(i, j)))
      {
        Put(size - 1 - k, 8, false, true);
        Put(8, size - 1 - k, false, true);
      }
    }

    /** Eighteen bits in two places, from version 7 on. */
    method VersionInformation(v: nat)
      requires Valid() && 1 <= v <= 10 && size == Size(v)
      modifies mod, isSet
      ensures forall i, j :: Inside(i, j) ==>
        && At(i, j) == (if InVersion(v, i, j) then VersionDark(v, i, j) else old(At(i, j)))
        && Reserved(i, j) == (InVersion(v, i, j) || old(Reserved(i, j)))
    {
      if v in VERSION_INFO {
        var bits := VERSION_INFO[v];
        for k := 0 to 18
          invariant forall i, j :: Inside(i, j) ==>
            var done := InVersion(v, i, j) && VersionIndex(v, i, j) < k;
            && At(i, j) == (if done then VersionDark(v, i, j) else old(At(i, j)))
            && Reserved(i, j) == (done || old(Reserved(i, j)))
        {
          var dark := BitAt(bits, k);
          Put(k / 3, size - 11 + k % 3, dark, true);
          Put(size - 11 + k % 3, k / 3, dark, true);
        }
      }
    }
  
    method Finders()
      requires Valid() && size >= 21
      requires forall i, j :: Inside(i, j) ==> !At(i, j) && !Reserved(i, j)
      modifies mod, isSet
      ensures forall i, j :: Inside(i, j) ==>
        && At(i, j) == (InFinder(size, i, j) && FinderDark(size, i, j))
        && Reserved(i, j) == InFinder(size, i, j)
    {
      Finder(0, 0);
      Finder(size - 7, 0);
      Finder(0, size - 7);
    }

    /** buildMatrix: every function pattern in place, data modules light. */
    method Build(v: nat)
      requires Valid() && 1 <= v <= 10 && size == Size(v)
      requires forall i, j :: Inside(i, j) ==> !At(i, j) && !Reserved(i, j)
      modifies mod, isSet
      ensures forall i, j :: Inside(i, j) ==>
        At(i, j) == PatternDark(v, i, j) && Reserved(i, j) == IsFunction(v, i, j)
    {
      hide InFinder; hide FinderDark; hide InAlignment; hide AlignmentDark; hide InFormat; hide InVersion;
      hide VersionDark;
      forall i, j | Inside(i, j) ensures RegionsApart(v, i, j) { RegionsAreApart(v, i, j); }
      Finders();
      Timing();
      Alignments(v);
      FormatArea();
      VersionInformation(v);
    }
  }

  /** Where function patterns may meet. */
  ghost predicate RegionsApart(v: nat, x: int, y: int)
    requires 1 <= v <= 10
  {
    && (InAlignment(v, x, y) ==> !InFinder(Size(v), x, y) && !InFormat(Size(v), x, y) && !InVersion(v, x, y))
    && (InVersion(v, x, y) ==> !InFinder(Size(v), x, y) && !InFormat(Size(v), x, y) && !InTiming(x, y))
    && (InFormat(Size(v), x, y) ==> !InFinder(Size(v), x, y))
    && (InFormat(Size(v), x, y) && InTiming(x, y) ==> x <= 8 && y <= 8 && x + y == 14)
    && (InTiming(x, y) ==> InFinder(Size(v), x, y) || (8 <= x < Size(v) - 8) || (8 <= y < Size(v) - 8))
    && (InFinder(Size(v), x, y) && InTiming(x, y) ==> (x < 8 || x >= Size(v) - 8) && (y < 8 || y >= Size(v) - 8))
  }

  lemma RegionsAreApart(v: nat, x: int, y: int)
    requires 1 <= v <= 10 && 0 <= x < Size(v) && 0 <= y < Size(v)
    ensures RegionsApart(v, x, y)
  {}

  lemma CentresFit(v: nat, a: nat)
    requires 1 <= v <= 10 && a < |CENTRES[v]|
    ensures 6 <= CENTRES[v][a] <= Size(v) - 7
  {}

  lemma BandOf(v: nat, a: nat, t: int)
    requires 1 <= v <= 10 && a < |CENTRES[v]|
    ensures Abs(t - CENTRES[v][a]) <= 2 <==> Band(v, t) == a
  {}
}
