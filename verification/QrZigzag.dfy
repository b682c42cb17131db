/** The order in which codeword bits fill a symbol: clause 7.7.3 of ISO/IEC 18004:2015. */
module QrZigzag {
  import opened QrLayout

  datatype Module = Module(x: int, y: int)

  predicate InSymbol(size: nat, m: Module) { 0 <= m.x < size && 0 <= m.y < size }

  /** The right column of the s-th two-module strip, counting from the right and skipping the vertical
      timing pattern. */
  function StripRight(size: nat, s: nat): int {
    if size - 1 - 2 * s > 6 then size - 1 - 2 * s else size - 2 - 2 * s
  }

  function Strips(size: nat): nat { if size == 0 then 0 else (size - 1) / 2 }

  /** A strip runs upwards when s is even and downwards otherwise, right module before left. */
  function StripAt(size: nat, s: nat, j: nat): Module {
    Module(StripRight(size, s) - j % 2, if s % 2 == 0 then size - 1 - j / 2 else j / 2)
  }

  function Strip(size: nat, s: nat): (r: seq<Module>)
    ensures |r| == 2 * size
  {
    seq(2 * size, j requires 0 <= j < 2 * size => StripAt(size, s, j))
  }

  /** The first n strips, one after the other. */
  function Walk(size: nat, n: nat): seq<Module> {
    if n == 0 then [] else Walk(size, n - 1) + Strip(size, n - 1)
  }

  /** The modules of w that carry data. */
  function Free(v: nat, w: seq<Module>): seq<Module>
    requires 1 <= v <= 10
  {
    if w == [] then []
    else
      var m := w[|w| - 1];
      Free(v, w[..|w| - 1]) + (if IsFunction(v, m.x, m.y) then [] else [m])
  }

  /** Where the bits of the codewords go, in order. */
  function DataPath(v: nat): seq<Module>
    requires 1 <= v <= 10
  {
    Free(v, Walk(Size(v), Strips(Size(v))))
  }

  ghost predicate NoRepeats<T>(s: seq<T>) { forall i, j :: 0 <= i < j < |s| ==> s[i] != s[j] }

  // ---- the walk visits every module outside column 6 exactly once ----

  lemma StripInSymbol(size: nat, s: nat)
    requires size >= 21 && size % 2 == 1 && s < Strips(size)
    ensures 1 <= StripRight(size, s) < size
    ensures StripRight(size, s) != 6 && StripRight(size, s) != 7
    ensures forall m :: m in Strip(size, s) ==> InSymbol(size, m)
  {}

  lemma StripNoRepeats(size: nat, s: nat)
    ensures NoRepeats(Strip(size, s))
  {}

  lemma InStrip(size: nat, s: nat, m: Module)
    requires InSymbol(size, m)
    ensures m in Strip(size, s) <==> StripRight(size, s) - 1 <= m.x <= StripRight(size, s)
  {
    if StripRight(size, s) - 1 <= m.x <= StripRight(size, s) {
      var row := if s % 2 == 0 then size - 1 - m.y else m.y;
      var j := 2 * row + (StripRight(size, s) - m.x);
      assert Strip(size, s)[j] == m;
    }
  }

  /** The strip that holds column x. */
  function StripOf(size: nat, x: int): int {
    if x > 6 then (size - 1 - x) / 2 else (size - 2 - x) / 2
  }

  lemma StripOfColumn(size: nat, x: int, s: nat)
    requires size >= 21 && size % 2 == 1 && 0 <= x < size && x != 6 && s < Strips(size)
    ensures 0 <= StripOf(size, x) < Strips(size)
    ensures StripRight(size, s) - 1 <= x <= StripRight(size, s) <==> s == StripOf(size, x)
  {}

  lemma {:induction false} InWalk(size: nat, n: nat, m: Module)
    requires size >= 21 && size % 2 == 1 && n <= Strips(size)
    ensures m in Walk(size, n) <==> InSymbol(size, m) && m.x != 6 && StripOf(size, m.x) < n
  {
    if n > 0 {
      InWalk(size, n - 1, m);
      StripInSymbol(size, n - 1);
      if InSymbol(size, m) {
        InStrip(size, n - 1, m);
        if m.x != 6 { StripOfColumn(size, m.x, n - 1); }
      }
    } else if InSymbol(size, m) && m.x != 6 {
      StripOfColumn(size, m.x, 0);
    }
  }

  lemma {:induction false} WalkNoRepeats(size: nat, n: nat)
    requires size >= 21 && size % 2 == 1 && n <= Strips(size)
    ensures NoRepeats(Walk(size, n))
  {
    if n > 0 {
      WalkNoRepeats(size, n - 1);
      StripNoRepeats(size, n - 1);
      var a, b := Walk(size, n - 1), Strip(size, n - 1);
      StripInSymbol(size, n - 1);
      forall i, j | 0 <= i < |a| && 0 <= j < |b| ensures a[i] != b[j] {
        var m := b[j];
        assert m in b;
        InStrip(size, n - 1, m);
        StripOfColumn(size, m.x, n - 1);
        InWalk(size, n - 1, m);
        assert a[i] in a;
      }
    }
  }

  // ---- the data path ----

  lemma {:induction false} FreeConcat(v: nat, a: seq<Module>, b: seq<Module>)
    requires 1 <= v <= 10
    ensures Free(v, a + b) == Free(v, a) + Free(v, b)
  {
    hide IsFunction;
    if b == [] {
      assert a + b == a;
    } else {
      var n := |b| - 1;
      FreeConcat(v, a, b[..n]);
      assert (a + b)[..|a| + n] == a + b[..n];
    }
  }

  lemma {:induction false} InFree(v: nat, w: seq<Module>, m: Module)
    requires 1 <= v <= 10
    ensures m in Free(v, w) <==> m in w && !IsFunction(v, m.x, m.y)
  {
    hide IsFunction;
    if w != [] {
      InFree(v, w[..|w| - 1], m);
      assert w == w[..|w| - 1] + [w[|w| - 1]];
    }
  }

  lemma {:induction false} FreeNoRepeats(v: nat, w: seq<Module>)
    requires 1 <= v <= 10 && NoRepeats(w)
    ensures NoRepeats(Free(v, w))
  {
    hide IsFunction;
    if w != [] {
      var n := |w| - 1;
      FreeNoRepeats(v, w[..n]);
      var f := Free(v, w[..n]);
      forall i | 0 <= i < |f| ensures f[i] != w[n] {
        assert f[i] in f;
        InFree(v, w[..n], f[i]);
      }
    }
  }

  /** The data path visits every module that is not a function pattern, and visits it once. */
  lemma DataPathExact(v: nat, m: Module)
    requires 1 <= v <= 10
    ensures NoRepeats(DataPath(v))
    ensures m in DataPath(v) <==> InSymbol(Size(v), m) && !IsFunction(v, m.x, m.y)
  {
    hide IsFunction;
    var size := Size(v);
    var w := Walk(size, Strips(size));
    WalkNoRepeats(size, Strips(size));
    FreeNoRepeats(v, w);
    InFree(v, w, m);
    InWalk(size, Strips(size), m);
    if InSymbol(size, m) && m.x != 6 {
      StripOfColumn(size, m.x, 0);
    }
    assert m.x == 6 ==> IsFunction(v, m.x, m.y) by { TimingColumn(v, m.y); }
  }

  lemma TimingColumn(v: nat, y: int)
    requires 1 <= v <= 10
    ensures IsFunction(v, 6, y)
  {}
}
