/** Byte strings cut at newlines, the way bytes.Split cuts them. */
module Lines {
  type byte = b: int | 0 <= b < 256
  type Bytes = seq<byte>

  const NEWLINE: byte := 10

  /** One more byte at the end of some pieces. */
  function AddByte(r: seq<Bytes>, c: byte): (s: seq<Bytes>)
    requires |r| >= 1
    ensures |s| >= 1
  {
    if c == NEWLINE then r + [[]] else r[..|r| - 1] + [r[|r| - 1] + [c]]
  }

  /** The pieces between newlines: always one more than there are newlines. */
  function Split(s: Bytes): (r: seq<Bytes>)
    ensures |r| >= 1
  {
    if s == [] then [[]] else AddByte(Split(s[..|s| - 1]), s[|s| - 1])
  }

  /** The last of p runs on into the first of q. */
  function Join(p: seq<Bytes>, q: seq<Bytes>): (r: seq<Bytes>)
    requires |p| >= 1 && |q| >= 1
    ensures |r| == |p| + |q| - 1
  {
    p[..|p| - 1] + [p[|p| - 1] + q[0]] + q[1..]
  }

  lemma JoinAddByte(p: seq<Bytes>, q: seq<Bytes>, c: byte)
    requires |p| >= 1 && |q| >= 1
    ensures AddByte(Join(p, q), c) == Join(p, AddByte(q, c))
  {
    var m := |p| - 1;
    if c != NEWLINE && |q| == 1 {
      assert (p[m] + q[0]) + [c] == p[m] + (q[0] + [c]);
    }
  }

  /** Splitting a concatenation. */
  lemma {:induction false} SplitConcat(a: Bytes, b: Bytes)
    ensures Split(a + b) == Join(Split(a), Split(b))
  {
    hide AddByte;
    var p := Split(a);
    if b == [] {
      assert a + b == a;
      assert p[|p| - 1] + [] == p[|p| - 1];
    } else {
      var n := |b| - 1;
      SplitConcat(a, b[..n]);
      assert (a + b)[..|a| + n] == a + b[..n];
      JoinAddByte(p, Split(b[..n]), b[n]);
    }
  }

  predicate Clean(s: Bytes) { NEWLINE !in s }

  lemma {:induction false} SplitClean(s: Bytes)
    requires Clean(s)
    ensures Split(s) == [s]
  {
    if s != [] {
      var n := |s| - 1;
      SplitClean(s[..n]);
      assert s[..n] + [s[n]] == s;
    }
  }

  lemma {:induction false} PiecesClean(s: Bytes)
    ensures forall i :: 0 <= i < |Split(s)| ==> Clean(Split(s)[i])
  {
    if s != [] { PiecesClean(s[..|s| - 1]); }
  }

  /** The bytes of some pieces, each with the newline after it. */
  function Width(lines: seq<Bytes>): nat {
    if lines == [] then 0 else Width(lines[..|lines| - 1]) + |lines[|lines| - 1]| + 1
  }

  lemma {:induction false} WidthConcat(a: seq<Bytes>, b: seq<Bytes>)
    ensures Width(a + b) == Width(a) + Width(b)
  {
    if b == [] {
      assert a + b == a;
    } else {
      var n := |b| - 1;
      assert (a + b)[..|a| + n] == a + b[..n];
      WidthConcat(a, b[..n]);
    }
  }

  lemma WidthCons(t: Bytes, rest: seq<Bytes>)
    ensures Width([t] + rest) == |t| + 1 + Width(rest)
  {
    var one: seq<Bytes> := [t];
    assert one[..0] == [];
    WidthConcat(one, rest);
  }

  /** The last piece has no newline of its own. */
  lemma {:induction false} SplitWidth(s: Bytes)
    ensures Width(Split(s)) == |s| + 1
  {
    if s != [] {
      var n := |s| - 1;
      SplitWidth(s[..n]);
      var r := Split(s[..n]);
      if s[n] == NEWLINE {
        assert (r + [[]])[..|r|] == r;
      } else {
        var m := |r| - 1;
        var t := r[..m] + [r[m] + [s[n]]];
        assert t[..m] == r[..m];
      }
    }
  }

  /** The versions of a file that is only ever appended to. */
  predicate Growing(files: seq<Bytes>) { forall i :: 1 <= i < |files| ==> files[i - 1] <= files[i] }
}
