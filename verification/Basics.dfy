/** A few definitions that several modules share. */
module Basics {
  datatype Option<+T> = None | Some(value: T)

  /** Durations are in nanoseconds. */
  const SECOND := 1_000_000_000

  function First<T>(s: seq<T>, n: nat): seq<T> { if |s| <= n then s else s[..n] }

  function Last<T>(s: seq<T>, n: nat): seq<T> { if |s| <= n then s else s[|s| - n..] }

  /** The beginning and the end of a sequence: as much as there is, up to n. */
  lemma EndsOf<T>(s: seq<T>, n: nat)
    ensures var r := First(s, n); r <= s && |r| == if |s| < n then |s| else n
    ensures var r := Last(s, n); |r| == (if |s| < n then |s| else n) && r == s[|s| - |r|..]
  {}

  lemma {:induction false} SubsetSize<T>(a: set<T>, b: set<T>)
    requires a <= b
    ensures |a| <= |b|
  {
    if a != {} {
      var x :| x in a;
      SubsetSize(a - {x}, b - {x});
    }
  }

  /** A separator that neither front part holds cuts a string in one way only. */
  lemma {:induction false} CutOnce(sep: char, a: string, x: string, b: string, y: string)
    requires sep !in a && sep !in b && a + [sep] + x == b + [sep] + y
    ensures a == b && x == y
  {
    var s := a + [sep] + x;
    assert s[0] == (if a == "" then sep else a[0]) && s[0] == (if b == "" then sep else b[0]);
    if a == "" {
      assert x == s[1..] && y == s[1..];
    } else {
      assert a[1..] + [sep] + x == s[1..] && b[1..] + [sep] + y == s[1..];
      CutOnce(sep, a[1..], x, b[1..], y);
      assert a == [a[0]] + a[1..] && b == [b[0]] + b[1..];
    }
  }
}
