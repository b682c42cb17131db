/** A windowed rate limiter, with one list of timestamps per key. */
module RateLimiter {
  /** The timestamps after a cutoff, in order. */
  function Newer(ts: seq<int>, cutoff: int): (r: seq<int>)
    ensures |r| <= |ts|
  {
    if ts == [] then []
    else
      var n := |ts| - 1;
      Newer(ts[..n], cutoff) + if ts[n] > cutoff then [ts[n]] else []
  }

  /** One timestamp less: the last that equals at, if there is one. */
  function Without(ts: seq<int>, at: int): seq<int> {
    if ts == [] then []
    else
      var n := |ts| - 1;
      if ts[n] == at then ts[..n] else Without(ts[..n], at) + [ts[n]]
  }

  /** A slice: the first len elements of a backing array. */
  class Times {
    var data: array<int>
    var len: nat

    ghost predicate Valid()
      reads this
    {
      len <= data.Length
    }

    ghost function Contents(): seq<int>
      reads this, data
      requires Valid()
    {
      data[..len]
    }

    constructor ()
      ensures Valid() && Contents() == [] && fresh(data)
    {
      data, len := new int[0], 0;
    }

    /** Filter in place: the kept ones move down over the dropped ones, in the array being read. */
    method KeepNewer(cutoff: int)
      requires Valid()
      modifies this`len, data
      ensures Valid() && Contents() == Newer(old(Contents()), cutoff)
    {
      var kept := 0;
      ghost var was := data[..len];
      assert was[..0] == [];
      for i := 0 to len
        invariant len == |was| && kept == |Newer(was[..i], cutoff)| <= i
        invariant data[..kept] == Newer(was[..i], cutoff)
        invariant forall j :: i <= j < len ==> data[j] == was[j]
      {
        assert was[..i + 1][..i] == was[..i];
        var t := data[i];
        if t > cutoff {
          data[kept] := t;
          kept := kept + 1;
        }
      }
      assert was[..len] == was;
      len := kept;
    }

    method Append(t: int)
      requires Valid()
      modifies this, data
      ensures Valid() && Contents() == old(Contents()) + [t]
      ensures data == old(data) || fresh(data)
    {
      if len == data.Length {
        var bigger := new int[2 * len + 1];
        forall i | 0 <= i < len { bigger[i] := data[i]; }
        data := bigger;
      }
      data[len] := t;
      len := len + 1;
    }

    /** append(ts[:i], ts[i+1:]...): those after i move down by one. */
    method RemoveAt(i: nat)
      requires Valid() && i < len
      modifies this`len, data
      ensures Valid() && Contents() == old(Contents())[..i] + old(Contents())[i + 1..]
    {
      ghost var was := data[..len];
      for j := i to len - 1
        invariant len == |was|
        invariant forall k :: 0 <= k < i ==> data[k] == was[k]
        invariant forall k :: i <= k < j ==> data[k] == was[k + 1]
        invariant forall k :: j <= k < len ==> data[k] == was[k]
      {
        data[j] := data[j + 1];
      }
      len := len - 1;
      assert data[..len] == was[..i] + was[i + 1..];
    }

    /** Remove the last timestamp equal to at, searching from the end. */
    method RemoveLast(at: int)
      requires Valid()
      modifies this`len, data
      ensures Valid() && Contents() == Without(old(Contents()), at)
    {
      var i := len;
      ghost var was := data[..len];
      assert was[len..] == [] && was[..len] == was;
      while i > 0
        invariant 0 <= i <= len == |was| && data[..len] == was
        invariant Without(was, at) == Without(was[..i], at) + was[i..]
      {
        i := i - 1;
        assert was[..i + 1][..i] == was[..i];
        if data[i] == at {
          Without1(was[..i + 1], at);
          RemoveAt(i);
          return;
        }
        assert was[i..] == [was[i]] + was[i + 1..];
      }
      assert was[..0] == [] && was[0..] == was;
    }
  }

  lemma Without1(ts: seq<int>, at: int)
    requires ts != [] && ts[|ts| - 1] == at
    ensures Without(ts, at) == ts[..|ts| - 1]
  {}

  /** What is kept for a key; nothing at first. */
  function Kept(m: map<string, seq<int>>, key: string): seq<int> { if key in m then m[key] else [] }

  /** allow, on what is kept for a key: what is kept then, and the answer. */
  function Allowing(ts: seq<int>, window: int, limit: int, now: int): (seq<int>, bool) {
    var kept := Newer(ts, now - window);
    if |kept| >= limit then (kept, false) else (kept + [now], true)
  }

  class Limiter {
    const window: int
    const limit: int
    var at: map<string, Times>

    /** Every key has a slice of its own. */
    ghost predicate Valid()
      reads this, set k | k in at :: at[k]
    {
      && (forall k :: k in at ==> at[k].Valid())
      && (forall j, k :: j in at && k in at && j != k ==> at[j] != at[k] && at[j].data != at[k].data)
    }

    ghost function Of(key: string): seq<int>
      requires Valid()
      reads this, set k | k in at :: at[k], set k | k in at :: at[k].data
    {
      if key in at then at[key].Contents() else []
    }

    constructor (window: int, limit: int)
      ensures this.window == window && this.limit == limit && Valid() && at == map[]
    {
      this.window, this.limit := window, limit;
      at := map[];
    }

    /** The slice of a key, which is empty at first. */
    method Slot(key: string) returns (ts: Times)
      requires Valid()
      modifies this`at
      ensures Valid() && key in at && at == old(at)[key := ts]
      ensures key in old(at) ==> ts == old(at)[key]
      ensures key !in old(at) ==> fresh(ts) && fresh(ts.data)
      ensures ts.Contents() == old(Of(key))
      ensures forall k :: k in old(at) ==> Of(k) == old(Of(k))
    {
      if key !in at {
        var empty := new Times();
        at := at[key := empty];
      }
      ts := at[key];
    }

    method Charge(key: string, now: int) returns (ok: bool)
      requires Valid() && key in at
      modifies at[key], at[key].data
      ensures Valid()
      ensures (Of(key), ok) == Allowing(old(Of(key)), window, limit, now)
      ensures forall k :: k != key && k in at ==> Of(k) == old(Of(k))
    {
      hide Newer;
      var ts := at[key];
      ts.KeepNewer(now - window);
      if ts.len >= limit {
        return false;
      }
      ts.Append(now);
      return true;
    }

    /** allow. */
    method Allow(key: string, now: int) returns (ok: bool)
      requires Valid()
      modifies this, if key in at then {at[key], at[key].data} else {}
      ensures Valid()
      ensures (Of(key), ok) == Allowing(old(Of(key)), window, limit, now)
      ensures forall k :: k != key && k in old(at) ==> k in at && Of(k) == old(Of(k))
      ensures at.Keys == old(at).Keys + {key}
    {
      hide Allowing; hide Newer;
      var ts := Slot(key);
      hide Times.Contents;
      ok := Charge(key, now);
    }

    /** refund. */
    method Refund(key: string, when: int)
      requires Valid()
      modifies if key in at then {at[key], at[key].data} else {}
      ensures Valid() && at == old(at)
      ensures Of(key) == Without(old(Of(key)), when)
      ensures forall k :: k != key && k in at ==> Of(k) == old(Of(k))
    {
      if key in at {
        at[key].RemoveLast(when);
      }
    }
  }

  // ---- runs, for one key ----

  datatype Event = Allow(now: int) | Refund(at: int)

  /** What the limiter keeps after some events. */
  function After(events: seq<Event>, window: int, limit: int): seq<int> {
    if events == [] then []
    else
      var ts := After(events[..|events| - 1], window, limit);
      match events[|events| - 1]
      case Allow(now) => Allowing(ts, window, limit, now).0
      case Refund(at) => Without(ts, at)
  }

  /** Every event that was allowed and not refunded since, with none forgotten. */
  function Ledger(events: seq<Event>, window: int, limit: int): seq<int> {
    if events == [] then []
    else
      var rest := events[..|events| - 1];
      var ledger := Ledger(rest, window, limit);
      match events[|events| - 1]
      case Allow(now) => if Allowing(After(rest, window, limit), window, limit, now).1 then ledger + [now] else ledger
      case Refund(at) => Without(ledger, at)
  }

  ghost predicate Monotone(events: seq<Event>) {
    forall i, j :: 0 <= i < j < |events| && events[i].Allow? && events[j].Allow? ==> events[i].now <= events[j].now
  }

  function Within(ts: seq<int>, from: int, window: int): nat {
    if ts == [] then 0
    else Within(ts[..|ts| - 1], from, window) + if from <= ts[|ts| - 1] < from + window then 1 else 0
  }

  lemma {:induction false} NewerNewer(ts: seq<int>, c: int, d: int)
    requires c <= d
    ensures Newer(Newer(ts, c), d) == Newer(ts, d)
  {
    if ts != [] {
      var n := |ts| - 1;
      var r := Newer(ts[..n], c);
      NewerNewer(ts[..n], c, d);
      assert (r + [ts[n]])[..|r|] == r;
      assert r + [] == r;
    }
  }

  lemma {:induction false} NewerWithout(ts: seq<int>, c: int, at: int)
    ensures Newer(Without(ts, at), c) == if at > c then Without(Newer(ts, c), at) else Newer(ts, c)
    ensures at <= c ==> Without(Newer(ts, c), at) == Newer(ts, c)
  {
    if ts != [] {
      hide Newer; hide Without;
      var s, t := ts[..|ts| - 1], ts[|ts| - 1];
      assert ts == s + [t];
      NewerWithout(s, c, at);
      NewerLast(s, t, c);
      WithoutLast(s, t, at);
      WithoutLast(Newer(s, c), t, at);
      NewerLast(Without(s, at), t, c);
    }
  }

  lemma NewerLast(ts: seq<int>, t: int, c: int)
    ensures Newer(ts + [t], c) == if t > c then Newer(ts, c) + [t] else Newer(ts, c)
  {
    assert (ts + [t])[..|ts|] == ts && Newer(ts, c) + [] == Newer(ts, c);
  }

  lemma WithoutLast(ts: seq<int>, t: int, at: int)
    ensures Without(ts + [t], at) == if t == at then ts else Without(ts, at) + [t]
  {
    assert (ts + [t])[..|ts|] == ts;
  }

  lemma AllowKeepsRecent(kept: seq<int>, ledger: seq<int>, window: int, limit: int, now: int, cutoff: int)
    requires now - window <= cutoff && Newer(kept, cutoff) == Newer(ledger, cutoff)
    ensures var (k, ok) := Allowing(kept, window, limit, now);
      Newer(k, cutoff) == Newer(if ok then ledger + [now] else ledger, cutoff)
  {
    hide Newer;
    NewerNewer(kept, now - window, cutoff);
    NewerLast(Newer(kept, now - window), now, cutoff);
    NewerLast(ledger, now, cutoff);
  }

  lemma RefundKeepsRecent(kept: seq<int>, ledger: seq<int>, at: int, cutoff: int)
    requires Newer(kept, cutoff) == Newer(ledger, cutoff)
    ensures Newer(Without(kept, at), cutoff) == Newer(Without(ledger, at), cutoff)
  {
    hide Newer; hide Without;
    NewerWithout(kept, cutoff, at);
    NewerWithout(ledger, cutoff, at);
  }

  ghost predicate AskedBy(events: seq<Event>, time: int) { forall i :: 0 <= i < |events| && events[i].Allow? ==> events[i].now <= time }

  /** The limiter has forgotten only what had left the window by the last time it looked. */
  lemma {:induction false} KeptIsRecent(events: seq<Event>, window: int, limit: int, cutoff: int)
    requires AskedBy(events, cutoff + window)
    ensures Newer(After(events, window, limit), cutoff) == Newer(Ledger(events, window, limit), cutoff)
  {
    hide Newer; hide Without; hide Allowing;
    if events == [] {
    } else {
      var n := |events| - 1;
      var rest := events[..n];
      KeptIsRecent(rest, window, limit, cutoff);
      var kept, ledger := After(rest, window, limit), Ledger(rest, window, limit);
      match events[n]
      case Allow(now) => AllowKeepsRecent(kept, ledger, window, limit, now, cutoff);
      case Refund(at) => RefundKeepsRecent(kept, ledger, at, cutoff);
    }
  }

  /** A call is allowed exactly when fewer than the limit are outstanding in the window that ends with it. */
  lemma AllowExact(events: seq<Event>, window: int, limit: int, now: int)
    requires AskedBy(events, now)
    ensures Allowing(After(events, window, limit), window, limit, now).1
      <==> Later(Ledger(events, window, limit), now - window) < limit
  {
    LaterIs(Ledger(events, window, limit), now - window);
    hide Newer; hide After; hide Ledger;
    KeptIsRecent(events, window, limit, now - window);
  }

  /** How many timestamps are after a cutoff. */
  function Later(ts: seq<int>, cutoff: int): nat {
    if ts == [] then 0 else (if ts[0] > cutoff then 1 else 0) + Later(ts[1..], cutoff)
  }

  lemma {:induction false} LaterIs(ts: seq<int>, cutoff: int)
    ensures |Newer(ts, cutoff)| == Later(ts, cutoff)
  {
    if ts != [] {
      LaterIs(ts[1..], cutoff);
      NewerSplit([ts[0]], ts[1..], cutoff);
      assert ts == [ts[0]] + ts[1..];
    }
  }

  /** Timestamps are kept one by one, in order: those after the cutoff. */
  lemma {:induction false} NewerSplit(a: seq<int>, b: seq<int>, cutoff: int)
    ensures Newer(a + b, cutoff) == Newer(a, cutoff) + Newer(b, cutoff)
    ensures |a| == 1 ==> Newer(a, cutoff) == if a[0] > cutoff then a else []
  {
    if |a| == 1 {
      assert a == [] + [a[0]];
      NewerLast([], a[0], cutoff);
    }
    if b == [] {
      assert a + b == a;
    } else {
      var n := |b| - 1;
      assert a + b == a + b[..n] + [b[n]] && b == b[..n] + [b[n]];
      NewerSplit(a, b[..n], cutoff);
      NewerLast(a + b[..n], b[n], cutoff);
      NewerLast(b[..n], b[n], cutoff);
    }
  }

  /** A refund takes out the last timestamp that equals it, and nothing if there is none. */
  lemma {:induction false} WithoutIs(ts: seq<int>, at: int) returns (i: int)
    ensures at in ts ==> 0 <= i < |ts| && ts[i] == at && at !in ts[i + 1..] && Without(ts, at) == ts[..i] + ts[i + 1..]
    ensures at !in ts ==> Without(ts, at) == ts
  {
    i := -1;
    if ts != [] {
      var n := |ts| - 1;
      assert ts == ts[..n] + [ts[n]];
      if ts[n] == at {
        i := n;
      } else {
        i := WithoutIs(ts[..n], at);
        if at in ts {
          assert ts[i + 1..] == ts[..n][i + 1..] + [ts[n]];
        }
      }
    }
  }

  lemma {:induction false} WithinNewer(ts: seq<int>, from: int, window: int, cutoff: int)
    requires cutoff < from
    ensures Within(ts, from, window) <= |Newer(ts, cutoff)|
  {
    if ts != [] { WithinNewer(ts[..|ts| - 1], from, window, cutoff); }
  }

  lemma WithinLast(ts: seq<int>, t: int, from: int, window: int)
    ensures Within(ts + [t], from, window) == Within(ts, from, window) + if from <= t < from + window then 1 else 0
  {
    assert (ts + [t])[..|ts|] == ts;
  }

  lemma {:induction false} WithinWithout(ts: seq<int>, at: int, from: int, window: int)
    ensures Within(Without(ts, at), from, window) <= Within(ts, from, window)
  {
    if ts != [] {
      var n := |ts| - 1;
      if ts[n] != at {
        WithinWithout(ts[..n], at, from, window);
        WithinLast(Without(ts[..n], at), ts[n], from, window);
      }
    }
  }

  /** No window holds more allowed and unrefunded events than the limit. */
  lemma {:induction false} WindowBound(events: seq<Event>, window: int, limit: int, from: int)
    requires Monotone(events) && limit >= 0
    ensures Within(Ledger(events, window, limit), from, window) <= limit
  {
    hide Newer; hide Within; hide Without; hide After; hide Allowing; hide Later;
    if events == [] {
      assert Ledger(events, window, limit) == [];
      WithinNone(from, window);
    } else {
      var n := |events| - 1;
      var rest := events[..n];
      var ledger := Ledger(rest, window, limit);
      assert Monotone(rest);
      WindowBound(rest, window, limit, from);
      match events[n]
      case Allow(now) =>
        assert AskedBy(rest, now);
        AllowExact(rest, window, limit, now);
        LaterIs(ledger, now - window);
        WithinLast(ledger, now, from, window);
        if from <= now < from + window { WithinNewer(ledger, from, window, now - window); }
      case Refund(at) =>
        WithinWithout(ledger, at, from, window);
    }
  }

  lemma WithinNone(from: int, window: int)
    ensures Within([], from, window) == 0
  {}
}
