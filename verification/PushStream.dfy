/** The push stream's parts: the set of waiting subscribers, and one subscriber's stream of frames. */
module PushStream {
  import opened Basics
  import opened SessionView

  /** A subscriber is known by its channel, and a channel by its address. */
  type Addr = nat

  /** Who is subscribed to what, and which channels hold a signal: one slot each. */
  datatype Subs = Subs(subs: map<string, set<Addr>>, signalled: map<Addr, bool>)
  {
    function Of(tenant: string): set<Addr> { if tenant in subs then subs[tenant] else {} }

    ghost predicate Sound() { forall t, a :: t in subs && a in subs[t] ==> a in signalled }
  }

  function Added(s: Subs, tenant: string, ch: Addr): Subs {
    Subs(s.subs[tenant := s.Of(tenant) + {ch}], s.signalled[ch := false])
  }

  function Removed(s: Subs, tenant: string, ch: Addr): Subs {
    var left := s.Of(tenant) - {ch};
    s.(subs := if left == {} then s.subs - {tenant} else s.subs[tenant := left])
  }

  /** Every subscriber of the tenant holds a signal; no other channel changes. */
  function Notified(s: Subs, tenant: string): Subs {
    s.(signalled := map a | a in s.signalled :: s.signalled[a] || a in s.Of(tenant))
  }

  class Subscribers {
    var subs: map<string, set<Addr>>
    var signalled: map<Addr, bool>

    ghost function State(): Subs
      reads this
    {
      Subs(subs, signalled)
    }

    constructor ()
      ensures State() == Subs(map[], map[])
    {
      subs, signalled := map[], map[];
    }

    /** add: a channel with an empty slot. */
    method Add(tenant: string, ch: Addr)
      requires ch !in signalled
      modifies this
      ensures State() == Added(old(State()), tenant, ch)
      ensures signalled == old(signalled)[ch := false] && tenant in subs && ch in subs[tenant]
      ensures forall t, c :: t != tenant || c != ch ==>
        (t in subs && c in subs[t] <==> t in old(subs) && c in old(subs)[t])
    {
      signalled := signalled[ch := false];
      if tenant !in subs {
        subs := subs[tenant := {}];
      }
      subs := subs[tenant := subs[tenant] + {ch}];
    }

    /** remove: a tenant that nobody watches goes with its last channel. */
    method Remove(tenant: string, ch: Addr)
      modifies this
      ensures State() == Removed(old(State()), tenant, ch)
      ensures signalled == old(signalled)
      ensures forall t, c :: t in subs && c in subs[t] <==> t in old(subs) && c in old(subs)[t] && !(t == tenant && c == ch)
    {
      if tenant in subs {
        subs := subs[tenant := subs[tenant] - {ch}];
      }
      if tenant !in subs || |subs[tenant]| == 0 {
        subs := subs - {tenant};
      }
    }

    /** notify: a signal to each subscriber whose slot is empty; it never waits. */
    method Notify(tenant: string)
      requires State().Sound()
      modifies this
      ensures State() == Notified(old(State()), tenant)
      ensures subs == old(subs) && signalled.Keys == old(signalled).Keys
      ensures forall c :: c in signalled ==>
        (signalled[c] <==> old(signalled)[c] || (tenant in subs && c in subs[tenant]))
    {
      var rest := if tenant in subs then subs[tenant] else {};
      while rest != {}
        invariant subs == old(subs) && rest <= old(State()).Of(tenant)
        invariant signalled == map a | a in old(signalled) :: old(signalled)[a] || (a in old(State()).Of(tenant) && a !in rest)
        decreases |rest|
      {
        var ch :| ch in rest;
        if !signalled[ch] {
          signalled := signalled[ch := true];
        }
        rest := rest - {ch};
      }
    }
  }

  // ---- one stream ----

  /** What goes over the wire: numbered frames, and pings that carry the latest number. */
  datatype Item = Frame(seq_: nat, view: View) | Ping(seq_: nat)

  /** A stream's own state: the fingerprint it compares with, its counter, and what it has written. */
  datatype Stream = Stream(last: Option<seq<Node>>, seq_: nat, wire: seq<Item>)

  const FRESH := Stream(None, 0, [])

  predicate Skips(s: Stream, view: View, force: bool) { !force && s.last == Some(Fingerprint(view)) }

  /** send, once it has read the view. When ok is false the write fails, and nothing arrives. */
  function Sent(s: Stream, view: View, force: bool, ok: bool): Stream {
    if Skips(s, view, force) then s
    else Stream(Some(Fingerprint(view)), s.seq_ + 1, if ok then s.wire + [Frame(s.seq_ + 1, view)] else s.wire)
  }

  function Pinged(s: Stream): Stream { s.(wire := s.wire + [Ping(s.seq_)]) }

  class Handler {
    var lastFingerprint: Option<seq<Node>>
    var seq_: nat
    var wire: seq<Item>

    ghost function State(): Stream
      reads this
    {
      Stream(lastFingerprint, seq_, wire)
    }

    constructor ()
      ensures State() == FRESH
    {
      lastFingerprint, seq_, wire := None, 0, [];
    }

    /** send. view is None when it cannot be read; ok is whether writing works. False ends the stream. */
    method Send(view: Option<View>, force: bool, ok: bool) returns (on: bool)
      modifies this
      ensures State() == if view.None? then old(State()) else Sent(old(State()), view.value, force, ok)
      ensures !on <==> view.Some? && !Skips(old(State()), view.value, force) && !ok
      ensures wire == old(wire) || (view.Some? && ok && wire == old(wire) + [Frame(old(seq_) + 1, view.value)])
      ensures view.Some? && ok && (force || old(lastFingerprint) != Some(Fingerprint(view.value))) ==> wire != old(wire)
    {
      if view.None? {
        return true;
      }
      var fp := Fingerprint(view.value);
      if !force && Some(fp) == lastFingerprint {
        return true;
      }
      lastFingerprint := Some(fp);
      seq_ := seq_ + 1;
      if !ok {
        return false;
      }
      wire := wire + [Frame(seq_, view.value)];
      return true;
    }
  }
}
