/** Challenges: issued, signed by an agent, and accepted once. */
module AgentAuth {
  import opened Basics

  /** Clock readings are nanoseconds; timestamps in challenges are whole seconds. */
  const CHALLENGE_TTL := 60 * SECOND
  const SIG_NAMESPACE := "shabadoo-v1"

  function Unix(now: int): int { now / SECOND }

  datatype Key = Key(kind: string, wire: string)

  datatype Agent = Agent(tenant: string, name: string, key: Key)

  /** Parsing keys and signatures, and checking one against the other. */
  datatype Crypto = Crypto(parseKey: string -> Option<Key>, parseSig: string -> Option<string>, verifies: (Key,
                           string, string) -> bool)

  datatype Challenge = Challenge(nonce: string, timestamp: int, namespace: string)
  {
    /** The bytes that get signed. */
    function Blob(): string { namespace + "\n" + nonce + "\n" + Decimal(timestamp) + "\n" }
  }

  // ---- decimal numbers ----

  function DigitOf(d: nat): char
    requires d < 10
  {
    ('0' as int + d) as char
  }

  function Digits(n: nat): string { if n < 10 then [DigitOf(n)] else Digits(n / 10) + [DigitOf(n % 10)] }

  function Decimal(n: int): string { if n < 0 then "-" + Digits(-n) else Digits(n) }

  lemma {:induction false} DigitsInjective(m: nat, n: nat)
    requires Digits(m) == Digits(n)
    ensures m == n
  {
    var a, b := Digits(m), Digits(n);
    DigitsNonEmpty(m / 10);
    DigitsNonEmpty(n / 10);
    assert a[|a| - 1] == DigitOf(m % 10) && b[|b| - 1] == DigitOf(n % 10);
    if m >= 10 && n >= 10 {
      assert a[..|a| - 1] == Digits(m / 10) && b[..|b| - 1] == Digits(n / 10);
      DigitsInjective(m / 10, n / 10);
    }
  }

  lemma {:induction false} DigitsNonEmpty(n: nat)
    ensures |Digits(n)| >= 1 && Digits(n)[0] != '-'
  {
    if n >= 10 { DigitsNonEmpty(n / 10); }
  }

  lemma DecimalInjective(m: int, n: int)
    requires Decimal(m) == Decimal(n)
    ensures m == n
  {
    var p, q := if m < 0 then -m else m, if n < 0 then -n else n;
    DigitsNonEmpty(p);
    DigitsNonEmpty(q);
    var a, b := Decimal(m), Decimal(n);
    assert a == (if m < 0 then "-" else "") + Digits(p) && b == (if n < 0 then "-" else "") + Digits(q);
    hide Digits;
    assert (m < 0 <==> a[0] == '-') && (n < 0 <==> b[0] == '-');
    assert Digits(p) == (if m < 0 then a[1..] else a) && Digits(q) == (if n < 0 then b[1..] else b);
    DigitsInjective(p, q);
  }

  /** A signature made over one challenge is over no other: what is signed says all there is to say. */
  lemma BlobInjective(c: Challenge, d: Challenge)
    requires '\n' !in c.namespace + c.nonce && '\n' !in d.namespace + d.nonce && c.Blob() == d.Blob()
    ensures c == d
  {
    OnOneLine(c);
    OnOneLine(d);
    BlobIs(c);
    BlobIs(d);
    hide Challenge.Blob; hide Decimal;
    CutOnce('\n', c.namespace, c.nonce + "\n" + (Decimal(c.timestamp) + "\n"), d.namespace,
            d.nonce + "\n" + (Decimal(d.timestamp) + "\n"));
    CutOnce('\n', c.nonce, Decimal(c.timestamp) + "\n", d.nonce, Decimal(d.timestamp) + "\n");
    SameLine(Decimal(c.timestamp), Decimal(d.timestamp));
    DecimalInjective(c.timestamp, d.timestamp);
  }

  lemma OnOneLine(c: Challenge)
    requires '\n' !in c.namespace + c.nonce
    ensures '\n' !in c.namespace && '\n' !in c.nonce
  {
    assert forall x: char :: x in c.namespace || x in c.nonce ==> x in c.namespace + c.nonce;
  }

  lemma BlobIs(c: Challenge)
    ensures c.Blob() == c.namespace + "\n" + (c.nonce + "\n" + (Decimal(c.timestamp) + "\n"))
  {
    hide Decimal;
  }

  lemma SameLine(a: string, b: string)
    requires a + "\n" == b + "\n"
    ensures a == b
  {
    assert (a + "\n")[..|a|] == a && (b + "\n")[..|b|] == b && |a + "\n"| == |a| + 1 && |b + "\n"| == |b| + 1;
  }

  /** What a string of digits says, read from the left. */
  function ReadDigits(s: string): int {
    if s == "" then 0 else 10 * ReadDigits(s[..|s| - 1]) + (s[|s| - 1] as int - '0' as int)
  }

  function ReadDecimal(s: string): int { if s != "" && s[0] == '-' then -ReadDigits(s[1..]) else ReadDigits(s) }

  lemma {:induction false} DigitsRead(n: nat)
    ensures ReadDigits(Digits(n)) == n && forall i :: 0 <= i < |Digits(n)| ==> '0' <= Digits(n)[i] <= '9'
  {
    var s := Digits(n);
    if n >= 10 {
      DigitsRead(n / 10);
      assert s[..|s| - 1] == Digits(n / 10);
    } else {
      assert s[..0] == "";
    }
  }

  /** What is signed are three lines: the namespace, the nonce, and the time in decimal. */
  lemma BlobIsLines(c: Challenge) returns (time: string)
    ensures c.Blob() == c.namespace + "\n" + c.nonce + "\n" + time + "\n"
    ensures ReadDecimal(time) == c.timestamp && '\n' !in time
  {
    var n := if c.timestamp < 0 then -c.timestamp else c.timestamp;
    time := Decimal(c.timestamp);
    DigitsRead(n);
    DigitsNonEmpty(n);
    assert c.timestamp < 0 ==> time[1..] == Digits(n);
    hide Digits; hide ReadDigits;
  }

  // ---- the authorizer ----

  datatype Error = BadSignature | StaleNonce | UnknownKey

  datatype Verdict = Accepted(agent: Agent) | Refused(error: Error)

  type Pending = map<string, int>

  /** The challenges that have not expired. */
  function Pruned(issued: Pending, now: int): Pending { map n | n in issued && now <= issued[n] :: issued[n] }

  /** Whether a challenge even gets to use up its nonce. */
  predicate Timely(c: Challenge, now: int) {
    c.namespace == SIG_NAMESPACE && -CHALLENGE_TTL <= now - c.timestamp * SECOND <= CHALLENGE_TTL
  }

  function FirstWith(agents: seq<Agent>, key: Key): Option<Agent> {
    if agents == [] then None else if agents[0].key == key then Some(agents[0]) else FirstWith(agents[1..], key)
  }

  /** The verdict on a signed challenge. */
  function Judge(k: Crypto, issued: Pending, agents: seq<Agent>, c: Challenge, pub: string, sig: string,
                 now: int): Verdict {
    if c.namespace != SIG_NAMESPACE then Refused(BadSignature)
    else if !Timely(c, now) then Refused(StaleNonce)
    else if c.nonce !in issued || issued[c.nonce] < now then Refused(StaleNonce)
    else if k.parseKey(pub).None? then Refused(BadSignature)
    else
      var who := FirstWith(agents, k.parseKey(pub).value);
      if who.None? then Refused(UnknownKey)
      else if k.parseSig(sig).None? || !k.verifies(k.parseKey(pub).value, c.Blob(), k.parseSig(sig).value) then Refused(BadSignature)
      else Accepted(who.value)
  }

  class Authorizer {
    var agents: seq<Agent>
    var issued: Pending

    constructor (agents: seq<Agent>)
      ensures this.agents == agents && issued == map[]
    {
      this.agents := agents;
      issued := map[];
    }

    /** pruneLocked: expired challenges are deleted while the map is being walked. */
    method Prune(now: int)
      modifies this`issued
      ensures issued == Pruned(old(issued), now)
    {
      var rest := issued.Keys;
      while rest != {}
        invariant rest <= old(issued).Keys
        invariant issued == map n | n in old(issued) && (n in rest || now <= old(issued)[n]) :: old(issued)[n]
        decreases |rest|
      {
        var nonce :| nonce in rest;
        if now > issued[nonce] {
          issued := issued - {nonce};
        }
        rest := rest - {nonce};
      }
    }

    /** Issue; the nonce is random. */
    method Issue(nonce: string, now: int) returns (c: Challenge)
      modifies this`issued
      ensures issued == Pruned(old(issued), now)[nonce := now + CHALLENGE_TTL]
      ensures c == Challenge(nonce, c.timestamp, "shabadoo-v1") && c.timestamp * SECOND <= now < (c.timestamp + 1) * SECOND
    {
      c := Challenge(nonce, Unix(now), SIG_NAMESPACE);
      Prune(now);
      issued := issued[nonce := now + CHALLENGE_TTL];
    }

    /** lookup, in the key set as the file has it now. */
    method Lookup(key: Key, reloaded: Option<seq<Agent>>) returns (who: Option<Agent>)
      modifies this`agents
      ensures agents == (if reloaded.Some? then reloaded.value else old(agents))
      ensures who == FirstWith(agents, key)
    {
      if reloaded.Some? {
        agents := reloaded.value;
      }
      for i := 0 to |agents|
        invariant FirstWith(agents[i..], key) == FirstWith(agents, key)
      {
        assert agents[i..][1..] == agents[i + 1..];
        if agents[i].key == key {
          return Some(agents[i]);
        }
      }
      return None;
    }

    /** Verify. */
    method Verify(k: Crypto, c: Challenge, pub: string, sig: string, now: int, reloaded: Option<seq<Agent>>)
      returns (v: Verdict)
      modifies this
      ensures issued == if Timely(c, now) then old(issued) - {c.nonce} else old(issued)
      ensures v == Judge(k, old(issued), if reloaded.Some? then reloaded.value else old(agents), c, pub, sig, now)
      ensures v.Accepted? && reloaded.Some? ==> agents == reloaded.value
    {
      if c.namespace != SIG_NAMESPACE {
        return Refused(BadSignature);
      }
      var skew := now - c.timestamp * SECOND;
      if skew < -CHALLENGE_TTL || skew > CHALLENGE_TTL {
        return Refused(StaleNonce);
      }
      var pending, expires := c.nonce in issued, if c.nonce in issued then issued[c.nonce] else 0;
      if pending {
        issued := issued - {c.nonce};
      }
      if !pending || now > expires {
        return Refused(StaleNonce);
      }
      var key := k.parseKey(pub);
      if key.None? {
        return Refused(BadSignature);
      }
      var who := Lookup(key.value, reloaded);
      if who.None? {
        return Refused(UnknownKey);
      }
      var parsed := k.parseSig(sig);
      if parsed.None? {
        return Refused(BadSignature);
      }
      if !k.verifies(key.value, c.Blob(), parsed.value) {
        return Refused(BadSignature);
      }
      return Accepted(who.value);
    }
  }

  // ---- runs ----

  /** One request to the authorizer; a login attempt carries the key set it is judged by. */
  datatype Event =
    | Issue(nonce: string, now: int)
    | Try(c: Challenge, pub: string, sig: string, now: int, agents: seq<Agent>)

  /** The nonces pending after some requests. With keep, issuing forgets nothing. */
  function After(events: seq<Event>, keep: bool): Pending {
    if events == [] then map[]
    else
      var issued := After(events[..|events| - 1], keep);
      match events[|events| - 1]
      case Issue(nonce, now) => (if keep then issued else Pruned(issued, now))[nonce := now + CHALLENGE_TTL]
      case Try(c, _, _, now, _) => if Timely(c, now) then issued - {c.nonce} else issued
  }

  function VerdictAt(k: Crypto, events: seq<Event>, n: nat, keep: bool): Verdict
    requires n < |events| && events[n].Try?
  {
    var e := events[n];
    Judge(k, After(events[..n], keep), e.agents, e.c, e.pub, e.sig, e.now)
  }

  /** Nonces are never drawn twice. */
  ghost predicate FreshNonces(events: seq<Event>) {
    forall i, j :: 0 <= i < j < |events| && events[i].Issue? && events[j].Issue? ==> events[i].nonce != events[j].nonce
  }

  ghost predicate Monotone(events: seq<Event>) {
    forall i, j :: 0 <= i < j < |events| ==> events[i].now <= events[j].now
  }

  /** A nonce once gone, with no issue of it to come, stays gone. */
  lemma {:induction false} StaysGone(events: seq<Event>, i: nat, j: nat, nonce: string, keep: bool)
    requires i <= j <= |events| && nonce !in After(events[..i], keep)
    requires forall n :: i <= n < j && events[n].Issue? ==> events[n].nonce != nonce
    ensures nonce !in After(events[..j], keep)
  {
    if i < j {
      assert events[..j][..j - 1] == events[..j - 1];
      StaysGone(events, i, j - 1, nonce, keep);
    }
  }

  /** The nonce pends since event i: it was issued then, and since then neither issued again, nor tried in time, nor
      dropped by a later issue that found it expired. */
  ghost predicate PendsSince(events: seq<Event>, i: int, nonce: string, keep: bool) {
    && 0 <= i < |events| && events[i].Issue? && events[i].nonce == nonce
    && forall m :: i < m < |events| ==>
      if events[m].Issue? then events[m].nonce != nonce && (keep || events[m].now <= events[i].now + CHALLENGE_TTL)
      else Timely(events[m].c, events[m].now) ==> events[m].c.nonce != nonce
  }

  /** A pending nonce was issued, at the time its expiry says. */
  lemma {:induction false} WasIssued(events: seq<Event>, nonce: string, keep: bool) returns (i: nat)
    requires nonce in After(events, keep)
    ensures PendsSince(events, i, nonce, keep) && After(events, keep)[nonce] == events[i].now + CHALLENGE_TTL
  {
    var m := |events| - 1;
    if events[m].Issue? && events[m].nonce == nonce {
      i := m;
    } else {
      i := WasIssued(events[..m], nonce, keep);
      assert forall n :: 0 <= n < m ==> events[..m][n] == events[n];
    }
  }

  /** And a nonce that was issued pends, unless one of those things happened to it. */
  lemma {:induction false} StillPends(events: seq<Event>, i: nat, nonce: string, keep: bool)
    requires PendsSince(events, i, nonce, keep)
    ensures nonce in After(events, keep) && After(events, keep)[nonce] == events[i].now + CHALLENGE_TTL
  {
    var m := |events| - 1;
    if i < m {
      assert forall n :: 0 <= n < m ==> events[..m][n] == events[n];
      StillPends(events[..m], i, nonce, keep);
    }
  }

  /** Every accepted login used a nonce that was issued no more than one TTL before, and not tried in time since;
      its signature is over that nonce by a key in the set. */
  lemma AcceptedInTime(k: Crypto, events: seq<Event>, n: nat) returns (i: nat)
    requires n < |events| && events[n].Try? && VerdictAt(k, events, n, false).Accepted?
    ensures i < n && events[i].Issue? && events[i].nonce == events[n].c.nonce && events[n].now <= events[i].now + CHALLENGE_TTL
    ensures forall m :: i < m < n && events[m].Try? && Timely(events[m].c, events[m].now) ==>
      events[m].c.nonce != events[n].c.nonce
    ensures var e, a := events[n], VerdictAt(k, events, n, false).agent;
      a in e.agents && k.parseSig(e.sig).Some? && k.verifies(a.key, e.c.Blob(), k.parseSig(e.sig).value)
  {
    var e := events[n];
    i := WasIssued(events[..n], e.c.nonce, false);
    FirstWithIsIn(e.agents, k.parseKey(e.pub).value);
    forall m | i < m < n && events[m].Try? && Timely(events[m].c, events[m].now) ensures events[m].c.nonce != e.c.nonce {
      assert events[..n][m] == events[m];
    }
  }

  lemma {:induction false} FirstWithIsIn(agents: seq<Agent>, key: Key)
    ensures var who := FirstWith(agents, key);
      if who.Some? then who.value in agents && who.value.key == key else forall a :: a in agents ==> a.key != key
  {
    if agents != [] { FirstWithIsIn(agents[1..], key); }
  }

  /** No nonce is accepted twice, whatever comes between: retries, replays, other logins, pruning. */
  lemma AcceptedOnce(k: Crypto, events: seq<Event>, m: nat, n: nat)
    requires m < n < |events| && events[m].Try? && events[n].Try? && FreshNonces(events)
    requires VerdictAt(k, events, m, false).Accepted? && events[n].c.nonce == events[m].c.nonce
    ensures VerdictAt(k, events, n, false).Refused?
  {
    var nonce := events[m].c.nonce;
    var i := AcceptedInTime(k, events, m);
    assert events[..m + 1][..m] == events[..m];
    assert nonce !in After(events[..m + 1], false);
    StaysGone(events, m + 1, n, nonce, false);
  }

  /** Every verdict, by what causes it: the namespace, the two clocks, the nonce, the key, the agent, the signature, in
      that order. */
  lemma VerdictExact(k: Crypto, issued: Pending, agents: seq<Agent>, c: Challenge, pub: string, sig: string, now: int)
    ensures var v := Judge(k, issued, agents, c, pub, sig, now);
      var inTime := -60 * SECOND <= now - c.timestamp * SECOND <= 60 * SECOND && c.nonce in issued && now <= issued[c.nonce];
      var key := k.parseKey(pub);
      var listed := key.Some? && exists a :: a in agents && a.key == key.value;
      var signed := key.Some? && k.parseSig(sig).Some? && k.verifies(key.value, c.Blob(), k.parseSig(sig).value);
      && (v.Accepted? <==> c.namespace == "shabadoo-v1" && inTime && listed && signed)
      && (v == Refused(StaleNonce) <==> c.namespace == "shabadoo-v1" && !inTime)
      && (v == Refused(UnknownKey) <==> c.namespace == "shabadoo-v1" && inTime && key.Some? && !listed)
      && (v == Refused(BadSignature) <==>
           c.namespace != "shabadoo-v1" || (inTime && (key.None? || (listed && !signed))))
  {
    hide Challenge.Blob;
    if k.parseKey(pub).Some? { FirstWithIsIn(agents, k.parseKey(pub).value); }
  }

  /** The challenge that an issue at time t returns. */
  predicate IssuedAs(c: Challenge, nonce: string, t: int) {
    c.nonce == nonce && c.namespace == "shabadoo-v1" && c.timestamp * SECOND <= t < (c.timestamp + 1) * SECOND
  }

  /** The agent is the first in the set with the key that was presented, and the signature is over the challenge. */
  predicate Signed(k: Crypto, e: Event, m: nat)
    requires e.Try?
  {
    && m < |e.agents| && k.parseKey(e.pub) == Some(e.agents[m].key) && (forall l :: 0 <= l < m ==> e.agents[l].key != e.agents[m].key)
    && k.parseSig(e.sig).Some? && k.verifies(e.agents[m].key, e.c.Blob(), k.parseSig(e.sig).value)
  }

  /** A challenge that is returned as it was issued, signed by a listed key, and whose nonce still pends, is accepted
      exactly when the clock is within a minute of the whole second in which it was issued; and else it is stale. The
      issue lies up to a second after that, so a login in the last part of its minute comes too late. */
  lemma LoginExact(k: Crypto, events: seq<Event>, i: nat, n: nat, m: nat)
    requires i < n < |events| && events[i].Issue? && events[n].Try? && Signed(k, events[n], m)
    requires IssuedAs(events[n].c, events[i].nonce, events[i].now)
    requires PendsSince(events[..n], i, events[i].nonce, false)
    ensures var e := events[n]; var second := e.c.timestamp * SECOND;
      VerdictAt(k, events, n, false) ==
        if second - 60 * SECOND <= e.now <= second + 60 * SECOND then Accepted(e.agents[m]) else Refused(StaleNonce)
  {
    hide Challenge.Blob; hide After;
    var e := events[n];
    StillPends(events[..n], i, events[i].nonce, false);
    assert events[..n][i] == events[i];
    FirstWithIs(e.agents, e.agents[m].key, m);
  }

  lemma {:induction false} FirstWithIs(agents: seq<Agent>, key: Key, m: nat)
    requires m < |agents| && agents[m].key == key && forall l :: 0 <= l < m ==> agents[l].key != key
    ensures FirstWith(agents, key) == Some(agents[m])
  {
    if m > 0 { FirstWithIs(agents[1..], key, m - 1); }
  }

  // ---- pruning ----

  /** Between the ith event and the nth, an issue saw the challenge issued at the ith expired. */
  ghost predicate SeenExpired(events: seq<Event>, i: int, n: int) {
    exists j :: 0 <= i < j < n <= |events| && events[j].Issue? && events[j].now > events[i].now + CHALLENGE_TTL
  }

  /** The attempt comes in time, but an issue that saw a later clock has dropped its nonce. */
  ghost predicate DroppedEarly(events: seq<Event>, n: nat)
    requires n < |events| && events[n].Try?
  {
    var e := events[n];
    Timely(e.c, e.now) && exists i ::
      PendsSince(events[..n], i, e.c.nonce, true) && e.now <= events[i].now + CHALLENGE_TTL && SeenExpired(events, i, n)
  }

  /** A nonce that pends in spite of pruning is one that would pend without, and that no issue saw expired. */
  lemma PendsUnseen(events: seq<Event>, i: int, n: nat, nonce: string)
    requires n <= |events| && PendsSince(events[..n], i, nonce, true)
    ensures PendsSince(events[..n], i, nonce, false) <==> !SeenExpired(events, i, n)
  {
    var past := events[..n];
    assert forall j :: 0 <= j < n ==> past[j] == events[j];
    if !PendsSince(past, i, nonce, false) {
      var j :| i < j < n && past[j].Issue? && past[j].now > past[i].now + CHALLENGE_TTL;
      assert events[j] == past[j];
    }
  }

  /** Pruning changes a verdict exactly when it has dropped the nonce of a timely attempt early; the attempt is then
      refused as stale, which it would not have been. */
  lemma PruningExact(k: Crypto, events: seq<Event>, n: nat)
    requires n < |events| && events[n].Try?
    ensures VerdictAt(k, events, n, false) != VerdictAt(k, events, n, true) <==> DroppedEarly(events, n)
    ensures DroppedEarly(events, n) ==> VerdictAt(k, events, n, false) == Refused(StaleNonce)
  {
    var e := events[n];
    var past, nonce := events[..n], e.c.nonce;
    hide After; hide Challenge.Blob; hide FirstWith; hide SeenExpired; hide PendsSince;
    if nonce in After(past, true) {
      var i := WasIssued(past, nonce, true);
      SinceBefore(past, i, nonce);
      PendsUnseen(events, i, n, nonce);
      forall l | PendsSince(past, l, nonce, true) ensures l == i { SinceUnique(past, l, i, nonce, true); }
      if nonce in After(past, false) {
        var l := WasIssued(past, nonce, false);
        SinceAlso(past, l, nonce);
      }
      if PendsSince(past, i, nonce, false) { StillPends(past, i, nonce, false); }
    } else {
      forall l ensures !PendsSince(past, l, nonce, true) {
        if PendsSince(past, l, nonce, true) { StillPends(past, l, nonce, true); }
      }
      if nonce in After(past, false) {
        var l := WasIssued(past, nonce, false);
        SinceAlso(past, l, nonce);
      }
    }
  }

  lemma SinceAlso(events: seq<Event>, i: int, nonce: string)
    requires PendsSince(events, i, nonce, false)
    ensures PendsSince(events, i, nonce, true)
  {}

  lemma SinceBefore(events: seq<Event>, i: int, nonce: string)
    requires PendsSince(events, i, nonce, true)
    ensures 0 <= i < |events|
  {}

  lemma SinceUnique(events: seq<Event>, i: int, j: int, nonce: string, keep: bool)
    requires PendsSince(events, i, nonce, keep) && PendsSince(events, j, nonce, keep)
    ensures i == j
  {}

  /** So as long as the clock does not go back, no verdict depends on pruning. */
  lemma PruningHarmless(k: Crypto, events: seq<Event>, n: nat)
    requires n < |events| && events[n].Try? && Monotone(events)
    ensures VerdictAt(k, events, n, false) == VerdictAt(k, events, n, true)
  {
    PruningExact(k, events, n);
  }

  /** With a clock that goes back, one can be: here a login in time is refused. */
  lemma PruningWithClockBack(k: Crypto, agent: Agent, pub: string, sig: string)
    requires k.parseKey(pub) == Some(agent.key) && k.parseSig(sig).Some?
    requires k.verifies(agent.key, Challenge("a", 0, SIG_NAMESPACE).Blob(), k.parseSig(sig).value)
    ensures var events := [Issue("a", 0), Issue("b", 61 * SECOND), Try(Challenge("a", 0, SIG_NAMESPACE), pub, sig, 30 * SECOND, [agent])];
      VerdictAt(k, events, 2, true) == Accepted(agent) && VerdictAt(k, events, 2, false) == Refused(StaleNonce)
  {
    var first := [Issue("a", 0)];
    var both := [Issue("a", 0), Issue("b", 61 * SECOND)];
    var attempt := Try(Challenge("a", 0, SIG_NAMESPACE), pub, sig, 30 * SECOND, [agent]);
    var events := [Issue("a", 0), Issue("b", 61 * SECOND), attempt];
    assert events[..2] == both && both[..1] == first && first[..0] == [];
    assert After(first, false) == map["a" := CHALLENGE_TTL] && After(first, true) == map["a" := CHALLENGE_TTL];
    assert "a" !in After(both, false) && "a" in After(both, true) && After(both, true)["a"] == CHALLENGE_TTL;
    hide After; hide Challenge.Blob;
    assert FirstWith([agent], agent.key) == Some(agent);
    assert Timely(attempt.c, attempt.now);
    assert events[2] == attempt;
  }

  /** After every issue, only challenges issued within one TTL are pending. */
  lemma PendingBounded(events: seq<Event>, nonce: string) returns (i: nat)
    requires events != [] && events[|events| - 1].Issue? && nonce in After(events, false)
    ensures i < |events| && events[i].Issue? && events[i].nonce == nonce
    ensures events[|events| - 1].now <= events[i].now + CHALLENGE_TTL
  {
    i := WasIssued(events, nonce, false);
  }
}
