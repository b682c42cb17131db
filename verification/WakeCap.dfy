/** Pacing how many sessions are woken at once. */
module WakeCap {
  import opened Basics

  type Times = map<string, int>

  const WORK_WINDOW := 90 * SECOND
  const NUDGE_GRACE := 60 * SECOND
  const OWNER_PROJECT := "shabadoo"

  datatype Reason = Unknown | HumanSend | TaskEnd | AgentSend | TaskCreate | StuckRetry | StoppedCore
  {
    predicate Exempt() { Unknown? || HumanSend? || TaskEnd? }
  }

  /** One session of a report, with the tokens it has used so far. */
  datatype Session = Session(id: string, tokensIn: int, tokensOut: int, tokensCache: int)
  {
    function Total(): int { tokensIn + tokensOut + tokensCache }
  }

  datatype State = State(spend: map<string, int>, working: Times, nudged: Times, queued: Times,
                         allowed: int, held: int, exempted: int, highWater: int)

  const NEW := State(map[], map[], map[], map[], 0, 0, 0, 0)

  /** The entries no older than a window. */
  function Live(m: Times, now: int, window: int): Times { map k | k in m && now - m[k] <= window :: m[k] }

  /** Forgetting who stopped working and whose grace is over. */
  function Swept(s: State, now: int): State {
    s.(working := Live(s.working, now, WORK_WINDOW), nudged := Live(s.nudged, now, NUDGE_GRACE))
  }

  /** Everyone working or just woken. */
  function Busy(s: State, now: int): set<string> {
    Live(s.working, now, WORK_WINDOW).Keys + Live(s.nudged, now, NUDGE_GRACE).Keys
  }

  /** A session's total rose since its last report. */
  function Reported(s: State, x: Session, now: int): State {
    if x.Total() == 0 then s
    else s.(spend := s.spend[x.id := x.Total()],
            working := if x.id in s.spend && x.Total() > s.spend[x.id] then s.working[x.id := now] else s.working)
  }

  function AllReported(s: State, xs: seq<Session>, now: int): State {
    if xs == [] then s else Reported(AllReported(s, xs[..|xs| - 1], now), xs[|xs| - 1], now)
  }

  function Observed(s: State, xs: seq<Session>, now: int): State {
    var t := AllReported(s, xs, now);
    var n := |Busy(t, now)|;
    Swept(t, now).(highWater := if n > t.highWater then n else t.highWater)
  }

  /** Who is asking, and for whom. off says that the kill switch is there, or cannot be ruled out. */
  datatype Ask = Ask(id: string, project: string, kind: string, reason: Reason, off: bool, now: int)
  {
    predicate Free() { reason.Exempt() || kind == "core" || project == OWNER_PROJECT }
  }

  predicate Working(s: State, id: string, now: int) { id in s.working && now - s.working[id] <= WORK_WINDOW }

  /** The cap binds: the wake is neither free, nor let through because the cap is off or the session is mid-turn. */
  predicate Gated(s: State, limit: int, a: Ask) {
    a.id != "" && !a.Free() && limit > 0 && !a.off && !Working(s, a.id, a.now)
  }

  predicate Granted(s: State, limit: int, a: Ask) { Gated(s, limit, a) && |Busy(s, a.now)| < limit }

  predicate Held(s: State, limit: int, a: Ask) { Gated(s, limit, a) && |Busy(s, a.now)| >= limit }

  function Asked(s: State, limit: int, a: Ask): State {
    if a.id == "" then s
    else if a.Free() then s.(exempted := s.exempted + 1, nudged := s.nudged[a.id := a.now])
    else if limit <= 0 || a.off then s
    else if Working(s, a.id, a.now) then s.(allowed := s.allowed + 1)
    else
      var t := Swept(s, a.now);
      if |Busy(s, a.now)| >= limit then
        t.(queued := if a.id in t.queued then t.queued else t.queued[a.id := a.now], held := t.held + 1)
      else t.(queued := t.queued - {a.id}, nudged := t.nudged[a.id := a.now], allowed := t.allowed + 1)
  }

  function Cleared(s: State, id: string): State { s.(queued := s.queued - {id}) }

  // ---- a map that loses its old entries while it is walked ----

  /** The live entries among those already walked. */
  function Kept(m: Times, rest: set<string>, now: int, window: int): set<string> {
    set k | k in m && k !in rest && now - m[k] <= window
  }

  function Sweeping(m: Times, rest: set<string>, now: int, window: int): Times {
    map k | k in m && (k in rest || now - m[k] <= window) :: m[k]
  }

  lemma SweepStart(m: Times, now: int, window: int)
    ensures Kept(m, m.Keys, now, window) == {} && Sweeping(m, m.Keys, now, window) == m
  {}

  lemma SweepStep(m: Times, rest: set<string>, id: string, now: int, window: int)
    requires rest <= m.Keys && id in rest
    ensures var live := now - m[id] <= window;
      && id !in Kept(m, rest, now, window) && id in Sweeping(m, rest, now, window) && Sweeping(m, rest, now, window)[id] == m[id]
      && Kept(m, rest - {id}, now, window) == (if live then Kept(m, rest, now, window) + {id} else Kept(m, rest, now, window))
      && Sweeping(m, rest - {id}, now, window) == if live then Sweeping(m, rest, now, window) else Sweeping(m, rest, now, window) - {id}
  {}

  lemma SweepEnd(m: Times, now: int, window: int)
    ensures Sweeping(m, {}, now, window) == Live(m, now, window) && Kept(m, {}, now, window) == Live(m, now, window).Keys
  {}

  class Cap {
    const limit: int
    var spend: map<string, int>
    var working: Times
    var nudged: Times
    var queued: Times
    var allowed: int
    var held: int
    var exempted: int
    var highWater: int

    ghost function Now(): State
      reads this
    {
      State(spend, working, nudged, queued, allowed, held, exempted, highWater)
    }

    constructor (limit: int)
      ensures this.limit == limit && Now() == NEW
    {
      this.limit := limit;
      spend, working, nudged, queued := map[], map[], map[], map[];
      allowed, held, exempted, highWater := 0, 0, 0, 0;
    }

    /** The first loop of concurrentLocked. */
    method CountWorking(now: int) returns (n: nat)
      modifies this`working
      ensures working == Live(old(working), now, WORK_WINDOW) && n == |working.Keys|
    {
      n := 0;
      var rest := working.Keys;
      SweepStart(working, now, WORK_WINDOW);
      while rest != {}
        invariant rest <= old(working).Keys && n == |Kept(old(working), rest, now, WORK_WINDOW)|
        invariant working == Sweeping(old(working), rest, now, WORK_WINDOW)
        decreases |rest|
      {
        var id :| id in rest;
        SweepStep(old(working), rest, id, now, WORK_WINDOW);
        rest := rest - {id};
        if now - working[id] > WORK_WINDOW {
          working := working - {id};
          continue;
        }
        n := n + 1;
      }
      SweepEnd(old(working), now, WORK_WINDOW);
    }

    /** The second loop: those just woken who are not already counted as working. */
    method CountNudged(now: int, counted: nat) returns (n: nat)
      requires counted == |working.Keys|
      modifies this`nudged
      ensures nudged == Live(old(nudged), now, NUDGE_GRACE) && n == |working.Keys + nudged.Keys|
    {
      n := counted;
      var rest := nudged.Keys;
      SweepStart(nudged, now, NUDGE_GRACE);
      ghost var w, was := working.Keys, nudged;
      assert w + {} == w;
      hide Kept; hide Sweeping;
      while rest != {}
        invariant rest <= was.Keys && n == |w + Kept(was, rest, now, NUDGE_GRACE)|
        invariant nudged == Sweeping(was, rest, now, NUDGE_GRACE)
        decreases |rest|
      {
        var id :| id in rest;
        SweepStep(was, rest, id, now, NUDGE_GRACE);
        AddOne(w, Kept(was, rest, now, NUDGE_GRACE), id);
        rest := rest - {id};
        if now - nudged[id] > NUDGE_GRACE {
          nudged := nudged - {id};
          continue;
        }
        if id !in working {
          n := n + 1;
        }
      }
      SweepEnd(was, now, NUDGE_GRACE);
    }

    /** concurrentLocked: how many are busy. Entries are deleted while the maps are walked, and the count is right. */
    method Concurrent(now: int) returns (n: nat)
      modifies this`working, this`nudged
      ensures Now() == Swept(old(Now()), now) && n == |Busy(old(Now()), now)|
    {
      n := CountWorking(now);
      n := CountNudged(now, n);
    }

    /** observe. */
    method Observe(xs: seq<Session>, now: int)
      modifies this
      ensures Now() == Observed(old(Now()), xs, now)
    {
      assert xs[..0] == [];
      for i := 0 to |xs|
        invariant Now() == AllReported(old(Now()), xs[..i], now)
      {
        assert xs[..i + 1][..i] == xs[..i];
        var x := xs[i];
        var total := x.tokensIn + x.tokensOut + x.tokensCache;
        if total == 0 {
          continue;
        }
        var prev, seen := if x.id in spend then spend[x.id] else 0, x.id in spend;
        spend := spend[x.id := total];
        if seen && total > prev {
          working := working[x.id := now];
        }
      }
      assert xs[..|xs|] == xs;
      var n := Concurrent(now);
      if n > highWater {
        highWater := n;
      }
    }

    /** The end of allow, where the cap binds. */
    method Gate(a: Ask) returns (ok: bool, behind: nat)
      requires Gated(Now(), limit, a)
      modifies this
      ensures Now() == Asked(old(Now()), limit, a)
      ensures ok == (|Busy(old(Now()), a.now)| < limit)
      ensures behind == if ok then 0 else |Busy(old(Now()), a.now)|
    {
      hide Busy; hide Live;
      var n := Concurrent(a.now);
      if n >= limit {
        if a.id !in queued {
          queued := queued[a.id := a.now];
        }
        held := held + 1;
        return false, n;
      }
      queued := queued - {a.id};
      nudged := nudged[a.id := a.now];
      allowed := allowed + 1;
      return true, 0;
    }

    /** allow; behind is how many are ahead of a wake that is held. */
    method Allow(a: Ask) returns (ok: bool, behind: nat)
      modifies this
      ensures Now() == Asked(old(Now()), limit, a)
      ensures ok == !Held(old(Now()), limit, a)
      ensures behind == if ok then 0 else |Busy(old(Now()), a.now)|
    {
      hide Busy; hide Swept;
      if a.id == "" {
        return true, 0;
      }
      if a.reason.Exempt() {
        exempted := exempted + 1;
        nudged := nudged[a.id := a.now];
        return true, 0;
      }
      if a.kind == "core" || a.project == OWNER_PROJECT {
        exempted := exempted + 1;
        nudged := nudged[a.id := a.now];
        return true, 0;
      }
      if limit <= 0 || a.off {
        return true, 0;
      }
      if a.id in working && a.now - working[a.id] <= WORK_WINDOW {
        allowed := allowed + 1;
        return true, 0;
      }
      ok, behind := Gate(a);
    }

    /** clearQueued. */
    method ClearQueued(id: string)
      modifies this`queued
      ensures Now() == Cleared(old(Now()), id)
      ensures queued == old(queued) - {id}
    {
      queued := queued - {id};
    }
  }

  lemma AddOne(a: set<string>, b: set<string>, x: string)
    requires x !in b
    ensures |a + (b + {x})| == if x in a then |a + b| else |a + b| + 1
  {
    if x in a {
      assert a + (b + {x}) == a + b;
    } else {
      assert a + (b + {x}) == (a + b) + {x};
    }
  }

  /** A session just woken is no exception: unless it is working, it counts against itself, and a wake of it that the
      cap could hold is held exactly when it and the others that are busy reach the limit. */
  lemma JustWokenIsHeld(s: State, limit: int, a: Ask)
    requires a.id in s.nudged && a.now - s.nudged[a.id] <= NUDGE_GRACE
    ensures a.id in Busy(s, a.now)
    ensures Gated(s, limit, a) ==> (Held(s, limit, a) <==> limit <= 1 + |Busy(s, a.now) - {a.id}|)
    ensures Gated(s, 1, a) ==> Held(s, 1, a)
  {
    var busy := Busy(s, a.now);
    assert busy == (busy - {a.id}) + {a.id};
  }

  // ---- runs ----

  datatype Event = Report(xs: seq<Session>, now: int) | Wake(a: Ask) | Clear(id: string, now: int)
  {
    function Time(): int { if Wake? then a.now else now }
  }

  function Stepped(s: State, e: Event, limit: int): State {
    match e
    case Report(xs, now) => Observed(s, xs, now)
    case Wake(a) => Asked(s, limit, a)
    case Clear(id, _) => Cleared(s, id)
  }

  function After(events: seq<Event>, limit: int): State {
    if events == [] then NEW
    else Stepped(After(events[..|events| - 1], limit), events[|events| - 1], limit)
  }

  ghost predicate Monotone(events: seq<Event>) { forall i, j :: 0 <= i < j < |events| ==> events[i].Time() <= events[j].Time() }

  /** The sessions that were granted a gated wake within one grace period from a time on. */
  function GrantedFrom(events: seq<Event>, limit: int, from: int): set<string> {
    if events == [] then {}
    else
      var rest, e := events[..|events| - 1], events[|events| - 1];
      GrantedFrom(rest, limit, from)
      + if e.Wake? && Granted(After(rest, limit), limit, e.a) && from <= e.a.now <= from + NUDGE_GRACE then {e.a.id} else {}
  }

  lemma {:induction false} ReportedKeepsNudged(s: State, xs: seq<Session>, now: int)
    ensures AllReported(s, xs, now).nudged == s.nudged
  {
    if xs != [] { ReportedKeepsNudged(s, xs[..|xs| - 1], now); }
  }

  lemma MonotonePrefix(events: seq<Event>, n: nat)
    requires Monotone(events) && n <= |events|
    ensures Monotone(events[..n])
    ensures 0 < n < |events| ==> events[..n][n - 1].Time() <= events[n].Time()
  {}

  /** A session stays marked as woken until its grace is over, and from later on if it is woken again. */
  lemma StepKeepsNudged(s: State, e: Event, limit: int, id: string)
    requires id in s.nudged && e.Time() - s.nudged[id] <= NUDGE_GRACE && s.nudged[id] <= e.Time()
    ensures var t := Stepped(s, e, limit); id in t.nudged && s.nudged[id] <= t.nudged[id]
  {
    hide Busy; hide AllReported; hide Working;
    if e.Report? { ReportedKeepsNudged(s, e.xs, e.now); }
  }

  lemma {:induction false} NudgedPast(events: seq<Event>, limit: int, id: string)
    requires Monotone(events)
    ensures id in After(events, limit).nudged ==>
      events != [] && After(events, limit).nudged[id] <= events[|events| - 1].Time()
  {
    if events != [] {
      var n := |events| - 1;
      MonotonePrefix(events, n);
      NudgedPast(events[..n], limit, id);
      StepNudges(After(events[..n], limit), events[n], limit, id);
    }
  }

  lemma StepNudges(s: State, e: Event, limit: int, id: string)
    ensures var t := Stepped(s, e, limit);
      id in t.nudged ==> t.nudged[id] == e.Time() || (id in s.nudged && t.nudged[id] == s.nudged[id])
  {
    hide Busy; hide AllReported; hide Working;
    if e.Report? { ReportedKeepsNudged(s, e.xs, e.now); }
  }

  lemma GrantNudges(s: State, a: Ask, limit: int)
    requires Granted(s, limit, a)
    ensures a.id in Asked(s, limit, a).nudged && Asked(s, limit, a).nudged[a.id] == a.now
  {}

  /** While the grace period lasts, everyone granted in it is still marked as woken. */
  lemma {:induction false} StillNudged(events: seq<Event>, limit: int, from: int, id: string)
    requires Monotone(events) && id in GrantedFrom(events, limit, from)
    requires events[|events| - 1].Time() <= from + NUDGE_GRACE
    ensures var s := After(events, limit); id in s.nudged && from <= s.nudged[id]
  {
    var n := |events| - 1;
    var rest, e := events[..n], events[n];
    MonotonePrefix(events, n);
    hide Monotone; hide Stepped;
    if id in GrantedFrom(rest, limit, from) {
      StillNudged(rest, limit, from, id);
      NudgedPast(rest, limit, id);
      StepKeepsNudged(After(rest, limit), e, limit, id);
    } else {
      GrantNudges(After(rest, limit), e.a, limit);
      StepIsAsked(After(rest, limit), e, limit);
    }
  }

  lemma StepIsAsked(s: State, e: Event, limit: int)
    requires e.Wake?
    ensures Stepped(s, e, limit) == Asked(s, limit, e.a)
  {}

  /** A grant in the period means the clock had got there. */
  lemma {:induction false} GrantedLate(events: seq<Event>, limit: int, from: int, id: string)
    requires Monotone(events) && id in GrantedFrom(events, limit, from)
    ensures events != [] && from <= events[|events| - 1].Time()
  {
    var n := |events| - 1;
    if id in GrantedFrom(events[..n], limit, from) {
      GrantedLate(events[..n], limit, from, id);
      assert events[..n][n - 1] == events[n - 1];
    }
  }

  /** In any 60 seconds, no more sessions are granted a gated wake than the limit. */
  lemma {:induction false} WindowBound(events: seq<Event>, limit: int, from: int)
    requires Monotone(events) && limit > 0
    ensures |GrantedFrom(events, limit, from)| <= limit
  {
    if events != [] {
      var n := |events| - 1;
      var rest, e := events[..n], events[n];
      WindowBound(rest, limit, from);
      if e.Wake? && Granted(After(rest, limit), limit, e.a) && from <= e.a.now <= from + NUDGE_GRACE {
        var s, g := After(rest, limit), GrantedFrom(rest, limit, from);
        forall id | id in g ensures id in Busy(s, e.a.now) {
          assert n > 0 && rest[n - 1] == events[n - 1];
          StillNudged(rest, limit, from, id);
        }
        SubsetSize(g, Busy(s, e.a.now));
      }
    }
  }

  lemma {:induction false} ReportedKeepsQueued(s: State, xs: seq<Session>, now: int)
    ensures AllReported(s, xs, now).queued == s.queued
  {
    if xs != [] { ReportedKeepsQueued(s, xs[..|xs| - 1], now); }
  }

  lemma StepQueues(s: State, e: Event, limit: int, id: string)
    ensures var t := Stepped(s, e, limit);
      id in t.queued ==> t.queued[id] == e.Time() || (id in s.queued && t.queued[id] == s.queued[id])
  {
    hide Busy; hide AllReported; hide Working;
    if e.Report? { ReportedKeepsQueued(s, e.xs, e.now); }
  }

  /** Nothing is queued since a time yet to come. */
  lemma {:induction false} QueuedPast(events: seq<Event>, limit: int, id: string)
    requires Monotone(events)
    ensures id in After(events, limit).queued ==>
      events != [] && After(events, limit).queued[id] <= events[|events| - 1].Time()
  {
    if events != [] {
      var n := |events| - 1;
      MonotonePrefix(events, n);
      QueuedPast(events[..n], limit, id);
      StepQueues(After(events[..n], limit), events[n], limit, id);
    }
  }

  /** A session leaves the queue only by being granted a wake, or cleared. */
  predicate Releases(s: State, e: Event, limit: int, id: string) {
    match e
    case Report(_, _) => false
    case Wake(a) => a.id == id && Granted(s, limit, a)
    case Clear(i, _) => i == id
  }

  lemma StepKeepsQueued(s: State, e: Event, limit: int, id: string)
    requires id in s.queued && !Releases(s, e, limit, id)
    ensures var t := Stepped(s, e, limit); id in t.queued && t.queued[id] == s.queued[id]
  {
    hide Busy; hide AllReported; hide Working;
    if e.Report? { ReportedKeepsQueued(s, e.xs, e.now); }
  }

  lemma HoldQueues(s: State, a: Ask, limit: int)
    requires Held(s, limit, a)
    ensures var t := Asked(s, limit, a);
      a.id in t.queued && t.queued[a.id] == if a.id in s.queued then s.queued[a.id] else a.now
  {}

  /** A session that is held is remembered as queued, since the first hold, until it is granted or cleared. */
  lemma {:induction false} HoldRemembered(events: seq<Event>, limit: int, i: nat, n: nat)
    requires i < n <= |events| && events[i].Wake? && Held(After(events[..i], limit), limit, events[i].a)
    requires forall j :: i < j < n ==> !Releases(After(events[..j], limit), events[j], limit, events[i].a.id)
    requires Monotone(events)
    ensures var s := After(events[..n], limit); events[i].a.id in s.queued && s.queued[events[i].a.id] <= events[i].a.now
  {
    hide Monotone; hide Releases; hide Held; hide Stepped; hide After;
    var m := n - 1;
    AfterStep(events, limit, m);
    if i < m {
      HoldRemembered(events, limit, i, m);
      StepKeepsQueued(After(events[..m], limit), events[m], limit, events[i].a.id);
    } else {
      FirstHold(events, limit, i);
    }
  }

  lemma AfterStep(events: seq<Event>, limit: int, n: nat)
    requires n < |events|
    ensures After(events[..n + 1], limit) == Stepped(After(events[..n], limit), events[n], limit)
  {
    assert events[..n + 1][..n] == events[..n];
  }

  lemma FirstHold(events: seq<Event>, limit: int, i: nat)
    requires i < |events| && events[i].Wake? && Held(After(events[..i], limit), limit, events[i].a) && Monotone(events)
    ensures var s := After(events[..i + 1], limit);
      events[i].a.id in s.queued && s.queued[events[i].a.id] <= events[i].a.now
  {
    AfterStep(events, limit, i);
    MonotonePrefix(events, i);
    hide Monotone; hide Held; hide Stepped; hide After;
    QueuedPast(events[..i], limit, events[i].a.id);
    HoldQueues(After(events[..i], limit), events[i].a, limit);
    StepIsAsked(After(events[..i], limit), events[i], limit);
  }
}
