/** Who is working, who was woken and who is held, told from the history of reports and requests alone. */
module WakeCapHistory {
  import opened Basics
  import opened WakeCap

  // ---- token totals ----

  /** The last total other than zero that some sessions report for an id, or the one before. */
  function TotalIn(xs: seq<Session>, id: string, was: Option<int>): Option<int> {
    if xs == [] then was
    else
      var n := |xs| - 1;
      var sum := xs[n].tokensIn + xs[n].tokensOut + xs[n].tokensCache;
      if xs[n].id == id && sum != 0 then Some(sum) else TotalIn(xs[..n], id, was)
  }

  /** Some session of a report has a total other than zero above the one before it. */
  ghost predicate RoseIn(xs: seq<Session>, id: string, was: Option<int>) {
    exists j :: 0 <= j < |xs| && RoseBy(xs, j, id, was)
  }

  predicate RoseBy(xs: seq<Session>, j: nat, id: string, was: Option<int>)
    requires j < |xs|
  {
    var sum := xs[j].tokensIn + xs[j].tokensOut + xs[j].tokensCache;
    xs[j].id == id && sum != 0 && TotalIn(xs[..j], id, was).Some? && sum > TotalIn(xs[..j], id, was).value
  }

  function LastTotal(events: seq<Event>, id: string): Option<int> {
    if events == [] then None
    else
      var n := |events| - 1;
      if events[n].Report? then TotalIn(events[n].xs, id, LastTotal(events[..n], id)) else LastTotal(events[..n], id)
  }

  /** At the ith event a report showed that the session's total rose. */
  ghost predicate RoseAt(events: seq<Event>, i: nat, id: string) {
    i < |events| && events[i].Report? && RoseIn(events[i].xs, id, LastTotal(events[..i], id))
  }

  ghost predicate RoseSince(events: seq<Event>, i: nat, id: string, now: int) {
    RoseAt(events, i, id) && now - events[i].now <= 90 * SECOND
  }

  /** Such a report came in the last ninety seconds. */
  ghost predicate WorkingAt(events: seq<Event>, id: string, now: int) { exists i: nat :: RoseSince(events, i, id, now) }

  // ---- wakes ----

  /** Wakes that the cap never holds: by a person, at the end of a task or for no stated reason, of the core, or of
      the owner's own project. */
  predicate Exempted(a: Ask) {
    a.reason.Unknown? || a.reason.HumanSend? || a.reason.TaskEnd? || a.kind == "core" || a.project == "shabadoo"
  }

  /** At the ith event the session was woken: it was exempt, or there was room. */
  ghost predicate WokenBy(events: seq<Event>, limit: int, i: nat)
    decreases |events|, 0
  {
    && i < |events| && events[i].Wake?
    && (var a, past := events[i].a, events[..i];
        a.id != ""
        && (Exempted(a)
            || (limit > 0 && !a.off && !WorkingAt(past, a.id, a.now) && |BusyAt(past, limit, a.now)| < limit)))
  }

  ghost predicate WokenSince(events: seq<Event>, limit: int, i: nat, id: string, now: int)
    decreases |events|, 1
  {
    i < |events| && WokenBy(events, limit, i) && events[i].a.id == id && now - events[i].a.now <= 60 * SECOND
  }

  /** It was woken in the last sixty seconds. */
  ghost predicate WokenAt(events: seq<Event>, limit: int, id: string, now: int)
    decreases |events|, 2
  {
    exists i: nat :: WokenSince(events, limit, i, id, now)
  }

  /** The ids that are mentioned. */
  function Ids(events: seq<Event>): set<string> {
    if events == [] then {}
    else
      Ids(events[..|events| - 1]) + match events[|events| - 1]
        case Report(xs, _) => set x | x in xs :: x.id
        case Wake(a) => {a.id}
        case Clear(_, _) => {}
  }

  /** Everyone who is working or was just woken. */
  ghost function BusyAt(events: seq<Event>, limit: int, now: int): set<string>
    decreases |events|, 3
  {
    set id | id in Ids(events) && (WorkingAt(events, id, now) || WokenAt(events, limit, id, now))
  }

  // ---- what the cap remembers ----

  /** When the session's total last rose. */
  ghost function LastRise(events: seq<Event>, id: string): Option<int> {
    if events == [] then None
    else
      var n := |events| - 1;
      if RoseAt(events, n, id) then Some(events[n].now) else LastRise(events[..n], id)
  }

  ghost function LastWoken(events: seq<Event>, limit: int, id: string): Option<int> {
    if events == [] then None
    else
      var n := |events| - 1;
      if events[n].Wake? && events[n].a.id == id && WokenBy(events, limit, n) then Some(events[n].a.now)
      else LastWoken(events[..n], limit, id)
  }

  function Found(m: Times, id: string): Option<int> { if id in m then Some(m[id]) else None }

  /** A map of times holds the last time, or has dropped it since it is too long ago. */
  predicate Remembers(m: Times, id: string, last: Option<int>, now: int, window: int) {
    Found(m, id) == last || (id !in m && last.Some? && now - last.value > window)
  }

  lemma {:induction false} ReportRemembers(s: State, xs: seq<Session>, id: string, now: int)
    ensures var t := AllReported(s, xs, now);
      && Found(t.spend, id) == TotalIn(xs, id, Found(s.spend, id))
      && Found(t.working, id) == (if RoseIn(xs, id, Found(s.spend, id)) then Some(now) else Found(s.working, id))
      && t.nudged == s.nudged
  {
    var was := Found(s.spend, id);
    if xs != [] {
      var n := |xs| - 1;
      var rest := xs[..n];
      ReportRemembers(s, rest, id, now);
      forall j | 0 <= j < n ensures RoseBy(xs, j, id, was) == RoseBy(rest, j, id, was) { assert xs[..j] == rest[..j]; }
      assert RoseIn(xs, id, was) <==> RoseIn(rest, id, was) || RoseBy(xs, n, id, was) by {
        if RoseIn(rest, id, was) {
          var j :| 0 <= j < |rest| && RoseBy(rest, j, id, was);
          assert RoseBy(xs, j, id, was);
        }
      }
      hide AllReported; hide RoseIn;
      ReportStep(s, xs, id, now);
    }
  }

  lemma ReportStep(s: State, xs: seq<Session>, id: string, now: int)
    requires xs != []
    ensures var n := |xs| - 1; var u, t := AllReported(s, xs[..n], now), AllReported(s, xs, now);
      var sum := xs[n].tokensIn + xs[n].tokensOut + xs[n].tokensCache;
      && Found(t.spend, id) == (if xs[n].id == id && sum != 0 then Some(sum) else Found(u.spend, id))
      && Found(t.working, id) == (if xs[n].id == id && sum != 0 && id in u.spend && sum > u.spend[id] then Some(now) else Found(u.working, id))
      && t.nudged == u.nudged
  {}

  // ---- the last of a kind ----

  lemma RosePrefix(events: seq<Event>, n: nat, i: nat, id: string, now: int)
    requires i < n <= |events|
    ensures RoseSince(events[..n], i, id, now) <==> RoseSince(events, i, id, now)
  {
    assert events[..n][..i] == events[..i];
  }

  lemma WokenPrefix(events: seq<Event>, limit: int, n: nat, i: nat, id: string, now: int)
    requires i < n <= |events|
    ensures WokenSince(events[..n], limit, i, id, now) <==> WokenSince(events, limit, i, id, now)
  {
    assert events[..n][..i] == events[..i];
  }

  lemma {:induction false} RiseIs(events: seq<Event>, id: string, now: int)
    requires Monotone(events)
    ensures WorkingAt(events, id, now) <==> LastRise(events, id).Some? && now - LastRise(events, id).value <= 90 * SECOND
    ensures LastRise(events, id).Some? ==> events != [] && LastRise(events, id).value <= events[|events| - 1].Time()
  {
    if events != [] {
      var n := |events| - 1;
      MonotonePrefix(events, n);
      RiseIs(events[..n], id, now);
      forall i: nat ensures i < n ==> (RoseSince(events[..n], i, id, now) <==> RoseSince(events, i, id, now)) {
        if i < n { RosePrefix(events, n, i, id, now); }
      }
      forall i: nat ensures RoseSince(events, i, id, now) ==> i < |events| {}
      forall i: nat ensures RoseSince(events[..n], i, id, now) ==> i < n {}
      RoseLast(events, id, now);
      hide RoseSince; hide RoseAt;
    } else {
      NoRise(id, now);
    }
  }

  lemma RoseLast(events: seq<Event>, id: string, now: int)
    requires events != []
    ensures var n := |events| - 1;
      && (RoseSince(events, n, id, now) <==> RoseAt(events, n, id) && now - events[n].Time() <= 90 * SECOND)
      && LastRise(events, id) == if RoseAt(events, n, id) then Some(events[n].Time()) else LastRise(events[..n], id)
  {
    hide RoseIn; hide LastTotal;
  }

  lemma NoRise(id: string, now: int)
    ensures !WorkingAt([], id, now)
  {}

  lemma RoseIsReport(events: seq<Event>, i: nat, id: string)
    ensures RoseAt(events, i, id) ==> i < |events| && events[i].Report? && id in Ids(events)
  {
    if RoseAt(events, i, id) {
      var j :| 0 <= j < |events[i].xs| && RoseBy(events[i].xs, j, id, LastTotal(events[..i], id));
      assert events[i].xs[j] in events[i].xs;
      Mentioned(events, i, id);
    }
  }

  lemma {:induction false} Mentioned(events: seq<Event>, i: nat, id: string)
    requires i < |events|
    requires (events[i].Report? && exists x :: x in events[i].xs && x.id == id) || (events[i].Wake? && events[i].a.id == id)
    ensures id in Ids(events)
  {
    if i < |events| - 1 { Mentioned(events[..|events| - 1], i, id); }
  }

  lemma {:induction false} WokenIs(events: seq<Event>, limit: int, id: string, now: int)
    requires Monotone(events)
    ensures WokenAt(events, limit, id, now)
      <==> LastWoken(events, limit, id).Some? && now - LastWoken(events, limit, id).value <= 60 * SECOND
    ensures LastWoken(events, limit, id).Some? ==> events != [] && LastWoken(events, limit, id).value <= events[|events| - 1].Time()
    ensures WokenAt(events, limit, id, now) ==> id in Ids(events)
  {
    if events != [] {
      var n := |events| - 1;
      MonotonePrefix(events, n);
      WokenIs(events[..n], limit, id, now);
      forall i: nat ensures i < n ==> (WokenSince(events[..n], limit, i, id, now) <==> WokenSince(events, limit, i, id, now)) {
        if i < n { WokenPrefix(events, limit, n, i, id, now); }
      }
      forall i: nat ensures WokenSince(events, limit, i, id, now) ==> i < |events| && id in Ids(events) {
        WokenMentioned(events, limit, i, id, now);
      }
      forall i: nat ensures WokenSince(events[..n], limit, i, id, now) ==> i < n {}
      WokenLast(events, limit, id, now);
      hide WokenSince; hide WokenBy; hide Ids;
    }
  }

  lemma WokenMentioned(events: seq<Event>, limit: int, i: nat, id: string, now: int)
    ensures WokenSince(events, limit, i, id, now) ==> i < |events| && id in Ids(events)
  {
    if WokenSince(events, limit, i, id, now) {
      assert WokenBy(events, limit, i);
      Mentioned(events, i, id);
    }
  }

  lemma WokenLast(events: seq<Event>, limit: int, id: string, now: int)
    requires events != []
    ensures var n := |events| - 1; var woken := events[n].Wake? && events[n].a.id == id && WokenBy(events, limit, n);
      && (WokenSince(events, limit, n, id, now) <==> woken && now - events[n].Time() <= 60 * SECOND)
      && LastWoken(events, limit, id) == if woken then Some(events[n].Time()) else LastWoken(events[..n], limit, id)
  {
    hide BusyAt; hide WorkingAt;
  }

  // ---- the cap and the history agree ----

  ghost predicate Agrees(events: seq<Event>, limit: int, id: string) {
    var s := After(events, limit);
    && Found(s.spend, id) == LastTotal(events, id)
    && if events == [] then id !in s.working && id !in s.nudged
       else
         var last := events[|events| - 1].Time();
         && Remembers(s.working, id, LastRise(events, id), last, WORK_WINDOW)
         && Remembers(s.nudged, id, LastWoken(events, limit, id), last, NUDGE_GRACE)
  }

  /** Who is busy, as the cap counts it, is who is working or was just woken. */
  lemma BusyIs(events: seq<Event>, limit: int, now: int)
    requires Monotone(events) && (events != [] ==> events[|events| - 1].Time() <= now)
    requires forall id :: Agrees(events, limit, id)
    ensures Busy(After(events, limit), now) == BusyAt(events, limit, now)
    ensures forall id :: Working(After(events, limit), id, now) <==> WorkingAt(events, id, now)
  {
    var s := After(events, limit);
    forall id
      ensures Working(s, id, now) <==> WorkingAt(events, id, now)
      ensures id in s.nudged && now - s.nudged[id] <= NUDGE_GRACE <==> WokenAt(events, limit, id, now)
      ensures WorkingAt(events, id, now) || WokenAt(events, limit, id, now) ==> id in Ids(events)
    {
      assert Agrees(events, limit, id);
      RiseIs(events, id, now);
      WokenIs(events, limit, id, now);
      WorkingMentioned(events, id, now);
      hide After; hide WorkingAt; hide WokenAt;
    }
    hide After; hide WorkingAt; hide WokenAt; hide Agrees;
    assert forall id :: id in Busy(s, now) <==> id in BusyAt(events, limit, now);
  }

  lemma WorkingMentioned(events: seq<Event>, id: string, now: int)
    ensures WorkingAt(events, id, now) ==> id in Ids(events)
  {
    if WorkingAt(events, id, now) {
      var i: nat :| RoseSince(events, i, id, now);
      RoseIsReport(events, i, id);
    }
  }

  lemma ReportAgrees(was: State, xs: seq<Session>, now: int, id: string, rise: Option<int>, woken: Option<int>, before: int)
    requires before <= now
    requires Remembers(was.working, id, rise, before, WORK_WINDOW) && Remembers(was.nudged, id, woken, before, NUDGE_GRACE)
    ensures var s := Observed(was, xs, now);
      && Found(s.spend, id) == TotalIn(xs, id, Found(was.spend, id))
      && Remembers(s.working, id, if RoseIn(xs, id, Found(was.spend, id)) then Some(now) else rise, now, WORK_WINDOW)
      && Remembers(s.nudged, id, woken, now, NUDGE_GRACE)
  {
    hide RoseIn; hide TotalIn; hide Busy; hide AllReported;
    ReportRemembers(was, xs, id, now);
  }

  lemma LiveRemembers(m: Times, id: string, last: Option<int>, before: int, now: int, window: int)
    requires before <= now && Remembers(m, id, last, before, window)
    ensures Remembers(m, id, last, now, window) && Remembers(Live(m, now, window), id, last, now, window)
  {}

  lemma WakeAgrees(was: State, a: Ask, limit: int, id: string, rise: Option<int>, woken: Option<int>, before: int)
    requires before <= a.now
    requires Remembers(was.working, id, rise, before, WORK_WINDOW) && Remembers(was.nudged, id, woken, before, NUDGE_GRACE)
    ensures var s := Asked(was, limit, a);
      var now := a.id != "" && (Exempted(a) || (limit > 0 && !a.off && !Working(was, a.id, a.now) && |Busy(was, a.now)| < limit));
      && s.spend == was.spend
      && Remembers(s.working, id, rise, a.now, WORK_WINDOW)
      && Remembers(s.nudged, id, if now && a.id == id then Some(a.now) else woken, a.now, NUDGE_GRACE)
  {
    LiveRemembers(was.working, id, rise, before, a.now, WORK_WINDOW);
    LiveRemembers(was.nudged, id, woken, before, a.now, NUDGE_GRACE);
    PutRemembers(was.nudged, a.id, id, woken, a.now, NUDGE_GRACE);
    PutRemembers(Live(was.nudged, a.now, NUDGE_GRACE), a.id, id, woken, a.now, NUDGE_GRACE);
    AskedShape(was, a, limit);
    hide Asked; hide Exempted; hide Busy; hide Live; hide Remembers; hide Working;
  }

  lemma AskedShape(was: State, a: Ask, limit: int)
    ensures var s := Asked(was, limit, a);
      var now := a.id != "" && (Exempted(a) || (limit > 0 && !a.off && !Working(was, a.id, a.now) && |Busy(was, a.now)| < limit));
      var w, n := Live(was.working, a.now, WORK_WINDOW), Live(was.nudged, a.now, NUDGE_GRACE);
      && s.spend == was.spend && (s.working == was.working || s.working == w)
      && if now then s.nudged == was.nudged[a.id := a.now] || s.nudged == n[a.id := a.now]
         else s.nudged == was.nudged || s.nudged == n
  {
    hide Busy; hide Live; hide Working;
  }

  lemma PutRemembers(m: Times, x: string, id: string, last: Option<int>, now: int, window: int)
    requires Remembers(m, id, last, now, window)
    ensures Remembers(m[x := now], id, if x == id then Some(now) else last, now, window)
  {}

  lemma {:induction false} AllAgree(events: seq<Event>, limit: int)
    requires Monotone(events)
    ensures forall id :: Agrees(events, limit, id)
  {
    if events == [] {
      forall id ensures Agrees(events, limit, id) {}
    } else {
      var n := |events| - 1;
      var rest, e := events[..n], events[n];
      MonotonePrefix(events, n);
      AllAgree(rest, limit);
      BusyIs(rest, limit, e.Time());
      forall id ensures Agrees(events, limit, id) {
        StepAgrees(events, limit, id);
      }
    }
  }

  lemma StepAgrees(events: seq<Event>, limit: int, id: string)
    requires events != [] && Monotone(events)
    requires var n := |events| - 1; var rest, now := events[..n], events[n].Time();
      && Agrees(rest, limit, id) && Busy(After(rest, limit), now) == BusyAt(rest, limit, now)
      && forall x :: Working(After(rest, limit), x, now) <==> WorkingAt(rest, x, now)
    ensures Agrees(events, limit, id)
  {
    var n := |events| - 1;
    var rest, e := events[..n], events[n];
    var was := After(rest, limit);
    var rise, woken := LastRise(rest, id), LastWoken(rest, limit, id);
    RoseLast(events, id, 0);
    WokenLast(events, limit, id, 0);
    var before := if n > 0 then rest[n - 1].Time() else e.Time();
    assert before <= e.Time();
    assert Remembers(was.working, id, rise, before, WORK_WINDOW) && Remembers(was.nudged, id, woken, before, NUDGE_GRACE);
    match e
    case Report(xs, now) =>
      hide Observed; hide RoseIn; hide WokenBy;
      ReportAgrees(was, xs, now, id, rise, woken, before);
    case Wake(a) =>
      hide Asked; hide Exempted; hide Busy; hide BusyAt; hide Working; hide WorkingAt;
      WakeAgrees(was, a, limit, id, rise, woken, before);
    case Clear(x, now) =>
  }

  /** Over every run with a clock that does not go back, a wake is held exactly when it is for a session, not exempt,
      not let through because the cap is off or the session is working, and those who are working or were just woken
      reach the limit. */
  lemma HeldExactly(events: seq<Event>, limit: int, a: Ask)
    requires Monotone(events + [Wake(a)])
    ensures Held(After(events, limit), limit, a) <==>
      && a.id != "" && !Exempted(a) && limit > 0 && !a.off
      && !WorkingAt(events, a.id, a.now) && |BusyAt(events, limit, a.now)| >= limit
  {
    var all := events + [Wake(a)];
    assert all[..|events|] == events;
    MonotonePrefix(all, |events|);
    assert events != [] ==> all[|events| - 1] == events[|events| - 1];
    assert all[|events|] == Wake(a);
    AllAgree(events, limit);
    BusyIs(events, limit, a.now);
    hide Busy; hide BusyAt; hide Working; hide WorkingAt; hide After; hide Agrees; hide Monotone;
  }

  /** The cap takes a session for working exactly when some report in the last ninety seconds showed its total rise. */
  lemma WorkingExactly(events: seq<Event>, limit: int, id: string, now: int)
    requires Monotone(events) && (events != [] ==> events[|events| - 1].Time() <= now)
    ensures Working(After(events, limit), id, now) <==> WorkingAt(events, id, now)
  {
    AllAgree(events, limit);
    BusyIs(events, limit, now);
  }

  /** How many were busy right after the ith event, a report. */
  ghost function BusyAfter(events: seq<Event>, limit: int, i: nat): nat
    requires i < |events|
  {
    |BusyAt(events[..i + 1], limit, events[i].Time())|
  }

  ghost predicate IsPeak(events: seq<Event>, limit: int, h: int) {
    && (forall i :: 0 <= i < |events| && events[i].Report? ==> BusyAfter(events, limit, i) <= h)
    && (h == 0 || exists i :: 0 <= i < |events| && events[i].Report? && BusyAfter(events, limit, i) == h)
  }

  /** The high-water mark is the most that were busy at any report. */
  lemma {:induction false} HighWaterExact(events: seq<Event>, limit: int)
    requires Monotone(events)
    ensures IsPeak(events, limit, After(events, limit).highWater)
  {
    if events != [] {
      var n := |events| - 1;
      var rest, e := events[..n], events[n];
      MonotonePrefix(events, n);
      HighWaterExact(rest, limit);
      AllAgree(events, limit);
      BusyIs(events, limit, e.Time());
      assert events[..n + 1] == events;
      HighWaterStep(After(rest, limit), e, limit);
      hide Busy; hide Agrees; hide Stepped; hide BusyAt; hide Monotone; hide IsPeak; hide WorkingAt; hide Working;
      PeakStep(events, limit, After(rest, limit).highWater, After(events, limit).highWater);
    }
  }

  lemma PeakStep(events: seq<Event>, limit: int, was: int, now: int)
    requires events != []
    requires var n := |events| - 1;
      IsPeak(events[..n], limit, was)
      && now == if events[n].Report? && BusyAfter(events, limit, n) > was then BusyAfter(events, limit, n) else was
    ensures IsPeak(events, limit, now)
  {
    hide BusyAfter;
    var n := |events| - 1;
    var rest := events[..n];
    forall i | 0 <= i < n ensures BusyAfter(rest, limit, i) == BusyAfter(events, limit, i) && rest[i] == events[i] {
      BusyBefore(events, limit, i);
    }
    if now == was && was != 0 {
      var i :| 0 <= i < n && rest[i].Report? && BusyAfter(rest, limit, i) == was;
      assert events[i].Report? && BusyAfter(events, limit, i) == now;
    }
  }

  lemma BusyBefore(events: seq<Event>, limit: int, i: nat)
    requires i < |events| - 1
    ensures BusyAfter(events[..|events| - 1], limit, i) == BusyAfter(events, limit, i)
  {
    assert events[..|events| - 1][..i + 1] == events[..i + 1];
    hide BusyAt;
  }

  lemma HighWaterStep(s: State, e: Event, limit: int)
    ensures var t := Stepped(s, e, limit);
      t.highWater == if e.Report? && |Busy(t, e.now)| > s.highWater then |Busy(t, e.now)| else s.highWater
  {
    if e.Report? {
      var t := AllReported(s, e.xs, e.now);
      ReportedKeepsHigh(s, e.xs, e.now);
      assert Busy(Observed(s, e.xs, e.now), e.now) == Busy(t, e.now);
    }
    hide Busy;
  }

  lemma {:induction false} ReportedKeepsHigh(s: State, xs: seq<Session>, now: int)
    ensures AllReported(s, xs, now).highWater == s.highWater
  {
    if xs != [] { ReportedKeepsHigh(s, xs[..|xs| - 1], now); }
  }

  /** What a request changes, case by case. */
  lemma RequestCounted(s: State, limit: int, a: Ask)
    ensures var t := Asked(s, limit, a);
      && t.spend == s.spend && t.highWater == s.highWater
      && (a.id == "" ==> t == s)
      && (a.id != "" && Exempted(a) ==> t == s.(exempted := s.exempted + 1, nudged := s.nudged[a.id := a.now]))
      && (a.id != "" && !Exempted(a) && (limit <= 0 || a.off) ==> t == s)
      && (Held(s, limit, a) ==>
           && t.held == s.held + 1 && t.allowed == s.allowed && t.exempted == s.exempted
           && t.queued == (if a.id in s.queued then s.queued else s.queued[a.id := a.now]))
      && (Granted(s, limit, a) ==>
           && t.allowed == s.allowed + 1 && t.held == s.held && t.exempted == s.exempted
           && t.queued == s.queued - {a.id} && a.id in t.nudged && t.nudged[a.id] == a.now)
      && (a.id != "" && !Exempted(a) && limit > 0 && !a.off && Working(s, a.id, a.now) ==> t == s.(allowed := s.allowed + 1))
  {
    hide Busy; hide Live; hide Working;
  }
}
