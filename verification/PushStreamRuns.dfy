/** No update is lost, however reports, subscribers and streams interleave. */
module PushStreamRuns {
  import opened Basics
  import opened SessionView
  import opened PushStream

  /** Where a handler stands: about to send its first frame, waiting in select, letting a burst settle, about to
      read the view, holding the view it read, on its way out, or gone. */
  datatype Pc = Opening | Idle | Settling | Ready | Writing(force: bool, at: nat) | Closing | Gone

  /** One handler. seen is the version it last compared or sent; failed says its last read of the view did not work. */
  datatype Browser = Browser(tenant: string, pc: Pc, stream: Stream, seen: nat, failed: bool)

  /** log holds every version of a tenant's view, the current one last; told is the version at the last notify. */
  datatype System = System(subs: Subs, log: map<string, seq<View>>, told: map<string, nat>, browsers: map<Addr, Browser>)
  {
    function Log(tenant: string): (l: seq<View>)
      ensures |l| >= 1
    {
      if tenant in log && log[tenant] != [] then log[tenant] else [View([], 0)]
    }

    function Told(tenant: string): nat { if tenant in told then told[tenant] else 0 }
  }

  const START := System(Subs(map[], map[]), map[], map[], map[])

  datatype Step =
    | Join(a: Addr, tenant: string)
    | Change(tenant: string, view: View)
    | Notify(tenant: string)
    | Wake(a: Addr)
    | Drain(a: Addr)
    | Read(a: Addr)
    | ReadFails(a: Addr)
    | Write(a: Addr, ok: bool)
    | Keepalive(a: Addr)
    | Cancel(a: Addr)
    | Leave(a: Addr)

  predicate At(s: System, a: Addr, pc: Pc) { a in s.browsers && s.browsers[a].pc == pc }

  predicate Enabled(s: System, step: Step) {
    match step
    case Join(a, _) => a !in s.browsers && a !in s.subs.signalled
    case Change(_, _) => true
    case Notify(_) => true
    case Wake(a) => At(s, a, Idle) && a in s.subs.signalled && s.subs.signalled[a]
    case Drain(a) => At(s, a, Settling) && a in s.subs.signalled
    case Read(a) => At(s, a, Opening) || At(s, a, Ready)
    case ReadFails(a) => At(s, a, Opening) || At(s, a, Ready)
    case Write(a, _) => a in s.browsers && s.browsers[a].pc.Writing? && s.browsers[a].pc.at < |s.Log(s.browsers[a].tenant)|
    case Keepalive(a) => At(s, a, Idle)
    case Cancel(a) => At(s, a, Idle) || At(s, a, Settling)
    case Leave(a) => At(s, a, Closing)
  }

  function To(s: System, a: Addr, pc: Pc): map<Addr, Browser>
    requires a in s.browsers
  {
    s.browsers[a := s.browsers[a].(pc := pc)]
  }

  /** A browser after the view it read was sent, or skipped, or could not be written. */
  function Wrote(b: Browser, view: View, ok: bool): Browser
    requires b.pc.Writing?
  {
    var skip := Skips(b.stream, view, b.pc.force);
    b.(stream := Sent(b.stream, view, b.pc.force, ok), seen := b.pc.at, failed := false, pc := if skip || ok then Idle else Closing)
  }

  function Next(s: System, step: Step): System
    requires Enabled(s, step)
  {
    match step
    case Join(a, tenant) => s.(subs := Added(s.subs, tenant, a), browsers := s.browsers[a := Browser(tenant, Opening, FRESH, 0, false)])
    case Change(tenant, view) => s.(log := s.log[tenant := s.Log(tenant) + [view]])
    case Notify(tenant) => s.(subs := Notified(s.subs, tenant), told := s.told[tenant := |s.Log(tenant)| - 1])
    case Wake(a) => s.(subs := s.subs.(signalled := s.subs.signalled[a := false]), browsers := To(s, a, Settling))
    case Drain(a) => s.(subs := s.subs.(signalled := s.subs.signalled[a := false]), browsers := To(s, a, Ready))
    case Read(a) =>
      var b := s.browsers[a];
      s.(browsers := To(s, a, Writing(b.pc == Opening, |s.Log(b.tenant)| - 1)))
    case ReadFails(a) => s.(browsers := s.browsers[a := s.browsers[a].(pc := Idle, failed := true)])
    case Write(a, ok) =>
      var b := s.browsers[a];
      s.(browsers := s.browsers[a := Wrote(b, s.Log(b.tenant)[b.pc.at], ok)])
    case Keepalive(a) => s.(browsers := s.browsers[a := s.browsers[a].(stream := Pinged(s.browsers[a].stream))])
    case Cancel(a) => s.(browsers := To(s, a, Closing))
    case Leave(a) => s.(subs := Removed(s.subs, s.browsers[a].tenant, a), browsers := To(s, a, Gone))
  }

  // ---- what every step keeps ----

  /** Handlers that are not gone, and no others, are subscribed; and versions only run ahead. */
  ghost predicate Attached(s: System) {
    && s.subs.Sound()
    && (forall a :: a in s.browsers && s.browsers[a].pc != Gone ==>
       a in s.subs.Of(s.browsers[a].tenant) && a in s.subs.signalled)
    && (forall t, a :: t in s.subs.subs && a in s.subs.subs[t] ==>
       a in s.browsers && s.browsers[a].tenant == t && s.browsers[a].pc != Gone)
    && (forall t :: t in s.told ==> s.told[t] < |s.Log(t)|)
  }

  /** The numbers on the wire count its frames. */
  predicate Numbered(wire: seq<Item>, n: nat) {
    if wire == [] then n == 0
    else
      var it := wire[|wire| - 1];
      if it.Frame? then n > 0 && it.seq_ == n && Numbered(wire[..|wire| - 1], n - 1)
      else it.seq_ == n && Numbered(wire[..|wire| - 1], n)
  }

  /** The last frame on a wire. */
  function LastFrame(wire: seq<Item>): Option<View> {
    if wire == [] then None
    else if wire[|wire| - 1].Frame? then Some(wire[|wire| - 1].view)
    else LastFrame(wire[..|wire| - 1])
  }

  /** No frame renders as the one before it does. */
  predicate Changing(wire: seq<Item>) {
    if wire == [] then true
    else
      var rest := wire[..|wire| - 1];
      Changing(rest)
      && (wire[|wire| - 1].Frame? && LastFrame(rest).Some? ==>
         Fingerprint(LastFrame(rest).value) != Fingerprint(wire[|wire| - 1].view))
  }

  /** A stream that is still going compares with the frame it last wrote. */
  ghost predicate InStep(b: Browser) {
    b.pc != Closing && b.pc != Gone ==>
      && Numbered(b.stream.wire, b.stream.seq_) && Changing(b.stream.wire)
      && (b.pc == Opening || (b.pc.Writing? && b.pc.force) ==> b.stream.last.None?)
      && (if LastFrame(b.stream.wire).None? then b.stream.last == None
          else b.stream.last == Some(Fingerprint(LastFrame(b.stream.wire).value)))
  }

  /** What a handler has compared with last renders as a version of the view does. */
  ghost predicate Grounded(s: System, b: Browser) {
    var l := s.Log(b.tenant);
    && b.seen < |l| && (b.pc.Writing? ==> b.pc.at < |l|)
    && (b.stream.last.Some? ==> b.stream.last.value == Fingerprint(l[b.seen]))
    && (b.pc == Opening ==> !b.failed)
    && (b.pc == Idle && !b.failed ==> b.stream.last.Some?)
  }

  /** Nothing that was announced is left unseen: it has been read, or is being, or there is a signal waiting. */
  ghost predicate Heard(s: System, a: Addr)
    requires a in s.browsers
  {
    var b := s.browsers[a];
    (a in s.subs.signalled && s.subs.signalled[a])
    || (match b.pc
        case Opening => true
        case Settling => true
        case Ready => true
        case Writing(_, at) => s.Told(b.tenant) <= at
        case Idle => b.failed || s.Told(b.tenant) <= b.seen
        case Closing => true
        case Gone => true)
  }

  ghost predicate Inv(s: System) {
    Attached(s) && forall a :: a in s.browsers ==> InStep(s.browsers[a]) && Grounded(s, s.browsers[a]) && Heard(s, a)
  }

  lemma StartInv()
    ensures Inv(START)
  {}

  lemma JoinAttached(s: System, a: Addr, tenant: string)
    requires Attached(s) && Enabled(s, Join(a, tenant))
    ensures Attached(Next(s, Join(a, tenant)))
  {}

  lemma RemovedOf(s: Subs, tenant: string, ch: Addr, t: string)
    ensures Removed(s, tenant, ch).Of(t) == if t == tenant then s.Of(tenant) - {ch} else s.Of(t)
    ensures t in Removed(s, tenant, ch).subs ==> t in s.subs || t == tenant
  {}

  lemma LeaveAttached(s: System, a: Addr)
    requires Attached(s) && Enabled(s, Leave(a))
    ensures Attached(Next(s, Leave(a)))
  {
    var tenant := s.browsers[a].tenant;
    var q := Removed(s.subs, tenant, a);
    assert q.signalled == s.subs.signalled;
    forall t ensures q.Of(t) == (if t == tenant then s.subs.Of(tenant) - {a} else s.subs.Of(t)) { RemovedOf(s.subs, tenant, a, t); }
    hide Removed;
    forall t, b | t in q.subs && b in q.subs[t] ensures t in s.subs.subs && b in s.subs.subs[t] && b != a {
      assert b in q.Of(t);
    }
  }

  lemma NotifyAttached(s: System, tenant: string)
    requires Attached(s)
    ensures Enabled(s, Notify(tenant)) && Attached(Next(s, Notify(tenant)))
  {}

  lemma ChangeAttached(s: System, tenant: string, view: View)
    requires Attached(s)
    ensures Enabled(s, Change(tenant, view)) && Attached(Next(s, Change(tenant, view)))
  {}

  /** The steps that leave alone who is subscribed and what was announced. */
  ghost predicate SameMembers(s: System, t: System) {
    && t.subs.subs == s.subs.subs && t.subs.signalled.Keys == s.subs.signalled.Keys && t.browsers.Keys == s.browsers.Keys
    && t.log == s.log && t.told == s.told
    && forall a :: a in s.browsers ==>
      t.browsers[a].tenant == s.browsers[a].tenant && (t.browsers[a].pc == Gone <==> s.browsers[a].pc == Gone)
  }

  lemma OthersShape(s: System, step: Step)
    requires Enabled(s, step) && !step.Join? && !step.Leave? && !step.Notify? && !step.Change?
    ensures SameMembers(s, Next(s, step))
  {
    hide Fingerprint; hide Sent; hide Skips; hide Pinged;
  }

  lemma SameMembersAttached(s: System, t: System)
    requires Attached(s) && SameMembers(s, t)
    ensures Attached(t)
  {
    assert forall x :: t.Log(x) == s.Log(x) && t.subs.Of(x) == s.subs.Of(x);
  }

  lemma AttachedStep(s: System, step: Step)
    requires Attached(s) && Enabled(s, step)
    ensures Attached(Next(s, step))
  {
    hide Attached; hide Next; hide Enabled;
    match step
    case Join(a, tenant) => JoinAttached(s, a, tenant);
    case Leave(a) => LeaveAttached(s, a);
    case Notify(tenant) => NotifyAttached(s, tenant);
    case Change(tenant, view) => ChangeAttached(s, tenant, view);
    case _ =>
      OthersShape(s, step);
      SameMembersAttached(s, Next(s, step));
  }

  lemma SentNumbered(st: Stream, view: View, force: bool)
    requires Numbered(st.wire, st.seq_) && Changing(st.wire) && (force ==> st.last.None?)
    requires if LastFrame(st.wire).None? then st.last == None else st.last == Some(Fingerprint(LastFrame(st.wire).value))
    ensures var t := Sent(st, view, force, true);
      Numbered(t.wire, t.seq_) && Changing(t.wire)
      && (if LastFrame(t.wire).None? then t.last == None else t.last == Some(Fingerprint(LastFrame(t.wire).value)))
  {
    hide Fingerprint;
    var it := Frame(st.seq_ + 1, view);
    assert (st.wire + [it])[..|st.wire|] == st.wire;
  }

  lemma PingNumbered(st: Stream)
    requires Numbered(st.wire, st.seq_) && Changing(st.wire)
    ensures Numbered(Pinged(st).wire, st.seq_) && Changing(Pinged(st).wire) && LastFrame(Pinged(st).wire) == LastFrame(st.wire)
  {
    assert (st.wire + [Item.Ping(st.seq_)])[..|st.wire|] == st.wire;
  }

  /** The step, seen from one handler. */
  lemma BrowserStep(s: System, step: Step, a: Addr)
    requires Attached(s) && Enabled(s, step) && a in s.browsers
    requires InStep(s.browsers[a]) && Grounded(s, s.browsers[a]) && Heard(s, a)
    ensures var t := Next(s, step); a in t.browsers && InStep(t.browsers[a])
  {
    hide Fingerprint; hide Sent; hide Pinged; hide Numbered; hide Changing; hide LastFrame; hide Attached;
    hide Heard; hide Grounded;
    var b := s.browsers[a];
    if step == Keepalive(a) {
      PingNumbered(b.stream);
      assert Pinged(b.stream).last == b.stream.last && Pinged(b.stream).seq_ == b.stream.seq_ by { PingedIs(b.stream); }
    } else if step.Write? && step.a == a {
      var view := s.Log(b.tenant)[b.pc.at];
      SentNumbered(b.stream, view, b.pc.force);
      SentSkip(b.stream, view, b.pc.force, step.ok);
    }
  }

  lemma PingedIs(st: Stream)
    ensures Pinged(st).last == st.last && Pinged(st).seq_ == st.seq_
  {}

  lemma SentSkip(st: Stream, view: View, force: bool, ok: bool)
    ensures Skips(st, view, force) || ok ==> Sent(st, view, force, ok) == Sent(st, view, force, true)
    ensures Sent(st, view, force, ok).last == Some(Fingerprint(view))
  {
    hide Fingerprint;
  }

  lemma LogGrows(s: System, step: Step, tenant: string)
    requires Enabled(s, step)
    ensures s.Log(tenant) <= Next(s, step).Log(tenant)
  {
    hide Fingerprint; hide Sent; hide Skips; hide Pinged;
  }

  lemma GroundedStep(s: System, step: Step, a: Addr)
    requires Attached(s) && Enabled(s, step) && a in s.browsers && InStep(s.browsers[a]) && Grounded(s, s.browsers[a])
    ensures var t := Next(s, step); a in t.browsers && Grounded(t, t.browsers[a])
  {
    hide Fingerprint; hide Sent; hide Pinged; hide Numbered; hide Changing; hide LastFrame; hide Attached; hide Skips;
    var b := s.browsers[a];
    LogGrows(s, step, b.tenant);
    if step == Keepalive(a) {
      PingedIs(b.stream);
    } else if step.Write? && step.a == a {
      SentSkip(b.stream, s.Log(b.tenant)[b.pc.at], b.pc.force, step.ok);
    }
  }

  lemma ToldIs(s: System, step: Step, tenant: string)
    requires Attached(s) && Enabled(s, step)
    ensures Next(s, step).Told(tenant) == if step == Notify(tenant) then |s.Log(tenant)| - 1 else s.Told(tenant)
    ensures s.Told(tenant) < |s.Log(tenant)|
  {
    hide Fingerprint; hide Sent; hide Skips; hide Pinged;
  }

  lemma HeardStep(s: System, step: Step, a: Addr)
    requires Attached(s) && Enabled(s, step) && a in s.browsers && Heard(s, a)
    ensures var t := Next(s, step); a in t.browsers && Heard(t, a)
  {
    hide Fingerprint; hide Sent; hide Pinged; hide Skips;
    ToldIs(s, step, s.browsers[a].tenant);
  }

  /** Every step keeps the invariant. */
  lemma InvStep(s: System, step: Step)
    requires Inv(s) && Enabled(s, step)
    ensures Inv(Next(s, step))
  {
    hide InStep; hide Grounded; hide Heard; hide Attached;
    AttachedStep(s, step);
    forall a | a in Next(s, step).browsers
      ensures InStep(Next(s, step).browsers[a]) && Grounded(Next(s, step), Next(s, step).browsers[a]) && Heard(Next(s, step), a)
    {
      if a in s.browsers {
        BrowserStep(s, step, a);
        GroundedStep(s, step, a);
        HeardStep(s, step, a);
      } else {
        Joined(s, step, a);
      }
    }
  }

  lemma Joined(s: System, step: Step, a: Addr)
    requires Enabled(s, step) && a !in s.browsers && a in Next(s, step).browsers
    ensures var t := Next(s, step); InStep(t.browsers[a]) && Grounded(t, t.browsers[a]) && Heard(t, a)
  {}

  // ---- whole runs ----

  ghost predicate Possible(steps: seq<Step>)
    decreases |steps|, 0
  {
    steps == []
    || (Possible(steps[..|steps| - 1]) && Enabled(After(steps[..|steps| - 1]), steps[|steps| - 1]))
  }

  ghost function After(steps: seq<Step>): (s: System)
    requires Possible(steps)
    ensures Inv(s)
    decreases |steps|, 1
  {
    if steps == [] then
      StartInv();
      START
    else
      var s := After(steps[..|steps| - 1]);
      InvStep(s, steps[|steps| - 1]);
      Next(s, steps[|steps| - 1])
  }

  /** The versions of a tenant's view: no nodes at first, and then every change, in order. */
  function Versions(steps: seq<Step>, tenant: string): seq<View> {
    if steps == [] then [View([], 0)]
    else
      var rest, step := Versions(steps[..|steps| - 1], tenant), steps[|steps| - 1];
      if step.Change? && step.tenant == tenant then rest + [step.view] else rest
  }

  /** The version that was current when the tenant's subscribers were last notified. */
  function Announced(steps: seq<Step>, tenant: string): int {
    if steps == [] then 0
    else if steps[|steps| - 1] == Notify(tenant) then |Versions(steps[..|steps| - 1], tenant)| - 1
    else Announced(steps[..|steps| - 1], tenant)
  }

  /** What a run has logged and announced. */
  lemma {:induction false} LogIs(steps: seq<Step>, tenant: string)
    requires Possible(steps)
    ensures After(steps).Log(tenant) == Versions(steps, tenant) && After(steps).Told(tenant) == Announced(steps, tenant)
  {
    hide Inv;
    if steps != [] {
      LogIs(steps[..|steps| - 1], tenant);
      LogStep(After(steps[..|steps| - 1]), steps[|steps| - 1], tenant);
      hide Next; hide Enabled;
    }
  }

  lemma LogStep(s: System, step: Step, tenant: string)
    requires Enabled(s, step)
    ensures var t := Next(s, step);
      && t.Log(tenant) == (if step.Change? && step.tenant == tenant then s.Log(tenant) + [step.view] else s.Log(tenant))
      && t.Told(tenant) == if step == Notify(tenant) then |s.Log(tenant)| - 1 else s.Told(tenant)
  {
    hide Added; hide Notified; hide Removed; hide Wrote; hide Pinged;
  }

  /** The tenant that a handler watches, from when it joins until it leaves. */
  function Watches(steps: seq<Step>, a: Addr): Option<string> {
    if steps == [] then None
    else
      match steps[|steps| - 1]
      case Join(b, tenant) => if b == a then Some(tenant) else Watches(steps[..|steps| - 1], a)
      case Leave(b) => if b == a then None else Watches(steps[..|steps| - 1], a)
      case _ => Watches(steps[..|steps| - 1], a)
  }

  /** Its tenant was notified since it joined, and since it last took a signal. */
  function Roused(steps: seq<Step>, a: Addr): bool {
    if steps == [] then false
    else
      var rest := steps[..|steps| - 1];
      match steps[|steps| - 1]
      case Join(b, _) => b != a && Roused(rest, a)
      case Wake(b) => b != a && Roused(rest, a)
      case Drain(b) => b != a && Roused(rest, a)
      case Notify(tenant) => Watches(rest, a) == Some(tenant) || Roused(rest, a)
      case _ => Roused(rest, a)
  }

  /** A handler's channel holds a signal exactly then. */
  lemma {:induction false} SignalIs(steps: seq<Step>, a: Addr)
    requires Possible(steps)
    ensures var s := After(steps);
      if a !in s.browsers then Watches(steps, a).None? && !Roused(steps, a)
      else
        && Watches(steps, a) == (if s.browsers[a].pc == Gone then None else Some(s.browsers[a].tenant))
        && a in s.subs.signalled && s.subs.signalled[a] == Roused(steps, a)
  {
    hide Inv;
    if steps != [] {
      var s, step := After(steps[..|steps| - 1]), steps[|steps| - 1];
      SignalIs(steps[..|steps| - 1], a);
      InvAttached(s);
      hide Next; hide Enabled; hide Attached;
      if a in s.browsers { SignalStep(s, step, a); } else { NoSignalYet(s, step, a); }
    }
  }

  lemma InvAttached(s: System)
    requires Inv(s)
    ensures Attached(s)
  {}

  lemma NoSignalYet(s: System, step: Step, a: Addr)
    requires Attached(s) && Enabled(s, step) && a !in s.browsers
    ensures var t := Next(s, step);
      if step.Join? && step.a == a then
        a in t.browsers && t.browsers[a].tenant == step.tenant && t.browsers[a].pc == Opening
        && a in t.subs.signalled && !t.subs.signalled[a]
      else a !in t.browsers && !(step.Wake? && step.a == a) && !(step.Drain? && step.a == a) && !(step.Leave? && step.a == a)
  {
    hide Sent; hide Fingerprint; hide Notified; hide Removed;
  }

  lemma SignalStep(s: System, step: Step, a: Addr)
    requires Attached(s) && Enabled(s, step) && a in s.browsers && a in s.subs.signalled
    ensures !(step.Join? && step.a == a)
    ensures var t := Next(s, step);
      && a in t.browsers && t.browsers[a].tenant == s.browsers[a].tenant
      && (t.browsers[a].pc == Gone <==> s.browsers[a].pc == Gone || step == Leave(a))
      && a in t.subs.signalled
      && (t.subs.signalled[a] <==>
           if step == Wake(a) || step == Drain(a) then false
           else s.subs.signalled[a] || (step == Notify(s.browsers[a].tenant) && s.browsers[a].pc != Gone))
  {
    hide Sent; hide Fingerprint; hide Skips;
    if step.Notify? && a in s.subs.Of(step.tenant) { assert step.tenant in s.subs.subs; }
  }

  /** Whenever a handler is idle with nothing signalled, its last frame shows, node by node and session by session, what
      some version of the view does that is no older than the last one announced, unless its last read of the view
      failed. */
  lemma NoLostUpdate(steps: seq<Step>, a: Addr) returns (version: nat)
    requires Possible(steps)
    requires var s := After(steps);
      At(s, a, Idle) && a in s.subs.signalled && !s.subs.signalled[a] && !s.browsers[a].failed
    ensures var s := After(steps); var b := s.browsers[a];
      && Announced(steps, b.tenant) <= version < |Versions(steps, b.tenant)|
      && LastFrame(b.stream.wire).Some?
      && SameView(LastFrame(b.stream.wire).value, Versions(steps, b.tenant)[version])
  {
    var s := After(steps);
    LogIs(steps, s.browsers[a].tenant);
    hide Fingerprint; hide Versions; hide Announced; hide Numbered; hide Attached; hide LastFrame; hide SameView;
    assert InStep(s.browsers[a]) && Grounded(s, s.browsers[a]) && Heard(s, a);
    version := s.browsers[a].seen;
    FingerprintShows(LastFrame(s.browsers[a].stream.wire).value, s.Log(s.browsers[a].tenant)[version]);
  }

  /** In particular, once everything is announced, it shows the current view. */
  lemma QuietIsCurrent(steps: seq<Step>, a: Addr)
    requires Possible(steps)
    requires var s := After(steps);
      At(s, a, Idle) && a in s.subs.signalled && !s.subs.signalled[a] && !s.browsers[a].failed
    requires var t := After(steps).browsers[a].tenant; Announced(steps, t) == |Versions(steps, t)| - 1
    ensures var b := After(steps).browsers[a]; var l := Versions(steps, b.tenant);
      l != [] && LastFrame(b.stream.wire).Some? && SameView(LastFrame(b.stream.wire).value, l[|l| - 1])
  {
    hide SameView; hide Inv; hide Possible; hide After; hide LastFrame;
    var version := NoLostUpdate(steps, a);
  }

  /** How many frames there are on a wire. */
  function Frames(wire: seq<Item>): nat {
    if wire == [] then 0 else Frames(wire[..|wire| - 1]) + if wire[|wire| - 1].Frame? then 1 else 0
  }

  lemma {:induction false} NumberedFrames(wire: seq<Item>, n: nat, j: nat)
    requires Numbered(wire, n) && j < |wire|
    ensures n == Frames(wire) && wire[j].seq_ == Frames(wire[..j + 1])
  {
    var m := |wire| - 1;
    if m > 0 { NumberedFrames(wire[..m], if wire[m].Frame? then n - 1 else n, if j < m then j else 0); }
    if j < m { assert wire[..m][..j + 1] == wire[..j + 1]; } else { assert wire[..j + 1] == wire; }
  }

  lemma {:induction false} MoreFrames(wire: seq<Item>, i: nat, j: nat)
    requires i < j < |wire|
    ensures Frames(wire[..i + 1]) + (if wire[j].Frame? then 1 else 0) <= Frames(wire[..j + 1])
  {
    assert wire[..j + 1][..j] == wire[..j];
    if i + 1 < j { MoreFrames(wire, i, j - 1); }
  }

  /** On a stream that is still going, an item carries the number of frames so far, itself included: frames are numbered
      from one on, and a ping repeats the last frame's number. */
  lemma NumbersIncrease(steps: seq<Step>, a: Addr, i: nat, j: nat)
    requires Possible(steps) && a in After(steps).browsers
    requires var b := After(steps).browsers[a]; b.pc != Closing && b.pc != Gone && i < j < |b.stream.wire|
    ensures var wire := After(steps).browsers[a].stream.wire;
      && wire[i].seq_ == Frames(wire[..i + 1]) && wire[j].seq_ == Frames(wire[..j + 1])
      && wire[i].seq_ <= wire[j].seq_ && (wire[j].Frame? ==> wire[i].seq_ < wire[j].seq_)
  {
    var s := After(steps);
    var b := s.browsers[a];
    assert InStep(b);
    hide Fingerprint; hide LastFrame; hide After; hide Possible; hide Frames; hide Inv;
    NumberedFrames(b.stream.wire, b.stream.seq_, i);
    NumberedFrames(b.stream.wire, b.stream.seq_, j);
    MoreFrames(b.stream.wire, i, j);
  }

  const NO_VIEW := View([], 0)

  /** One browser of the tenant, showing a view. */
  function Showing(tenant: string, before: View): System {
    System(Subs(map[tenant := {1}], map[1 := false]), map[tenant := [NO_VIEW, before]], map[],
           map[1 := Browser(tenant, Idle, Stream(Some(Fingerprint(before)), 1, [Frame(1, before)]), 1, false)])
  }

  lemma ShowOne(tenant: string, before: View) returns (steps: seq<Step>)
    ensures Possible(steps) && After(steps) == Showing(tenant, before)
  {
    hide Fingerprint; hide Inv; hide Possible; hide After;
    NothingYet();
    var s;
    assert START.Log(tenant) + [before] == [NO_VIEW, before];
    steps, s := Do([], START, Change(tenant, before));
    assert s == System(Subs(map[], map[]), map[tenant := [NO_VIEW, before]], map[], map[]);
    assert s.subs.Of(tenant) + {1} == {1};
    steps, s := Do(steps, s, Join(1, tenant));
    assert s.subs == Subs(map[tenant := {1}], map[1 := false]);
    assert s.browsers == map[1 := Browser(tenant, Opening, FRESH, 0, false)];
    steps, s := Do(steps, s, Read(1));
    assert s.browsers == map[1 := Browser(tenant, Writing(true, 1), FRESH, 0, false)];
    assert FRESH.wire + [Frame(1, before)] == [Frame(1, before)];
    assert s.Log(tenant)[1] == before;
    steps, s := Do(steps, s, Write(1, true));
    assert s.browsers == Showing(tenant, before).browsers;
  }

  lemma NothingYet()
    ensures Possible([]) && After([]) == START
  {}

  /** Frame j, and i the frame before it: they render differently, so nothing is sent that shows nothing new. */
  lemma {:induction false} ConsecutiveFramesDiffer(wire: seq<Item>, i: nat, j: nat)
    requires Changing(wire) && i < j < |wire| && wire[i].Frame? && wire[j].Frame?
    requires forall m :: i < m < j ==> wire[m].Ping?
    ensures Fingerprint(wire[i].view) != Fingerprint(wire[j].view)
  {
    hide Fingerprint;
    var n := |wire| - 1;
    if j < n {
      ConsecutiveFramesDiffer(wire[..n], i, j);
    } else {
      LastFrameAt(wire[..n], i);
    }
  }

  lemma {:induction false} LastFrameAt(wire: seq<Item>, i: nat)
    requires i < |wire| && wire[i].Frame? && forall m :: i < m < |wire| ==> wire[m].Ping?
    ensures LastFrame(wire) == Some(wire[i].view)
  {
    if i < |wire| - 1 { LastFrameAt(wire[..|wire| - 1], i); }
  }

  /** In every run, a stream that is still going sends nothing that shows nothing new. */
  lemma FramesDiffer(steps: seq<Step>, a: Addr, i: nat, j: nat)
    requires Possible(steps) && a in After(steps).browsers
    requires var b := After(steps).browsers[a];
      b.pc != Closing && b.pc != Gone && i < j < |b.stream.wire| && b.stream.wire[i].Frame? && b.stream.wire[j].Frame?
      && forall m :: i < m < j ==> b.stream.wire[m].Ping?
    ensures var wire := After(steps).browsers[a].stream.wire;
      && Fingerprint(wire[i].view) != Fingerprint(wire[j].view)
      && (OwnNames(wire[i].view) ==> !SameView(wire[i].view, wire[j].view))
  {
    var s := After(steps);
    assert InStep(s.browsers[a]);
    hide Fingerprint; hide LastFrame; hide After; hide Possible; hide Inv; hide Changing; hide SameView; hide OwnNames;
    var wire := s.browsers[a].stream.wire;
    ConsecutiveFramesDiffer(wire, i, j);
    if OwnNames(wire[i].view) { FingerprintIs(wire[i].view, wire[j].view); }
  }

  // ---- reads that fail ----

  predicate Unsignalled(s: System, a: Addr) { a in s.subs.signalled && !s.subs.signalled[a] }

  /** The handler has shown nothing yet, or nothing as new as what was announced. */
  ghost predicate Behind(s: System, a: Addr)
    requires a in s.browsers
  {
    var b := s.browsers[a];
    b.stream.last.None? || b.seen < s.Told(b.tenant)
  }

  ghost predicate Stale(s: System, a: Addr) { At(s, a, Idle) && Unsignalled(s, a) && Behind(s, a) }

  ghost predicate MustRead(s: System, a: Addr) {
    (At(s, a, Opening) || At(s, a, Ready)) && Unsignalled(s, a) && Behind(s, a)
  }

  /** What ends the wait of an idle handler that has no signal. */
  predicate Rouses(step: Step, a: Addr, tenant: string) { step == Notify(tenant) || step == Cancel(a) }

  lemma StaleStays(s: System, step: Step, a: Addr)
    requires Attached(s) && Enabled(s, step) && Stale(s, a) && !Rouses(step, a, s.browsers[a].tenant)
    ensures var t := Next(s, step); Stale(t, a) && t.browsers[a].tenant == s.browsers[a].tenant
  {
    hide Fingerprint; hide Sent; hide Pinged; hide Skips;
    ToldIs(s, step, s.browsers[a].tenant);
    PingedIs(s.browsers[a].stream);
  }

  lemma FailedReadStale(s: System, a: Addr)
    requires Attached(s) && MustRead(s, a)
    ensures Enabled(s, ReadFails(a)) && Stale(Next(s, ReadFails(a)), a)
    ensures Next(s, ReadFails(a)).browsers[a].tenant == s.browsers[a].tenant
  {
    ToldIs(s, ReadFails(a), s.browsers[a].tenant);
  }

  /** How a handler comes to be stale. */
  lemma StaleBefore(s: System, step: Step, a: Addr)
    requires Inv(s) && Enabled(s, step) && Stale(Next(s, step), a)
    ensures (step == ReadFails(a) && MustRead(s, a)) || (Stale(s, a) && !Rouses(step, a, s.browsers[a].tenant))
  {
    hide Fingerprint; hide Sent; hide Pinged; hide Skips; hide InStep; hide Grounded;
    if a in s.browsers {
      assert Heard(s, a);
      PingedIs(s.browsers[a].stream);
      if step.Write? && step.a == a { WroteIs(s, step); }
      var tenant := s.browsers[a].tenant;
      ToldIs(s, step, tenant);
      assert s.browsers[a].pc != Gone ==> a in s.subs.Of(tenant);
    }
  }

  lemma WroteIs(s: System, step: Step)
    requires Inv(s) && Enabled(s, step) && step.Write?
    ensures Next(s, step).browsers[step.a].stream.last.Some?
  {
    var b := s.browsers[step.a];
    SentSkip(b.stream, s.Log(b.tenant)[b.pc.at], b.pc.force, step.ok);
    hide Fingerprint; hide Sent; hide Skips; hide Inv;
  }

  /** The ith step of a run is a failed read of a handler that had to read, and nothing roused it since. */
  ghost predicate FailedAt(steps: seq<Step>, i: nat, a: Addr) {
    && i < |steps| && steps[i] == ReadFails(a) && Possible(steps[..i]) && MustRead(After(steps[..i]), a)
    && forall j :: i < j < |steps| ==> !Rouses(steps[j], a, After(steps[..i]).browsers[a].tenant)
  }

  lemma {:induction false} FailedThenStale(steps: seq<Step>, i: nat, a: Addr)
    requires Possible(steps) && FailedAt(steps, i, a)
    ensures Stale(After(steps), a) && After(steps).browsers[a].tenant == After(steps[..i]).browsers[a].tenant
  {
    hide Next; hide Enabled; hide Stale; hide MustRead; hide Rouses; hide InStep; hide Grounded; hide Heard; hide Attached;
    var n := |steps| - 1;
    var s := After(steps[..n]);
    if i == n {
      FailedReadStale(s, a);
    } else {
      assert steps[..n][..i] == steps[..i];
      FailedThenStale(steps[..n], i, a);
      StaleStays(s, steps[n], a);
    }
  }

  lemma {:induction false} StaleHasFailed(steps: seq<Step>, a: Addr) returns (i: nat)
    requires Possible(steps) && Stale(After(steps), a)
    ensures FailedAt(steps, i, a)
  {
    hide Next; hide Enabled; hide MustRead; hide Rouses; hide Inv;
    assert steps != [];
    hide Stale;
    var n := |steps| - 1;
    var s := After(steps[..n]);
    StaleBefore(s, steps[n], a);
    if steps[n] == ReadFails(a) && MustRead(s, a) {
      i := n;
    } else {
      i := StaleHasFailed(steps[..n], a);
      assert steps[..n][..i] == steps[..i];
      FailedThenStale(steps[..n], i, a);
    }
  }

  /** An idle handler that is not stale shows the version it last saw, and that is no older than the one announced. */
  lemma UpToDate(steps: seq<Step>, a: Addr)
    requires Possible(steps) && At(After(steps), a, Idle) && Unsignalled(After(steps), a) && !Stale(After(steps), a)
    ensures var s := After(steps); var b := s.browsers[a];
      && Announced(steps, b.tenant) <= b.seen < |Versions(steps, b.tenant)| && LastFrame(b.stream.wire).Some?
      && SameView(LastFrame(b.stream.wire).value, Versions(steps, b.tenant)[b.seen])
  {
    LogIs(steps, After(steps).browsers[a].tenant);
    hide Versions; hide Announced; hide SameView; hide Fingerprint; hide Numbered; hide Attached; hide LastFrame; hide Changing; hide Possible;
    var s := After(steps);
    var b := s.browsers[a];
    assert InStep(b) && Grounded(s, b);
    FingerprintShows(LastFrame(b.stream.wire).value, s.Log(b.tenant)[b.seen]);
  }

  /** An idle handler with no signal is behind what was announced exactly when a read that it had to make has failed,
      and neither a notify of its tenant nor the end of its request has come since. */
  lemma StaleExact(steps: seq<Step>, a: Addr)
    requires Possible(steps)
    ensures Stale(After(steps), a) <==> exists i: nat :: FailedAt(steps, i, a)
  {
    hide Possible; hide After; hide Stale; hide FailedAt;
    if Stale(After(steps), a) {
      var i := StaleHasFailed(steps, a);
    }
    if i: nat :| FailedAt(steps, i, a) {
      FailedThenStale(steps, i, a);
    }
  }

  /** A read of the view that fails swallows its signal: here the handler is idle, and its frame is stale. */
  lemma FailedReadLosesUpdate(before: View, now: View, tenant: string) returns (steps: seq<Step>)
    requires Fingerprint(before) != Fingerprint(now)
    ensures Possible(steps)
    ensures var s := After(steps);
      && At(s, 1, Idle) && 1 in s.subs.signalled && !s.subs.signalled[1]
      && s.Told(tenant) == |s.Log(tenant)| - 1 && s.Log(tenant)[s.Told(tenant)] == now
      && s.browsers[1].tenant == tenant && s.browsers[1].stream.wire == [Frame(1, before)]
  {
    hide Fingerprint; hide Inv; hide Possible; hide After;
    steps := ShowOne(tenant, before);
    var s := Showing(tenant, before);
    assert s.Log(tenant) + [now] == [NO_VIEW, before, now];
    steps, s := Do(steps, s, Change(tenant, now));
    assert s.log == map[tenant := [NO_VIEW, before, now]];
    steps, s := Do(steps, s, Notify(tenant));
    assert s.told == map[tenant := 2];
    steps, s := Do(steps, s, Wake(1));
    steps, s := Do(steps, s, Drain(1));
    steps, s := Do(steps, s, ReadFails(1));
  }

  lemma Do(steps: seq<Step>, s: System, step: Step) returns (more: seq<Step>, t: System)
    requires Possible(steps) && After(steps) == s && Enabled(s, step)
    ensures Possible(more) && After(more) == t && t == Next(s, step)
  {
    more, t := steps + [step], Next(s, step);
    assert more[..|steps|] == steps;
  }
}
