/** Where calls go, and when they are taken: told from the steps of a run alone. */
module CommandPlaneCalls {
  import opened Basics
  import opened CommandPlane
  import opened CommandPlaneRuns
  import opened CommandPlaneTraces

  // ---- connections ----

  /** When a connection was last heard from: its login, or the last result that its agent posted. */
  ghost function LastHeard(steps: seq<Step>, a: Addr): int
    requires Possible(steps)
  {
    if steps == [] then 0
    else
      var rest, step := steps[..|steps| - 1], steps[|steps| - 1];
      match step
      case Login(b, _, _, _, now) => if b == a then now else LastHeard(rest, a)
      case Touch(post, now) =>
        if post in After(rest).posts && After(rest).posts[post].Seen? && After(rest).posts[post].conn == a then now
        else LastHeard(rest, a)
      case _ => LastHeard(rest, a)
  }

  /** The nth step is the login that a connection stems from. */
  ghost predicate LoggedInAt(steps: seq<Step>, n: nat, a: Addr, c: Conn) {
    && n < |steps| && steps[n].Login? && steps[n].a == a
    && c.tenant == steps[n].tenant && c.node == steps[n].node && c.token == steps[n].token
    && c.expires == steps[n].now + 24 * 60 * 60
  }

  /** What a step makes of a connection that was there before. */
  lemma ConnStep(s: System, step: Step, a: Addr)
    requires Anchored(s) && Enabled(s, step) && a in s.hub.conns
    ensures a in Next(s, step).hub.conns
    ensures step.Touch? ==> step.post in s.posts && s.posts[step.post].Seen?
    ensures SameConn(s.hub.conns[a], Next(s, step).hub.conns[a],
                     if step.Touch? && s.posts[step.post].conn == a then step.now else s.hub.conns[a].seen)
  {
    if IsCallStep(step) {
      ConnOverCall(s, step, a);
    } else if IsPostStep(step) {
      ConnOverPost(s, step, a);
    } else {
      ConnOverConn(s, step, a);
    }
    hide Next; hide Enabled; hide Anchored;
  }

  /** The fields of a connection that a step must not touch. */
  ghost predicate SameConn(c: Conn, d: Conn, seen: int) {
    d.tenant == c.tenant && d.node == c.node && d.token == c.token && d.expires == c.expires && d.seen == seen
  }

  lemma ConnOverCall(s: System, step: Step, a: Addr)
    requires Anchored(s) && Enabled(s, step) && a in s.hub.conns && IsCallStep(step)
    ensures a in Next(s, step).hub.conns && SameConn(s.hub.conns[a], Next(s, step).hub.conns[a], s.hub.conns[a].seen)
  {
    hide NodeKey; hide Issued; hide Live; hide Authed; hide Offering; hide Reachable;
  }

  lemma ConnOverPost(s: System, step: Step, a: Addr)
    requires Anchored(s) && Enabled(s, step) && a in s.hub.conns && IsPostStep(step)
    ensures a in Next(s, step).hub.conns
    ensures step.Touch? ==> step.post in s.posts && s.posts[step.post].Seen?
    ensures SameConn(s.hub.conns[a], Next(s, step).hub.conns[a],
                     if step.Touch? && s.posts[step.post].conn == a then step.now else s.hub.conns[a].seen)
  {
    hide NodeKey; hide Issued; hide Live; hide Authed; hide Offering; hide Reachable;
  }

  lemma ConnOverConn(s: System, step: Step, a: Addr)
    requires Anchored(s) && Enabled(s, step) && a in s.hub.conns && IsConnStep(step)
    ensures a in Next(s, step).hub.conns && SameConn(s.hub.conns[a], Next(s, step).hub.conns[a], s.hub.conns[a].seen)
  {
    hide NodeKey; hide Issued; hide Live; hide Authed; hide Offering; hide Reachable;
  }

  lemma ConnNew(s: System, step: Step, a: Addr)
    requires Anchored(s) && Enabled(s, step) && a !in s.hub.conns && a in Next(s, step).hub.conns
    ensures step.Login? && step.a == a
    ensures Next(s, step).hub.conns[a]
      == Conn(step.tenant, step.node, step.token, step.now + 24 * 60 * 60, step.now, [], false)
  {
    hide NodeKey; hide Issued; hide Live; hide Authed; hide Offering; hide Reachable;
  }

  /** A connection is what its login made it, and was seen when it was last heard from. */
  lemma {:induction false} ConnIs(steps: seq<Step>, a: Addr) returns (n: nat)
    requires Possible(steps) && a in After(steps).hub.conns
    ensures LoggedInAt(steps, n, a, After(steps).hub.conns[a])
    ensures After(steps).hub.conns[a].seen == LastHeard(steps, a)
  {
    hide Next; hide Enabled; hide Inv; hide Anchored;
    assert steps != [];
    var m := |steps| - 1;
    var s := After(steps[..m]);
    InvAnchored(s);
    if a in s.hub.conns {
      n := ConnIs(steps[..m], a);
      ConnStep(s, steps[m], a);
      LoginFresh(s, steps[m]);
    } else {
      ConnNew(s, steps[m], a);
      n := m;
    }
  }

  lemma LoginFresh(s: System, step: Step)
    requires Anchored(s) && Enabled(s, step)
    ensures step.Login? ==> step.a !in s.hub.conns
  {
    hide Anchored; hide Issued;
  }

  /** Tenants hold no NUL. */
  ghost predicate CleanTenants(steps: seq<Step>) {
    forall n :: 0 <= n < |steps| ==>
      (steps[n].Login? ==> '\0' !in steps[n].tenant) && (steps[n].Begin? ==> '\0' !in steps[n].tenant)
  }

  /** The connection that holds a node's slot. */
  ghost predicate HoldsSlot(s: System, a: Addr, tenant: string, node: string) {
    && a in s.hub.conns && s.hub.conns[a].tenant == tenant && s.hub.conns[a].node == node
    && NodeKey(tenant, node) in s.hub.byNode && s.hub.byNode[NodeKey(tenant, node)] == a
  }

  /** In every reachable state a call is taken exactly when some connection holds the slot of that tenant's node, and
      was heard from less than thirty seconds before. */
  lemma CallTaken(steps: seq<Step>, step: Step)
    requires Possible(steps) && step.Begin? && CleanTenants(steps + [step])
    requires Anchored(After(steps)) && Enabled(After(steps), step)
    ensures var s, t := After(steps), Next(After(steps), step);
      && (step.id in t.calls <==>
           exists a :: HoldsSlot(s, a, step.tenant, step.node) && step.now - LastHeard(steps, a) < 30)
      && (step.id in t.calls ==>
           var call := t.calls[step.id];
           && HoldsSlot(s, call.conn, step.tenant, step.node) && step.now - LastHeard(steps, call.conn) < 30
           && call.slot == step.slot && call.cmd == Command(step.id, step.op, step.payload))
  {
    var s, key := After(steps), NodeKey(step.tenant, step.node);
    var h := s.hub;
    assert Linked(h);
    BeginShape(s, step);
    if key in h.byNode {
      var c := h.byNode[key];
      var n := ConnIs(steps, c);
      assert (steps + [step])[n] == steps[n] && (steps + [step])[|steps|] == step;
      NodeKeyInjective(h.conns[c].tenant, h.conns[c].node, step.tenant, step.node);
      assert HoldsSlot(s, c, step.tenant, step.node);
    }
  }

  lemma BeginShape(s: System, step: Step)
    requires Anchored(s) && Enabled(s, step) && step.Begin?
    ensures var h, key, t := s.hub, NodeKey(step.tenant, step.node), Next(s, step);
      && (step.id in t.calls <==> key in h.byNode && step.now - h.conns[h.byNode[key]].seen < 30)
      && (step.id in t.calls ==>
           t.calls[step.id] == Call(h.byNode[key], step.slot, Command(step.id, step.op, step.payload), Sending))
  {
    hide NodeKey;
  }

  // ---- calls ----

  /** The nth step of a run began the call: the tenant and node asked for are those of its connection, which held
      their slot then, and the command is what was asked. */
  ghost predicate BegunAt(steps: seq<Step>, n: nat, i: string, call: Call) {
    && n < |steps| && Possible(steps[..n])
    && steps[n].Begin? && steps[n].id == i && call.cmd == Command(i, steps[n].op, steps[n].payload)
    && HoldsSlot(After(steps[..n]), call.conn, steps[n].tenant, steps[n].node)
    && steps[n].now - LastHeard(steps[..n], call.conn) < 30
  }

  lemma CallNew(s: System, step: Step, i: string)
    requires Anchored(s) && Enabled(s, step) && i !in s.calls && i in Next(s, step).calls
    ensures step.Begin? && step.id == i
  {
    hide NodeKey; hide Issued; hide Live; hide Authed; hide Offering; hide Reachable;
  }

  /** Every call was begun so. */
  lemma {:induction false} CallBegun(steps: seq<Step>, i: string) returns (n: nat)
    requires Possible(steps) && CleanTenants(steps) && i in After(steps).calls
    ensures BegunAt(steps, n, i, After(steps).calls[i])
  {
    hide Next; hide Enabled; hide Inv; hide Anchored; hide HoldsSlot;
    assert steps != [];
    var m := |steps| - 1;
    var s := After(steps[..m]);
    InvAnchored(s);
    if i in s.calls {
      n := CallBegun(steps[..m], i);
      assert steps[..m][..n] == steps[..n];
      CallStep(s, steps[m], i);
    } else {
      CallNew(s, steps[m], i);
      assert steps[..m] + [steps[m]] == steps;
      CallTaken(steps[..m], steps[m]);
      n := m;
    }
  }

  /** Every command that a connection was given was asked of its own tenant's node, while it held that node's slot. */
  lemma CommandsAsked(steps: seq<Step>, a: Addr, k: nat) returns (n: nat)
    requires Possible(steps) && CleanTenants(steps) && a in After(steps).hub.conns
    requires Anchored(After(steps)) && k < |Flow(After(steps), a)|
    ensures n < |steps| && Possible(steps[..n]) && steps[n].Begin?
    ensures var c := After(steps).hub.conns[a];
      && Flow(After(steps), a)[k] == Command(steps[n].id, steps[n].op, steps[n].payload)
      && steps[n].tenant == c.tenant && steps[n].node == c.node
      && HoldsSlot(After(steps[..n]), a, c.tenant, c.node)
  {
    EveryState(steps);
    var s := After(steps);
    var f := Flow(s, a)[k];
    assert RoutedOn(s, a);
    n := CallBegun(steps, f.id);
    var l := ConnIs(steps, a);
    var before := steps[..n];
    var m := ConnIs(before, a);
    assert before[m] == steps[m];
    OneLogin(steps, l, m, a);
  }

  /** An address logs in once. */
  lemma OneLogin(steps: seq<Step>, l: nat, m: nat, a: Addr)
    requires Possible(steps) && l < |steps| && m < |steps| && steps[l].Login? && steps[m].Login? && steps[l].a == a == steps[m].a
    ensures l == m
  {
    if l < m { LoginStays(steps, l, m, a); } else if m < l { LoginStays(steps, m, l, a); }
  }

  lemma {:induction false} PossiblePrefix(steps: seq<Step>, n: nat)
    requires Possible(steps) && n <= |steps|
    ensures Possible(steps[..n])
    ensures n < |steps| ==> Anchored(After(steps[..n])) && Enabled(After(steps[..n]), steps[n])
  {
    hide Next; hide Enabled; hide Inv; hide Anchored;
    var m := |steps| - 1;
    if n < m {
      PossiblePrefix(steps[..m], n);
      assert steps[..m][..n] == steps[..n];
    } else if n == m {
      InvAnchored(After(steps[..m]));
    } else {
      assert steps[..n] == steps;
    }
  }

  lemma LoginStays(steps: seq<Step>, l: nat, m: nat, a: Addr)
    requires Possible(steps) && l < m < |steps| && steps[l].Login? && steps[l].a == a
    ensures steps[m].Login? ==> steps[m].a != a
  {
    hide Next; hide Enabled; hide Inv; hide Anchored; hide Possible; hide After;
    PossiblePrefix(steps, m);
    LoginThere(steps[..m], l, a);
    LoginFresh(After(steps[..m]), steps[m]);
  }

  lemma {:induction false} LoginThere(steps: seq<Step>, l: nat, a: Addr)
    requires Possible(steps) && l < |steps| && steps[l].Login? && steps[l].a == a
    ensures a in After(steps).hub.conns
  {
    hide Next; hide Enabled; hide Inv; hide Anchored;
    var m := |steps| - 1;
    var s := After(steps[..m]);
    InvAnchored(s);
    if l < m {
      LoginThere(steps[..m], l, a);
      ConnStep(s, steps[m], a);
    } else {
      LoginAdds(s, steps[m]);
    }
  }

  lemma LoginAdds(s: System, step: Step)
    requires Anchored(s) && Enabled(s, step) && step.Login?
    ensures step.a in Next(s, step).hub.conns
  {
    hide NodeKey; hide Issued;
  }

  // ---- tokens ----

  /** In every reachable state a token resolves to a connection exactly when a login for that connection handed it out
      no more than a day before, and the connection still holds its node's slot. */
  lemma TokenWorks(steps: seq<Step>, token: string, now: int, a: Addr)
    requires Possible(steps) && token != ""
    ensures Authed(After(steps).hub, token, now) == Some(a) <==>
      exists n :: 0 <= n < |steps| && steps[n].Login? && steps[n].a == a && steps[n].token == token
        && now <= steps[n].now + 24 * 60 * 60 && HoldsSlot(After(steps), a, steps[n].tenant, steps[n].node)
  {
    var h := After(steps).hub;
    TokenSpeaks(steps, token, now, a);
    if a in h.conns {
      var m := ConnIs(steps, a);
      forall n | 0 <= n < |steps| && steps[n].Login? && steps[n].a == a ensures n == m { OneLogin(steps, n, m, a); }
    }
    hide Possible; hide After; hide Authed;
  }

  // ---- results ----

  /** Room for a command, and a result that arrives for a call that waits: the steps do what they are for. */
  lemma CommandOffered(s: System, id: string, closedFirst: bool)
    requires Inv(s) && Enabled(s, OfferOne(id, closedFirst))
    ensures Anchored(Next(s, OfferOne(id, closedFirst))) && s.calls[id].conn in s.hub.conns
    ensures var t := Next(s, OfferOne(id, closedFirst)); var call := s.calls[id]; var c := s.hub.conns[call.conn];
      var queued := |c.out| < 64 && !(c.closed && closedFirst);
      && Flow(t, call.conn) == (if queued then Flow(s, call.conn) + [call.cmd] else Flow(s, call.conn))
      && id in t.calls
      && t.calls[id].stage == if queued then Waiting else if c.closed then Ended(Offline) else Ended(NoRoom)
  {
    InvStep(s, OfferOne(id, closedFirst));
    InvAnchored(s);
    InvAnchored(Next(s, OfferOne(id, closedFirst)));
    FlowStep(s, OfferOne(id, closedFirst), s.calls[id].conn);
    hide Inv; hide Anchored; hide NodeKey; hide Flow;
  }

  /** How a call can end: with a result, with a timeout, offline only when its connection is closed, busy only when that
      is open and 64 commands are queued. */
  lemma CallEnds(s: System, step: Step, id: string)
    requires Anchored(s) && Enabled(s, step) && id in s.calls && (s.calls[id].stage.Sending? || s.calls[id].stage.Waiting?)
    ensures id in Next(s, step).calls
    ensures var c, end := s.hub.conns[s.calls[id].conn], Next(s, step).calls[id].stage;
      var full := step.OfferOne? && step.id == id && |c.out| >= 64;
      && (end == Ended(TimedOut) <==> step == TimeOut(id))
      && (end == Ended(NoRoom) <==> full && !c.closed)
      && (end == Ended(Offline) <==>
           c.closed && (full || step == SeeClosed(id) || step == OfferOne(id, true)))
      && (end.Ended? && end.end.Replied? <==> step == Answer(id))
      && !end.Returned?
  {
    if !IsCallStep(step) {
      CallsUntouched(s, step);
    } else if step.id == id {
      OwnEnds(s, step);
    } else {
      OverOther(s, step, id);
    }
    hide Next; hide Enabled; hide Anchored;
  }

  lemma CallsUntouched(s: System, step: Step)
    requires Anchored(s) && Enabled(s, step) && !IsCallStep(step)
    ensures Next(s, step).calls == s.calls
  {
    hide NodeKey; hide Issued; hide Live; hide Authed; hide Offering; hide Reachable;
  }

  lemma OwnEnds(s: System, step: Step)
    requires Anchored(s) && Enabled(s, step) && IsCallStep(step) && step.id in s.calls
    requires s.calls[step.id].stage.Sending? || s.calls[step.id].stage.Waiting?
    ensures step.id in Next(s, step).calls
    ensures var c, end := s.hub.conns[s.calls[step.id].conn], Next(s, step).calls[step.id].stage;
      var full := step.OfferOne? && |c.out| >= 64;
      && (end == Ended(TimedOut) <==> step == TimeOut(step.id))
      && (end == Ended(NoRoom) <==> full && !c.closed)
      && (end == Ended(Offline) <==>
           c.closed && (full || step == SeeClosed(step.id) || step == OfferOne(step.id, true)))
      && (end.Ended? && end.end.Replied? <==> step == Answer(step.id))
      && !end.Returned?
  {
    hide NodeKey; hide Issued; hide Live; hide Authed; hide Reachable;
  }

  lemma Extend(steps: seq<Step>, step: Step) returns (more: seq<Step>)
    requires Possible(steps) && Anchored(After(steps)) && Enabled(After(steps), step)
    ensures more == steps + [step] && Possible(more) && After(more) == Next(After(steps), step)
  {
    hide Next; hide Enabled; hide Inv; hide Anchored;
    more := steps + [step];
    assert more[..|steps|] == steps;
  }

  /** A posted result whose call waits with an empty channel is found, delivered, and returned by the call. */
  lemma ResultArrives(steps: seq<Step>, post: nat, id: string)
    requires Possible(steps)
    requires var s := After(steps);
      && post in s.posts && s.posts[post].Noted? && s.posts[post].res.id == id
      && id in s.calls && s.calls[id].stage == Waiting
      && s.calls[id].slot in s.hub.replies && s.hub.replies[s.calls[id].slot].None?
    ensures var more := steps + [Find(post), Deliver(post), Answer(id)];
      && Possible(more) && id in After(more).calls
      && After(more).calls[id].stage == Ended(Replied(After(steps).posts[post].res))
  {
    hide Possible; hide After; hide Inv; hide Next; hide Enabled; hide Anchored;
    var s := After(steps);
    InvAnchored(s);
    FindShape(s, post, id);
    var one := Extend(steps, Find(post));
    DeliverShape(After(one), post, id);
    var two := Extend(one, Deliver(post));
    var three := Extend(two, Answer(id));
    assert three == steps + [Find(post), Deliver(post), Answer(id)];
  }

  lemma FindShape(s: System, post: nat, id: string)
    requires Inv(s) && post in s.posts && s.posts[post].Noted? && s.posts[post].res.id == id
    requires id in s.calls && s.calls[id].stage == Waiting
    ensures Enabled(s, Find(post))
    ensures var t := Next(s, Find(post));
      t.hub == s.hub && t.calls == s.calls && Anchored(t) && post in t.posts && t.posts[post] == Found(s.calls[id].slot, s.posts[post].res)
      && Enabled(t, Deliver(post))
  {
    hide Linked; hide OwnTokens; hide Bounded; hide Addressed; hide Routed;
    AnchoredPost(s, Find(post));
  }

  lemma DeliverShape(t: System, post: nat, id: string)
    requires Anchored(t) && post in t.posts && id in t.calls && t.calls[id].stage == Waiting
    requires t.posts[post].Found? && t.posts[post].slot == t.calls[id].slot && t.hub.replies[t.calls[id].slot].None?
    ensures Enabled(t, Deliver(post))
    ensures var u := Next(t, Deliver(post));
      && Anchored(u) && Enabled(u, Answer(id)) && id in Next(u, Answer(id)).calls
      && Next(u, Answer(id)).calls[id].stage == Ended(Replied(t.posts[post].res))
  {
    AnchoredPost(t, Deliver(post));
    hide NodeKey;
  }

  /** The first result that was delivered to a reply channel. */
  ghost function FirstTo(steps: seq<Step>, r: Addr): Option<Reply>
    requires Possible(steps)
  {
    if steps == [] then None
    else
      var rest := steps[..|steps| - 1];
      var first := FirstTo(rest, r);
      if first.Some? then first else DeliveredBy(After(rest), steps[|steps| - 1], r)
  }

  /** What a step delivers to a reply channel. */
  function DeliveredBy(s: System, step: Step, r: Addr): Option<Reply> {
    if step.Deliver? && step.post in s.posts && s.posts[step.post].Found? && s.posts[step.post].slot == r then
      Some(s.posts[step.post].res)
    else None
  }

  /** While a call is not over its channel holds the first result delivered there; a call that returns a result
      returned that. */
  predicate HoldsFirst(s: System, id: string, first: Option<Reply>)
    requires id in s.calls
  {
    var c := s.calls[id];
    match c.stage
    case Ended(Replied(x)) => first == Some(x)
    case Returned(Replied(x)) => first == Some(x)
    case Ended(_) => true
    case Returned(_) => true
    case _ => c.slot in s.hub.replies && s.hub.replies[c.slot] == first
  }

  lemma FirstOverPost(s: System, step: Step, id: string, first: Option<Reply>)
    requires Anchored(s) && Enabled(s, step) && id in s.calls && HoldsFirst(s, id, first) && IsPostStep(step)
    ensures id in Next(s, step).calls
    ensures HoldsFirst(Next(s, step), id, if first.Some? then first else DeliveredBy(s, step, s.calls[id].slot))
  {
    hide NodeKey; hide Issued; hide Live; hide Authed; hide Offering; hide Reachable;
  }

  lemma FirstOverConn(s: System, step: Step, id: string, first: Option<Reply>)
    requires Anchored(s) && Enabled(s, step) && id in s.calls && HoldsFirst(s, id, first) && IsConnStep(step)
    ensures id in Next(s, step).calls && HoldsFirst(Next(s, step), id, first)
  {
    hide NodeKey; hide Issued; hide Live; hide Authed; hide Offering; hide Reachable;
  }

  lemma FirstOverCall(s: System, step: Step, id: string, first: Option<Reply>)
    requires Anchored(s) && InFlight(s) && Enabled(s, step) && id in s.calls && HoldsFirst(s, id, first) && IsCallStep(step)
    ensures id in Next(s, step).calls && HoldsFirst(Next(s, step), id, first)
  {
    if step.id == id {
      FirstOverOwn(s, step, first);
    } else {
      var r := s.calls[id].slot;
      assert r in s.hub.replies;
      OverOther(s, step, id);
      OverOtherSlot(s, step, r);
      hide Next; hide Enabled; hide Anchored; hide InFlight;
      SameHolds(s, Next(s, step), id, first);
    }
  }

  lemma SameHolds(s: System, t: System, id: string, first: Option<Reply>)
    requires id in s.calls && id in t.calls && s.calls[id] == t.calls[id] && HoldsFirst(s, id, first)
    requires var r := s.calls[id].slot; r in s.hub.replies && r in t.hub.replies && t.hub.replies[r] == s.hub.replies[r]
    ensures HoldsFirst(t, id, first)
  {}

  lemma FirstOverOwn(s: System, step: Step, first: Option<Reply>)
    requires Anchored(s) && Enabled(s, step) && IsCallStep(step) && step.id in s.calls && HoldsFirst(s, step.id, first)
    ensures step.id in Next(s, step).calls && HoldsFirst(Next(s, step), step.id, first)
  {
    hide NodeKey; hide Issued; hide Live; hide Authed; hide Offering; hide Reachable;
  }

  lemma OverOther(s: System, step: Step, id: string)
    requires Anchored(s) && Enabled(s, step) && id in s.calls && IsCallStep(step) && step.id != id
    ensures id in Next(s, step).calls && Next(s, step).calls[id] == s.calls[id]
  {
    hide NodeKey; hide Issued; hide Live; hide Authed; hide Offering; hide Reachable;
  }

  lemma OverOtherSlot(s: System, step: Step, r: Addr)
    requires Anchored(s) && Enabled(s, step) && r in s.hub.replies && IsCallStep(step)
    requires step.id in s.calls ==> s.calls[step.id].slot != r
    ensures r in Next(s, step).hub.replies && Next(s, step).hub.replies[r] == s.hub.replies[r]
  {
    hide NodeKey; hide Issued; hide Live; hide Authed; hide Offering; hide Reachable;
  }

  lemma {:induction false} DeliveredThere(steps: seq<Step>, r: Addr)
    requires Possible(steps) && FirstTo(steps, r).Some?
    ensures r in After(steps).hub.replies
  {
    hide Next; hide Enabled; hide Inv; hide Anchored;
    var n := |steps| - 1;
    var s := After(steps[..n]);
    InvAnchored(s);
    if FirstTo(steps[..n], r).Some? { DeliveredThere(steps[..n], r); }
    RepliesStay(s, steps[n], r);
  }

  lemma RepliesStay(s: System, step: Step, r: Addr)
    requires Anchored(s) && Enabled(s, step)
    ensures r in s.hub.replies || DeliveredBy(s, step, r).Some? ==> r in Next(s, step).hub.replies
  {
    hide NodeKey; hide Issued; hide Live; hide Authed; hide Offering; hide Reachable;
  }

  lemma BeginEmpty(s: System, step: Step, id: string)
    requires Anchored(s) && Enabled(s, step) && id !in s.calls && id in Next(s, step).calls
    ensures step.Begin? && step.id == id && step.slot !in s.hub.replies && Next(s, step).calls[id].slot == step.slot
    ensures HoldsFirst(Next(s, step), id, None)
  {
    hide NodeKey; hide Issued; hide Live; hide Authed; hide Offering; hide Reachable;
  }

  /** A call returns the first result that was delivered for it: later ones never take its place. */
  lemma {:induction false} FirstResult(steps: seq<Step>, id: string)
    requires Possible(steps) && id in After(steps).calls
    ensures HoldsFirst(After(steps), id, FirstTo(steps, After(steps).calls[id].slot))
  {
    hide Next; hide Enabled; hide Inv; hide Anchored; hide HoldsFirst; hide DeliveredBy;
    assert steps != [];
    var n := |steps| - 1;
    var s, step := After(steps[..n]), steps[n];
    InvAnchored(s);
    if id in s.calls {
      FirstResult(steps[..n], id);
      CallStep(s, step, id);
      FirstStep(s, step, id, FirstTo(steps[..n], s.calls[id].slot));
    } else {
      BeginEmpty(s, step, id);
      if FirstTo(steps[..n], step.slot).Some? { DeliveredThere(steps[..n], step.slot); }
      NothingDelivered(s, step, step.slot);
    }
  }

  lemma NothingDelivered(s: System, step: Step, r: Addr)
    requires !step.Deliver?
    ensures DeliveredBy(s, step, r).None?
  {}

  lemma FirstStep(s: System, step: Step, id: string, first: Option<Reply>)
    requires Inv(s) && Anchored(s) && Enabled(s, step) && id in s.calls && HoldsFirst(s, id, first)
    ensures id in Next(s, step).calls
    ensures HoldsFirst(Next(s, step), id, if first.Some? then first else DeliveredBy(s, step, s.calls[id].slot))
  {
    hide Next; hide Enabled; hide Anchored; hide HoldsFirst; hide InFlight; hide DeliveredBy;
    if IsCallStep(step) {
      FirstOverCall(s, step, id, first);
      NothingDelivered(s, step, s.calls[id].slot);
    } else if IsPostStep(step) {
      FirstOverPost(s, step, id, first);
    } else {
      FirstOverConn(s, step, id, first);
      NothingDelivered(s, step, s.calls[id].slot);
    }
  }
}
