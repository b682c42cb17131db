/** What holds of whole runs of the agent plane. */
module CommandPlaneTraces {
  import opened Basics
  import opened CommandPlane
  import opened CommandPlaneRuns

  /** A run is a list of steps, each possible after those before it. */
  ghost predicate Possible(steps: seq<Step>)
    decreases |steps|, 0
  {
    steps == []
    || (Possible(steps[..|steps| - 1]) && Enabled(After(steps[..|steps| - 1]), steps[|steps| - 1]))
  }

  ghost function After(steps: seq<Step>): (s: System)
    requires Possible(steps)
    ensures Inv(s)
    decreases |steps|, 1
  {
    if steps == [] then
      StartInv();
      START
    else
      var s := After(steps[..|steps| - 1]);
      InvStep(s, steps[|steps| - 1]);
      Next(s, steps[|steps| - 1])
  }

  // ---- registration ----

  /** In every reachable state: the two maps are inverse, no queue holds more than 64 commands, pending holds exactly
      the calls in flight, and no connection is given a command twice, or one that was meant for another. */
  lemma EveryState(steps: seq<Step>)
    requires Possible(steps)
    ensures var s := After(steps); var h := s.hub;
      && Linked(h)
      && (forall a :: a in h.conns ==> |h.conns[a].out| <= SEND_QUEUE)
      && (forall i :: i in h.pending <==> i in s.calls && !s.calls[i].stage.Returned?)
      && (forall a :: a in h.conns ==> RoutedOn(s, a))
  {
    assert Inv(After(steps));
  }

  /** In every reachable state a token resolves to a connection exactly when it is that connection's own, has not
      expired, and the connection is the one that holds its node's slot. */
  lemma TokenSpeaks(steps: seq<Step>, token: string, now: int, a: Addr)
    requires Possible(steps) && token != ""
    ensures var h := After(steps).hub;
      Authed(h, token, now) == Some(a) <==>
        && a in h.conns && h.conns[a].token == token && now <= h.conns[a].expires
        && var k := NodeKey(h.conns[a].tenant, h.conns[a].node); k in h.byNode && h.byNode[k] == a
  {
    assert Inv(After(steps));
    hide NodeKey; hide OwnTokens; hide InFlight; hide Addressed; hide Routed; hide Bounded; hide After; hide Possible;
  }

  /** In every reachable state, where a result for an id goes is the channel of the call with that id, which is in
      flight and shares its channel with no other call. */
  lemma WaitsAlone(steps: seq<Step>, id: string)
    requires Possible(steps)
    ensures var s := After(steps); var h := s.hub;
      && (id in h.pending <==> id in s.calls && !s.calls[id].stage.Returned?)
      && (id in h.pending ==>
         && h.pending[id] == s.calls[id].slot && s.calls[id].cmd.id == id
         && forall j :: j in s.calls && j != id ==> s.calls[j].slot != h.pending[id])
  {
    assert Inv(After(steps));
    hide Linked; hide OwnTokens; hide Addressed; hide Routed; hide Bounded; hide After; hide Possible;
  }

  /** The end of a superseded stream changes nothing: not its successor's slot, nor any token. */
  lemma LateDisconnect(p: Plane, a: Addr)
    requires Linked(p) && a in p.conns
    requires var c := p.conns[a]; var k := NodeKey(c.tenant, c.node); k !in p.byNode || p.byNode[k] != a
    requires OwnTokens(p)
    ensures Dropped(p, a) == p
  {
    hide NodeKey;
    var c := p.conns[a];
    assert c.token !in p.byToken;
    assert p.byToken - {c.token} == p.byToken;
  }

  /** A node loses its connection only to a login for the same node, or when that very connection is dropped. */
  lemma SlotKept(s: System, step: Step, k: string)
    requires Inv(s) && Enabled(s, step) && k in s.hub.byNode
    ensures var now := Next(s, step).hub.byNode;
      (k in now && now[k] == s.hub.byNode[k])
      || step == Drop(s.hub.byNode[k])
      || (step.Login? && NodeKey(step.tenant, step.node) == k && k in now && now[k] == step.a)
  {
    hide NodeKey; hide Linked; hide OwnTokens; hide InFlight; hide Addressed; hide Routed; hide Reachable;
    hide Authed; hide Offering;
    if !step.Login? && !step.Drop? {
      OwnersKept(s, step);
    }
  }

  /** Issued, and resolving to nothing. */
  ghost predicate Dead(p: Plane, token: string) { Issued(p, token) && token !in p.byToken }

  lemma DeadStep(s: System, step: Step, token: string)
    requires Inv(s) && Enabled(s, step) && Dead(s.hub, token)
    ensures Dead(Next(s, step).hub, token)
  {
    hide NodeKey; hide Linked; hide OwnTokens; hide InFlight; hide Addressed; hide Routed; hide Reachable;
    hide Authed; hide Offering;
    var q := Next(s, step).hub;
    var a :| a in s.hub.conns && s.hub.conns[a].token == token;
    if !step.Login? && !step.Drop? {
      OwnersKept(s, step);
    }
    assert a in q.conns && q.conns[a].token == token;
  }

  /** A token that stopped working never works again, however the run goes on. */
  lemma {:induction false} DeadForever(steps: seq<Step>, more: seq<Step>, token: string, now: int)
    requires Possible(steps + more) && Possible(steps) && Dead(After(steps).hub, token)
    ensures Dead(After(steps + more).hub, token) && Authed(After(steps + more).hub, token, now).None?
    decreases |more|
  {
    hide Inv; hide Next; hide Enabled;
    if more == [] {
      assert steps + more == steps;
    } else {
      var n := |more| - 1;
      assert (steps + more)[..|steps| + n] == steps + more[..n];
      DeadForever(steps, more[..n], token, now);
      DeadStep(After(steps + more[..n]), more[n], token);
    }
  }

  /** A connection dropped or superseded is such a case: its token is dead from then on. */
  lemma GoneIsDead(s: System, a: Addr)
    requires Inv(s) && a in s.hub.conns
    ensures Dead(Dropped(s.hub, a), s.hub.conns[a].token)
  {
    assert Dropped(s.hub, a).conns[a].token == s.hub.conns[a].token;
  }

  /** A login for the same node ends the token of the connection it supersedes. */
  lemma SupersededIsDead(p: Plane, a: Addr, tenant: string, node: string, token: string, now: int)
    requires Linked(p) && a !in p.conns && !Issued(p, token) && NodeKey(tenant, node) in p.byNode
    ensures var was, q := p.byNode[NodeKey(tenant, node)], LoggedIn(p, a, tenant, node, token, now);
      Dead(q, p.conns[was].token) && q.conns[was].closed && q.byNode[NodeKey(tenant, node)] == a
  {
    hide NodeKey;
    var was, q := p.byNode[NodeKey(tenant, node)], LoggedIn(p, a, tenant, node, token, now);
    assert was in q.conns && q.conns[was].token == p.conns[was].token;
    assert p.conns[was].token != token;
  }

  // ---- calls and results ----

  /** At the nth step of a run, the result was found to answer that call, which was pending then. */
  ghost predicate FoundAt(steps: seq<Step>, n: nat, id: string, res: Reply) {
    && n < |steps| && Possible(steps[..n]) && steps[n].Find?
    && (var s := After(steps[..n]); var p := steps[n].post;
        p in s.posts && s.posts[p].Noted? && s.posts[p].res == res && res.id == id && id in s.hub.pending)
  }

  ghost predicate PostedFor(steps: seq<Step>, id: string, res: Reply) { exists n: nat :: FoundAt(steps, n, id, res) }

  lemma PostedLonger(steps: seq<Step>, m: nat, id: string, res: Reply)
    requires m <= |steps| && PostedFor(steps[..m], id, res)
    ensures PostedFor(steps, id, res)
  {
    hide Possible; hide After; hide Inv; hide Next; hide Enabled; hide Anchored;
    var n: nat :| FoundAt(steps[..m], n, id, res);
    assert steps[..m][..n] == steps[..n];
    assert FoundAt(steps, n, id, res);
  }

  function OutcomeOf(c: Call): Option<Outcome> {
    match c.stage
    case Ended(o) => Some(o)
    case Returned(o) => Some(o)
    case _ => None
  }

  ghost predicate TracedPosts(steps: seq<Step>, s: System) {
    forall p :: p in s.posts && s.posts[p].Found? ==> PostedFor(steps, s.posts[p].res.id, s.posts[p].res)
  }

  ghost predicate TracedSlots(steps: seq<Step>, s: System) {
    forall i :: i in s.calls && s.calls[i].slot in s.hub.replies && s.hub.replies[s.calls[i].slot].Some? ==>
      PostedFor(steps, i, s.hub.replies[s.calls[i].slot].value)
  }

  ghost predicate TracedOutcomes(steps: seq<Step>, s: System) {
    forall i :: i in s.calls && OutcomeOf(s.calls[i]).Some? && OutcomeOf(s.calls[i]).value.Replied? ==>
      PostedFor(steps, i, OutcomeOf(s.calls[i]).value.r)
  }

  /** Results under way, in slots, and returned: each was posted for the call it answers while that was pending. */
  ghost predicate Traced(steps: seq<Step>, s: System) {
    TracedPosts(steps, s) && TracedSlots(steps, s) && TracedOutcomes(steps, s)
  }

  /** The result that the step finds a pending call for, if it does. */
  ghost predicate Finds(s: System, step: Step) {
    step.Find? && step.post in s.posts && s.posts[step.post].Noted? && s.posts[step.post].res.id in s.hub.pending
  }

  lemma TracedPostsStep(s: System, step: Step, was: seq<Step>, now: seq<Step>)
    requires Anchored(s) && Enabled(s, step) && TracedPosts(was, s)
    requires forall id, res :: PostedFor(was, id, res) ==> PostedFor(now, id, res)
    requires Finds(s, step) ==> PostedFor(now, s.posts[step.post].res.id, s.posts[step.post].res)
    ensures TracedPosts(now, Next(s, step))
  {
    hide PostedFor; hide NodeKey; hide Linked; hide OwnTokens; hide Routed; hide Reachable; hide Authed;
    hide Offering; hide Issued; hide Bounded;
  }

  /** Where what is in a slot came from. */
  lemma SlotFrom(s: System, step: Step, i: string)
    requires Anchored(s) && Enabled(s, step) && i in Next(s, step).calls
    requires var t := Next(s, step); t.calls[i].slot in t.hub.replies && t.hub.replies[t.calls[i].slot].Some?
    ensures i in s.calls && Next(s, step).calls[i].slot == s.calls[i].slot && s.calls[i].slot in s.hub.replies
    ensures var slot := s.calls[i].slot; var now := Next(s, step).hub.replies[slot];
      now == s.hub.replies[slot]
      || (step.Deliver? && step.post in s.posts && s.posts[step.post].Found? && s.posts[step.post].slot == slot
          && now.value == s.posts[step.post].res)
  {
    hide NodeKey; hide Reachable; hide Authed; hide Offering; hide Issued;
  }

  lemma TracedSlotsStep(s: System, step: Step, was: seq<Step>, now: seq<Step>)
    requires Anchored(s) && InFlight(s) && Addressed(s) && Enabled(s, step) && TracedPosts(was, s) && TracedSlots(was, s)
    requires forall id, res :: PostedFor(was, id, res) ==> PostedFor(now, id, res)
    ensures TracedSlots(now, Next(s, step))
  {
    hide PostedFor; hide Next; hide Enabled; hide Anchored; hide InFlight;
    var t := Next(s, step);
    forall i | i in t.calls && t.calls[i].slot in t.hub.replies && t.hub.replies[t.calls[i].slot].Some?
      ensures PostedFor(now, i, t.hub.replies[t.calls[i].slot].value)
    {
      SlotFrom(s, step, i);
    }
  }

  lemma TracedOutcomesStep(s: System, step: Step, was: seq<Step>, now: seq<Step>)
    requires Anchored(s) && Enabled(s, step) && TracedSlots(was, s) && TracedOutcomes(was, s)
    requires forall id, res :: PostedFor(was, id, res) ==> PostedFor(now, id, res)
    ensures TracedOutcomes(now, Next(s, step))
  {
    hide PostedFor; hide NodeKey; hide Linked; hide OwnTokens; hide Routed; hide Reachable; hide Authed;
    hide Offering; hide Issued; hide Bounded;
  }

  /** Only Find puts a new result under way. */
  lemma TracedStep(s: System, step: Step, was: seq<Step>, now: seq<Step>)
    requires Inv(s) && Enabled(s, step) && Traced(was, s)
    requires forall id, res :: PostedFor(was, id, res) ==> PostedFor(now, id, res)
    requires Finds(s, step) ==> PostedFor(now, s.posts[step.post].res.id, s.posts[step.post].res)
    ensures Traced(now, Next(s, step))
  {
    hide PostedFor; hide Next; hide Enabled; hide Anchored; hide InFlight; hide Addressed; hide TracedPosts;
    hide TracedSlots; hide TracedOutcomes;
    TracedPostsStep(s, step, was, now);
    TracedSlotsStep(s, step, was, now);
    TracedOutcomesStep(s, step, was, now);
  }

  lemma {:induction false} AllTraced(steps: seq<Step>)
    requires Possible(steps)
    ensures Traced(steps, After(steps))
  {
    hide Inv; hide Next; hide Traced; hide Enabled; hide PostedFor; hide Finds;
    if steps == [] {
      NothingTraced(steps);
    } else {
      var n := |steps| - 1;
      var was, step := steps[..n], steps[n];
      var s := After(was);
      AllTraced(was);
      forall id, res | PostedFor(was, id, res) ensures PostedFor(steps, id, res) { PostedLonger(steps, n, id, res); }
      FindTraced(steps);
      TracedStep(s, step, was, steps);
    }
  }

  lemma NothingTraced(steps: seq<Step>)
    ensures Traced(steps, START)
  {}

  lemma FindTraced(steps: seq<Step>)
    requires Possible(steps) && steps != []
    ensures var s, step := After(steps[..|steps| - 1]), steps[|steps| - 1];
      Finds(s, step) ==> PostedFor(steps, s.posts[step.post].res.id, s.posts[step.post].res)
  {
    hide Inv; hide Next; hide Enabled;
    var n := |steps| - 1;
    var s, step := After(steps[..n]), steps[n];
    if Finds(s, step) {
      assert FoundAt(steps, n, s.posts[step.post].res.id, s.posts[step.post].res);
    }
  }

  /** A call that returns a reply returns a result that was posted for its own id while it was pending. */
  lemma RepliesArePosted(steps: seq<Step>, id: string)
    requires Possible(steps) && id in After(steps).calls
    requires OutcomeOf(After(steps).calls[id]).Some? && OutcomeOf(After(steps).calls[id]).value.Replied?
    ensures var r := OutcomeOf(After(steps).calls[id]).value.r; r.id == id && PostedFor(steps, id, r)
  {
    AllTraced(steps);
    hide PostedFor; hide Linked; hide Routed;
  }

  /** Once a call is over, what it returned stands: results that come later, or twice, change no call. */
  lemma {:induction false} OutcomeStands(steps: seq<Step>, more: seq<Step>, id: string)
    requires Possible(steps + more) && Possible(steps) && id in After(steps).calls && OutcomeOf(After(steps).calls[id]).Some?
    ensures id in After(steps + more).calls
    ensures OutcomeOf(After(steps + more).calls[id]) == OutcomeOf(After(steps).calls[id])
    decreases |more|
  {
    hide Inv; hide Next; hide Enabled; hide Anchored;
    if more == [] {
      assert steps + more == steps;
    } else {
      var n := |more| - 1;
      assert (steps + more)[..|steps| + n] == steps + more[..n];
      OutcomeStands(steps, more[..n], id);
      InvAnchored(After(steps + more[..n]));
      CallStep(After(steps + more[..n]), more[n], id);
    }
  }

  lemma InvAnchored(s: System)
    requires Inv(s)
    ensures Anchored(s)
  {}

  /** A stream sends what its connection was given, in that order: what a flow holds is never taken back. */
  lemma {:induction false} FlowsGrow(steps: seq<Step>, more: seq<Step>, a: Addr)
    requires Possible(steps + more) && Possible(steps) && a in After(steps).hub.conns
    ensures Anchored(After(steps)) && Anchored(After(steps + more)) && a in After(steps + more).hub.conns
    ensures Flow(After(steps), a) <= Flow(After(steps + more), a)
    decreases |more|
  {
    hide Inv; hide Next; hide Enabled; hide Anchored; hide Flow;
    InvAnchored(After(steps));
    InvAnchored(After(steps + more));
    if more == [] {
      assert steps + more == steps;
    } else {
      var n := |more| - 1;
      assert (steps + more)[..|steps| + n] == steps + more[..n];
      FlowsGrow(steps, more[..n], a);
      FlowStep(After(steps + more[..n]), more[n], a);
    }
  }
}
