/** Every interleaving of logins, calls, streams and results. */
module CommandPlaneRuns {
  import opened Basics
  import opened CommandPlane

  datatype Outcome = Replied(r: Reply) | NoRoom | Offline | TimedOut

  /** Where a call stands: offering its command, waiting, or over; and then forgotten. */
  datatype Stage = Sending | Waiting | Ended(end: Outcome) | Returned(end: Outcome)

  datatype Call = Call(conn: Addr, slot: Addr, cmd: Command, stage: Stage)

  /** Where the handler of one posted result stands. */
  datatype Post = Seen(conn: Addr, res: Reply) | Noted(res: Reply) | Found(slot: Addr, res: Reply) | Finished

  /** The hub, the calls and posts in progress, the connections on their way out, and what streams have sent. */
  datatype System = System(hub: Plane, calls: map<string, Call>, posts: map<nat, Post>, leaving: set<Addr>,
                           sent: map<Addr, seq<Command>>)

  const START := System(Plane(map[], map[], map[], map[], map[]), map[], map[], {}, map[])

  datatype Step =
    | Login(a: Addr, tenant: string, node: string, token: string, now: int)
    | Begin(id: string, slot: Addr, tenant: string, node: string, op: string, payload: string, now: int)
    | OfferOne(id: string, closedFirst: bool)
    | Answer(id: string)
    | SeeClosed(id: string)
    | TimeOut(id: string)
    | Forget(id: string)
    | Take(a: Addr)
    | Auth(post: nat, token: string, res: Reply, now: int)
    | Touch(post: nat, now: int)
    | Find(post: nat)
    | Deliver(post: nat)
    | Drop(a: Addr)
    | Close(a: Addr)

  /** Every token that was ever handed out: connections are remembered after they are gone. */
  predicate Issued(p: Plane, token: string) { exists a :: a in p.conns && p.conns[a].token == token }

  predicate AtStage(s: System, id: string, stage: Stage) { id in s.calls && s.calls[id].stage == stage }

  /** No pointer dangles anywhere. */
  ghost predicate Anchored(s: System) {
    && s.hub.Sound()
    && (forall i :: i in s.calls ==> s.calls[i].conn in s.hub.conns && s.calls[i].slot in s.hub.replies)
    && (forall p :: p in s.posts && s.posts[p].Seen? ==> s.posts[p].conn in s.hub.conns)
    && (forall p :: p in s.posts && s.posts[p].Found? ==> s.posts[p].slot in s.hub.replies)
    && s.leaving <= s.hub.conns.Keys == s.sent.Keys
  }

  /** Whether a step can happen. New addresses, tokens and ids are ones never used before. */
  predicate Enabled(s: System, step: Step)
    requires Anchored(s)
  {
    var h := s.hub;
    match step
    case Login(a, _, _, token, _) => a !in h.conns && !Issued(h, token) && token != ""
    case Begin(id, slot, _, _, _, _, _) => id !in s.calls && slot !in h.replies
    case OfferOne(id, _) => AtStage(s, id, Sending)
    case Answer(id) => AtStage(s, id, Waiting) && h.replies[s.calls[id].slot].Some?
    case SeeClosed(id) => AtStage(s, id, Waiting) && h.conns[s.calls[id].conn].closed
    case TimeOut(id) => AtStage(s, id, Waiting)
    case Forget(id) => id in s.calls && s.calls[id].stage.Ended?
    case Take(a) => a in h.conns && h.conns[a].out != []
    case Auth(post, token, _, now) => post !in s.posts && Authed(h, token, now).Some?
    case Touch(post, _) => post in s.posts && s.posts[post].Seen?
    case Find(post) => post in s.posts && s.posts[post].Noted?
    case Deliver(post) => post in s.posts && s.posts[post].Found?
    case Drop(a) => a in h.conns
    case Close(a) => a in s.leaving
  }

  function SetStage(s: System, id: string, stage: Stage): map<string, Call>
    requires id in s.calls
  {
    s.calls[id := s.calls[id].(stage := stage)]
  }

  function StageOf(end: Offered): Stage {
    match end
    case Queued => Waiting
    case Busy => Ended(NoRoom)
    case Gone => Ended(Offline)
  }

  /** A step of a call, from offering its command to forgetting it. */
  function NextOfCall(s: System, step: Step): System
    requires Anchored(s) && Enabled(s, step)
  {
    var h := s.hub;
    match step
    case Begin(id, slot, tenant, node, op, payload, now) =>
      var c := Reachable(h, tenant, node, now);
      if c.None? then s
      else s.(hub := Began(h, id, slot), calls := s.calls[id := Call(c.value, slot, Command(id, op, payload), Sending)])
    case OfferOne(id, closedFirst) =>
      var c := s.calls[id];
      s.(hub := Offer(h, c.conn, c.cmd, closedFirst), calls := SetStage(s, id, StageOf(Offering(h.conns[c.conn], closedFirst))))
    case Answer(id) =>
      var slot := s.calls[id].slot;
      s.(hub := Received(h, slot), calls := SetStage(s, id, Ended(Replied(h.replies[slot].value))))
    case SeeClosed(id) => s.(calls := SetStage(s, id, Ended(Offline)))
    case TimeOut(id) => s.(calls := SetStage(s, id, Ended(TimedOut)))
    case Forget(id) => s.(hub := Forgotten(h, id), calls := SetStage(s, id, Returned(s.calls[id].stage.end)))
    case _ => s
  }

  /** A step of a posted result. */
  function NextOfPost(s: System, step: Step): System
    requires Anchored(s) && Enabled(s, step)
  {
    var h := s.hub;
    match step
    case Auth(post, token, res, now) => s.(posts := s.posts[post := Seen(Authed(h, token, now).value, res)])
    case Touch(post, now) =>
      s.(hub := Touched(h, s.posts[post].conn, now), posts := s.posts[post := Noted(s.posts[post].res)])
    case Find(post) =>
      var res := s.posts[post].res;
      s.(posts := s.posts[post := if res.id in h.pending then Found(h.pending[res.id], res) else Finished])
    case Deliver(post) =>
      s.(hub := Delivered(h, s.posts[post].slot, s.posts[post].res), posts := s.posts[post := Finished])
    case _ => s
  }

  /** One step of the system. */
  function Next(s: System, step: Step): System
    requires Anchored(s) && Enabled(s, step)
  {
    var h := s.hub;
    match step
    case Login(a, tenant, node, token, now) => s.(hub := LoggedIn(h, a, tenant, node, token, now), sent := s.sent[a := []])
    case Take(a) => s.(hub := Taken(h, a), sent := s.sent[a := s.sent[a] + [h.conns[a].out[0]]])
    case Drop(a) => s.(hub := Dropped(h, a), leaving := s.leaving + {a})
    case Close(a) => s.(hub := Closed(h, a))
    case Auth(_, _, _, _) => NextOfPost(s, step)
    case Touch(_, _) => NextOfPost(s, step)
    case Find(_) => NextOfPost(s, step)
    case Deliver(_) => NextOfPost(s, step)
    case _ => NextOfCall(s, step)
  }

  // ---- what every step keeps ----

  /** A registered connection is the one for its slot, and its token leads back to it. */
  ghost predicate SlotsLinked(p: Plane)
    requires p.Sound()
  {
    forall k :: k in p.byNode ==>
      var c := p.conns[p.byNode[k]];
      NodeKey(c.tenant, c.node) == k && c.token in p.byToken && p.byToken[c.token] == p.byNode[k]
  }

  /** A token that resolves is that connection's own, and its slot leads back to it. */
  ghost predicate TokensLinked(p: Plane)
    requires p.Sound()
  {
    forall t :: t in p.byToken ==>
      var c := p.conns[p.byToken[t]];
      c.token == t && NodeKey(c.tenant, c.node) in p.byNode && p.byNode[NodeKey(c.tenant, c.node)] == p.byToken[t]
  }

  /** byNode and byToken are inverse to each other, through the connection they share. */
  ghost predicate Linked(p: Plane) { p.Sound() && SlotsLinked(p) && TokensLinked(p) }

  /** No two connections were given the same token. */
  ghost predicate OwnTokens(p: Plane) {
    forall a, b :: a in p.conns && b in p.conns && p.conns[a].token == p.conns[b].token ==> a == b
  }

  ghost predicate Bounded(p: Plane) { forall a :: a in p.conns ==> |p.conns[a].out| <= SEND_QUEUE }

  /** pending holds exactly the calls that are not over, each with its own channel. */
  ghost predicate InFlight(s: System) {
    && (forall i :: i in s.hub.pending <==> i in s.calls && !s.calls[i].stage.Returned?)
    && (forall i :: i in s.hub.pending ==> s.hub.pending[i] == s.calls[i].slot)
    && (forall i, j :: i in s.calls && j in s.calls && s.calls[i].slot == s.calls[j].slot ==> i == j)
    && (forall i :: i in s.calls ==> s.calls[i].cmd.id == i)
  }

  /** A result on its way to a slot, or in it, answers the call that owns the slot. */
  ghost predicate Addressed(s: System) {
    && (forall p, i :: p in s.posts && s.posts[p].Found? && i in s.calls && s.calls[i].slot == s.posts[p].slot ==>
      s.posts[p].res.id == i)
    && (forall i :: i in s.calls && s.calls[i].slot in s.hub.replies && s.hub.replies[s.calls[i].slot].Some? ==>
      s.hub.replies[s.calls[i].slot].value.id == i)
    && (forall i :: i in s.calls && s.calls[i].stage.Ended? && s.calls[i].stage.end.Replied? ==>
       s.calls[i].stage.end.r.id == i)
    && (forall i :: i in s.calls && s.calls[i].stage.Returned? && s.calls[i].stage.end.Replied? ==>
       s.calls[i].stage.end.r.id == i)
  }

  /** The commands a connection was given: those its stream has sent, then those still queued. */
  function Flow(s: System, a: Addr): seq<Command>
    requires Anchored(s) && a in s.hub.conns
  {
    s.sent[a] + s.hub.conns[a].out
  }

  /** Every command a connection was given belongs to a call made to it, and no call's command comes twice. */
  ghost predicate RoutedOn(s: System, a: Addr)
    requires Anchored(s) && a in s.hub.conns
  {
    var f := Flow(s, a);
    && (forall n :: 0 <= n < |f| ==>
      f[n].id in s.calls && s.calls[f[n].id].conn == a && s.calls[f[n].id].cmd == f[n] && !s.calls[f[n].id].stage.Sending?)
    && (forall n, m :: 0 <= n < m < |f| ==> f[n].id != f[m].id)
  }

  ghost predicate Routed(s: System) { Anchored(s) && forall a :: a in s.hub.conns ==> RoutedOn(s, a) }

  ghost predicate Inv(s: System) {
    Anchored(s) && Linked(s.hub) && OwnTokens(s.hub) && Bounded(s.hub) && InFlight(s) && Addressed(s) && Routed(s)
  }

  lemma StartInv()
    ensures Inv(START)
  {}

  // ---- connections ----

  /** A change to the fields of connections that leaves alone whose they are. */
  ghost predicate SameOwners(p: Plane, q: Plane) {
    && q.byNode == p.byNode && q.byToken == p.byToken && q.conns.Keys == p.conns.Keys
    && forall a :: a in p.conns ==>
      q.conns[a].tenant == p.conns[a].tenant && q.conns[a].node == p.conns[a].node && q.conns[a].token == p.conns[a].token
  }

  lemma SameOwnersLinked(p: Plane, q: Plane)
    requires SameOwners(p, q) && Linked(p) && OwnTokens(p) && q.Sound()
    ensures Linked(q) && OwnTokens(q)
  {
    hide NodeKey;
  }

  /** A login is the end of the connection it supersedes, then a new entry in both maps. */
  function Entered(p: Plane, a: Addr, c: Conn): Plane {
    p.(conns := p.conns[a := c], byNode := p.byNode[NodeKey(c.tenant, c.node) := a], byToken := p.byToken[c.token := a])
  }

  lemma LoginIs(p: Plane, a: Addr, tenant: string, node: string, token: string, now: int)
    requires Linked(p) && a !in p.conns
    ensures var key, c := NodeKey(tenant, node), Conn(tenant, node, token, now + TOKEN_TTL, now, [], false);
      LoggedIn(p, a, tenant, node, token, now)
        == if key in p.byNode then Entered(Closed(Dropped(p, p.byNode[key]), p.byNode[key]), a, c) else Entered(p, a, c)
  {
    hide NodeKey;
    var key := NodeKey(tenant, node);
    if key in p.byNode {
      var was := p.byNode[key];
      assert (p.byNode - {key})[key := a] == p.byNode[key := a];
    }
  }

  lemma EnterSlots(p: Plane, a: Addr, c: Conn)
    requires Linked(p) && a !in p.conns && c.token !in p.byToken && NodeKey(c.tenant, c.node) !in p.byNode
    ensures Entered(p, a, c).Sound() && SlotsLinked(Entered(p, a, c))
  {
    hide TokensLinked;
    var q, key := Entered(p, a, c), NodeKey(c.tenant, c.node);
    hide NodeKey;
    forall k | k in q.byNode && k != key
      ensures var d := q.conns[q.byNode[k]];
        NodeKey(d.tenant, d.node) == k && d.token in q.byToken && q.byToken[d.token] == q.byNode[k]
    {
      assert k in p.byNode && p.byNode[k] != a;
    }
  }

  lemma EnterTokens(p: Plane, a: Addr, c: Conn)
    requires Linked(p) && a !in p.conns && c.token !in p.byToken && NodeKey(c.tenant, c.node) !in p.byNode
    ensures Entered(p, a, c).Sound() && TokensLinked(Entered(p, a, c))
  {
    hide SlotsLinked;
    var q, key := Entered(p, a, c), NodeKey(c.tenant, c.node);
    hide NodeKey;
    forall t | t in q.byToken && t != c.token
      ensures var d := q.conns[q.byToken[t]];
        d.token == t && var k := NodeKey(d.tenant, d.node); k in q.byNode && q.byNode[k] == q.byToken[t]
    {
      assert t in p.byToken && p.byToken[t] != a;
    }
  }

  lemma EnterLinked(p: Plane, a: Addr, c: Conn)
    requires Linked(p) && OwnTokens(p) && a !in p.conns && !Issued(p, c.token) && NodeKey(c.tenant, c.node) !in p.byNode
    ensures Linked(Entered(p, a, c)) && OwnTokens(Entered(p, a, c))
  {
    assert c.token !in p.byToken;
    assert forall b :: b in p.conns ==> p.conns[b].token != c.token;
    hide NodeKey; hide SlotsLinked; hide TokensLinked; hide Issued;
    EnterSlots(p, a, c);
    EnterTokens(p, a, c);
  }

  lemma CloseLinked(p: Plane, a: Addr)
    requires Linked(p) && OwnTokens(p) && a in p.conns
    ensures Linked(Closed(p, a)) && OwnTokens(Closed(p, a))
  {
    hide NodeKey;
    assert SameOwners(p, Closed(p, a));
    SameOwnersLinked(p, Closed(p, a));
  }

  /** A login keeps the two maps inverse to each other. */
  lemma LoginLinked(p: Plane, a: Addr, tenant: string, node: string, token: string, now: int)
    requires Linked(p) && OwnTokens(p) && a !in p.conns && !Issued(p, token)
    ensures Linked(LoggedIn(p, a, tenant, node, token, now)) && OwnTokens(LoggedIn(p, a, tenant, node, token, now))
  {
    var key, c := NodeKey(tenant, node), Conn(tenant, node, token, now + TOKEN_TTL, now, [], false);
    LoginIs(p, a, tenant, node, token, now);
    if key in p.byNode {
      var was := p.byNode[key];
      var q := Closed(Dropped(p, was), was);
      assert p.conns[was].token != token && NodeKey(p.conns[was].tenant, p.conns[was].node) == key;
      assert !Issued(q, token) by { NotIssued(p, q, token); }
      assert key !in q.byNode && a !in q.conns;
      DropLinked(p, was);
      hide Linked; hide OwnTokens; hide NodeKey; hide LoggedIn; hide Issued;
      CloseLinked(Dropped(p, was), was);
      EnterLinked(q, a, c);
    } else {
      hide Linked; hide OwnTokens; hide NodeKey; hide LoggedIn; hide Issued;
      EnterLinked(p, a, c);
    }
  }

  lemma NotIssued(p: Plane, q: Plane, token: string)
    requires !Issued(p, token) && q.conns.Keys == p.conns.Keys
    requires forall a :: a in q.conns ==> q.conns[a].token == p.conns[a].token
    ensures !Issued(q, token)
  {}

  /** So does the end of a stream. */
  lemma DropLinked(p: Plane, a: Addr)
    requires Linked(p) && OwnTokens(p) && a in p.conns
    ensures Linked(Dropped(p, a)) && OwnTokens(Dropped(p, a))
  {
    hide NodeKey;
    DropSlots(p, a);
    DropTokens(p, a);
    hide SlotsLinked; hide TokensLinked;
  }

  lemma DropSlots(p: Plane, a: Addr)
    requires Linked(p) && OwnTokens(p) && a in p.conns
    ensures Dropped(p, a).Sound() && SlotsLinked(Dropped(p, a))
  {
    hide NodeKey; hide TokensLinked;
  }

  lemma DropTokens(p: Plane, a: Addr)
    requires Linked(p) && a in p.conns
    ensures Dropped(p, a).Sound() && TokensLinked(Dropped(p, a))
  {
    hide NodeKey; hide SlotsLinked;
  }

  lemma PlaneStep(s: System, step: Step)
    requires Anchored(s) && Linked(s.hub) && OwnTokens(s.hub) && Enabled(s, step) && Anchored(Next(s, step))
    ensures Linked(Next(s, step).hub) && OwnTokens(Next(s, step).hub)
  {
    hide SlotsLinked; hide TokensLinked; hide OwnTokens; hide Issued; hide LoggedIn; hide Dropped;
    hide NextOfCall; hide NextOfPost;
    var p, q := s.hub, Next(s, step).hub;
    match step
    case Login(a, tenant, node, token, now) => LoginLinked(p, a, tenant, node, token, now);
    case Drop(a) => DropLinked(p, a);
    case _ =>
      OwnersKept(s, step);
      hide Next; hide Anchored; hide Enabled;
      SameOwnersLinked(p, q);
  }

  lemma OwnersKept(s: System, step: Step)
    requires Anchored(s) && Enabled(s, step) && !step.Login? && !step.Drop?
    ensures SameOwners(s.hub, Next(s, step).hub)
  {
    if IsCallStep(step) {
      OwnersKeptByCall(s, step);
    } else if IsPostStep(step) {
      OwnersKeptByPost(s, step);
    }
    hide NodeKey; hide Reachable; hide Authed; hide Offering; hide Issued; hide Live; hide NextOfCall;
    hide NextOfPost; hide Anchored;
  }

  lemma OwnersKeptByCall(s: System, step: Step)
    requires Anchored(s) && Enabled(s, step) && IsCallStep(step)
    ensures SameOwners(s.hub, Next(s, step).hub)
  {
    hide NodeKey; hide Reachable; hide Authed; hide Offering; hide Issued; hide Live;
  }

  lemma OwnersKeptByPost(s: System, step: Step)
    requires Anchored(s) && Enabled(s, step) && IsPostStep(step)
    ensures SameOwners(s.hub, Next(s, step).hub)
  {
    hide NodeKey; hide Reachable; hide Authed; hide Offering; hide Issued; hide Live;
  }

  lemma BoundedStep(s: System, step: Step)
    requires Inv(s) && Enabled(s, step)
    ensures Bounded(Next(s, step).hub)
  {
    hide NodeKey; hide Reachable; hide Authed; hide Issued; hide AtStage; hide Linked; hide OwnTokens;
    hide InFlight; hide Addressed;
  }

  predicate IsCallStep(step: Step) { step.Begin? || step.OfferOne? || step.Answer? || step.SeeClosed? || step.TimeOut? || step.Forget? }

  predicate IsPostStep(step: Step) { step.Auth? || step.Touch? || step.Find? || step.Deliver? }

  predicate IsConnStep(step: Step) { step.Login? || step.Take? || step.Drop? || step.Close? }

  lemma AnchoredCall(s: System, step: Step)
    requires Anchored(s) && Enabled(s, step) && IsCallStep(step)
    ensures Anchored(Next(s, step))
  {
    hide NodeKey; hide Issued; hide Live; hide Offering;
  }

  lemma AnchoredPost(s: System, step: Step)
    requires Anchored(s) && Enabled(s, step) && IsPostStep(step)
    ensures Anchored(Next(s, step))
  {
    hide NodeKey; hide Issued; hide Live; hide Offering;
  }

  lemma AnchoredConn(s: System, step: Step)
    requires Anchored(s) && Enabled(s, step) && IsConnStep(step)
    ensures Anchored(Next(s, step))
  {
    hide NodeKey; hide Issued; hide Live; hide Offering;
  }

  lemma InFlightBegin(s: System, step: Step)
    requires Anchored(s) && InFlight(s) && Enabled(s, step) && step.Begin?
    ensures InFlight(Next(s, step))
  {
    hide NodeKey; hide Issued; hide Live; hide Authed; hide Offering; hide Reachable;
  }

  /** A step that moves calls along without ending their time in pending, or touching their slots. */
  ghost predicate SameCalls(s: System, t: System) {
    && t.hub.pending == s.hub.pending && t.calls.Keys == s.calls.Keys
    && forall i :: i in s.calls ==>
      t.calls[i].slot == s.calls[i].slot && t.calls[i].cmd == s.calls[i].cmd
      && t.calls[i].stage.Returned? == s.calls[i].stage.Returned?
  }

  lemma SameCallsInFlight(s: System, t: System)
    requires InFlight(s) && SameCalls(s, t)
    ensures InFlight(t)
  {}

  /** How calls stand after the steps that neither start nor finish one. */
  lemma StageShape(s: System, step: Step)
    requires Anchored(s) && Enabled(s, step) && (step.OfferOne? || step.SeeClosed? || step.TimeOut?)
    ensures SameCalls(s, Next(s, step)) && Next(s, step).posts == s.posts && Next(s, step).hub.replies == s.hub.replies
    ensures forall i :: i in s.calls ==>
      var now, was := Next(s, step).calls[i].stage, s.calls[i].stage;
      now == was || (!now.Returned? && (now.Ended? ==> !now.end.Replied?))
  {
    hide NodeKey; hide Issued; hide Live; hide Authed; hide Offering; hide Reachable;
  }

  lemma InFlightStage(s: System, step: Step)
    requires Anchored(s) && InFlight(s) && Enabled(s, step) && (step.OfferOne? || step.SeeClosed? || step.TimeOut?)
    ensures InFlight(Next(s, step))
  {
    StageShape(s, step);
    hide Next; hide Enabled; hide InFlight; hide Anchored;
    SameCallsInFlight(s, Next(s, step));
  }

  lemma InFlightAnswer(s: System, step: Step)
    requires Anchored(s) && InFlight(s) && Enabled(s, step) && (step.Answer? || step.Forget?)
    ensures InFlight(Next(s, step))
  {
    hide NodeKey; hide Issued; hide Live; hide Authed; hide Offering;
  }

  lemma InFlightPost(s: System, step: Step)
    requires Anchored(s) && InFlight(s) && Enabled(s, step) && IsPostStep(step)
    ensures InFlight(Next(s, step))
  {
    hide NodeKey; hide Issued; hide Live; hide Authed; hide Offering;
  }

  lemma InFlightConn(s: System, step: Step)
    requires Anchored(s) && InFlight(s) && Enabled(s, step) && IsConnStep(step)
    ensures InFlight(Next(s, step))
  {
    hide NodeKey; hide Issued; hide Live; hide Authed; hide Offering;
  }

  lemma AddressedBegin(s: System, step: Step)
    requires Anchored(s) && InFlight(s) && Addressed(s) && Enabled(s, step) && step.Begin?
    ensures Addressed(Next(s, step))
  {
    hide NodeKey; hide Issued; hide Live; hide Authed; hide Offering; hide Reachable;
  }

  lemma AddressedStage(s: System, step: Step)
    requires Anchored(s) && Addressed(s) && Enabled(s, step) && (step.OfferOne? || step.SeeClosed? || step.TimeOut?)
    ensures Addressed(Next(s, step))
  {
    StageShape(s, step);
    hide Next; hide Enabled; hide Anchored;
  }

  lemma AddressedAnswer(s: System, step: Step)
    requires Anchored(s) && InFlight(s) && Addressed(s) && Enabled(s, step) && (step.Answer? || step.Forget?)
    ensures Addressed(Next(s, step))
  {
    hide NodeKey; hide Issued; hide Live; hide Authed; hide Offering;
  }

  lemma AddressedPost(s: System, step: Step)
    requires Anchored(s) && InFlight(s) && Addressed(s) && Enabled(s, step) && IsPostStep(step)
    ensures Addressed(Next(s, step))
  {
    hide NodeKey; hide Issued; hide Live; hide Authed; hide Offering;
  }

  lemma AddressedConn(s: System, step: Step)
    requires Anchored(s) && InFlight(s) && Addressed(s) && Enabled(s, step) && IsConnStep(step)
    ensures Addressed(Next(s, step))
  {
    hide NodeKey; hide Issued; hide Live; hide Authed; hide Offering;
  }

  // ---- what streams send ----

  /** Commands only ever join the end of a flow. */
  lemma FlowStep(s: System, step: Step, a: Addr)
    requires Anchored(s) && Enabled(s, step) && Anchored(Next(s, step)) && a in s.hub.conns
    ensures a in Next(s, step).hub.conns
    ensures Flow(Next(s, step), a)
      == if step.OfferOne? && s.calls[step.id].conn == a && Offering(s.hub.conns[a], step.closedFirst).Queued?
         then Flow(s, a) + [s.calls[step.id].cmd] else Flow(s, a)
  {
    hide NodeKey; hide Issued; hide Live; hide Authed; hide Offering; hide Reachable; hide Anchored;
  }

  lemma NewFlow(s: System, step: Step, a: Addr)
    requires Anchored(s) && Enabled(s, step) && Anchored(Next(s, step)) && a in Next(s, step).hub.conns && a !in s.hub.conns
    ensures Flow(Next(s, step), a) == []
  {
    hide NodeKey; hide Issued; hide Live; hide Authed; hide Offering; hide Reachable;
  }

  lemma OfferedFrom(s: System, id: string, closedFirst: bool)
    requires Anchored(s) && Enabled(s, OfferOne(id, closedFirst))
    ensures id in s.calls && s.calls[id].stage == Sending && s.calls[id].conn in s.hub.conns
  {}

  /** No call goes back to before its command was offered, or changes what it is. */
  lemma CallStep(s: System, step: Step, i: string)
    requires Anchored(s) && Enabled(s, step) && i in s.calls
    ensures i in Next(s, step).calls
    ensures var c, d := s.calls[i], Next(s, step).calls[i];
      && d.conn == c.conn && d.slot == c.slot && d.cmd == c.cmd
      && (!c.stage.Sending? ==> !d.stage.Sending?)
      && (c.stage.Ended? ==> d.stage == c.stage || d.stage == Returned(c.stage.end))
      && (c.stage.Returned? ==> d.stage == c.stage)
      && (step == OfferOne(i, if step.OfferOne? then step.closedFirst else false) ==> !d.stage.Sending?)
  {
    hide NodeKey; hide Issued; hide Live; hide Authed; hide Offering; hide Reachable;
  }

  lemma RoutedAt(s: System, step: Step, a: Addr)
    requires Anchored(s) && InFlight(s) && (a in s.hub.conns ==> RoutedOn(s, a)) && Enabled(s, step)
    requires Anchored(Next(s, step)) && a in Next(s, step).hub.conns
    ensures RoutedOn(Next(s, step), a)
  {
    hide Next; hide Flow; hide Enabled; hide Anchored;
    var t := Next(s, step);
    if a !in s.hub.conns {
      NewFlow(s, step, a);
    } else {
      var f := Flow(s, a);
      FlowStep(s, step, a);
      forall n | 0 <= n < |f|
        ensures f[n].id in t.calls && t.calls[f[n].id].conn == a && t.calls[f[n].id].cmd == f[n] && !t.calls[f[n].id].stage.Sending?
      {
        CallStep(s, step, f[n].id);
      }
      if step.OfferOne? {
        OfferedFrom(s, step.id, step.closedFirst);
        CallStep(s, step, step.id);
      }
    }
  }

  lemma RoutedStep(s: System, step: Step)
    requires Anchored(s) && InFlight(s) && Routed(s) && Enabled(s, step) && Anchored(Next(s, step))
    ensures Routed(Next(s, step))
  {
    hide Next; hide Enabled; hide Anchored; hide InFlight; hide RoutedOn;
    forall a | a in Next(s, step).hub.conns ensures RoutedOn(Next(s, step), a) { RoutedAt(s, step, a); }
  }

  /** Every step keeps the invariant. */
  lemma InvStep(s: System, step: Step)
    requires Inv(s) && Enabled(s, step)
    ensures Inv(Next(s, step))
  {
    if IsCallStep(step) {
      AnchoredCall(s, step);
      if step.Begin? {
        InFlightBegin(s, step); AddressedBegin(s, step);
      } else if step.Answer? || step.Forget? {
        InFlightAnswer(s, step); AddressedAnswer(s, step);
      } else {
        InFlightStage(s, step); AddressedStage(s, step);
      }
    } else if IsPostStep(step) {
      AnchoredPost(s, step); InFlightPost(s, step); AddressedPost(s, step);
    } else {
      AnchoredConn(s, step); InFlightConn(s, step); AddressedConn(s, step);
    }
    hide Anchored; hide InFlight; hide Addressed; hide Routed;
    PlaneStep(s, step);
    BoundedStep(s, step);
    RoutedStep(s, step);
  }
}
