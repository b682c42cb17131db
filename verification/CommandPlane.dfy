/** The hub's side of the agent plane: which connection speaks for a node, and which call a result belongs to. */
module CommandPlane {
  import opened Basics

  /** Where an object lives: connections and reply channels are shared by pointer. */
  type Addr = nat

  const TOKEN_TTL := 24 * 60 * 60
  const SILENT_AFTER := 30
  const SEND_QUEUE := 64

  datatype Command = Command(id: string, op: string, payload: string)

  datatype Reply = Reply(id: string, ok: bool, error: string, payload: string)

  datatype Conn = Conn(tenant: string, node: string, token: string, expires: int, seen: int, out: seq<Command>,
                       closed: bool)

  /** Node names are scoped to their tenant. */
  function NodeKey(tenant: string, node: string): string { tenant + ['\0'] + node }

  /** Two nodes share a slot only if they are the same node, as long as tenants hold no NUL. */
  lemma NodeKeyInjective(t: string, n: string, u: string, m: string)
    requires '\0' !in t && '\0' !in u && NodeKey(t, n) == NodeKey(u, m)
    ensures t == u && n == m
  {
    CutOnce('\0', t, n, u, m);
  }

  /** The hub's fields, with the objects they point to. */
  datatype Plane = Plane(conns: map<Addr, Conn>, byNode: map<string, Addr>, byToken: map<string, Addr>,
                         pending: map<string, Addr>, replies: map<Addr, Option<Reply>>)
  {
    /** No pointer dangles. */
    ghost predicate Sound() {
      && (forall k :: k in byNode ==> byNode[k] in conns)
      && (forall t :: t in byToken ==> byToken[t] in conns)
      && (forall i :: i in pending ==> pending[i] in replies)
    }
  }

  predicate Live(c: Conn, now: int) { now - c.seen < SILENT_AFTER }

  function Closed(p: Plane, a: Addr): Plane
    requires a in p.conns
  {
    p.(conns := p.conns[a := p.conns[a].(closed := true)])
  }

  /** A login takes the node's slot; whoever held it is closed and loses its token. */
  function LoggedIn(p: Plane, a: Addr, tenant: string, node: string, token: string, now: int): Plane
    requires p.Sound()
  {
    var key := NodeKey(tenant, node);
    var q := if key in p.byNode then
               var was := p.byNode[key];
               Closed(p, was).(byToken := p.byToken - {p.conns[was].token})
             else p;
    q.(conns := q.conns[a := Conn(tenant, node, token, now + TOKEN_TTL, now, [], false)],
       byNode := q.byNode[key := a], byToken := q.byToken[token := a])
  }

  /** The connection a call may use: one that is registered and was heard from lately. */
  function Reachable(p: Plane, tenant: string, node: string, now: int): Option<Addr>
    requires p.Sound()
  {
    var key := NodeKey(tenant, node);
    if key in p.byNode && Live(p.conns[p.byNode[key]], now) then Some(p.byNode[key]) else None
  }

  function Began(p: Plane, id: string, r: Addr): Plane {
    p.(pending := p.pending[id := r], replies := p.replies[r := None])
  }

  datatype Offered = Queued | Busy | Gone

  /** How offering a command to a queue can end. When the queue has room and the connection is closed, either may
      be chosen; busy is for when neither holds. */
  function Offering(c: Conn, closedFirst: bool): Offered {
    if |c.out| < SEND_QUEUE && !(c.closed && closedFirst) then Queued
    else if c.closed then Gone
    else Busy
  }

  function Offer(p: Plane, a: Addr, cmd: Command, closedFirst: bool): Plane
    requires a in p.conns
  {
    if Offering(p.conns[a], closedFirst).Queued? then
      p.(conns := p.conns[a := p.conns[a].(out := p.conns[a].out + [cmd])])
    else p
  }

  function Taken(p: Plane, a: Addr): Plane
    requires a in p.conns && p.conns[a].out != []
  {
    p.(conns := p.conns[a := p.conns[a].(out := p.conns[a].out[1..])])
  }

  /** The connection a token stands for. */
  function Authed(p: Plane, token: string, now: int): Option<Addr>
    requires p.Sound()
  {
    if token != "" && token in p.byToken && now <= p.conns[p.byToken[token]].expires then Some(p.byToken[token]) else None
  }

  function Touched(p: Plane, a: Addr, now: int): Plane
    requires a in p.conns
  {
    p.(conns := p.conns[a := p.conns[a].(seen := now)])
  }

  /** A one-slot channel takes a result only when it is empty; the send never waits. */
  function Delivered(p: Plane, r: Addr, res: Reply): Plane
    requires r in p.replies
  {
    if p.replies[r].None? then p.(replies := p.replies[r := Some(res)]) else p
  }

  /** The call takes the result out of its channel. */
  function Received(p: Plane, r: Addr): Plane
    requires r in p.replies
  {
    p.(replies := p.replies[r := None])
  }

  function Forgotten(p: Plane, id: string): Plane { p.(pending := p.pending - {id}) }

  /** The end of a stream: the connection loses its slot if it still has it, and its token. */
  function Dropped(p: Plane, a: Addr): Plane
    requires a in p.conns
  {
    var c := p.conns[a];
    var key := NodeKey(c.tenant, c.node);
    var q := if key in p.byNode && p.byNode[key] == a then p.(byNode := p.byNode - {key}) else p;
    q.(byToken := q.byToken - {c.token})
  }

  /** The hub: each method is what the program does while it holds the lock, or one channel operation. */
  class Hub {
    var conns: map<Addr, Conn>
    var byNode: map<string, Addr>
    var byToken: map<string, Addr>
    var pending: map<string, Addr>
    var replies: map<Addr, Option<Reply>>

    ghost function State(): Plane
      reads this
    {
      Plane(conns, byNode, byToken, pending, replies)
    }

    constructor ()
      ensures State() == Plane(map[], map[], map[], map[], map[])
    {
      conns, byNode, byToken, pending, replies := map[], map[], map[], map[], map[];
    }

    method CloseConn(a: Addr)
      requires a in conns
      modifies this
      ensures State() == Closed(old(State()), a)
    {
      conns := conns[a := conns[a].(closed := true)];
    }

    /** handleLogin, after the agent is verified. */
    method Login(a: Addr, tenant: string, node: string, token: string, now: int)
      requires State().Sound() && a !in conns
      modifies this
      ensures State() == LoggedIn(old(State()), a, tenant, node, token, now)
    {
      var c := Conn(tenant, node, token, now + TOKEN_TTL, now, [], false);
      var key := NodeKey(tenant, node);
      if key in byNode {
        var was := byNode[key];
        CloseConn(was);
        byToken := byToken - {conns[was].token};
      }
      conns := conns[a := c];
      byNode := byNode[key := a];
      byToken := byToken[token := a];
    }

    /** Call, up to the point where its reply channel is registered. */
    method BeginCall(tenant: string, node: string, id: string, r: Addr, now: int) returns (c: Option<Addr>)
      requires State().Sound()
      modifies this
      ensures c == Reachable(old(State()), tenant, node, now)
      ensures State() == if c.Some? then Began(old(State()), id, r) else old(State())
    {
      var key := NodeKey(tenant, node);
      if key !in byNode {
        return None;
      }
      if !Live(conns[byNode[key]], now) {
        return None;
      }
      replies := replies[r := None];
      pending := pending[id := r];
      return Some(byNode[key]);
    }

    /** The select that queues a command without waiting. */
    method OfferCommand(a: Addr, cmd: Command, closedFirst: bool) returns (end: Offered)
      requires a in conns
      modifies this
      ensures end == Offering(old(conns)[a], closedFirst)
      ensures State() == Offer(old(State()), a, cmd, closedFirst)
    {
      var c := conns[a];
      var room, gone := |c.out| < SEND_QUEUE, c.closed;
      if room && !(gone && closedFirst) {
        conns := conns[a := c.(out := c.out + [cmd])];
        return Queued;
      }
      if gone {
        return Gone;
      }
      return Busy;
    }

    /** One turn of a stream. */
    method TakeCommand(a: Addr) returns (cmd: Command)
      requires a in conns && conns[a].out != []
      modifies this
      ensures cmd == old(conns)[a].out[0] && State() == Taken(old(State()), a)
    {
      cmd := conns[a].out[0];
      conns := conns[a := conns[a].(out := conns[a].out[1..])];
    }

    /** authed. */
    method Auth(token: string, now: int) returns (c: Option<Addr>)
      requires State().Sound()
      ensures c == Authed(State(), token, now)
    {
      if token == "" {
        return None;
      }
      if token !in byToken || now > conns[byToken[token]].expires {
        return None;
      }
      return Some(byToken[token]);
    }

    method Touch(a: Addr, now: int)
      requires a in conns
      modifies this
      ensures State() == Touched(old(State()), a, now)
    {
      conns := conns[a := conns[a].(seen := now)];
    }

    /** handleResult's look at who is waiting for a result. */
    method Waiting(id: string) returns (slot: Option<Addr>)
      ensures slot == if id in pending then Some(pending[id]) else None
    {
      if id !in pending {
        return None;
      }
      return Some(pending[id]);
    }

    /** The receive with which a call ends. */
    method Receive(r: Addr) returns (res: Reply)
      requires r in replies && replies[r].Some?
      modifies this
      ensures res == old(replies)[r].value && State() == Received(old(State()), r)
    {
      res := replies[r].value;
      replies := replies[r := None];
    }

    /** The last step of handleResult, once a waiting call was found. */
    method Deliver(r: Addr, res: Reply)
      requires r in replies
      modifies this
      ensures State() == Delivered(old(State()), r, res)
    {
      if replies[r].None? {
        replies := replies[r := Some(res)];
      }
    }

    method Forget(id: string)
      modifies this
      ensures State() == Forgotten(old(State()), id)
    {
      pending := pending - {id};
    }

    /** disconnect, but for closing the connection, which follows once the lock is released. */
    method Drop(a: Addr)
      requires a in conns
      modifies this
      ensures State() == Dropped(old(State()), a)
    {
      var c := conns[a];
      var key := NodeKey(c.tenant, c.node);
      if key in byNode && byNode[key] == a {
        byNode := byNode - {key};
      }
      byToken := byToken - {c.token};
    }
  }
}
