/** The session view, and the part of it that a page renders. */
module SessionView {
  import opened Sorting

  /** shown stands for the other fields of a session and of a node: everything that is rendered. */
  datatype Session = Session(id: string, updatedAt: int, shown: string)

  datatype Node = Node(name: string, sessions: seq<Session>, shown: string)

  datatype View = View(nodes: seq<Node>, now: int)

  function Still(s: Session): Session { s.(updatedAt := 0) }

  function Stills(ss: seq<Session>): (r: seq<Session>)
    ensures |r| == |ss|
  {
    if ss == [] then [] else [Still(ss[0])] + Stills(ss[1..])
  }

  function ById(): (Session, Session) -> bool { (a: Session, b: Session) => StringLeq(a.id, b.id) }

  function ByName(): (Node, Node) -> bool { (a: Node, b: Node) => StringLeq(a.name, b.name) }

  function StillNode(n: Node): Node { n.(sessions := Sort(ById(), Stills(n.sessions))) }

  function StillNodes(ns: seq<Node>): (r: seq<Node>)
    ensures |r| == |ns|
  {
    if ns == [] then [] else [StillNode(ns[0])] + StillNodes(ns[1..])
  }

  /** renderFingerprint, but for the hash: what a page renders, in an order of its own. */
  function Fingerprint(v: View): seq<Node> { Sort(ByName(), StillNodes(v.nodes)) }

  lemma ByIdTotal()
    ensures TotalOrder(ById())
  {
    forall a: Session, b: Session ensures ById()(a, b) || ById()(b, a) { StringTotal(a.id, b.id); }
    forall a: Session, b: Session, c: Session | ById()(a, b) && ById()(b, c) ensures ById()(a, c) {
      StringTransitive(a.id, b.id, c.id);
    }
  }

  lemma ByNameTotal()
    ensures TotalOrder(ByName())
  {
    forall a: Node, b: Node ensures ByName()(a, b) || ByName()(b, a) { StringTotal(a.name, b.name); }
    forall a: Node, b: Node, c: Node | ByName()(a, b) && ByName()(b, c) ensures ByName()(a, c) {
      StringTransitive(a.name, b.name, c.name);
    }
  }

  /** No two sessions of a node share an id, and no two nodes a name. */
  ghost predicate OwnIds(ss: seq<Session>) { forall i, j :: 0 <= i < j < |ss| ==> ss[i].id != ss[j].id }

  ghost predicate OwnNames(v: View) {
    && (forall i, j :: 0 <= i < j < |v.nodes| ==> v.nodes[i].name != v.nodes[j].name)
    && forall i :: 0 <= i < |v.nodes| ==> OwnIds(v.nodes[i].sessions)
  }

  lemma {:induction false} StillsAt(ss: seq<Session>, i: nat)
    requires i < |ss|
    ensures Stills(ss)[i] == Still(ss[i])
  {
    if i > 0 { StillsAt(ss[1..], i - 1); }
  }

  lemma {:induction false} StillNodesAt(ns: seq<Node>, i: nat)
    requires i < |ns|
    ensures StillNodes(ns)[i] == StillNode(ns[i])
  {
    if i > 0 { StillNodesAt(ns[1..], i - 1); }
  }

  lemma StillsNoTies(ss: seq<Session>)
    requires OwnIds(ss)
    ensures NoTies(ById(), Stills(ss))
  {
    var r := Stills(ss);
    forall a, b | a in r && b in r && ById()(a, b) && ById()(b, a) ensures a == b {
      var i :| 0 <= i < |r| && r[i] == a;
      var j :| 0 <= j < |r| && r[j] == b;
      StillsAt(ss, i);
      StillsAt(ss, j);
      StringTotal(a.id, b.id);
    }
  }

  lemma StillNodesNoTies(v: View)
    requires OwnNames(v)
    ensures NoTies(ByName(), StillNodes(v.nodes))
  {
    var r := StillNodes(v.nodes);
    forall a, b | a in r && b in r && ByName()(a, b) && ByName()(b, a) ensures a == b {
      var i :| 0 <= i < |r| && r[i] == a;
      var j :| 0 <= j < |r| && r[j] == b;
      StillNodesAt(v.nodes, i);
      StillNodesAt(v.nodes, j);
      StringTotal(a.name, b.name);
    }
  }

  /** Two nodes look the same: the same but for the order of their sessions and when those were updated. */
  ghost predicate Alike(a: Node, b: Node) {
    a.name == b.name && a.shown == b.shown && multiset(Stills(a.sessions)) == multiset(Stills(b.sessions))
  }

  /** Stripping two nodes gives the same exactly when they look the same. */
  lemma AlikeExact(a: Node, b: Node)
    requires OwnIds(a.sessions)
    ensures StillNode(a) == StillNode(b) <==> Alike(a, b)
  {
    ByIdTotal();
    var x, y := Stills(a.sessions), Stills(b.sessions);
    SortSorts(ById(), x);
    SortSorts(ById(), y);
    if Alike(a, b) {
      StillsNoTies(a.sessions);
      assert forall s :: s in Sort(ById(), x) ==> s in multiset(Sort(ById(), x));
      assert forall s :: s in multiset(x) ==> s in x;
      SortedUnique(ById(), Sort(ById(), x), Sort(ById(), y));
    }
  }

  /** Two views have the same fingerprint exactly when they show the same nodes, in whatever order. */
  lemma FingerprintExact(v: View, w: View)
    requires OwnNames(v)
    ensures Fingerprint(v) == Fingerprint(w) <==> multiset(StillNodes(v.nodes)) == multiset(StillNodes(w.nodes))
  {
    ByNameTotal();
    var x, y := StillNodes(v.nodes), StillNodes(w.nodes);
    SortSorts(ByName(), x);
    SortSorts(ByName(), y);
    if multiset(x) == multiset(y) {
      StillNodesNoTies(v);
      assert forall s :: s in Sort(ByName(), x) ==> s in multiset(Sort(ByName(), x));
      assert forall s :: s in multiset(x) ==> s in x;
      SortedUnique(ByName(), Sort(ByName(), x), Sort(ByName(), y));
    }
  }

  /** When the view was built, and when its sessions were last updated, make no difference. */
  lemma {:induction false} ClocksUnseen(v: View, w: View)
    requires |v.nodes| == |w.nodes| && forall i :: 0 <= i < |v.nodes| ==> Alike(v.nodes[i], w.nodes[i])
    requires OwnNames(v)
    ensures Fingerprint(v) == Fingerprint(w)
  {
    var x, y := StillNodes(v.nodes), StillNodes(w.nodes);
    forall i | 0 <= i < |x| ensures x[i] == y[i] {
      StillNodesAt(v.nodes, i);
      StillNodesAt(w.nodes, i);
      AlikeExact(v.nodes[i], w.nodes[i]);
    }
    assert x == y;
  }

  // ---- field by field ----

  /** What a page shows of some sessions. */
  function Pairs(ss: seq<Session>): (r: seq<(string, string)>)
    ensures |r| == |ss|
  {
    seq(|ss|, i requires 0 <= i < |ss| => (ss[i].id, ss[i].shown))
  }

  /** The same node: name, rendered fields, and the ids and rendered fields of its sessions in any order. */
  ghost predicate Twin(a: Node, b: Node) {
    a.name == b.name && a.shown == b.shown && multiset(Pairs(a.sessions)) == multiset(Pairs(b.sessions))
  }

  /** The same view: as many nodes, each with its twin. */
  ghost predicate SameView(v: View, w: View) {
    && |v.nodes| == |w.nodes|
    && forall i :: 0 <= i < |v.nodes| ==> exists j :: 0 <= j < |w.nodes| && Twin(v.nodes[i], w.nodes[j])
  }

  lemma CountFirst<T>(x: T, rest: seq<T>, t: T)
    ensures multiset([x] + rest)[t] == multiset(rest)[t] + if x == t then 1 else 0
  {}

  lemma TakeFirst(ss: seq<Session>)
    ensures ss == [] ==> Pairs(ss) == [] && Stills(ss) == []
    ensures ss != [] ==> Pairs(ss) == [(ss[0].id, ss[0].shown)] + Pairs(ss[1..])
    ensures ss != [] ==> Stills(ss) == [Still(ss[0])] + Stills(ss[1..])
  {}

  lemma {:induction false} PairCount(ss: seq<Session>, s: Session)
    ensures s.updatedAt == 0 ==> multiset(Stills(ss))[s] == multiset(Pairs(ss))[(s.id, s.shown)]
    ensures s.updatedAt != 0 ==> multiset(Stills(ss))[s] == 0
  {
    hide Pairs; hide Stills;
    TakeFirst(ss);
    if ss != [] {
      var rest := ss[1..];
      PairCount(rest, s);
      CountFirst((ss[0].id, ss[0].shown), Pairs(rest), (s.id, s.shown));
      CountFirst(Still(ss[0]), Stills(rest), s);
    }
  }

  lemma SamePairs(a: seq<Session>, b: seq<Session>)
    ensures multiset(Stills(a)) == multiset(Stills(b)) <==> multiset(Pairs(a)) == multiset(Pairs(b))
  {
    var p, q := multiset(Pairs(a)), multiset(Pairs(b));
    if multiset(Stills(a)) == multiset(Stills(b)) {
      forall x ensures p[x] == q[x] {
        PairCount(a, Session(x.0, 0, x.1));
        PairCount(b, Session(x.0, 0, x.1));
      }
      assert p == q;
    }
    if p == q {
      forall s ensures multiset(Stills(a))[s] == multiset(Stills(b))[s] {
        PairCount(a, s);
        PairCount(b, s);
      }
      assert multiset(Stills(a)) == multiset(Stills(b));
    }
  }

  /** Nodes that are stripped alike are twins. */
  lemma StrippedAlike(a: Node, b: Node)
    requires StillNode(a) == StillNode(b)
    ensures Twin(a, b)
  {
    ByIdTotal();
    SortSorts(ById(), Stills(a.sessions));
    SortSorts(ById(), Stills(b.sessions));
    SamePairs(a.sessions, b.sessions);
  }

  lemma TwinsStripped(a: Node, b: Node)
    requires Twin(a, b) && OwnIds(a.sessions)
    ensures StillNode(a) == StillNode(b)
  {
    SamePairs(a.sessions, b.sessions);
    AlikeExact(a, b);
  }

  /** What has one fingerprint shows the same. */
  lemma FingerprintShows(v: View, w: View)
    requires Fingerprint(v) == Fingerprint(w)
    ensures SameView(v, w)
  {
    ByNameTotal();
    var x, y := StillNodes(v.nodes), StillNodes(w.nodes);
    SortSorts(ByName(), x);
    SortSorts(ByName(), y);
    hide Sort; hide TotalOrder; hide Sorted; hide StillNodes; hide StillNode; hide Twin; hide Fingerprint;
    assert |multiset(x)| == |x| && |multiset(y)| == |y|;
    forall i | 0 <= i < |v.nodes| ensures exists j :: 0 <= j < |w.nodes| && Twin(v.nodes[i], w.nodes[j]) {
      assert x[i] in multiset(y);
      var j :| 0 <= j < |y| && y[j] == x[i];
      StillNodesAt(v.nodes, i);
      StillNodesAt(w.nodes, j);
      StrippedAlike(v.nodes[i], w.nodes[j]);
    }
  }

  lemma {:induction false} CountOnce<T>(s: seq<T>, x: T)
    requires forall i, j :: 0 <= i < j < |s| ==> s[i] != s[j]
    ensures multiset(s)[x] == if x in s then 1 else 0
  {
    if s != [] {
      CountOnce(s[1..], x);
      assert s == [s[0]] + s[1..];
    }
  }

  lemma SameElementsOnce<T>(x: seq<T>, y: seq<T>)
    requires |x| == |y| && (forall i, j :: 0 <= i < j < |x| ==> x[i] != x[j]) && forall i :: 0 <= i < |x| ==> x[i] in y
    ensures multiset(x) == multiset(y)
  {
    var p, q := multiset(x), multiset(y);
    forall e ensures p[e] <= q[e] { CountOnce(x, e); }
    assert p <= q && |p| == |x| && |q| == |y|;
    assert |q - p| == 0;
    assert q == p + (q - p);
  }

  /** Two views have one fingerprint exactly when they show the same nodes, with the same sessions. */
  lemma FingerprintIs(v: View, w: View)
    requires OwnNames(v)
    ensures Fingerprint(v) == Fingerprint(w) <==> SameView(v, w)
  {
    if Fingerprint(v) == Fingerprint(w) {
      FingerprintShows(v, w);
    } else if SameView(v, w) {
      FingerprintExact(v, w);
      var x, y := StillNodes(v.nodes), StillNodes(w.nodes);
      hide StillNodes; hide StillNode; hide Twin; hide Fingerprint; hide OwnIds;
      forall i | 0 <= i < |x| ensures x[i] in y && x[i].name == v.nodes[i].name {
        var j :| 0 <= j < |w.nodes| && Twin(v.nodes[i], w.nodes[j]);
        StillNodesAt(v.nodes, i);
        StillNodesAt(w.nodes, j);
        TwinsStripped(v.nodes[i], w.nodes[j]);
        StrippedName(v.nodes[i]);
      }
      SameElementsOnce(x, y);
    }
  }

  lemma StrippedName(n: Node)
    ensures StillNode(n).name == n.name
  {}
}
