/** Published releases: sets of components per tool, version and platform, of which the newest versions are kept. */
module Releases {
  import opened Basics
  import opened Sorting

  const KEEP_VERSIONS := 3

  datatype Key = Key(tool: string, version: string, platform: string, component: string)
  {
    /** The string a release is stored under. */
    function Text(): string { tool + NUL + version + NUL + platform + NUL + component }
  }

  const NUL: string := "\0"

  datatype Release = Release(tool: string, component: string, version: string, platform: string, sha256: string,
                             size: nat, published: int)
  {
    function Of(): Key { Key(tool, version, platform, component) }
  }

  /** Two releases share an entry only if they are the same component of the same set. */
  lemma TextInjective(k: Key, l: Key)
    requires '\0' !in k.tool && '\0' !in k.version && '\0' !in k.platform
    requires '\0' !in l.tool && '\0' !in l.version && '\0' !in l.platform
    requires k.Text() == l.Text()
    ensures k == l
  {
    var u, v := k.platform + NUL + k.component, l.platform + NUL + l.component;
    assert k.Text() == k.tool + NUL + (k.version + NUL + u);
    assert l.Text() == l.tool + NUL + (l.version + NUL + v);
    CutOnce('\0', k.tool, k.version + NUL + u, l.tool, l.version + NUL + v);
    CutOnce('\0', k.version, u, l.version, v);
    CutOnce('\0', k.platform, k.component, l.platform, l.component);
  }

  type Rels = map<Key, Release>

  /** Entries are stored under their own key. */
  ghost predicate Keyed(m: Rels) { forall k :: k in m ==> m[k].Of() == k }

  /** Releases are pruned, and looked up, per tool and platform. */
  datatype Group = Group(tool: string, platform: string)

  predicate In(r: Release, g: Group) { r.tool == g.tool && r.platform == g.platform }

  function GroupOf(r: Release): Group { Group(r.tool, r.platform) }

  function Versions(m: Rels, g: Group): set<string> { set k | k in m && In(m[k], g) :: m[k].version }

  /** Of version v, some release is at least as recent as every release of version w. */
  ghost predicate Outlasts(m: Rels, g: Group, v: string, w: string) {
    exists k :: k in m && In(m[k], g) && m[k].version == v
      && forall l :: l in m && In(m[l], g) && m[l].version == w ==> m[l].published <= m[k].published
  }

  /** now keeps of a group exactly the versions in kept, whole, and the entries whose files are stuck. */
  ghost predicate KeepsExactly(was: Rels, now: Rels, g: Group, kept: set<string>, stuck: set<Key>) {
    forall k :: k in was && In(was[k], g) ==> (k in now <==> was[k].version in kept || k in stuck)
  }

  /** The versions kept are the most recent, three if there are that many. */
  ghost predicate Newest(m: Rels, g: Group, kept: set<string>) {
    && kept <= Versions(m, g)
    && |kept| == (if |Versions(m, g)| <= KEEP_VERSIONS then |Versions(m, g)| else KEEP_VERSIONS)
    && forall v, w :: v in kept && w in Versions(m, g) && w !in kept ==> Outlasts(m, g, v, w)
  }

  ghost predicate Pruned(was: Rels, now: Rels, g: Group, stuck: set<Key>) {
    exists kept :: Newest(was, g, kept) && KeepsExactly(was, now, g, kept, stuck)
  }

  ghost predicate AllPruned(was: Rels, now: Rels, stuck: set<Key>) { forall g :: Pruned(was, now, g, stuck) }

  function ByTime(): (Release, Release) -> bool { (a: Release, b: Release) => a.published >= b.published }

  function ByComponent(): (Release, Release) -> bool { (a: Release, b: Release) => StringLeq(a.component, b.component) }

  function VersionsIn(s: seq<Release>): set<string> { set r | r in s :: r.version }

  /** list holds the releases of a group, each once or more. */
  ghost predicate Lists(m: Rels, g: Group, list: seq<Release>) {
    && (forall r :: r in list ==> In(r, g) && r.Of() in m && m[r.Of()] == r)
    && (forall k :: k in m && In(m[k], g) ==> m[k] in list)
  }

  lemma VersionsListed(m: Rels, g: Group, list: seq<Release>)
    requires Lists(m, g, list) && Keyed(m)
    ensures VersionsIn(list) == Versions(m, g)
  {
    forall v | v in VersionsIn(list) ensures v in Versions(m, g) {
      var r :| r in list && r.version == v;
      assert r.Of() in m && In(m[r.Of()], g);
    }
    forall v | v in Versions(m, g) ensures v in VersionsIn(list) {
      var k :| k in m && In(m[k], g) && m[k].version == v;
      assert m[k] in list;
    }
  }

  /** Where the walk over a group's releases, newest first, stands after i of them: it has kept the versions of the
      first full ones, and dropped what was of none of those. */
  ghost predicate Walked(s: seq<Release>, i: nat, keep: set<string>, full: nat, doomed: set<Key>) {
    && full <= i <= |s| && keep == VersionsIn(s[..full]) && |keep| <= KEEP_VERSIONS
    && (full < i ==> |keep| == KEEP_VERSIONS && s[full].version !in keep)
    && doomed == (set j | 0 <= j < i && s[j].version !in keep :: s[j].Of())
  }

  lemma WalkKeep(s: seq<Release>, i: nat, keep: set<string>, full: nat, doomed: set<Key>)
    requires Walked(s, i, keep, full, doomed) && i < |s| && (|keep| < KEEP_VERSIONS || s[i].version in keep)
    ensures Walked(s, i + 1, keep + {s[i].version}, if full == i then i + 1 else full, doomed)
  {
    if full == i {
      assert s[..i + 1] == s[..i] + [s[i]];
      assert VersionsIn(s[..i + 1]) == VersionsIn(s[..i]) + {s[i].version};
      forall j | 0 <= j < i ensures s[j].version in keep { assert s[j] in s[..full]; }
      assert doomed == {};
    } else {
      assert keep + {s[i].version} == keep;
    }
  }

  lemma WalkDrop(s: seq<Release>, i: nat, keep: set<string>, full: nat, doomed: set<Key>)
    requires Walked(s, i, keep, full, doomed) && i < |s| && |keep| >= KEEP_VERSIONS && s[i].version !in keep
    ensures Walked(s, i + 1, keep, full, doomed + {s[i].Of()})
  {}

  /** At the end, the doomed are exactly the releases of versions that were not kept. */
  lemma WalkDoomed(m: Rels, g: Group, s: seq<Release>, keep: set<string>, full: nat, doomed: set<Key>)
    requires Keyed(m) && Lists(m, g, s) && Walked(s, |s|, keep, full, doomed)
    ensures forall k :: k in doomed <==> k in m && In(m[k], g) && m[k].version !in keep
  {
    forall k | k in doomed ensures k in m && In(m[k], g) && m[k].version !in keep {
      var j :| 0 <= j < |s| && s[j].version !in keep && s[j].Of() == k;
      assert s[j] in s;
    }
    forall k | k in m && In(m[k], g) && m[k].version !in keep ensures k in doomed {
      var j :| 0 <= j < |s| && s[j] == m[k];
    }
  }

  /** And those that were kept are the newest. */
  lemma WalkEnd(m: Rels, g: Group, s: seq<Release>, keep: set<string>, full: nat, doomed: set<Key>)
    requires Keyed(m) && Lists(m, g, s) && Sorted(ByTime(), s) && Walked(s, |s|, keep, full, doomed)
    requires |Versions(m, g)| > KEEP_VERSIONS
    ensures Newest(m, g, keep)
  {
    VersionsListed(m, g, s);
    assert s[..|s|] == s;
    assert keep <= Versions(m, g) && |keep| == KEEP_VERSIONS by {
      hide Versions; hide Sorted;
      assert forall r :: r in s[..full] ==> r in s;
    }
    hide Lists; hide Walked; hide Sorted; hide Outlasts;
    forall v, w | v in keep && w in Versions(m, g) && w !in keep ensures Outlasts(m, g, v, w) {
      WalkOutlasts(m, g, s, keep, full, doomed, v, w);
    }
  }

  lemma WalkOutlasts(m: Rels, g: Group, s: seq<Release>, keep: set<string>, full: nat, doomed: set<Key>, v: string,
                     w: string)
    requires Keyed(m) && Lists(m, g, s) && Sorted(ByTime(), s) && Walked(s, |s|, keep, full, doomed) && v in keep && w !in keep
    ensures Outlasts(m, g, v, w)
  {
    var r :| r in s[..full] && r.version == v;
    var j :| 0 <= j < full && s[j] == r;
    assert r in s;
    forall a | 0 <= a < full ensures s[a].version in keep { assert s[a] in s[..full]; }
    forall l | l in m && In(m[l], g) && m[l].version == w ensures m[l].published <= r.published {
      var n :| 0 <= n < |s| && s[n] == m[l];
      assert ByTime()(s[j], s[n]);
    }
    assert r.Of() in m && m[r.Of()] == r;
  }

  lemma ByTimeTotal()
    ensures TotalOrder(ByTime())
  {}

  lemma ByComponentTotal()
    ensures TotalOrder(ByComponent())
  {
    forall a: Release, b: Release ensures ByComponent()(a, b) || ByComponent()(b, a) { StringTotal(a.component, b.component); }
    forall a: Release, b: Release, c: Release | ByComponent()(a, b) && ByComponent()(b, c) ensures ByComponent()(a, c) {
      StringTransitive(a.component, b.component, c.component);
    }
  }

  lemma SortLists(m: Rels, g: Group, list: seq<Release>)
    requires Lists(m, g, list)
    ensures Lists(m, g, Sort(ByTime(), list)) && Sorted(ByTime(), Sort(ByTime(), list))
  {
    ByTimeTotal();
    SortSorts(ByTime(), list);
    var s := Sort(ByTime(), list);
    hide Sort; hide TotalOrder; hide Sorted;
    SameElements(list, s);
  }

  lemma SameElements<T>(a: seq<T>, b: seq<T>)
    requires multiset(a) == multiset(b)
    ensures forall x :: x in a <==> x in b
  {
    assert forall x :: x in a <==> x in multiset(a);
    assert forall x :: x in b <==> x in multiset(b);
  }

  // ---- the store ----

  class Store {
    var rels: Rels

    ghost predicate Valid()
      reads this
    {
      Keyed(rels) && forall k :: k in rels ==> k.version != ""
    }

    constructor ()
      ensures Valid() && rels == map[]
    {
      rels := map[];
    }

    /** The releases of a group, in whatever order the map is walked. */
    method Members(g: Group) returns (list: seq<Release>)
      requires Valid()
      ensures Lists(rels, g, list)
      ensures forall i, j :: 0 <= i < j < |list| ==> list[i] != list[j]
    {
      list := [];
      var rest := rels.Keys;
      while rest != {}
        invariant rest <= rels.Keys
        invariant forall r :: r in list ==> In(r, g) && r.Of() in rels && rels[r.Of()] == r && r.Of() !in rest
        invariant forall k :: k in rels && In(rels[k], g) && k !in rest ==> rels[k] in list
        invariant forall i, j :: 0 <= i < j < |list| ==> list[i] != list[j]
        decreases |rest|
      {
        var k :| k in rest;
        rest := rest - {k};
        if In(rels[k], g) {
          list := list + [rels[k]];
        }
      }
    }

    /** One turn of prune: the versions of one group. Files that cannot be removed keep their entries. */
    method PruneGroup(g: Group, stuck: set<Key>)
      requires Valid()
      modifies this
      ensures Valid() && Kept(old(rels), rels)
      ensures forall k :: k in old(rels) && !In(old(rels)[k], g) ==> k in rels
      ensures Pruned(old(rels), rels, g, stuck)
    {
      var list := Members(g);
      VersionsListed(rels, g, list);
      var seen := VersionsIn(list);
      if |seen| <= KEEP_VERSIONS {
        assert Newest(rels, g, seen) && KeepsExactly(rels, rels, g, seen, stuck);
        return;
      }
      SortLists(rels, g, list);
      var keep, doomed := Walk(Sort(ByTime(), list), g);
      ghost var was := rels;
      Delete(doomed, stuck);
      assert KeepsExactly(was, rels, g, keep, stuck);
    }

    /** Newest first: keep releases until three versions are kept, and then only more of those. */
    method Walk(sorted: seq<Release>, g: Group) returns (keep: set<string>, doomed: set<Key>)
      requires Valid() && Lists(rels, g, sorted) && Sorted(ByTime(), sorted) && |Versions(rels, g)| > KEEP_VERSIONS
      ensures Newest(rels, g, keep)
      ensures forall k :: k in doomed <==> k in rels && In(rels[k], g) && rels[k].version !in keep
    {
      keep, doomed := {}, {};
      ghost var full := 0;
      for i := 0 to |sorted|
        invariant Walked(sorted, i, keep, full, doomed)
      {
        var r := sorted[i];
        if |keep| < KEEP_VERSIONS || r.version in keep {
          WalkKeep(sorted, i, keep, full, doomed);
          full := if full == i then i + 1 else full;
          keep := keep + {r.version};
          continue;
        }
        WalkDrop(sorted, i, keep, full, doomed);
        doomed := doomed + {r.Of()};
      }
      WalkDoomed(rels, g, sorted, keep, full, doomed);
      WalkEnd(rels, g, sorted, keep, full, doomed);
    }

    method Delete(doomed: set<Key>, stuck: set<Key>)
      requires Valid()
      modifies this
      ensures Valid() && rels == old(rels) - (doomed - stuck)
    {
      var rest := doomed;
      while rest != {}
        invariant rest <= doomed && rels == old(rels) - (doomed - rest - stuck)
        decreases |rest|
      {
        var k :| k in rest;
        rest := rest - {k};
        if k in stuck {
          continue;
        }
        rels := rels - {k};
      }
    }

    /** prune. */
    method Prune(stuck: set<Key>)
      requires Valid()
      modifies this
      ensures Valid() && Kept(old(rels), rels)
      ensures AllPruned(old(rels), rels, stuck)
    {
      hide Pruned; hide Newest; hide Versions;
      ghost var was := rels;
      var groups := set k | k in rels :: GroupOf(rels[k]);
      ghost var done: set<Group> := {};
      ghost var all := groups;
      while groups != {}
        invariant Valid() && Kept(was, rels) && groups == all - done && done <= all
        invariant forall k :: k in was && GroupOf(was[k]) !in done ==> k in rels
        invariant forall g :: g in done ==> Pruned(was, rels, g, stuck)
        decreases |groups|
      {
        var g :| g in groups;
        groups := groups - {g};
        ghost var mid := rels;
        PruneGroup(g, stuck);
        PruneNext(was, mid, rels, g, done, stuck);
        done := done + {g};
      }
      forall g | g !in all ensures Pruned(was, rels, g, stuck) { NothingToPrune(was, rels, g, stuck); }
    }

    /** PublishComponent, once the bytes are in place. */
    method Publish(rel: Release, stuck: set<Key>)
      requires Valid() && rel.version != "" && rel.platform != ""
      modifies this
      ensures Valid() && Kept(old(rels)[rel.Of() := rel], rels)
      ensures AllPruned(old(rels)[rel.Of() := rel], rels, stuck)
    {
      rels := rels[rel.Of() := rel];
      Prune(stuck);
    }

    /** GetComponent. */
    method Get(tool: string, component: string, version: string, platform: string) returns (r: Option<Release>)
      requires Valid()
      ensures r.Some? <==> Key(tool, version, platform, component) in rels
      ensures r.Some? ==> r.value.Of() == Key(tool, version, platform, component)
    {
      var k := Key(tool, version, platform, component);
      if k !in rels {
        return None;
      }
      return Some(rels[k]);
    }

    /** The most recent release of a group; ties go to whichever is met first. */
    method Best(g: Group) returns (best: Option<Release>)
      requires Valid()
      ensures best.None? <==> Versions(rels, g) == {}
      ensures best.Some? ==> best.value.Of() in rels && rels[best.value.Of()] == best.value && In(best.value, g)
      ensures best.Some? ==> forall k :: k in rels && In(rels[k], g) ==> rels[k].published <= best.value.published
    {
      best := None;
      var rest := rels.Keys;
      while rest != {}
        invariant rest <= rels.Keys
        invariant best.None? ==> forall k :: k in rels && In(rels[k], g) ==> k in rest
        invariant best.Some? ==> best.value.Of() in rels && rels[best.value.Of()] == best.value && In(best.value, g)
        invariant best.Some? ==> forall k :: k in rels && In(rels[k], g) && k !in rest ==>
          rels[k].published <= best.value.published
        decreases |rest|
      {
        var k :| k in rest;
        rest := rest - {k};
        var rel := rels[k];
        if In(rel, g) {
          if best.None? || rel.published > best.value.published {
            best := Some(rel);
          }
        }
      }
      if best.Some? {
        assert best.value.version in Versions(rels, g);
      }
    }

    /** ToolSet: every component of one version, or of the newest when no version is asked for. */
    method ToolSet(tool: string, version: string, platform: string) returns (members: seq<Release>, ok: bool)
      requires Valid()
      ensures ok <==> members != []
      ensures Sorted(ByComponent(), members)
      ensures version != "" ==> IsSet(rels, Group(tool, platform), version, members)
      ensures version == "" ==> if Versions(rels, Group(tool, platform)) == {} then members == []
        else members != [] && NewestSet(rels, Group(tool, platform), members)
    {
      var g := Group(tool, platform);
      var newest := version;
      if newest == "" {
        var best := Best(g);
        if best.Some? {
          newest := best.value.version;
        }
      }
      if newest == "" {
        return [], false;
      }
      members := Components(g, newest);
      ghost var unsorted := members;
      ByComponentTotal();
      SortSorts(ByComponent(), members);
      SameElements(members, Sort(ByComponent(), members));
      members := Sort(ByComponent(), members);
      ok := |members| > 0;
    }

    method Components(g: Group, version: string) returns (members: seq<Release>)
      requires Valid()
      ensures IsSet(rels, g, version, members)
    {
      members := [];
      var rest := rels.Keys;
      while rest != {}
        invariant rest <= rels.Keys
        invariant forall r :: r in members ==> In(r, g) && r.version == version && r.Of() in rels && rels[r.Of()] == r
        invariant forall k :: k in rels && In(rels[k], g) && rels[k].version == version && k !in rest ==>
          rels[k] in members
        decreases |rest|
      {
        var k :| k in rest;
        rest := rest - {k};
        if In(rels[k], g) && rels[k].version == version {
          members := members + [rels[k]];
        }
      }
    }
  }

  /** members are all the releases of one version of a group. */
  ghost predicate IsSet(m: Rels, g: Group, version: string, members: seq<Release>) {
    && (forall r :: r in members ==> In(r, g) && r.version == version && r.Of() in m && m[r.Of()] == r)
    && (forall k :: k in m && In(m[k], g) && m[k].version == version ==> m[k] in members)
  }

  /** members are all the releases of a version that holds the newest publish time of its group. */
  ghost predicate NewestSet(m: Rels, g: Group, members: seq<Release>) {
    exists r :: r in members && IsSet(m, g, r.version, members) && forall k :: k in m && In(m[k], g) ==> m[k].published <= r.published
  }

  /** Field by field: the set holds the releases of that tool, platform and version, and no others, in the order of
      their components' names. */
  lemma SetMeans(m: Rels, tool: string, platform: string, version: string, members: seq<Release>)
    requires IsSet(m, Group(tool, platform), version, members) && Sorted(ByComponent(), members)
    ensures forall r :: r in members ==> r.tool == tool && r.platform == platform && r.version == version
    ensures forall k :: k in m && m[k].tool == tool && m[k].platform == platform && m[k].version == version ==> m[k] in members
    ensures forall i, j :: 0 <= i < j < |members| ==> StringLeq(members[i].component, members[j].component)
  {
    forall i, j | 0 <= i < j < |members| ensures StringLeq(members[i].component, members[j].component) {
      assert ByComponent()(members[i], members[j]);
    }
  }

  /** And it is of a version that holds the newest publish time of that tool and platform. */
  lemma NewestMeans(m: Rels, tool: string, platform: string, members: seq<Release>) returns (r: Release)
    requires NewestSet(m, Group(tool, platform), members)
    ensures r in members && IsSet(m, Group(tool, platform), r.version, members)
    ensures forall k :: k in m && m[k].tool == tool && m[k].platform == platform ==> m[k].published <= r.published
  {
    var g := Group(tool, platform);
    r :| r in members && IsSet(m, g, r.version, members) && forall k :: k in m && In(m[k], g) ==> m[k].published <= r.published;
  }

  lemma NothingToPrune(was: Rels, now: Rels, g: Group, stuck: set<Key>)
    requires forall k :: k in was ==> !In(was[k], g)
    ensures Pruned(was, now, g, stuck)
  {
    assert Versions(was, g) == {};
    assert Newest(was, g, {}) && KeepsExactly(was, now, g, {}, stuck);
  }

  /** Pruning one group leaves the others as they were. */
  lemma PruneNext(was: Rels, mid: Rels, now: Rels, g: Group, done: set<Group>, stuck: set<Key>)
    requires Kept(was, mid) && Kept(mid, now) && g !in done
    requires forall k :: k in was && GroupOf(was[k]) !in done ==> k in mid
    requires forall k :: k in mid && !In(mid[k], g) ==> k in now
    requires Pruned(mid, now, g, stuck) && forall h :: h in done ==> Pruned(was, mid, h, stuck)
    ensures Kept(was, now)
    ensures forall k :: k in was && GroupOf(was[k]) !in done + {g} ==> k in now
    ensures forall h :: h in done + {g} ==> Pruned(was, now, h, stuck)
  {
    PruneHere(was, mid, now, g, done, stuck);
    forall h | h in done ensures Pruned(was, now, h, stuck) { PruneThere(was, mid, now, g, h, stuck); }
  }

  lemma PruneHere(was: Rels, mid: Rels, now: Rels, g: Group, done: set<Group>, stuck: set<Key>)
    requires Kept(was, mid) && g !in done && Pruned(mid, now, g, stuck)
    requires forall k :: k in was && GroupOf(was[k]) !in done ==> k in mid
    ensures Pruned(was, now, g, stuck)
  {
    var kept :| Newest(mid, g, kept) && KeepsExactly(mid, now, g, kept, stuck);
    assert forall k :: k in was && In(was[k], g) ==> GroupOf(was[k]) == g && k in mid;
    assert Versions(was, g) == Versions(mid, g);
    forall v, w | v in kept && w in Versions(was, g) && w !in kept ensures Outlasts(was, g, v, w) {
      assert Outlasts(mid, g, v, w);
    }
    assert Newest(was, g, kept) && KeepsExactly(was, now, g, kept, stuck);
  }

  lemma PruneThere(was: Rels, mid: Rels, now: Rels, g: Group, h: Group, stuck: set<Key>)
    requires Kept(was, mid) && Kept(mid, now) && h != g && Pruned(was, mid, h, stuck)
    requires forall k :: k in mid && !In(mid[k], g) ==> k in now
    ensures Pruned(was, now, h, stuck)
  {
    var kept :| Newest(was, h, kept) && KeepsExactly(was, mid, h, kept, stuck);
    assert KeepsExactly(was, now, h, kept, stuck);
  }

  // ---- what pruning means for what can be installed ----

  /** No version is left in part: of the releases of one version for one tool and platform, all are left or none. */
  lemma SetsStayWhole(was: Rels, now: Rels, k: Key, l: Key)
    requires k in was && l in was && Pruned(was, now, Group(was[k].tool, was[k].platform), {}) && Kept(was, now)
    requires was[k].tool == was[l].tool && was[k].platform == was[l].platform && was[k].version == was[l].version
    ensures k in now <==> l in now
  {
    var g := Group(was[k].tool, was[k].platform);
    var kept :| Newest(was, g, kept) && KeepsExactly(was, now, g, kept, {});
  }

  /** At most three versions are left of a tool for a platform. */
  lemma AtMostThree(was: Rels, now: Rels, tool: string, platform: string)
    requires Pruned(was, now, Group(tool, platform), {}) && Kept(was, now)
    ensures |set k | k in now && now[k].tool == tool && now[k].platform == platform :: now[k].version| <= 3
  {
    var g := Group(tool, platform);
    var kept :| Newest(was, g, kept) && KeepsExactly(was, now, g, kept, {});
    var left := set k | k in now && now[k].tool == tool && now[k].platform == platform :: now[k].version;
    assert left <= kept;
    SubsetSize(left, kept);
  }

  /** Of the tool and platform of r, version v has a release at least as recent as r. */
  ghost predicate Lives(now: Rels, r: Release, v: string) {
    exists l ::
      && l in now && now[l].tool == r.tool && now[l].platform == r.platform && now[l].version == v
      && now[l].published >= r.published
  }

  /** What goes is older than three versions that stay: each has a release at least as recent as this one. */
  lemma DroppedIsOlder(was: Rels, now: Rels, k: Key) returns (kept: set<string>)
    requires k in was && k !in now && Pruned(was, now, Group(was[k].tool, was[k].platform), {}) && Kept(was, now)
    ensures |kept| == 3 && was[k].version !in kept
    ensures forall v :: v in kept ==> Lives(now, was[k], v)
  {
    var g := Group(was[k].tool, was[k].platform);
    kept :| Newest(was, g, kept) && KeepsExactly(was, now, g, kept, {});
    assert was[k].version in Versions(was, g);
    if kept == Versions(was, g) { assert false; }
    if |Versions(was, g)| <= KEEP_VERSIONS { SubsetSize(kept, Versions(was, g)); SameSize(kept, Versions(was, g)); }
    forall v | v in kept ensures Lives(now, was[k], v) {
      var l := Outlasting(was, g, v, was[k].version, k);
      assert l in now;
    }
  }

  lemma SameSize<T>(a: set<T>, b: set<T>)
    requires a <= b && |a| == |b|
    ensures a == b
  {
    assert |b - a| == 0;
  }

  /** For the same tool and platform, but another version. */
  predicate Rivals(q: Release, r: Release) { q.tool == r.tool && q.platform == r.platform && q.version != r.version }

  /** A release more recent than every release of any other version of its tool and platform is never pruned. */
  lemma NewestSurvives(was: Rels, now: Rels, k: Key, stuck: set<Key>)
    requires k in was && Pruned(was, now, Group(was[k].tool, was[k].platform), stuck)
    requires forall l :: l in was && Rivals(was[l], was[k]) ==> was[l].published < was[k].published
    ensures k in now
  {
    var g := Group(was[k].tool, was[k].platform);
    var kept :| Newest(was, g, kept) && KeepsExactly(was, now, g, kept, stuck);
    var w := was[k].version;
    assert w in Versions(was, g) && |Versions(was, g)| >= 1;
    if w !in kept {
      var v :| v in kept;
      var l := Outlasting(was, g, v, w, k);
    }
  }

  lemma Outlasting(m: Rels, g: Group, v: string, w: string, k: Key) returns (l: Key)
    requires Outlasts(m, g, v, w) && k in m && In(m[k], g) && m[k].version == w
    ensures l in m && In(m[l], g) && m[l].version == v && m[k].published <= m[l].published
  {
    l :| l in m && In(m[l], g) && m[l].version == v
      && forall x :: x in m && In(m[x], g) && m[x].version == w ==> m[x].published <= m[l].published;
  }

  /** So publishing something newer than every other version makes it what a node is told to install, with everything of its version. */
  lemma PublishedIsInstalled(was: Rels, now: Rels, rel: Release, members: seq<Release>, stuck: set<Key>)
    requires Keyed(was) && Kept(was[rel.Of() := rel], now) && Pruned(was[rel.Of() := rel], now, GroupOf(rel), stuck)
    requires forall l :: l in was && Rivals(was[l], rel) ==> was[l].published < rel.published
    requires NewestSet(now, GroupOf(rel), members)
    ensures rel in members && IsSet(now, GroupOf(rel), rel.version, members)
  {
    var g, put := GroupOf(rel), was[rel.Of() := rel];
    NewestSurvives(put, now, rel.Of(), stuck);
    var r :| r in members && IsSet(now, g, r.version, members) && forall k :: k in now && In(now[k], g) ==> now[k].published <= r.published;
    assert now[rel.Of()] == rel;
    assert r.Of() in now && now[r.Of()] == r;
  }

  /** Nothing is added or changed. */
  ghost predicate Kept(was: Rels, now: Rels) { forall k :: k in now ==> k in was && now[k] == was[k] }
}
