/** The merged mission log, newest first, served a page at a time. */
module MissionLog {
  import opened Basics
  import opened Sorting

  /** One line of some project's log; ts is its date in seconds, or zero when it has none. */
  datatype Entry = Entry(id: string, ts: int, text: string)
  {
    function Place(): Key { Key(ts, id) }
  }

  /** Where an entry stands: by date, newest first, then by id. */
  datatype Key = Key(ts: int, id: string)

  predicate KeyLeq(a: Key, b: Key) { a.ts > b.ts || (a.ts == b.ts && StringLeq(a.id, b.id)) }

  function ByKey(): (Entry, Entry) -> bool { (a: Entry, b: Entry) => KeyLeq(a.Place(), b.Place()) }

  lemma KeyTotal(a: Key, b: Key)
    ensures KeyLeq(a, b) || KeyLeq(b, a)
    ensures KeyLeq(a, b) && KeyLeq(b, a) ==> a == b
  {
    StringTotal(a.id, b.id);
  }

  lemma KeyTransitive(a: Key, b: Key, c: Key)
    requires KeyLeq(a, b) && KeyLeq(b, c)
    ensures KeyLeq(a, c)
  {
    if a.ts == b.ts == c.ts { StringTransitive(a.id, b.id, c.id); }
  }

  lemma ByKeyTotal()
    ensures TotalOrder(ByKey())
  {
    forall a: Entry, b: Entry ensures ByKey()(a, b) || ByKey()(b, a) { KeyTotal(a.Place(), b.Place()); }
    forall a: Entry, b: Entry, c: Entry | ByKey()(a, b) && ByKey()(b, c) ensures ByKey()(a, c) {
      KeyTransitive(a.Place(), b.Place(), c.Place());
    }
  }

  datatype Cursor = Cursor(dir: string, key: Key)

  const BLANK := Key(0, "")

  lemma LogSorted(all: seq<Entry>)
    ensures Sorted(ByKey(), Sort(ByKey(), all))
  {
    ByKeyTotal();
    SortSorts(ByKey(), all);
  }

  /** A cursor with no date and no id reads as no cursor at all. */
  predicate Past(cur: Key, k: Key) { cur == BLANK || !KeyLeq(k, cur) }

  /** The entries past a cursor, in the same order. */
  function PastOf(s: seq<Entry>, cur: Key): (r: seq<Entry>)
    ensures |r| <= |s|
  {
    if s == [] then [] else (if Past(cur, s[0].Place()) then [s[0]] else []) + PastOf(s[1..], cur)
  }

  /** clamped says that the page was cut short by the limit. */
  datatype Page = Page(entries: seq<Entry>, clamped: bool, next: Cursor, tail: Option<Cursor>)

  datatype Result<+T> = Ok(value: T) | Gone

  /** How many entries a request gets: fifty unless it says, and never more than two hundred. */
  function PageSize(asked: Option<int>): (n: nat)
    ensures 1 <= n <= 200
    ensures asked.Some? && 1 <= asked.value <= 200 ==> n == asked.value
    ensures asked.None? || asked.value < 1 ==> n == 50
    ensures asked.Some? && asked.value > 200 ==> n == 200
  {
    if asked.Some? && asked.value > 0 then (if asked.value < 200 then asked.value else 200) else 50
  }

  /** The entries of a page: of the merged log in order, the first limit past the cursor. */
  function Entries(all: seq<Entry>, limit: nat, cur: Key): seq<Entry> { First(PastOf(Sort(ByKey(), all), cur), limit) }

  function NextKey(page: seq<Entry>, cur: Key): Key { if page == [] then cur else page[|page| - 1].Place() }

  lemma {:induction false} DropsPrefix(s: seq<Entry>, cur: Key)
    requires Sorted(ByKey(), s) && s != [] && Past(cur, s[0].Place())
    ensures PastOf(s, cur) == s
  {
    assert s == [s[0]] + s[1..];
    if |s| > 1 {
      assert ByKey()(s[0], s[1]);
      if cur != BLANK && KeyLeq(s[1].Place(), cur) { KeyTransitive(s[0].Place(), s[1].Place(), cur); }
      assert Sorted(ByKey(), s[1..]);
      DropsPrefix(s[1..], cur);
    }
  }

  /** Drop entries from the front up to the cursor's. */
  method SkipTo(sorted: seq<Entry>, cur: Key) returns (rest: seq<Entry>)
    requires Sorted(ByKey(), sorted) && cur != BLANK
    ensures rest == PastOf(sorted, cur)
  {
    rest := sorted;
    while |rest| > 0
      invariant Sorted(ByKey(), rest) && PastOf(rest, cur) == PastOf(sorted, cur)
      decreases |rest|
    {
      var e := rest[0];
      if e.ts > cur.ts || (e.ts == cur.ts && StringLeq(e.id, cur.id)) {
        rest := rest[1..];
        continue;
      }
      DropsPrefix(rest, cur);
      break;
    }
  }

  /** Dates never rise, and within one date ids never fall. */
  ghost predicate NewestFirst(page: seq<Entry>) {
    forall i, j :: 0 <= i < j < |page| ==>
      page[j].ts < page[i].ts || (page[j].ts == page[i].ts && StringLeq(page[i].id, page[j].id))
  }

  /** Every page is in that order, and holds entries of the log. */
  lemma EntriesInOrder(all: seq<Entry>, limit: nat, cur: Key)
    ensures var page := Entries(all, limit, cur); NewestFirst(page) && forall e :: e in page ==> e in all
  {
    hide Sort; hide PastOf; hide StringLeq; hide Entries; hide Sorted; hide KeyLeq;
    LogSorted(all);
    var s, page := Sort(ByKey(), all), Entries(all, limit, cur);
    var d := PageIsPart(all, limit, cur);
    forall i, j | 0 <= i < j < |page| ensures KeyLeq(page[i].Place(), page[j].Place()) {
      SortedAt(s, d + i, d + j);
    }
    forall e | e in page ensures e in all {
      var i :| 0 <= i < |page| && page[i] == e;
      SortedFrom(all, d + i);
    }
    InOrder(page);
  }

  lemma InOrder(page: seq<Entry>)
    requires forall i, j :: 0 <= i < j < |page| ==> KeyLeq(page[i].Place(), page[j].Place())
    ensures NewestFirst(page)
  {
    hide StringLeq;
  }

  lemma SortedAt(s: seq<Entry>, i: nat, j: nat)
    requires Sorted(ByKey(), s) && i < j < |s|
    ensures KeyLeq(s[i].Place(), s[j].Place())
  {
    hide KeyLeq;
    assert ByKey()(s[i], s[j]);
  }

  lemma SortedFrom(all: seq<Entry>, i: nat)
    requires i < |Sort(ByKey(), all)|
    ensures Sort(ByKey(), all)[i] in all
  {
    ByKeyTotal();
    SortSorts(ByKey(), all);
    hide Sort; hide TotalOrder; hide Sorted;
    assert Sort(ByKey(), all)[i] in multiset(Sort(ByKey(), all));
  }

  /** A page is a stretch of the log in order. */
  lemma PageIsPart(all: seq<Entry>, limit: nat, cur: Key) returns (d: nat)
    ensures var s, page := Sort(ByKey(), all), Entries(all, limit, cur);
      d + |page| <= |s| && forall i :: 0 <= i < |page| ==> page[i] == s[d + i]
  {
    LogSorted(all);
    hide Sort; hide PastOf; hide Sorted; hide KeyLeq; hide StringLeq; hide ByKey;
    PastIsSuffix(Sort(ByKey(), all), cur);
    d := |Sort(ByKey(), all)| - |PastOf(Sort(ByKey(), all), cur)|;
  }

  /** missionLog, over the entries the nodes sent. */
  method Serve(all: seq<Entry>, asked: Option<int>, cursor: Option<Cursor>) returns (r: Result<Page>)
    ensures r.Gone? <==> cursor.Some? && cursor.value.dir != "b"
    ensures r.Ok? ==> var cur := if cursor.Some? then cursor.value.key else BLANK;
      && r.value.entries == Entries(all, PageSize(asked), cur)
      && (r.value.clamped <==> |PastOf(Sort(ByKey(), all), cur)| > PageSize(asked))
      && r.value.next == Cursor("b", NextKey(r.value.entries, cur))
      && r.value.tail == (if cursor.None? && r.value.entries != [] then Some(Cursor("a", r.value.entries[0].Place())) else None)
    ensures r.Ok? ==> NewestFirst(r.value.entries) && forall e :: e in r.value.entries ==> e in all
  {
    var limit := PageSize(asked);
    var cur := BLANK;
    if cursor.Some? {
      if cursor.value.dir != "b" {
        return Gone;
      }
      cur := cursor.value.key;
    }
    hide Sort; hide KeyLeq; hide PastOf; hide Sorted; hide StringLeq; hide ByKey;
    var rest := Sort(ByKey(), all);
    LogSorted(all);
    if cur.id != "" || cur.ts != 0 {
      rest := SkipTo(rest, cur);
    } else {
      NothingDropped(rest);
    }
    assert First(rest, limit) == Entries(all, limit, cur);
    EntriesInOrder(all, limit, cur);
    hide Entries; hide NewestFirst;
    var clamped := false;
    if |rest| > limit {
      rest := rest[..limit];
      clamped := true;
    }
    var next := Cursor("b", cur);
    if |rest| > 0 {
      next := Cursor("b", rest[|rest| - 1].Place());
    }
    var tail := None;
    if cursor.None? && |rest| > 0 {
      tail := Some(Cursor("a", rest[0].Place()));
    }
    return Ok(Page(rest, clamped, next, tail));
  }

  lemma {:induction false} NothingDropped(s: seq<Entry>)
    ensures PastOf(s, BLANK) == s
  {
    if s != [] {
      NothingDropped(s[1..]);
      assert s == [s[0]] + s[1..];
    }
  }

  // ---- keys on pages ----

  predicate HasKey(s: seq<Entry>, k: Key) { exists i :: 0 <= i < |s| && s[i].Place() == k }

  lemma {:induction false} PastOfIs(s: seq<Entry>, cur: Key, k: Key)
    ensures HasKey(PastOf(s, cur), k) <==> HasKey(s, k) && Past(cur, k)
  {
    if s != [] {
      var r := PastOf(s[1..], cur);
      PastOfIs(s[1..], cur, k);
      assert s == [s[0]] + s[1..];
      HasKeyCons(s[0], s[1..], k);
      HasKeyCons(s[0], r, k);
      assert [] + r == r;
    }
  }

  lemma HasKeyCons(e: Entry, s: seq<Entry>, k: Key)
    ensures HasKey([e] + s, k) <==> e.Place() == k || HasKey(s, k)
  {
    var t := [e] + s;
    if e.Place() == k { assert t[0].Place() == k; }
    if HasKey(s, k) {
      var i :| 0 <= i < |s| && s[i].Place() == k;
      assert t[i + 1].Place() == k;
    }
    if HasKey(t, k) && e.Place() != k {
      var i :| 0 <= i < |t| && t[i].Place() == k;
      assert s[i - 1].Place() == k;
    }
  }

  lemma {:induction false} PastOfSorted(s: seq<Entry>, cur: Key)
    requires Sorted(ByKey(), s)
    ensures Sorted(ByKey(), PastOf(s, cur))
  {
    if s != [] {
      assert Sorted(ByKey(), s[1..]);
      if Past(cur, s[0].Place()) {
        DropsPrefix(s, cur);
      } else {
        PastOfSorted(s[1..], cur);
      }
    }
  }

  /** Among the entries in order, those up to the last of a page are exactly that page's. */
  lemma CutKeys(f: seq<Entry>, n: nat, k: Key)
    requires Sorted(ByKey(), f) && 1 <= n <= |f|
    ensures HasKey(f[..n], k) <==> HasKey(f, k) && KeyLeq(k, f[n - 1].Place())
  {
    KeyTotal(k, k);
    if HasKey(f[..n], k) {
      var i :| 0 <= i < n && f[..n][i].Place() == k;
      assert f[i].Place() == k;
      if i < n - 1 { assert ByKey()(f[i], f[n - 1]); }
    }
    if HasKey(f, k) && KeyLeq(k, f[n - 1].Place()) {
      var i :| 0 <= i < |f| && f[i].Place() == k;
      if i >= n {
        assert ByKey()(f[n - 1], f[i]);
        KeyTotal(k, f[n - 1].Place());
        assert f[..n][n - 1].Place() == k;
      } else {
        assert f[..n][i].Place() == k;
      }
    }
  }

  /** A key of the log is on a page exactly when it lies past the cursor that asked for it, and not past the one it
      gives back. */
  lemma OnPage(all: seq<Entry>, limit: nat, cur: Key, k: Key)
    requires limit >= 1 && NextKey(Entries(all, limit, cur), cur) != BLANK
    ensures var page := Entries(all, limit, cur);
      HasKey(page, k) <==> HasKey(all, k) && Past(cur, k) && !Past(NextKey(page, cur), k)
  {
    hide Sort; hide PastOf; hide KeyLeq; hide Sorted; hide ByKey;
    var s := Sort(ByKey(), all);
    LogSorted(all);
    SortedKeys(all, k);
    PastOfSorted(s, cur);
    PastOfIs(s, cur, k);
    var f := PastOf(s, cur);
    if f != [] {
      var n := if |f| <= limit then |f| else limit;
      assert First(f, limit) == f[..n];
      CutKeys(f, n, k);
    }
  }

  lemma SameKeys(a: seq<Entry>, b: seq<Entry>, k: Key)
    requires multiset(a) == multiset(b)
    ensures HasKey(a, k) <==> HasKey(b, k)
  {
    if HasKey(a, k) {
      var i :| 0 <= i < |a| && a[i].Place() == k;
      assert a[i] in multiset(b);
      var j :| 0 <= j < |b| && b[j] == a[i];
      assert b[j].Place() == k;
    }
    if HasKey(b, k) {
      var i :| 0 <= i < |b| && b[i].Place() == k;
      assert b[i] in multiset(a);
      var j :| 0 <= j < |a| && a[j] == b[i];
      assert a[j].Place() == k;
    }
  }

  lemma SortedKeys(all: seq<Entry>, k: Key)
    ensures HasKey(Sort(ByKey(), all), k) <==> HasKey(all, k)
  {
    ByKeyTotal();
    SortSorts(ByKey(), all);
    SameKeys(all, Sort(ByKey(), all), k);
  }

  // ---- following Next ----

  /** What the log holds at each request. */
  type Logs = nat -> seq<Entry>

  /** The cursor of the ith request. */
  function CursorOf(logs: Logs, limit: nat, i: nat): Key {
    if i == 0 then BLANK
    else var cur := CursorOf(logs, limit, i - 1); NextKey(Entries(logs(i - 1), limit, cur), cur)
  }

  function PageOf(logs: Logs, limit: nat, i: nat): seq<Entry> { Entries(logs(i), limit, CursorOf(logs, limit, i)) }

  /** No entry is both undated and without an id. */
  predicate NoBlank(all: seq<Entry>) { !HasKey(all, BLANK) }

  /** No request up to the mth, but the first, has a cursor that reads as none. */
  ghost predicate KeepsPlace(logs: Logs, limit: nat, m: nat) {
    forall i: nat :: 0 < i <= m ==> CursorOf(logs, limit, i) != BLANK
  }

  lemma EntriesFrom(all: seq<Entry>, limit: nat, cur: Key, k: Key)
    requires HasKey(Entries(all, limit, cur), k)
    ensures HasKey(all, k) && Past(cur, k)
  {
    hide Sort; hide PastOf; hide ByKey;
    var s := Sort(ByKey(), all);
    SortedKeys(all, k);
    PastOfIs(s, cur, k);
    var f := PastOf(s, cur);
    var i :| 0 <= i < |First(f, limit)| && First(f, limit)[i].Place() == k;
    assert f[i].Place() == k;
  }

  /** Cursors only move on. */
  lemma {:induction false} CursorsAdvance(logs: Logs, limit: nat, i: nat, j: nat, k: Key)
    requires i <= j && KeepsPlace(logs, limit, j)
    ensures Past(CursorOf(logs, limit, j), k) ==> Past(CursorOf(logs, limit, i), k)
  {
    hide Entries; hide KeyLeq;
    if i < j {
      CursorsAdvance(logs, limit, i, j - 1, k);
      var cur, page := CursorOf(logs, limit, j - 1), PageOf(logs, limit, j - 1);
      if page != [] {
        var last := page[|page| - 1].Place();
        assert HasKey(page, last);
        EntriesFrom(logs(j - 1), limit, cur, last);
        if cur != BLANK && KeyLeq(k, cur) {
          KeyTotal(last, cur);
          KeyTransitive(k, cur, last);
        }
      }
    }
  }

  /** The page on which a key that is there throughout appears. */
  lemma {:induction false} FindPage(logs: Logs, limit: nat, m: nat, k: Key) returns (i: nat)
    requires limit >= 1 && KeepsPlace(logs, limit, m) && (forall n: nat :: n < m ==> HasKey(logs(n), k))
    requires !Past(CursorOf(logs, limit, m), k)
    ensures i < m && HasKey(PageOf(logs, limit, i), k)
  {
    hide Entries; hide KeyLeq;
    var cur := CursorOf(logs, limit, m - 1);
    if Past(cur, k) {
      i := m - 1;
      OnPage(logs(i), limit, cur, k);
    } else {
      i := FindPage(logs, limit, m - 1, k);
    }
  }

  /** A key on one page is on no later one. */
  lemma OnePage(logs: Logs, limit: nat, i: nat, j: nat, k: Key)
    requires limit >= 1 && i < j && KeepsPlace(logs, limit, j) && HasKey(PageOf(logs, limit, i), k)
    ensures !HasKey(PageOf(logs, limit, j), k)
  {
    hide Entries; hide KeyLeq;
    assert CursorOf(logs, limit, i + 1) != BLANK;
    OnPage(logs(i), limit, CursorOf(logs, limit, i), k);
    CursorsAdvance(logs, limit, i + 1, j, k);
    if HasKey(PageOf(logs, limit, j), k) {
      EntriesFrom(logs(j), limit, CursorOf(logs, limit, j), k);
    }
  }

  /** Following Next until request m, whose page is not clamped, without a blank cursor: a key present throughout
      appears on exactly one page, whatever else came and went between the requests. */
  lemma ExactlyOnce(logs: Logs, limit: nat, m: nat, k: Key) returns (i: nat)
    requires limit >= 1 && KeepsPlace(logs, limit, m) && (forall n: nat :: n <= m ==> HasKey(logs(n), k))
    requires |PastOf(Sort(ByKey(), logs(m)), CursorOf(logs, limit, m))| <= limit
    ensures i <= m && HasKey(PageOf(logs, limit, i), k)
    ensures forall j: nat :: j <= m && j != i ==> !HasKey(PageOf(logs, limit, j), k)
  {
    var cur := CursorOf(logs, limit, m);
    if Past(cur, k) {
      i := m;
      SortedKeys(logs(m), k);
      PastOfIs(Sort(ByKey(), logs(m)), cur, k);
    } else {
      i := FindPage(logs, limit, m, k);
    }
    hide Entries; hide KeyLeq; hide Sort; hide PastOf;
    forall j: nat | j <= m && j != i ensures !HasKey(PageOf(logs, limit, j), k) {
      if i < j {
        OnePage(logs, limit, i, j, k);
      } else if HasKey(PageOf(logs, limit, j), k) {
        OnePage(logs, limit, j, i, k);
      }
    }
  }

  lemma NextIsEntry(logs: Logs, limit: nat, i: nat)
    requires NoBlank(logs(i)) && PageOf(logs, limit, i) != []
    ensures CursorOf(logs, limit, i + 1) != BLANK
  {
    hide Entries;
    var page := PageOf(logs, limit, i);
    assert HasKey(page, page[|page| - 1].Place());
    EntriesFrom(logs(i), limit, CursorOf(logs, limit, i), page[|page| - 1].Place());
  }

  lemma FirstHasKey(all: seq<Entry>, limit: nat, k: Key)
    requires limit >= 1 && HasKey(all, k)
    ensures Entries(all, limit, BLANK) != []
  {
    SortedKeys(all, k);
    PastOfIs(Sort(ByKey(), all), BLANK, k);
  }

  /** There is no blank cursor when no log on the way has a blank entry, and none is empty. */
  lemma {:induction false} NoBlankKeepsPlace(logs: Logs, limit: nat, m: nat, k: Key)
    requires limit >= 1 && forall n: nat :: n < m ==> NoBlank(logs(n)) && HasKey(logs(n), k)
    ensures KeepsPlace(logs, limit, m)
  {
    hide Entries; hide NoBlank;
    if m > 0 {
      NoBlankKeepsPlace(logs, limit, m - 1, k);
      FirstHasKey(logs(m - 1), limit, k);
      if PageOf(logs, limit, m - 1) != [] { NextIsEntry(logs, limit, m - 1); }
    }
  }

  // ---- following Next over a log that does not change ----

  function Still(all: seq<Entry>): Logs { (_: nat) => all }

  /** The first n pages, one after the other. */
  function PagesOf(all: seq<Entry>, limit: nat, n: nat): seq<Entry> {
    if n == 0 then [] else PagesOf(all, limit, n - 1) + PageOf(Still(all), limit, n - 1)
  }

  /** Following Next ends, with an empty page. */
  ghost predicate Ends(all: seq<Entry>, limit: nat) { exists n: nat :: PageOf(Still(all), limit, n) == [] }

  /** It ends, and the pages are the whole log, each entry once, in order. */
  ghost predicate GivesAll(all: seq<Entry>, limit: nat) {
    exists n: nat :: PageOf(Still(all), limit, n) == [] && PagesOf(all, limit, n) == Sort(ByKey(), all)
  }

  /** Where page j starts when every page takes limit entries of a log in order. */
  function PageStart(s: seq<Entry>, limit: nat, j: nat): (e: nat)
    ensures e <= |s|
  {
    if j == 0 then 0
    else var e := PageStart(s, limit, j - 1) + limit; if e < |s| then e else |s|
  }

  /** A log in order can be cut before position e: what comes before is not blank, and has another key than what
      follows. */
  predicate CutsAt(s: seq<Entry>, e: nat) {
    0 < e <= |s| && s[e - 1].Place() != BLANK && (e < |s| ==> s[e].Place() != s[e - 1].Place())
  }

  predicate CutsAfter(s: seq<Entry>, limit: nat, j: nat) {
    PageStart(s, limit, j) < |s| ==> CutsAt(s, PageStart(s, limit, j + 1))
  }

  /** The first n pages end where the log can be cut. */
  predicate CutsUpTo(s: seq<Entry>, limit: nat, n: nat) { forall j :: 0 <= j < n ==> CutsAfter(s, limit, j) }

  lemma {:induction false} PastIsSuffix(s: seq<Entry>, cur: Key)
    requires Sorted(ByKey(), s)
    ensures PastOf(s, cur) == s[|s| - |PastOf(s, cur)|..]
  {
    if s != [] {
      if Past(cur, s[0].Place()) {
        DropsPrefix(s, cur);
      } else {
        assert Sorted(ByKey(), s[1..]);
        PastIsSuffix(s[1..], cur);
      }
    }
  }

  /** What is past an entry: all that follows, or less when its key goes on. */
  lemma {:induction false} PastAt(s: seq<Entry>, i: nat)
    requires Sorted(ByKey(), s) && i < |s| && s[i].Place() != BLANK
    ensures |PastOf(s, s[i].Place())| <= |s| - i - 1
    ensures CutsAt(s, i + 1) ==> PastOf(s, s[i].Place()) == s[i + 1..]
    ensures !CutsAt(s, i + 1) ==> |PastOf(s, s[i].Place())| < |s| - i - 1
  {
    var cur, t := s[i].Place(), s[1..];
    KeyTotal(cur, cur);
    assert i > 0 ==> ByKey()(s[0], s[i]);
    assert Sorted(ByKey(), t);
    assert PastOf(s, cur) == PastOf(t, cur);
    if i > 0 {
      PastAt(t, i - 1);
    } else if |s| > 1 {
      KeyTotal(cur, t[0].Place());
      assert ByKey()(s[0], s[1]);
      if t[0].Place() != cur { DropsPrefix(t, cur); }
    }
  }

  lemma NextRequest(all: seq<Entry>, limit: nat, i: nat)
    ensures var page, cur := PageOf(Still(all), limit, i), CursorOf(Still(all), limit, i);
      && page == First(PastOf(Sort(ByKey(), all), cur), limit)
      && CursorOf(Still(all), limit, i + 1) == NextKey(page, cur)
      && PagesOf(all, limit, i + 1) == PagesOf(all, limit, i) + page
  {}

  lemma WalkStep(s: seq<Entry>, limit: nat, cur: Key, e: nat)
    requires Sorted(ByKey(), s) && limit >= 1 && e < |s| && PastOf(s, cur) == s[e..]
    ensures var n := if e + limit < |s| then e + limit else |s|; var page := First(PastOf(s, cur), limit);
      && page == s[e..n] && NextKey(page, cur) == s[n - 1].Place()
      && (CutsAt(s, n) ==> PastOf(s, NextKey(page, cur)) == s[n..])
      && (!CutsAt(s, n) && NextKey(page, cur) != BLANK ==> |PastOf(s, NextKey(page, cur))| < |s| - n)
  {
    hide Sorted; hide PastOf; hide KeyLeq; hide ByKey;
    var n := if e + limit < |s| then e + limit else |s|;
    assert s[e..n][n - e - 1] == s[n - 1];
    if s[n - 1].Place() != BLANK { PastAt(s, n - 1); }
  }

  /** While pages end where the log can be cut, they are its pieces, and the next request finds what is left. */
  lemma {:induction false} WalkAt(all: seq<Entry>, limit: nat, j: nat)
    requires limit >= 1 && CutsUpTo(Sort(ByKey(), all), limit, j)
    ensures var s := Sort(ByKey(), all);
      && PagesOf(all, limit, j) == s[..PageStart(s, limit, j)]
      && PastOf(s, CursorOf(Still(all), limit, j)) == s[PageStart(s, limit, j)..]
  {
    var s := Sort(ByKey(), all);
    hide Sort; hide Sorted; hide PastOf; hide KeyLeq; hide ByKey; hide CutsUpTo; hide CutsAt; hide Still; hide First;
    hide NextKey; hide PageOf;
    LogSorted(all);
    if j == 0 {
      NothingDropped(s);
    } else {
      hide PagesOf; hide CursorOf; hide PageStart;
      NextRequest(all, limit, j - 1);
      NextPage(s, limit, j - 1);
      var e, n := PageStart(s, limit, j - 1), PageStart(s, limit, j);
      WalkAt(all, limit, j - 1);
      var cur := CursorOf(Still(all), limit, j - 1);
      if e < |s| {
        WalkStep(s, limit, cur, e);
        assert s[..e] + s[e..n] == s[..n];
      } else {
        NothingLeft(PagesOf(all, limit, j - 1), limit, cur);
      }
    }
  }

  lemma NothingLeft(got: seq<Entry>, limit: nat, cur: Key)
    ensures NextKey(First([], limit), cur) == cur && got + First([], limit) == got
  {}

  lemma NextPage(s: seq<Entry>, limit: nat, j: nat)
    requires CutsUpTo(s, limit, j + 1)
    ensures CutsUpTo(s, limit, j)
    ensures var e, n := PageStart(s, limit, j), PageStart(s, limit, j + 1);
      n == (if e + limit < |s| then e + limit else |s|) && (e < |s| ==> CutsAt(s, n))
  {
    hide CutsAt;
    assert CutsAfter(s, limit, j);
  }

  // ---- how the walk fails ----

  /** Once a page is empty, so are all that follow. */
  lemma {:induction false} Stuck(all: seq<Entry>, limit: nat, n: nat, m: nat)
    requires n <= m && PageOf(Still(all), limit, n) == []
    ensures CursorOf(Still(all), limit, m) == CursorOf(Still(all), limit, n)
  {
    if n < m { Stuck(all, limit, n, m - 1); }
  }

  lemma {:induction false} Again(all: seq<Entry>, limit: nat, p: nat, i: nat)
    requires CursorOf(Still(all), limit, p) == BLANK
    ensures CursorOf(Still(all), limit, p + i) == CursorOf(Still(all), limit, i)
  {
    hide Entries;
    if i > 0 { Again(all, limit, p, i - 1); }
  }

  lemma FirstPage(all: seq<Entry>, limit: nat)
    requires limit >= 1 && all != []
    ensures Entries(all, limit, BLANK) != []
  {
    assert HasKey(all, all[0].Place());
    FirstHasKey(all, limit, all[0].Place());
  }

  /** A blank Next reads as no cursor at all: the same pages come back for ever. */
  lemma {:induction false} BlankNeverEnds(all: seq<Entry>, limit: nat, p: nat, n: nat)
    requires limit >= 1 && all != [] && p >= 1 && CursorOf(Still(all), limit, p) == BLANK
    ensures PageOf(Still(all), limit, n) != []
  {
    hide Entries; hide CursorOf;
    FirstPage(all, limit);
    if n >= p {
      Again(all, limit, p, n - p);
      BlankNeverEnds(all, limit, p, n - p);
    } else if PageOf(Still(all), limit, n) == [] {
      Stuck(all, limit, n, p);
    }
  }

  /** Entries given and entries left never become more. */
  lemma {:induction false} Budget(all: seq<Entry>, limit: nat, i: nat, n: nat)
    requires i <= n && forall m: nat :: i < m <= n ==> CursorOf(Still(all), limit, m) != BLANK
    ensures var s := Sort(ByKey(), all);
      |PagesOf(all, limit, n)| + |PastOf(s, CursorOf(Still(all), limit, n))|
        <= |PagesOf(all, limit, i)| + |PastOf(s, CursorOf(Still(all), limit, i))|
  {
    hide PagesOf; hide CursorOf; hide PageOf; hide Sort; hide Sorted; hide PastOf; hide KeyLeq; hide ByKey; hide First;
    hide NextKey; hide Still;
    if i < n {
      Budget(all, limit, i, n - 1);
      NextRequest(all, limit, n - 1);
      LogSorted(all);
      LessLeft(Sort(ByKey(), all), limit, CursorOf(Still(all), limit, n - 1));
    }
  }

  lemma LessLeft(s: seq<Entry>, limit: nat, cur: Key)
    requires Sorted(ByKey(), s)
    ensures var f := PastOf(s, cur); var page := First(f, limit);
      NextKey(page, cur) != BLANK ==> |PastOf(s, NextKey(page, cur))| <= |f| - |page|
  {
    var f := PastOf(s, cur);
    var page := First(f, limit);
    PastIsSuffix(s, cur);
    hide PastOf; hide Sorted; hide KeyLeq; hide ByKey;
    if page != [] && NextKey(page, cur) != BLANK {
      var last := |s| - |f| + |page| - 1;
      assert s[last] == f[|page| - 1] == page[|page| - 1];
      PastAt(s, last);
    }
  }

  lemma FirstBadCut(s: seq<Entry>, limit: nat, n: nat) returns (j: nat)
    requires !CutsUpTo(s, limit, n)
    ensures j < n && CutsUpTo(s, limit, j) && !CutsAfter(s, limit, j)
  {
    if CutsUpTo(s, limit, n - 1) { j := n - 1; } else { j := FirstBadCut(s, limit, n - 1); }
  }

  lemma {:induction false} PageStartMonotone(s: seq<Entry>, limit: nat, i: nat, j: nat)
    requires i <= j && limit >= 1
    ensures PageStart(s, limit, i) <= PageStart(s, limit, j)
    ensures PageStart(s, limit, j) >= if j < |s| then j else |s|
  {
    if i < j {
      PageStartMonotone(s, limit, i, j - 1);
    } else if j > 0 {
      PageStartMonotone(s, limit, j - 1, j - 1);
    }
  }

  /** A page that ends where the log cannot be cut spoils the walk: it never ends, or gives too little. */
  lemma BadCutSpoils(all: seq<Entry>, limit: nat, j: nat, n: nat)
    requires limit >= 1 && PageOf(Still(all), limit, n) == []
    requires CutsUpTo(Sort(ByKey(), all), limit, j) && !CutsAfter(Sort(ByKey(), all), limit, j)
    ensures |PagesOf(all, limit, n)| < |Sort(ByKey(), all)|
  {
    hide Sort; hide Sorted; hide PastOf; hide KeyLeq; hide ByKey; hide CutsUpTo; hide CutsAt; hide Still; hide First;
    hide NextKey; hide PageOf; hide PagesOf; hide CursorOf; hide PageStart;
    var s := Sort(ByKey(), all);
    LogSorted(all);
    SomeEntries(all);
    WalkAt(all, limit, j);
    var b, e := PageStart(s, limit, j), PageStart(s, limit, j + 1);
    NextStart(s, limit, j);
    if n <= j {
      CutsFewer(s, limit, n, j);
      WalkAt(all, limit, n);
      NextRequest(all, limit, n);
      PageStartMonotone(s, limit, n, j);
      FirstSome(PastOf(s, CursorOf(Still(all), limit, n)), limit);
    } else {
      NextRequest(all, limit, j);
      WalkStep(s, limit, CursorOf(Still(all), limit, j), b);
      assert |PagesOf(all, limit, j + 1)| == e;
      forall m: nat | 0 < m <= n ensures CursorOf(Still(all), limit, m) != BLANK {
        if CursorOf(Still(all), limit, m) == BLANK { BlankNeverEnds(all, limit, m, n); }
      }
      Budget(all, limit, j + 1, n);
    }
  }

  lemma SomeEntries(all: seq<Entry>)
    ensures |Sort(ByKey(), all)| > 0 ==> all != []
  {}

  lemma FirstSome(f: seq<Entry>, limit: nat)
    requires limit >= 1 && f != []
    ensures First(f, limit) != []
  {}

  lemma NextStart(s: seq<Entry>, limit: nat, j: nat)
    ensures PageStart(s, limit, j + 1) == var e := PageStart(s, limit, j) + limit; if e < |s| then e else |s|
    ensures !CutsAfter(s, limit, j) ==> PageStart(s, limit, j) < |s| && !CutsAt(s, PageStart(s, limit, j + 1))
  {
    hide CutsAt;
  }

  lemma CutsFewer(s: seq<Entry>, limit: nat, n: nat, j: nat)
    requires n <= j && CutsUpTo(s, limit, j)
    ensures CutsUpTo(s, limit, n)
  {}

  /** Following Next ends and gives the whole log, in order, exactly when every page ends where the log can be cut. */
  lemma WalkExact(all: seq<Entry>, limit: nat)
    requires limit >= 1
    ensures var s := Sort(ByKey(), all); GivesAll(all, limit) <==> CutsUpTo(s, limit, |s|)
  {
    var s := Sort(ByKey(), all);
    var n := |s|;
    hide Sort; hide PastOf;
    if CutsUpTo(s, limit, n) {
      WalkAt(all, limit, n);
      PageStartMonotone(s, limit, n, n);
      assert PageOf(Still(all), limit, n) == [] && s[..n] == s;
    } else if GivesAll(all, limit) {
      var j := FirstBadCut(s, limit, n);
      var m: nat :| PageOf(Still(all), limit, m) == [] && PagesOf(all, limit, m) == s;
      BadCutSpoils(all, limit, j, m);
    }
  }

  // ---- whatever limit is asked for ----

  ghost predicate Distinct(s: seq<Entry>) { forall i, j :: 0 <= i < j < |s| ==> s[i].Place() != s[j].Place() }

  lemma ConsDistinct(e: Entry, s: seq<Entry>)
    ensures Distinct([e] + s) <==> Distinct(s) && !HasKey(s, e.Place())
  {
    var t := [e] + s;
    assert forall i :: 0 <= i < |s| ==> t[i + 1] == s[i];
    if Distinct(t) {
      forall i, j | 0 <= i < j < |s| ensures s[i].Place() != s[j].Place() { assert t[i + 1].Place() != t[j + 1].Place(); }
      forall i | 0 <= i < |s| ensures s[i].Place() != e.Place() { assert t[0].Place() != t[i + 1].Place(); }
    }
  }

  lemma {:induction false} InsertDistinct(x: Entry, s: seq<Entry>)
    ensures Distinct(Insert(ByKey(), x, s)) <==> Distinct(s) && !HasKey(s, x.Place())
  {
    if s == [] || ByKey()(x, s[0]) {
      ConsDistinct(x, s);
    } else {
      var t := s[1..];
      assert s == [s[0]] + t;
      ConsDistinct(s[0], t);
      HasKeyCons(s[0], t, x.Place());
      InsertDistinct(x, t);
      InsertPermutes(ByKey(), x, t);
      assert multiset([x] + t) == multiset{x} + multiset(t);
      SameKeys([x] + t, Insert(ByKey(), x, t), s[0].Place());
      HasKeyCons(x, t, s[0].Place());
      ConsDistinct(s[0], Insert(ByKey(), x, t));
    }
  }

  lemma {:induction false} SortDistinct(s: seq<Entry>)
    ensures Distinct(Sort(ByKey(), s)) <==> Distinct(s)
  {
    if s != [] {
      var t := s[1..];
      assert s == [s[0]] + t;
      ConsDistinct(s[0], t);
      SortDistinct(t);
      ByKeyTotal();
      SortSorts(ByKey(), t);
      SameKeys(t, Sort(ByKey(), t), s[0].Place());
      InsertDistinct(s[0], Sort(ByKey(), t));
    }
  }

  lemma {:induction false} OneByOne(s: seq<Entry>, j: nat)
    ensures PageStart(s, 1, j) == if j < |s| then j else |s|
  {
    if j > 0 { OneByOne(s, j - 1); }
  }

  /** One entry a page is the hardest. */
  lemma CutsEverywhere(s: seq<Entry>)
    requires Sorted(ByKey(), s)
    ensures CutsUpTo(s, 1, |s|) <==> NoBlank(s) && Distinct(s)
  {
    forall j: nat ensures PageStart(s, 1, j) == if j < |s| then j else |s| { OneByOne(s, j); }
    hide PageStart;
    if CutsUpTo(s, 1, |s|) {
      forall i | 0 <= i < |s| ensures s[i].Place() != BLANK && (i + 1 < |s| ==> s[i + 1].Place() != s[i].Place()) {
        assert PageStart(s, 1, i) < |s| && CutsAfter(s, 1, i);
      }
      forall i, j | 0 <= i < j < |s| ensures s[i].Place() != s[j].Place() {
        assert ByKey()(s[i], s[i + 1]);
        if i + 1 < j {
          assert ByKey()(s[i + 1], s[j]);
          KeyTotal(s[i].Place(), s[i + 1].Place());
        }
      }
    }
  }

  lemma CleanCuts(s: seq<Entry>, limit: nat)
    requires limit >= 1 && NoBlank(s) && Distinct(s)
    ensures CutsUpTo(s, limit, |s|)
  {
    forall j | 0 <= j < |s| ensures CutsAfter(s, limit, j) {}
  }

  /** Whatever limit is asked for, following Next ends and gives the whole log, exactly when no entry is blank and no
      two share date and id. */
  lemma WholeLog(all: seq<Entry>)
    ensures (forall limit :: 1 <= limit <= 200 ==> GivesAll(all, limit)) <==> NoBlank(all) && Distinct(all)
  {
    var s := Sort(ByKey(), all);
    SortedKeys(all, BLANK);
    LogSorted(all);
    SortDistinct(all);
    CutsEverywhere(s);
    assert NoBlank(all) <==> NoBlank(s);
    hide Sort; hide GivesAll; hide CutsUpTo; hide Distinct; hide NoBlank; hide Sorted;
    WalkExact(all, 1);
    if NoBlank(all) && Distinct(all) {
      forall limit | 1 <= limit <= 200 ensures GivesAll(all, limit) {
        CleanCuts(s, limit);
        WalkExact(all, limit);
      }
    }
  }

  lemma {:induction false} FullPages(all: seq<Entry>, limit: nat, n: nat)
    requires forall m: nat :: m < n ==> PageOf(Still(all), limit, m) != []
    ensures |PagesOf(all, limit, n)| >= n
  {
    if n > 0 { FullPages(all, limit, n - 1); }
  }

  lemma EndsWithoutBlank(all: seq<Entry>, limit: nat)
    requires limit >= 1 && NoBlank(all)
    ensures Ends(all, limit)
  {
    var s := Sort(ByKey(), all);
    var n := |s| + 1;
    NothingDropped(s);
    hide Sort; hide PastOf; hide Entries;
    if !Ends(all, limit) {
      FullPages(all, limit, n);
      forall m: nat | 0 < m <= n ensures CursorOf(Still(all), limit, m) != BLANK {
        assert PageOf(Still(all), limit, m - 1) != [];
        NextIsEntry(Still(all), limit, m - 1);
      }
      Budget(all, limit, 0, n);
    }
  }

  /** The request, one entry a page, that gets the blank entry. */
  lemma {:induction false} MeetsBlank(all: seq<Entry>, n: nat) returns (i: nat)
    requires !NoBlank(all) && !Past(CursorOf(Still(all), 1, n), BLANK)
    ensures 0 < i <= n && CursorOf(Still(all), 1, i) == BLANK
  {
    var cur := CursorOf(Still(all), 1, n - 1);
    if !Past(cur, BLANK) {
      i := MeetsBlank(all, n - 1);
    } else {
      i := n;
      var s := Sort(ByKey(), all);
      LogSorted(all);
      SortedKeys(all, BLANK);
      PastOfSorted(s, cur);
      PastOfIs(s, cur, BLANK);
      var f := PastOf(s, cur);
      hide Sort; hide PastOf;
      var b :| 0 <= b < |f| && f[b].Place() == BLANK;
      assert b > 0 ==> ByKey()(f[0], f[b]);
      KeyTotal(f[0].Place(), BLANK);
    }
  }

  /** Whatever limit is asked for, following Next ends, exactly when no entry is blank. */
  lemma EndsExact(all: seq<Entry>)
    ensures (forall limit :: 1 <= limit <= 200 ==> Ends(all, limit)) <==> NoBlank(all)
  {
    if NoBlank(all) {
      forall limit | 1 <= limit <= 200 ensures Ends(all, limit) { EndsWithoutBlank(all, limit); }
    } else if Ends(all, 1) {
      var s := Sort(ByKey(), all);
      var n: nat :| PageOf(Still(all), 1, n) == [];
      var cur := CursorOf(Still(all), 1, n);
      SortedKeys(all, BLANK);
      PastOfIs(s, cur, BLANK);
      hide Sort;
      assert PastOf(s, cur) == [];
      var i := MeetsBlank(all, n);
      BlankNeverEnds(all, 1, i, n);
    }
  }

  /** When a page ends between two entries of one key, no other page has that key: the second entry is on none. */
  lemma CutApart(all: seq<Entry>, limit: nat, i: nat, j: nat)
    requires limit >= 1 && i != j && KeepsPlace(Still(all), limit, if i < j then j else i)
    requires var f := PastOf(Sort(ByKey(), all), CursorOf(Still(all), limit, i));
      |f| > limit && f[limit].Place() == f[limit - 1].Place()
    ensures var f := PastOf(Sort(ByKey(), all), CursorOf(Still(all), limit, i));
      PageOf(Still(all), limit, i) == f[..limit] && !HasKey(PageOf(Still(all), limit, j), f[limit].Place())
  {
    var f := PastOf(Sort(ByKey(), all), CursorOf(Still(all), limit, i));
    var k, page := f[limit].Place(), PageOf(Still(all), limit, i);
    assert page[limit - 1].Place() == k;
    hide Sort; hide PastOf; hide KeyLeq; hide Entries;
    if i < j {
      OnePage(Still(all), limit, i, j, k);
    } else if HasKey(PageOf(Still(all), limit, j), k) {
      OnePage(Still(all), limit, j, i, k);
    }
  }
}
