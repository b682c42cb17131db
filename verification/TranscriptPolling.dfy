/** Reading forward agrees with reading backward, and following the cursor across appends loses nothing. */
module TranscriptPolling {
  import opened Basics
  import opened Lines
  import opened ReadLine
  import opened Transcript
  import opened TranscriptEvents
  import opened TranscriptPaging

  /** White space around a record changes nothing: backward decodes lines without their newline, forward with. */
  ghost predicate IgnoresNewline(d: Decoder) {
    d.Valid() && forall l: Bytes :: d.blank(l + [NEWLINE]) == d.blank(l) && d.decode(l + [NEWLINE]) == d.decode(l)
  }

  /** One past the newline at e, if there is one. */
  function PastEnd(size: nat, e: int): int { if e < size then e + 1 else e }

  /** Records with the offsets that reading forward gives them. */
  function Advanced(size: nat, r: seq<Event>): (a: seq<Event>)
    ensures |a| == |r|
  {
    if r == [] then []
    else Advanced(size, r[..|r| - 1]) + [Event(r[|r| - 1].content, PastEnd(size, r[|r| - 1].offset))]
  }

  /** Each record by itself: the same, one further on. */
  lemma {:induction false} AdvancedAt(size: nat, r: seq<Event>, i: nat)
    requires i < |r|
    ensures Advanced(size, r)[i] == Event(r[i].content, PastEnd(size, r[i].offset))
  {
    if i < |r| - 1 { AdvancedAt(size, r[..|r| - 1], i); }
  }

  lemma {:induction false} AdvancedConcat(size: nat, a: seq<Event>, b: seq<Event>)
    ensures Advanced(size, a + b) == Advanced(size, a) + Advanced(size, b)
  {
    if b == [] {
      assert a + b == a;
    } else {
      assert (a + b)[..|a| + |b| - 1] == a + b[..|b| - 1];
      AdvancedConcat(size, a, b[..|b| - 1]);
    }
  }

  /** Everything ahead of a position, over-long records included. */
  function Ahead(d: Decoder, file: Bytes, from: nat): seq<Event>
    requires from <= |file|
  {
    ForwardRecords(d, file, from, |file|)
  }

  lemma OneLine(d: Decoder, line: Bytes, end: int)
    ensures RecordsEnding(d, [line], end) == if d.Readable(line) then [Event(d.Read(line).value, end)] else []
  {
    assert [line][..0] == [];
  }

  /** What is left of a file after its next line. */
  function Rest(d: Decoder, file: Bytes, from: nat): seq<Event>
    requires from <= |file|
  {
    RecordsEnding(d, Split(file[from..]), |file|)
  }

  lemma SplitNext(s: Bytes, m: nat)
    requires m < |s| && s[m] == NEWLINE && Clean(s[..m])
    ensures Split(s) == [s[..m]] + Split(s[m + 1..])
    ensures Width(Split(s[m + 1..])) == |s| - m
  {
    SplitAtLineEnd(s, m);
    SplitClean(s[..m]);
    SplitWidth(s[m + 1..]);
  }

  lemma RestLine(d: Decoder, file: Bytes, from: nat, k: nat)
    requires from <= k < |file| && file[k] == NEWLINE && Clean(file[from..k])
    ensures Rest(d, file, from) == RecordsEnding(d, [file[from..k]], k) + Rest(d, file, k + 1)
  {
    hide Split; hide RecordsEnding; hide Width; hide Clean;
    var s := file[from..];
    assert s[..k - from] == file[from..k] && s[k - from + 1..] == file[k + 1..];
    SplitNext(s, k - from);
    RecordsConcat(d, [file[from..k]], Split(file[k + 1..]), |file|);
  }

  lemma RestTail(d: Decoder, file: Bytes, from: nat)
    requires from <= |file| && Clean(file[from..])
    ensures Rest(d, file, from) == RecordsEnding(d, [file[from..]], |file|)
  {
    SplitClean(file[from..]);
  }

  /** The records left, one line at a time. */
  lemma RestFirst(d: Decoder, file: Bytes, from: nat)
    requires d.Valid() && from < |file|
    ensures var k := NextNewline(file, from);
      Rest(d, file, from) == RecordsEnding(d, [file[from..k]], k) + Rest(d, file, RecordEnd(file, from))
  {
    hide RecordsEnding; hide NextNewline; hide Rest; hide Clean;
    var k := NextNewline(file, from);
    if k < |file| {
      RestLine(d, file, from, k);
    } else {
      RestNothing(d, file);
      assert file[from..k] == file[from..];
      RestTail(d, file, from);
    }
  }

  lemma RestNothing(d: Decoder, file: Bytes)
    requires d.Valid()
    ensures Rest(d, file, |file|) == []
  {
    SplitNothing(file[|file|..]);
    NothingBefore(d, [[]], |file|);
  }

  /** One line ahead: the same record either way, but for where it is said to end. */
  lemma AheadOne(d: Decoder, file: Bytes, from: nat)
    requires IgnoresNewline(d) && from < |file|
    ensures var k, e := NextNewline(file, from), RecordEnd(file, from);
      ForwardRecord(d, file[from..e], e - from, e, |file|) == Advanced(|file|, RecordsEnding(d, [file[from..k]], k))
  {
    var k := NextNewline(file, from);
    OneLine(d, file[from..k], k);
    SameWithNewline(d, file[from..k]);
    hide IgnoresNewline; hide NextNewline; hide RecordsEnding;
    if k < |file| { assert file[from..k + 1] == file[from..k] + [NEWLINE]; }
  }

  /** Reading forward from any position finds the records of what is left of the file. */
  lemma {:induction false} AheadIsRest(d: Decoder, file: Bytes, from: nat)
    requires IgnoresNewline(d) && from <= |file|
    ensures Ahead(d, file, from) == Advanced(|file|, Rest(d, file, from))
    decreases |file| - from
  {
    NewlineUnread(d);
    RestNothing(d, file);
    ForwardNothing(d, file, |file|);
    hide NextNewline; hide RecordEnd; hide ForwardRecords; hide IgnoresNewline; hide ForwardRecord; hide Rest;
    if from < |file| {
      ForwardStep(d, file, from, |file|);
      AheadOne(d, file, from);
      RestFirst(d, file, from);
      var k, e := NextNewline(file, from), RecordEnd(file, from);
      AheadIsRest(d, file, e);
      AdvancedConcat(|file|, RecordsEnding(d, [file[from..k]], k), Rest(d, file, e));
      hide Advanced; hide RecordsEnding;
    }
  }

  lemma SameWithNewline(d: Decoder, line: Bytes)
    requires IgnoresNewline(d)
    ensures d.Readable(line + [NEWLINE]) == d.Readable(line) && d.Read(line + [NEWLINE]) == d.Read(line)
  {}

  lemma NewlineUnread(d: Decoder)
    requires IgnoresNewline(d)
    ensures d.Valid() && !d.Readable([NEWLINE])
  {
    assert [] + [NEWLINE] == [NEWLINE];
    assert d.blank([] + [NEWLINE]);
  }

  // ---- over-long records ----

  /** No record ahead of a position is both readable and too long. */
  predicate AllFit(d: Decoder, file: Bytes, from: nat, maxLine: nat)
    requires from <= |file|
    decreases |file| - from
  {
    from == |file|
    || (var e := RecordEnd(file, from);
        (e - from <= maxLine || !d.Readable(file[from..e])) && AllFit(d, file, e, maxLine))
  }

  /** Reading forward misses something exactly when a readable record is too long; reading backward has no cap. */
  lemma {:induction false} CapExact(d: Decoder, file: Bytes, from: nat, maxLine: nat)
    requires from <= |file|
    ensures |ForwardRecords(d, file, from, maxLine)| <= |Ahead(d, file, from)|
    ensures ForwardRecords(d, file, from, maxLine) == Ahead(d, file, from) <==> AllFit(d, file, from, maxLine)
    decreases |file| - from
  {
    if from < |file| {
      ForwardStep(d, file, from, maxLine);
      ForwardStep(d, file, from, |file|);
      CapExact(d, file, RecordEnd(file, from), maxLine);
      CapStep(d, file, from, maxLine);
    }
  }

  lemma CapStep(d: Decoder, file: Bytes, from: nat, maxLine: nat)
    requires from < |file|
    requires var e := RecordEnd(file, from);
      |ForwardRecords(d, file, e, maxLine)| <= |Ahead(d, file, e)|
      && (ForwardRecords(d, file, e, maxLine) == Ahead(d, file, e) <==> AllFit(d, file, e, maxLine))
    ensures |ForwardRecords(d, file, from, maxLine)| <= |Ahead(d, file, from)|
    ensures ForwardRecords(d, file, from, maxLine) == Ahead(d, file, from) <==> AllFit(d, file, from, maxLine)
  {
    ForwardStep(d, file, from, maxLine);
    ForwardStep(d, file, from, |file|);
    var e := RecordEnd(file, from);
    var fits := AllFit(d, file, e, maxLine);
    assert AllFit(d, file, from, maxLine) <==> (e - from <= maxLine || !d.Readable(file[from..e])) && fits;
    hide ForwardRecords; hide AllFit; hide NextNewline; hide RecordEnd;
    var a, b := ForwardRecords(d, file, e, maxLine), Ahead(d, file, e);
    var one, whole := ForwardRecord(d, file[from..e], e - from, e, maxLine), ForwardRecord(d, file[from..e], e - from, e, |file|);
    assert |one + a| == |one| + |a| && |whole + b| == |whole| + |b|;
    if one == whole {
      assert (one + a)[|one|..] == a && (one + b)[|one|..] == b;
    }
  }

  // ---- polling from an event ----

  /** A poll from any event's offset, minted by either direction, finds exactly the records after that event. */
  lemma PollFromEvent(d: Decoder, file: Bytes, k: nat, at: nat)
    requires IgnoresNewline(d) && k < |Records(d, file)| && at <= |file|
    requires var o := Records(d, file)[k].offset; at == o || at == PastEnd(|file|, o)
    ensures Ahead(d, file, at) == Advanced(|file|, Records(d, file)[k + 1..])
  {
    NewlineUnread(d);
    hide IgnoresNewline; hide ForwardRecords; hide Records; hide RecordsEnding; hide Split;
    var r := Records(d, file);
    var o := r[k].offset;
    RecordPrefix(d, file, k);
    OffsetIsLineEnd(d, file, k);
    RecordsAtLineEnd(d, file, o);
    if o < |file| {
      var rest := RecordsEnding(d, Split(file[o + 1..]), |file|);
      assert r[k + 1..] == rest;
      AheadIsRest(d, file, o + 1);
      NewlineSkipped(d, file, o);
    } else {
      assert r == r[..k + 1] + [];
      assert r[k + 1..] == [];
      ForwardNothing(d, file, |file|);
    }
  }

  lemma NewlineSkipped(d: Decoder, file: Bytes, o: nat)
    requires o < |file| && file[o] == NEWLINE && !d.Readable([NEWLINE])
    ensures Ahead(d, file, o) == Ahead(d, file, o + 1)
  {
    ForwardStep(d, file, o, |file|);
    assert file[o..o + 1] == [NEWLINE];
  }

  // ---- polling while the file grows ----

  /** Where the line begins that is still being written, for a reader that starts at from. */
  function TailStart(file: Bytes, from: nat): (p: nat)
    requires from <= |file|
    ensures from <= p <= |file| && (p < |file| ==> !Terminated(file, p))
    decreases |file| - from
  {
    if from < |file| && Terminated(file, from) then TailStart(file, RecordEnd(file, from)) else from
  }

  /** What is still being written at the end of the file yields no event yet. */
  predicate Settled(d: Decoder, file: Bytes, from: nat, maxLine: nat)
    requires from <= |file|
  {
    var p := TailStart(file, from);
    p == |file| || |file| - p > maxLine || !d.Readable(file[p..])
  }

  predicate AtBoundary(file: Bytes) { file == [] || file[|file| - 1] == NEWLINE }

  lemma {:induction false} BoundaryTerminated(file: Bytes, p: nat)
    requires p < |file| && AtBoundary(file)
    ensures Terminated(file, p)
    decreases |file| - p
  {
    if file[p] != NEWLINE { BoundaryTerminated(file, p + 1); }
  }

  /** A file that ends where a record does is settled. */
  lemma BoundarySettled(d: Decoder, file: Bytes, from: nat, maxLine: nat)
    requires from <= |file| && AtBoundary(file)
    ensures Settled(d, file, from, maxLine)
  {
    var p := TailStart(file, from);
    if p < |file| { BoundaryTerminated(file, p); }
  }

  function Cursor(from: int, events: seq<Event>): int { if events == [] then from else events[|events| - 1].offset }

  lemma CursorAfter(from: int, x: Event, got: seq<Event>)
    ensures Cursor(from, [x] + got) == Cursor(x.offset, got)
  {}

  lemma Unterminated(f: Bytes, p: nat)
    requires p <= |f|
    ensures !Terminated(f, p) ==> RecordEnd(f, p) == |f| && f[p..RecordEnd(f, p)] == f[p..]
  {}

  /** A complete record yields the same event of f and of g. */
  lemma LineOfBoth(d: Decoder, f: Bytes, g: Bytes, from: nat, maxLine: nat) returns (one: seq<Event>)
    requires f <= g && from < |f| && Terminated(f, from)
    ensures var e := RecordEnd(f, from);
      && ForwardRecords(d, f, from, maxLine) == one + ForwardRecords(d, f, e, maxLine)
      && ForwardRecords(d, g, from, maxLine) == one + ForwardRecords(d, g, e, maxLine)
      && (one == [] || (|one| == 1 && one[0].offset == e))
  {
    hide ForwardRecords;
    var e := RecordEnd(f, from);
    one := ForwardRecord(d, f[from..e], e - from, e, maxLine);
    ForwardStep(d, f, from, maxLine);
    SameRecord(f, g, from);
    ForwardStep(d, g, from, maxLine);
  }

  lemma AfterOne(one: seq<Event>, p: seq<Event>, rest: seq<Event>)
    ensures one + (p + rest) == one + p + rest
  {}

  /** After the first k events of a poll of f, a later poll of the grown file g finds exactly the rest, if they do
      not include what was half written. */
  lemma {:induction false} PollEarly(d: Decoder, f: Bytes, g: Bytes, from: nat, maxLine: nat, k: nat)
    requires f <= g && from <= |f| && k <= |ForwardRecords(d, f, from, maxLine)|
    requires k < |ForwardRecords(d, f, from, maxLine)| || Settled(d, f, from, maxLine)
    ensures var got := ForwardRecords(d, f, from, maxLine)[..k];
      && from <= Cursor(from, got) <= |f|
      && ForwardRecords(d, g, from, maxLine) == got + ForwardRecords(d, g, Cursor(from, got), maxLine)
    decreases |f| - from
  {
    hide ForwardRecords; hide ForwardRecord; hide Decoder.Readable;
    var all := ForwardRecords(d, f, from, maxLine);
    if k == 0 {
      assert all[..0] == [];
    } else if from == |f| {
      ForwardNothing(d, f, maxLine);
    } else if Terminated(f, from) {
      var e := RecordEnd(f, from);
      var one := LineOfBoth(d, f, g, from, maxLine);
      var rest := ForwardRecords(d, f, e, maxLine);
      hide RecordEnd; hide Terminated; hide Settled; hide TailStart;
      if one == [] {
        assert all == rest && one + rest[..k] == rest[..k];
        PollEarly(d, f, g, e, maxLine, k);
        AfterOne(one, rest[..k], ForwardRecords(d, g, Cursor(e, rest[..k]), maxLine));
      } else {
        PollEarly(d, f, g, e, maxLine, k - 1);
        var got := rest[..k - 1];
        assert all[..k] == one + got && one == [one[0]];
        CursorAfter(from, one[0], got);
        AfterOne(one, got, ForwardRecords(d, g, Cursor(e, got), maxLine));
      }
    } else {
      TailIs(d, f, from, maxLine);
    }
  }

  /** A line still being written yields at most one event, and none if the file is settled. */
  lemma TailIs(d: Decoder, f: Bytes, p: nat, maxLine: nat)
    requires p < |f| && !Terminated(f, p)
    ensures ForwardRecords(d, f, p, maxLine)
      == if |f| - p <= maxLine && d.Readable(f[p..]) then [Event(d.Read(f[p..]).value, |f|)] else []
    ensures TailStart(f, p) == p
  {
    ForwardStep(d, f, p, maxLine);
    Unterminated(f, p);
    ForwardNothing(d, f, maxLine);
    hide ForwardRecords; hide NextNewline; hide RecordEnd;
  }

  /** If the file is not settled, the last event is that line's. */
  lemma {:induction false} TornLast(d: Decoder, f: Bytes, from: nat, maxLine: nat)
    requires from <= |f| && !Settled(d, f, from, maxLine)
    ensures var p, all := TailStart(f, from), ForwardRecords(d, f, from, maxLine);
      |all| >= 1 && all[|all| - 1] == Event(d.Read(f[p..]).value, |f|)
    decreases |f| - from
  {
    hide ForwardRecords; hide Decoder.Readable;
    if Terminated(f, from) {
      ForwardStep(d, f, from, maxLine);
      TornLast(d, f, RecordEnd(f, from), maxLine);
    } else {
      TailIs(d, f, from, maxLine);
    }
  }

  /** What a poll makes of the line still being written at the end of f, once that line goes on in g: those of its
      events that came before are the same, and then it is read whole, or from the cursor on. */
  lemma {:induction false} PollTorn(d: Decoder, f: Bytes, g: Bytes, from: nat, maxLine: nat)
    requires f <= g && |f| < |g| && from <= |f| && !Settled(d, f, from, maxLine)
    ensures var p, e, all := TailStart(f, from), RecordEnd(g, |f|), ForwardRecords(d, f, from, maxLine);
      var rest := ForwardRecords(d, g, e, maxLine);
      && |all| >= 1
      && ForwardRecords(d, g, from, maxLine) == all[..|all| - 1] + (ForwardRecord(d, g[p..e], e - p, e, maxLine) + rest)
      && ForwardRecords(d, g, |f|, maxLine) == ForwardRecord(d, g[|f|..e], e - |f|, e, maxLine) + rest
    decreases |f| - from
  {
    hide ForwardRecords; hide ForwardRecord; hide Decoder.Readable;
    ForwardStep(d, g, |f|, maxLine);
    if Terminated(f, from) {
      var e := RecordEnd(f, from);
      var one := LineOfBoth(d, f, g, from, maxLine);
      PollTorn(d, f, g, e, maxLine);
      var all := ForwardRecords(d, f, e, maxLine);
      var n := |all| - 1;
      assert TailStart(f, from) == TailStart(f, e);
      hide RecordEnd; hide Terminated; hide Settled; hide TailStart;
      assert (one + all)[..|one| + n] == one + all[..n];
      var p, q := TailStart(f, e), RecordEnd(g, |f|);
      AfterOne(one, all[..n], ForwardRecord(d, g[p..q], q - p, q, maxLine) + ForwardRecords(d, g, q, maxLine));
    } else {
      TailIs(d, f, from, maxLine);
      TornLine(f, g, from);
      ForwardStep(d, g, from, maxLine);
    }
  }

  lemma TornLine(f: Bytes, g: Bytes, p: nat)
    requires f <= g && |f| < |g| && p < |f| && !Terminated(f, p)
    ensures RecordEnd(g, p) == RecordEnd(g, |f|)
  {
    var k := NextNewline(g, |f|);
    assert NextNewline(f, p) == |f| && f[p..|f|] == g[p..|f|];
    assert g[p..k] == g[p..|f|] + g[|f|..k];
    NextNewlineUnique(g, p, k);
  }

  function Texts(r: seq<Event>): (t: seq<Content>)
    ensures |t| == |r|
  {
    seq(|r|, i requires 0 <= i < |r| => r[i].content)
  }

  lemma TextsConcat(a: seq<Event>, b: seq<Event>)
    ensures Texts(a + b) == Texts(a) + Texts(b)
  {}

  /** Of the line still being written at the end of f: it yields no event yet, or in g the line yields the same, and
      what g adds to it yields nothing by itself. */
  predicate Whole(d: Decoder, f: Bytes, g: Bytes, from: nat, maxLine: nat)
    requires from <= |f| <= |g|
  {
    Settled(d, f, from, maxLine) || |g| == |f|
    || (var p, e := TailStart(f, from), RecordEnd(g, |f|);
        var line, more := ForwardRecord(d, g[p..e], e - p, e, maxLine), ForwardRecord(d, g[|f|..e], e - |f|, e, maxLine);
        more == [] && Texts(line) == [d.Read(f[p..]).value])
  }

  /** A record that only lacks its newline is whole, unless the newline makes it too long. */
  lemma NewlineWhole(d: Decoder, f: Bytes, g: Bytes, from: nat, maxLine: nat)
    requires IgnoresNewline(d) && f <= g && |f| < |g| && from <= |f| && g[|f|] == NEWLINE
    requires |f| - TailStart(f, from) < maxLine
    ensures Whole(d, f, g, from, maxLine)
  {
    if !Settled(d, f, from, maxLine) {
      var p, e := TailStart(f, from), |f|;
      NextNewlineUnique(g, e, e);
      assert g[p..e + 1] == f[p..] + [NEWLINE] && g[e..e + 1] == [NEWLINE];
      SameWithNewline(d, f[p..]);
      NewlineUnread(d);
      hide IgnoresNewline; hide TailStart; hide NextNewline;
    }
  }

  /** After the first k events of a poll of f, a later poll of the grown file g finds exactly the rest, if and only if
      they do not include what was half written, or that was whole. */
  lemma PollGrown(d: Decoder, f: Bytes, g: Bytes, from: nat, maxLine: nat, k: nat)
    requires f <= g && from <= |f| && k <= |ForwardRecords(d, f, from, maxLine)|
    ensures var got := ForwardRecords(d, f, from, maxLine)[..k]; var c := Cursor(from, got);
      && from <= c <= |f|
      && (Texts(ForwardRecords(d, g, from, maxLine)) == Texts(got) + Texts(ForwardRecords(d, g, c, maxLine))
          <==> k < |ForwardRecords(d, f, from, maxLine)| || Whole(d, f, g, from, maxLine))
  {
    hide ForwardRecords; hide Settled; hide TailStart; hide RecordEnd; hide ForwardRecord; hide Texts;
    var all := ForwardRecords(d, f, from, maxLine);
    if k < |all| || Settled(d, f, from, maxLine) {
      PollEarly(d, f, g, from, maxLine, k);
      TextsConcat(all[..k], ForwardRecords(d, g, Cursor(from, all[..k]), maxLine));
    } else if |g| == |f| {
      assert g == f;
      TornLast(d, f, from, maxLine);
      ForwardNothing(d, f, maxLine);
      assert all[..k] == all && all + [] == all;
      TextsConcat(all, []);
    } else {
      TornLast(d, f, from, maxLine);
      PollTorn(d, f, g, from, maxLine);
      assert all[..k] == all;
      TornTexts(d, f, g, from, maxLine);
    }
  }

  lemma Cancel<T>(x: seq<T>, l: seq<T>, m: seq<T>, r: seq<T>, t: T)
    requires |l| <= 1
    ensures x + (l + r) == x + [t] + (m + r) <==> l == [t] && m == []
  {
    if x + (l + r) == x + [t] + (m + r) {
      assert |x + (l + r)| == |x| + |l| + |r| && |x + [t] + (m + r)| == |x| + 1 + |m| + |r|;
      assert (x + (l + r))[|x|] == (x + [t] + (m + r))[|x|];
    }
    if l == [t] && m == [] {
      assert x + (l + r) == x + [t] + (m + r);
    }
  }

  lemma TornTexts(d: Decoder, f: Bytes, g: Bytes, from: nat, maxLine: nat)
    requires f <= g && |f| < |g| && from <= |f| && !Settled(d, f, from, maxLine)
    ensures Texts(ForwardRecords(d, g, from, maxLine))
      == Texts(ForwardRecords(d, f, from, maxLine)) + Texts(ForwardRecords(d, g, |f|, maxLine))
      <==> Whole(d, f, g, from, maxLine)
  {
    hide ForwardRecords; hide Settled; hide TailStart; hide RecordEnd; hide Decoder.Readable; hide ForwardRecord;
    hide Whole; hide Texts;
    PollTorn(d, f, g, from, maxLine);
    TornLast(d, f, from, maxLine);
    var p, e, all := TailStart(f, from), RecordEnd(g, |f|), ForwardRecords(d, f, from, maxLine);
    var n := |all| - 1;
    var line, more := ForwardRecord(d, g[p..e], e - p, e, maxLine), ForwardRecord(d, g[|f|..e], e - |f|, e, maxLine);
    var rest := ForwardRecords(d, g, e, maxLine);
    WholeTorn(d, f, g, from, maxLine);
    assert all == all[..n] + [all[n]];
    TextsApart(all[..n], all[n], line, more, rest);
  }

  lemma TextsApart(front: seq<Event>, last: Event, line: seq<Event>, more: seq<Event>, rest: seq<Event>)
    requires |line| <= 1
    ensures Texts(front + (line + rest)) == Texts(front + [last]) + Texts(more + rest)
      <==> Texts(line) == [last.content] && Texts(more) == []
  {
    hide Texts;
    TextsConcat(front, [last]);
    TextsConcat(front, line + rest);
    TextsConcat(line, rest);
    TextsConcat(more, rest);
    TextsOne(last);
    Cancel(Texts(front), Texts(line), Texts(more), Texts(rest), last.content);
  }

  lemma WholeTorn(d: Decoder, f: Bytes, g: Bytes, from: nat, maxLine: nat)
    requires from <= |f| < |g| && !Settled(d, f, from, maxLine)
    ensures var p, e := TailStart(f, from), RecordEnd(g, |f|);
      var line, more := ForwardRecord(d, g[p..e], e - p, e, maxLine), ForwardRecord(d, g[|f|..e], e - |f|, e, maxLine);
      && |line| <= 1
      && (Whole(d, f, g, from, maxLine) <==> Texts(line) == [d.Read(f[p..]).value] && Texts(more) == [])
  {
    hide Settled; hide TailStart; hide RecordEnd; hide Texts; hide Decoder.Readable;
  }

  lemma TextsOne(e: Event)
    ensures Texts([e]) == [e.content]
  {}

  /** One poll of a version: at most limit events, and the cursor they leave. */
  function Poll(d: Decoder, file: Bytes, from: nat, limit: nat, maxLine: nat): seq<Event>
    requires from <= |file|
  {
    First(ForwardRecords(d, file, from, maxLine), limit)
  }

  /** The same records; one of a that was still being written when it was read ends where its line does. */
  predicate SameRecords(file: Bytes, a: seq<Event>, b: seq<Event>) {
    |a| == |b| && forall i :: 0 <= i < |a| ==>
      && a[i].content == b[i].content
      && (a[i].offset == b[i].offset || (0 <= a[i].offset <= |file| && b[i].offset == RecordEnd(file, a[i].offset)))
  }

  /** So what such polls deliver are the records of the grown file. */
  lemma PollSafe(d: Decoder, f: Bytes, g: Bytes, from: nat, maxLine: nat, k: nat)
    requires f <= g && from <= |f| && k <= |ForwardRecords(d, f, from, maxLine)|
    requires k < |ForwardRecords(d, f, from, maxLine)| || Whole(d, f, g, from, maxLine)
    ensures var got, all := ForwardRecords(d, f, from, maxLine)[..k], ForwardRecords(d, g, from, maxLine);
      && from <= Cursor(from, got) <= |f| && k <= |all|
      && SameRecords(g, got, all[..k]) && all[k..] == ForwardRecords(d, g, Cursor(from, got), maxLine)
      && (Settled(d, f, from, maxLine) ==> got == all[..k])
  {
    hide ForwardRecords; hide Settled; hide TailStart; hide RecordEnd; hide ForwardRecord; hide Cursor;
    var got := ForwardRecords(d, f, from, maxLine)[..k];
    if k < |ForwardRecords(d, f, from, maxLine)| || Settled(d, f, from, maxLine) {
      PollEarly(d, f, g, from, maxLine, k);
    } else {
      TornLast(d, f, from, maxLine);
      CursorLast(from, got);
      if |g| == |f| {
        assert g == f;
        ForwardNothing(d, f, maxLine);
      } else {
        PollTorn(d, f, g, from, maxLine);
        TornRecord(d, f, g, from, maxLine);
      }
    }
  }

  lemma CursorLast(from: int, got: seq<Event>)
    requires got != []
    ensures Cursor(from, got) == got[|got| - 1].offset
  {}

  lemma TornRecord(d: Decoder, f: Bytes, g: Bytes, from: nat, maxLine: nat)
    requires f <= g && |f| < |g| && from <= |f| && !Settled(d, f, from, maxLine) && Whole(d, f, g, from, maxLine)
    ensures var p, e := TailStart(f, from), RecordEnd(g, |f|);
      && ForwardRecord(d, g[p..e], e - p, e, maxLine) == [Event(d.Read(f[p..]).value, e)]
      && ForwardRecord(d, g[|f|..e], e - |f|, e, maxLine) == []
  {
    hide Settled; hide TailStart; hide RecordEnd; hide Decoder.Readable;
    var p, e := TailStart(f, from), RecordEnd(g, |f|);
    var line := ForwardRecord(d, g[p..e], e - p, e, maxLine);
    assert |Texts(line)| == 1 && Texts(line)[0] == line[0].content;
  }

  /** Whether what each poll takes is safe, when the file ends up as last. */
  predicate AllSafe(d: Decoder, files: seq<Bytes>, from: int, limit: nat, maxLine: nat, last: Bytes) {
    files == []
    || (0 <= from <= |files[0]| <= |last|
        && var got := Poll(d, files[0], from, limit, maxLine);
           && (|got| < |ForwardRecords(d, files[0], from, maxLine)| || Whole(d, files[0], last, from, maxLine))
           && AllSafe(d, files[1..], Cursor(from, got), limit, maxLine, last))
  }

  /** Whether the polls, in turn, meet settled files. */
  predicate AllSettled(d: Decoder, files: seq<Bytes>, from: int, limit: nat, maxLine: nat) {
    files == []
    || (0 <= from <= |files[0]| && Settled(d, files[0], from, maxLine)
        && AllSettled(d, files[1..], Cursor(from, Poll(d, files[0], from, limit, maxLine)), limit, maxLine))
  }

  /** What the polls deliver, in order, and where they leave the cursor. */
  function Delivered(d: Decoder, files: seq<Bytes>, from: int, limit: nat, maxLine: nat,
                           last: Bytes): (seq<Event>, int)
    requires AllSafe(d, files, from, limit, maxLine, last)
  {
    if files == [] then ([], from)
    else
      var got := Poll(d, files[0], from, limit, maxLine);
      var later := Delivered(d, files[1..], Cursor(from, got), limit, maxLine, last);
      (got + later.0, later.1)
  }

  lemma {:induction false} GrowingTail(files: seq<Bytes>, last: Bytes)
    requires Growing(files) && files != [] && files[|files| - 1] <= last
    ensures files[0] <= last && Growing(files[1..])
  {
    if |files| > 1 {
      assert files[1..][|files| - 2] == files[|files| - 1];
      forall i | 1 <= i < |files[1..]| ensures files[1..][i - 1] <= files[1..][i] { assert files[i] <= files[i + 1]; }
      GrowingTail(files[1..], last);
      assert files[0] <= files[1];
    }
  }

  /** Whatever is polled along the way, everything ahead in the final file is what was delivered, in order and
      once each, and then what lies ahead of the last cursor. */
  lemma {:induction false} PollsLoseNothing(d: Decoder, files: seq<Bytes>, from: nat, limit: nat, maxLine: nat,
                                            last: Bytes)
    requires Growing(files) && AllSafe(d, files, from, limit, maxLine, last)
    requires if files == [] then from <= |last| else files[|files| - 1] <= last
    ensures from <= |last|
    ensures var (got, cursor) := Delivered(d, files, from, limit, maxLine, last);
      var all := ForwardRecords(d, last, from, maxLine);
      && from <= cursor <= |last| && |got| <= |all| && SameRecords(last, got, all[..|got|])
      && all[|got|..] == ForwardRecords(d, last, cursor, maxLine)
      && (AllSettled(d, files, from, limit, maxLine) ==> all[..|got|] == got)
    decreases |files|
  {
    hide ForwardRecords; hide Settled; hide Growing; hide Whole; hide RecordEnd; hide SameRecords; hide Cursor;
    NoRecords(last);
    if files != [] {
      var f := files[0];
      GrowingTail(files, last);
      var all := ForwardRecords(d, f, from, maxLine);
      var got := Poll(d, f, from, limit, maxLine);
      assert got == all[..|got|];
      PollSafe(d, f, last, from, maxLine, |got|);
      var c := Cursor(from, got);
      PollsLoseNothing(d, files[1..], c, limit, maxLine, last);
      var later := Delivered(d, files[1..], c, limit, maxLine, last);
      hide AllSafe; hide Poll; hide Delivered; hide AllSettled;
      var whole := ForwardRecords(d, last, from, maxLine);
      Joined(last, got, later.0, whole[..|got|], whole[|got|..]);
      assert whole[..|got|] + whole[|got|..] == whole;
    } else {
      assert ForwardRecords(d, last, from, maxLine)[..0] == [];
    }
  }

  lemma NoRecords(file: Bytes)
    ensures SameRecords(file, [], [])
  {}

  lemma Joined(file: Bytes, a: seq<Event>, b: seq<Event>, p: seq<Event>, q: seq<Event>)
    requires SameRecords(file, a, p) && |b| <= |q| && SameRecords(file, b, q[..|b|])
    ensures var n := |a| + |b|;
      && |a + b| == n <= |p + q| && SameRecords(file, a + b, (p + q)[..n]) && (p + q)[n..] == q[|b|..]
      && (p == a && q[..|b|] == b ==> (p + q)[..n] == a + b)
  {
    hide RecordEnd;
  }

  // ---- the cursor of a tail page ----

  /** A tail page leaves the cursor at the size of the file. From a record boundary, what is then ahead in any
      grown file is exactly what the page's file did not have. */
  lemma TailPoll(d: Decoder, f: Bytes, g: Bytes)
    requires IgnoresNewline(d) && f <= g && AtBoundary(f)
    ensures Records(d, f) <= Records(d, g)
    ensures Ahead(d, g, |f|) == Advanced(|g|, Records(d, g)[|Records(d, f)|..])
  {
    NewlineUnread(d);
    hide IgnoresNewline; hide ForwardRecords; hide RecordsEnding; hide Split;
    AheadIsRest(d, g, |f|);
    if f == [] {
      assert g[0..] == g;
      SplitNothing(f);
      NothingBefore(d, [[]], 0);
    } else {
      var e := |f| - 1;
      assert g[..e + 1] == f && g[..e] == f[..e];
      RecordsAtLineEnd(d, g, e);
      PastNewlineSame(d, g, e);
    }
  }

  function Trim(l: Bytes): (t: Bytes)
    ensures |t| <= |l|
    ensures t == [] || t[|t| - 1] != NEWLINE
  {
    if l != [] && l[|l| - 1] == NEWLINE then Trim(l[..|l| - 1]) else l
  }

  function Only(target: Bytes): Decoder {
    Decoder(l => Trim(l) == [], l => if Trim(l) == target then Some("record") else None)
  }

  lemma OnlyIgnoresNewline(target: Bytes)
    ensures IgnoresNewline(Only(target))
  {
    forall l: Bytes ensures Trim(l + [NEWLINE]) == Trim(l) { assert (l + [NEWLINE])[..|l|] == l; }
  }

  /** What a poll from the size of a file finds, and what it should have found, when the last line, t so far, goes on
      with u: it reads the new part of that line by itself. */
  lemma TailExact(d: Decoder, head: Bytes, t: Bytes, u: Bytes)
    requires d.Valid() && AtBoundary(head) && Clean(t) && Clean(u)
    ensures var f, g := head + t, head + t + u;
      && Records(d, f) == Records(d, head) + (if d.Readable(t) then [Event(d.Read(t).value, |f|)] else [])
      && Records(d, g) == Records(d, head) + (if d.Readable(t + u) then [Event(d.Read(t + u).value, |g|)] else [])
      && Ahead(d, g, |f|) == (if d.Readable(u) then [Event(d.Read(u).value, |g|)] else [])
  {
    hide Decoder.Readable; hide Records; hide AtBoundary;
    var f, g := head + t, head + t + u;
    assert g == head + (t + u) && g[|f|..] == u;
    LastLineApart(d, head, t);
    LastLineApart(d, head, t + u);
    AheadLine(d, g, |f|);
  }

  lemma AheadLine(d: Decoder, g: Bytes, from: nat)
    requires d.Valid() && from <= |g| && Clean(g[from..])
    ensures Ahead(d, g, from) == if d.Readable(g[from..]) then [Event(d.Read(g[from..]).value, |g|)] else []
  {
    if from == |g| {
      assert g[from..] == [];
    } else {
      assert g[from..|g|] == g[from..];
      NextNewlineUnique(g, from, |g|);
      ForwardStep(d, g, from, |g|);
    }
  }

  /** A line at the end of a file, after the newline before it. */
  lemma LastLineApart(d: Decoder, head: Bytes, line: Bytes)
    requires d.Valid() && Clean(line) && AtBoundary(head)
    ensures Records(d, head + line)
      == Records(d, head) + if d.Readable(line) then [Event(d.Read(line).value, |head + line|)] else []
  {
    hide Split; hide RecordsEnding;
    SplitClean(line);
    OneLine(d, line, |head + line|);
    if head == [] {
      SplitNothing(head);
      NothingBefore(d, [[]], 0);
      assert head + line == line;
    } else {
      var e := |head| - 1;
      assert (head + line)[e + 1..] == line && (head + line)[..e] == head[..e] && head[..e + 1] == head;
      RecordsAtLineEnd(d, head + line, e);
      PastNewlineSame(d, head, e);
    }
  }

  /** So from anywhere but a record boundary it can lose a record: one that could be read neither when it was half
      written nor from there on. */
  lemma TailLoses(d: Decoder, head: Bytes, t: Bytes, u: Bytes)
    requires d.Valid() && AtBoundary(head) && Clean(t) && Clean(u)
    requires !d.Readable(t) && d.Readable(t + u) && !d.Readable(u)
    ensures var f, g := head + t, head + t + u; |Records(d, g)| == |Records(d, f)| + 1 && Ahead(d, g, |f|) == []
  {
    hide AtBoundary; hide Ahead; hide Records; hide Decoder.Readable;
    TailExact(d, head, t, u);
  }

  /** For every half-written line there are such a decoder and such a rest. */
  lemma TailCanLose(head: Bytes, t: Bytes) returns (d: Decoder, u: Bytes)
    requires AtBoundary(head) && Clean(t) && t != []
    ensures IgnoresNewline(d)
    ensures var f, g := head + t, head + t + u; |Records(d, g)| == |Records(d, f)| + 1 && Ahead(d, g, |f|) == []
  {
    var x: byte := 65;
    u := [x];
    d := Only(t + u);
    OnlyIgnoresNewline(t + u);
    assert Trim(u) == u && Trim(t + u) == t + u && |Trim(t)| <= |t|;
    hide AtBoundary; hide Ahead; hide Records;
    TailLoses(d, head, t, u);
  }
}
