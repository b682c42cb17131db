/** The summary kept across any number of polls of a growing file against one scan of the final file. */
module SummaryRuns {
  import opened Basics
  import opened Lines
  import opened ReadLine
  import opened SummaryCache

  // ---- one append ----

  /** Folding a grown file is folding what it was, then the rest from where that ended. */
  lemma {:induction false} FoldGrown(r: Reader, f: Bytes, g: Bytes, from: nat, t: Totals, stamp: string, maxLine: nat)
    requires f <= g && from <= |f|
    ensures End(g, End(f, from)) == End(g, from)
    ensures FoldFrom(r, g, from, t, maxLine) == FoldFrom(r, g, End(f, from), FoldFrom(r, f, from, t, maxLine), maxLine)
    ensures StampFrom(r, g, from, stamp, maxLine) == StampFrom(r, g, End(f, from), StampFrom(r, f, from, stamp, maxLine), maxLine)
    decreases |f| - from
  {
    hide FoldLine; hide StampOf; hide RecordEnd; hide Terminated; hide FoldFrom; hide StampFrom; hide End;
    FoldStep(r, f, from, t, stamp, maxLine);
    TerminatedLine(f, from);
    if Terminated(f, from) {
      SameRecord(f, g, from);
      TerminatedLine(g, from);
      FoldStep(r, g, from, t, stamp, maxLine);
      var e := RecordEnd(f, from);
      var short := e - from <= maxLine;
      FoldGrown(r, f, g, e, if short then FoldLine(r, t, f[from..e]) else t,
                if short then Keep(StampOf(r, f[from..e]), stamp) else stamp, maxLine);
    }
  }

  /** The cursor and the time of the last record play no part in folding. */
  function Framed(t: Totals, cursor: Cursor, last: int): Totals { t.(cursor := cursor, last := last) }

  lemma FoldLineFramed(r: Reader, t: Totals, line: Bytes, cursor: Cursor, last: int)
    ensures FoldLine(r, Framed(t, cursor, last), line) == Framed(FoldLine(r, t, line), cursor, last)
  {
    hide CountTools; hide Bump; hide Truncate;
  }

  lemma {:induction false} FoldFramed(r: Reader, content: Bytes, from: nat, t: Totals, cursor: Cursor, last: int,
                                      maxLine: nat)
    requires from <= |content|
    ensures FoldFrom(r, content, from, Framed(t, cursor, last), maxLine) == Framed(FoldFrom(r, content, from, t, maxLine), cursor, last)
    decreases |content| - from
  {
    hide FoldLine; hide RecordEnd; hide Terminated; hide FoldFrom;
    var u := Framed(t, cursor, last);
    FoldStep(r, content, from, t, "", maxLine);
    FoldStep(r, content, from, u, "", maxLine);
    TerminatedLine(content, from);
    if Terminated(content, from) {
      var e := RecordEnd(content, from);
      FoldLineFramed(r, t, content[from..e], cursor, last);
      hide Framed;
      FoldFramed(r, content, e, if e - from <= maxLine then FoldLine(r, t, content[from..e]) else t, cursor, last, maxLine);
    }
  }

  lemma FoldKeepsLast(r: Reader, content: Bytes, from: nat, t: Totals, maxLine: nat)
    requires from <= |content|
    ensures FoldFrom(r, content, from, t, maxLine).last == t.last
  {
    hide FoldFrom;
    assert Framed(t, t.cursor, t.last) == t;
    FoldFramed(r, content, from, t, t.cursor, t.last, maxLine);
  }

  /** A scan moves the time of the last record only when it has seen a later time. */
  lemma ScanLast(r: Reader, path: string, content: Bytes, t: Totals, maxLine: nat)
    requires 0 <= t.cursor.offset <= |content|
    ensures Scan(r, path, content, t, maxLine).last
      == LastAfter(r, t.last, StampFrom(r, content, t.cursor.offset, "", maxLine))
  {
    hide FoldFrom; hide StampFrom; hide End;
    FoldKeepsLast(r, content, t.cursor.offset, t, maxLine);
  }

  /** A summary but for the time of the last record. */
  function SansLast(t: Totals): Totals { t.(last := 0) }

  lemma ScanShape(r: Reader, path: string, content: Bytes, t: Totals, maxLine: nat)
    requires 0 <= t.cursor.offset <= |content|
    ensures var o := t.cursor.offset;
      SansLast(Scan(r, path, content, t, maxLine))
        == Framed(FoldFrom(r, content, o, t, maxLine), Cursor(path, |content|, End(content, o)), 0)
  {
    hide FoldFrom; hide StampFrom; hide End;
  }

  /** The cached summary of f, scanned on over what f grew into, is the full summary of that. */
  lemma ScanOn(r: Reader, path: string, f: Bytes, g: Bytes, t: Totals, maxLine: nat)
    requires f <= g && SansLast(t) == SansLast(FullScan(r, path, f, maxLine))
    ensures t.cursor.offset == End(f, 0)
    ensures SansLast(Scan(r, path, g, t, maxLine)) == SansLast(FullScan(r, path, g, maxLine))
  {
    ScanShape(r, path, f, NO_TOTALS, maxLine);
    ScanShape(r, path, g, NO_TOTALS, maxLine);
    var whole := FoldFrom(r, f, 0, NO_TOTALS, maxLine);
    var c := Cursor(path, |f|, End(f, 0));
    assert t == Framed(whole, c, t.last);
    ScanShape(r, path, g, t, maxLine);
    FoldGrown(r, f, g, 0, NO_TOTALS, "", maxLine);
    FoldFramed(r, g, End(f, 0), whole, c, t.last, maxLine);
    hide FoldFrom; hide End;
  }

  lemma PollOn(r: Reader, path: string, f: Bytes, g: Bytes, t: Totals, maxLine: nat)
    requires f <= g && SansLast(t) == SansLast(FullScan(r, path, f, maxLine))
    ensures SansLast(Poll(r, path, g, Some(t), maxLine)) == SansLast(FullScan(r, path, g, maxLine))
    ensures t.cursor.offset == End(f, 0)
    ensures Poll(r, path, g, Some(t), maxLine).last == LastAfter(r, t.last, StampFrom(r, g, End(f, 0), "", maxLine))
  {
    ScanOn(r, path, f, g, t, maxLine);
    var o := t.cursor.offset;
    ScanLast(r, path, g, t, maxLine);
    hide FoldFrom; hide FullScan; hide Scan;
    FoldStep(r, g, o, t, "", maxLine);
    TerminatedLine(g, o);
    hide StampFrom; hide End; hide RecordEnd; hide Terminated;
    if o == |g| {
      assert f == g;
    }
  }

  // ---- any number of appends ----

  /** What the cache holds after polling the versions in turn, starting with nothing cached. */
  function Polls(r: Reader, path: string, files: seq<Bytes>, maxLine: nat): (t: Totals)
    requires files != []
    ensures t.cursor.offset >= 0
  {
    var n := |files| - 1;
    if n == 0 then Poll(r, path, files[0], None, maxLine)
    else Poll(r, path, files[n], Some(Polls(r, path, files[..n], maxLine)), maxLine)
  }

  lemma GrowingPrefix(files: seq<Bytes>, n: nat)
    requires Growing(files) && n <= |files|
    ensures Growing(files[..n])
  {}

  /** However the growth was cut up, the cached summary is the full summary of the final file, but for the time of
      the last record; and its offset is just past the last newline folded. */
  lemma {:induction false} CachedIsFull(r: Reader, path: string, files: seq<Bytes>, maxLine: nat)
    requires files != [] && Growing(files)
    ensures var t, last := Polls(r, path, files, maxLine), files[|files| - 1];
      && SansLast(t) == SansLast(FullScan(r, path, last, maxLine))
      && t.cursor.offset == End(last, 0)
  {
    hide FullScan; hide FoldFrom; hide End; hide Poll;
    var n := |files| - 1;
    if n == 0 {
      FirstPoll(r, path, files[0], maxLine);
    } else {
      GrowingPrefix(files, n);
      CachedIsFull(r, path, files[..n], maxLine);
      PollOn(r, path, files[n - 1], files[n], Polls(r, path, files[..n], maxLine), maxLine);
      FirstPoll(r, path, files[n], maxLine);
    }
  }

  lemma FirstPoll(r: Reader, path: string, f: Bytes, maxLine: nat)
    ensures Poll(r, path, f, None, maxLine) == FullScan(r, path, f, maxLine)
    ensures FullScan(r, path, f, maxLine).cursor.offset == End(f, 0)
    ensures FullScan(r, path, f, maxLine).last == LastAfter(r, 0, StampFrom(r, f, 0, "", maxLine))
  {
    ScanLast(r, path, f, NO_TOTALS, maxLine);
  }

  // ---- the time of the last record ----

  function LastAfter(r: Reader, was: int, stamp: string): int {
    if stamp != "" && r.time(stamp).Some? then r.time(stamp).value else was
  }

  /** The last timestamp that each poll saw among the records new to it. */
  function Stamps(r: Reader, files: seq<Bytes>, maxLine: nat): (s: seq<string>)
    requires Growing(files)
    ensures |s| == |files|
  {
    var n := |files| - 1;
    if n < 0 then []
    else
      GrowingPrefix(files, n);
      Stamps(r, files[..n], maxLine)
      + [StampFrom(r, files[n], if n == 0 then 0 else End(files[n - 1], 0), "", maxLine)]
  }

  /** The last of them that can be read as a time. */
  function Latest(r: Reader, stamps: seq<string>): int {
    if stamps == [] then 0 else LastAfter(r, Latest(r, stamps[..|stamps| - 1]), stamps[|stamps| - 1])
  }

  /** The last of them that is there at all. */
  function LastStamp(stamps: seq<string>): string {
    if stamps == [] then "" else Keep(stamps[|stamps| - 1], LastStamp(stamps[..|stamps| - 1]))
  }

  lemma {:induction false} StampKeep(r: Reader, content: Bytes, from: nat, stamp: string, maxLine: nat)
    requires from <= |content|
    ensures StampFrom(r, content, from, stamp, maxLine) == Keep(StampFrom(r, content, from, "", maxLine), stamp)
    decreases |content| - from
  {
    hide StampOf; hide RecordEnd; hide Terminated; hide StampFrom; hide FoldLine;
    FoldStep(r, content, from, NO_TOTALS, stamp, maxLine);
    FoldStep(r, content, from, NO_TOTALS, "", maxLine);
    TerminatedLine(content, from);
    if Terminated(content, from) {
      var e := RecordEnd(content, from);
      var here := if e - from <= maxLine then StampOf(r, content[from..e]) else "";
      StampKeep(r, content, e, Keep(here, stamp), maxLine);
      StampKeep(r, content, e, here, maxLine);
      StampKeep(r, content, e, stamp, maxLine);
    }
  }

  lemma {:induction false} StampsAreAll(r: Reader, files: seq<Bytes>, maxLine: nat)
    requires files != [] && Growing(files)
    ensures LastStamp(Stamps(r, files, maxLine)) == StampFrom(r, files[|files| - 1], 0, "", maxLine)
  {
    hide StampFrom; hide End;
    var n := |files| - 1;
    var s := Stamps(r, files, maxLine);
    GrowingPrefix(files, n);
    assert s[..n] == Stamps(r, files[..n], maxLine);
    if n == 0 {
      assert LastStamp(s[..0]) == "";
    } else {
      StampsAreAll(r, files[..n], maxLine);
      FoldGrown(r, files[n - 1], files[n], 0, NO_TOTALS, "", maxLine);
      StampKeep(r, files[n], End(files[n - 1], 0), StampFrom(r, files[n - 1], 0, "", maxLine), maxLine);
    }
  }

  lemma {:induction false} CachedLast(r: Reader, path: string, files: seq<Bytes>, maxLine: nat)
    requires files != [] && Growing(files)
    ensures Polls(r, path, files, maxLine).last == Latest(r, Stamps(r, files, maxLine))
  {
    hide FullScan; hide StampFrom; hide End; hide FoldFrom; hide Poll; hide LastAfter;
    var n := |files| - 1;
    var s := Stamps(r, files, maxLine);
    GrowingPrefix(files, n);
    assert s[..n] == Stamps(r, files[..n], maxLine);
    if n == 0 {
      FirstPoll(r, path, files[0], maxLine);
      assert Latest(r, s[..0]) == 0;
    } else {
      CachedLast(r, path, files[..n], maxLine);
      CachedIsFull(r, path, files[..n], maxLine);
      PollOn(r, path, files[n - 1], files[n], Polls(r, path, files[..n], maxLine), maxLine);
    }
  }

  /** The time of the last record agrees with a full scan exactly when the file's last timestamp is missing or can
      be read as a time, or no poll ever saw a time. */
  lemma LastExact(r: Reader, path: string, files: seq<Bytes>, maxLine: nat)
    requires files != [] && Growing(files)
    ensures var t, full := Polls(r, path, files, maxLine), FullScan(r, path, files[|files| - 1], maxLine);
      var stamps := Stamps(r, files, maxLine);
      t == full <==> LastStamp(stamps) == "" || r.time(LastStamp(stamps)).Some? || Latest(r, stamps) == 0
  {
    var n := |files| - 1;
    var stamps := Stamps(r, files, maxLine);
    CachedIsFull(r, path, files, maxLine);
    CachedLast(r, path, files, maxLine);
    StampsAreAll(r, files, maxLine);
    FirstPoll(r, path, files[n], maxLine);
    LatestIsLast(r, stamps);
    hide Polls; hide FullScan; hide Stamps; hide StampFrom; hide Latest; hide LastStamp; hide End;
    var t, full := Polls(r, path, files, maxLine), FullScan(r, path, files[n], maxLine);
    assert t == full <==> t.last == full.last by {
      assert t == SansLast(t).(last := t.last) && full == SansLast(full).(last := full.last);
    }
  }

  lemma {:induction false} LatestIsLast(r: Reader, stamps: seq<string>)
    ensures LastStamp(stamps) == "" ==> Latest(r, stamps) == 0
    ensures LastStamp(stamps) != "" && r.time(LastStamp(stamps)).Some? ==>
      Latest(r, stamps) == r.time(LastStamp(stamps)).value
  {
    if stamps != [] { LatestIsLast(r, stamps[..|stamps| - 1]); }
  }

  // ---- a read that fails part way ----

  function Get(m: Count, k: string): int { if k in m then m[k] else 0 }

  function Uses(blocks: seq<Block>, k: string): nat {
    if blocks == [] then 0
    else
      var b := blocks[|blocks| - 1];
      Uses(blocks[..|blocks| - 1], k) + if b.kind == "tool_use" && b.name != "" && b.name == k then 1 else 0
  }

  /** How often a record counts a name as a model, and as a tool. */
  function Mentions(r: Reader, line: Bytes, k: string): (nat, nat) {
    match r.parse(line)
    case None => (0, 0)
    case Some(rec) =>
      if rec.kind == "assistant" && rec.message.Some? then
        var m := rec.message.value;
        (if m.model != "" && m.model == k then 1 else 0, if m.blocks.Some? then Uses(m.blocks.value, k) else 0)
      else (0, 0)
  }

  function Plus(a: (nat, nat), b: (nat, nat)): (nat, nat) { (a.0 + b.0, a.1 + b.1) }

  function MentionsFrom(r: Reader, content: Bytes, from: nat, k: string, maxLine: nat): (nat, nat)
    requires from <= |content|
    decreases |content| - from
  {
    if Terminated(content, from) then
      var e := RecordEnd(content, from);
      Plus(if e - from <= maxLine then Mentions(r, content[from..e], k) else (0, 0), MentionsFrom(r, content, e, k, maxLine))
    else (0, 0)
  }

  /** What a failed read has already counted: the records before it, and the part of one it broke off in. */
  function MentionsBroken(r: Reader, data: Bytes, from: nat, k: string, maxLine: nat): (nat, nat)
    requires from <= |data|
  {
    var e := End(data, from);
    Plus(MentionsFrom(r, data, from, k, maxLine), if e < |data| && |data| - e <= maxLine then Mentions(r, data[e..], k) else (0, 0))
  }

  /** The two counts of a name. */
  function Counted(t: Totals, k: string): (int, int) { (Get(t.models, k), Get(t.tools, k)) }

  function More(c: (int, int), m: (nat, nat)): (int, int) { (c.0 + m.0, c.1 + m.1) }

  lemma {:induction false} CountToolsAdds(m: Count, blocks: seq<Block>, k: string)
    ensures Get(CountTools(m, blocks), k) == Get(m, k) + Uses(blocks, k)
  {
    if blocks != [] { CountToolsAdds(m, blocks[..|blocks| - 1], k); }
  }

  lemma FoldMessageAdds(t: Totals, m: Message, k: string)
    ensures Counted(FoldMessage(t, m), k)
      == More(Counted(t, k), (if m.model != "" && m.model == k then 1 else 0, if m.blocks.Some? then Uses(m.blocks.value, k) else 0))
  {
    hide CountTools; hide Uses; hide AddTokens; hide Keep;
    if m.blocks.Some? { CountToolsAdds(t.tools, m.blocks.value, k); }
  }

  lemma FoldLineAdds(r: Reader, t: Totals, line: Bytes, k: string)
    ensures Counted(FoldLine(r, t, line), k) == More(Counted(t, k), Mentions(r, line, k))
  {
    hide FoldIdentity; hide FoldTurn; hide FoldMessage; hide Uses; hide Get;
    var p := r.parse(line);
    if p.Some? && p.value.kind == "assistant" && p.value.message.Some? {
      var u := t.(id := FoldIdentity(r, t.id, p.value), tally := FoldTurn(t.tally, p.value));
      FoldMessageAdds(u, p.value.message.value, k);
    }
  }

  lemma MentionsStep(r: Reader, content: Bytes, from: nat, k: string, maxLine: nat)
    requires from <= |content|
    ensures var e := RecordEnd(content, from);
      MentionsFrom(r, content, from, k, maxLine)
        == if Terminated(content, from) then
             Plus(if e - from <= maxLine then Mentions(r, content[from..e], k) else (0, 0), MentionsFrom(r, content, e, k, maxLine))
           else (0, 0)
  {}

  lemma {:induction false} FoldFromAdds(r: Reader, content: Bytes, from: nat, t: Totals, k: string, maxLine: nat)
    requires from <= |content|
    ensures Counted(FoldFrom(r, content, from, t, maxLine), k) == More(Counted(t, k), MentionsFrom(r, content, from, k, maxLine))
    decreases |content| - from
  {
    hide FoldLine; hide RecordEnd; hide Terminated; hide FoldFrom; hide MentionsFrom; hide Mentions; hide Counted;
    FoldStep(r, content, from, t, "", maxLine);
    MentionsStep(r, content, from, k, maxLine);
    TerminatedLine(content, from);
    if Terminated(content, from) {
      var e := RecordEnd(content, from);
      var u := if e - from <= maxLine then FoldLine(r, t, content[from..e]) else t;
      FoldLineAdds(r, t, content[from..e], k);
      FoldFromAdds(r, content, e, u, k, maxLine);
    }
  }

  lemma ScanAdds(r: Reader, path: string, content: Bytes, t: Totals, k: string, maxLine: nat)
    requires 0 <= t.cursor.offset <= |content|
    ensures Counted(Scan(r, path, content, t, maxLine), k) == More(Counted(t, k), MentionsFrom(r, content, t.cursor.offset, k, maxLine))
  {
    hide FoldFrom; hide StampFrom; hide End; hide MentionsFrom; hide Get;
    FoldFromAdds(r, content, t.cursor.offset, t, k, maxLine);
  }

  lemma BrokenAdds(r: Reader, data: Bytes, t: Totals, k: string, maxLine: nat)
    requires 0 <= t.cursor.offset <= |data|
    ensures Counted(AfterFailure(r, data, t, maxLine), k)
      == More(Counted(t, k), MentionsBroken(r, data, t.cursor.offset, k, maxLine))
  {
    hide FoldFrom; hide FoldLine; hide End; hide MentionsFrom; hide Mentions; hide Get;
    var o := t.cursor.offset;
    var e := End(data, o);
    FoldFromAdds(r, data, o, t, k, maxLine);
    FoldLineAdds(r, FoldFrom(r, data, o, t, maxLine), data[e..], k);
  }

  /** After one failed read, the next poll counts twice exactly what the failed read had counted already. So the
      counts are right exactly when it had counted nothing. */
  lemma FailedReadCountsTwice(r: Reader, path: string, f: Bytes, g: Bytes, data: Bytes, t: Totals, k: string,
                              maxLine: nat)
    requires f <= g && SansLast(t) == SansLast(FullScan(r, path, f, maxLine)) && t.cursor.offset < |g|
    requires t.cursor.offset <= |data|
    ensures var twice := MentionsBroken(r, data, t.cursor.offset, k, maxLine);
      var later, full := Poll(r, path, g, Some(AfterFailure(r, data, t, maxLine)), maxLine), FullScan(r, path, g, maxLine);
      && Counted(later, k) == More(Counted(full, k), twice)
      && (Counted(later, k) == Counted(full, k) <==> twice == (0, 0))
  {
    hide Scan; hide FullScan; hide MentionsFrom; hide MentionsBroken; hide Counted; hide AfterFailure; hide SansLast;
    ScanOn(r, path, f, g, t, maxLine);
    BrokenAdds(r, data, t, k, maxLine);
    var after := AfterFailure(r, data, t, maxLine);
    assert Poll(r, path, g, Some(after), maxLine) == Scan(r, path, g, after, maxLine);
    ScanAdds(r, path, g, t, k, maxLine);
    ScanAdds(r, path, g, after, k, maxLine);
    SansLastCounts(Scan(r, path, g, t, maxLine), FullScan(r, path, g, maxLine), k);
  }

  lemma SansLastCounts(a: Totals, b: Totals, k: string)
    requires SansLast(a) == SansLast(b)
    ensures Counted(a, k) == Counted(b, k)
  {}

  // ---- any number of reads, some of which fail ----

  function Run(r: Reader, path: string, visits: seq<Visit>, maxLine: nat): (t: Option<Totals>)
    ensures t.Some? ==> t.value.cursor.offset >= 0
  {
    var n := |visits| - 1;
    if n < 0 then None else Visited(r, path, visits[n], Run(r, path, visits[..n], maxLine), maxLine)
  }

  /** The files of the polls that did not fail. */
  function Goods(visits: seq<Visit>): seq<Bytes> {
    var n := |visits| - 1;
    if n < 0 then [] else Goods(visits[..n]) + if visits[n].Good? then [visits[n].file] else []
  }

  /** What the reads that failed have counted of a name, in all. */
  function Surplus(r: Reader, visits: seq<Visit>, k: string, maxLine: nat): (nat, nat) {
    var n := |visits| - 1;
    if n < 0 then (0, 0)
    else
      var goods := Goods(visits[..n]);
      Plus(Surplus(r, visits[..n], k, maxLine),
           if visits[n].Good? || goods == [] then (0, 0)
           else
             var from := End(goods[|goods| - 1], 0);
             if from < visits[n].size && from <= |visits[n].data| then MentionsBroken(r, visits[n].data, from, k, maxLine)
             else (0, 0))
  }

  /** A summary but for its two maps. */
  function SansCounts(t: Totals): Totals { t.(models := map[], tools := map[]) }

  lemma FoldLineSans(r: Reader, t: Totals, u: Totals, line: Bytes)
    requires SansCounts(t) == SansCounts(u)
    ensures SansCounts(FoldLine(r, t, line)) == SansCounts(FoldLine(r, u, line))
  {
    hide FoldIdentity; hide FoldTurn; hide CountTools; hide Bump; hide AddTokens; hide Keep;
  }

  lemma {:induction false} FoldFromSans(r: Reader, content: Bytes, from: nat, t: Totals, u: Totals, maxLine: nat)
    requires from <= |content| && SansCounts(t) == SansCounts(u)
    ensures SansCounts(FoldFrom(r, content, from, t, maxLine)) == SansCounts(FoldFrom(r, content, from, u, maxLine))
    decreases |content| - from
  {
    hide FoldLine; hide RecordEnd; hide Terminated; hide FoldFrom; hide SansCounts;
    FoldStep(r, content, from, t, "", maxLine);
    FoldStep(r, content, from, u, "", maxLine);
    TerminatedLine(content, from);
    if Terminated(content, from) {
      var e := RecordEnd(content, from);
      if e - from <= maxLine {
        FoldLineSans(r, t, u, content[from..e]);
        FoldFromSans(r, content, e, FoldLine(r, t, content[from..e]), FoldLine(r, u, content[from..e]), maxLine);
      } else {
        FoldFromSans(r, content, e, t, u, maxLine);
      }
    }
  }

  lemma ScanSans(r: Reader, path: string, content: Bytes, t: Totals, u: Totals, maxLine: nat)
    requires 0 <= t.cursor.offset <= |content| && SansCounts(t) == SansCounts(u)
    ensures SansCounts(Scan(r, path, content, t, maxLine)) == SansCounts(Scan(r, path, content, u, maxLine))
  {
    hide FoldFrom; hide StampFrom; hide End;
    FoldFromSans(r, content, t.cursor.offset, t, u, maxLine);
  }

  /** t has counted what u has, and twice besides. */
  ghost predicate CountsMore(t: Totals, u: Totals, k: string, twice: (nat, nat)) {
    SansCounts(t) == SansCounts(u) && Counted(t, k) == More(Counted(u, k), twice)
  }

  lemma GoodAdds(r: Reader, path: string, file: Bytes, t: Totals, u: Totals, k: string, twice: (nat, nat), maxLine: nat)
    requires CountsMore(t, u, k, twice) && 0 <= t.cursor.offset <= |file|
    ensures CountsMore(Poll(r, path, file, Some(t), maxLine), Poll(r, path, file, Some(u), maxLine), k, twice)
  {
    hide Scan; hide MentionsFrom; hide Get;
    if t.cursor.offset < |file| {
      ScanSans(r, path, file, t, u, maxLine);
      ScanAdds(r, path, file, t, k, maxLine);
      ScanAdds(r, path, file, u, k, maxLine);
    }
  }

  lemma FailureAdds(r: Reader, data: Bytes, t: Totals, u: Totals, k: string, twice: (nat, nat), maxLine: nat)
    requires CountsMore(t, u, k, twice) && 0 <= t.cursor.offset <= |data|
    ensures CountsMore(AfterFailure(r, data, t, maxLine), u, k,
                       Plus(twice, MentionsBroken(r, data, t.cursor.offset, k, maxLine)))
  {
    hide MentionsBroken; hide Get; hide FoldBroken;
    BrokenAdds(r, data, t, k, maxLine);
  }

  lemma GoodsAdd(visits: seq<Visit>)
    requires visits != []
    ensures var n := |visits| - 1; var rest := Goods(visits[..n]);
      && (visits[n].Good? ==> Goods(visits) == rest + [visits[n].file] && Goods(visits)[..|rest|] == rest)
      && (visits[n].Broken? ==> Goods(visits) == rest)
  {}

  /** Over any run of polls, some of which fail, the cache holds what it would without those that fail, but that its
      counts are higher by what they had counted. */
  lemma {:induction false} RunExact(r: Reader, path: string, visits: seq<Visit>, k: string, maxLine: nat)
    requires Growing(Goods(visits))
    ensures Run(r, path, visits, maxLine).Some? <==> Goods(visits) != []
    ensures Goods(visits) != [] ==>
      CountsMore(Run(r, path, visits, maxLine).value, Polls(r, path, Goods(visits), maxLine), k, Surplus(r, visits, k, maxLine))
    ensures Goods(visits) == [] ==> Surplus(r, visits, k, maxLine) == (0, 0)
  {
    hide Poll; hide End; hide CountsMore; hide AfterFailure; hide MentionsBroken; hide FullScan; hide Growing;
    var n := |visits| - 1;
    if n >= 0 {
      var rest, was := Goods(visits[..n]), Run(r, path, visits[..n], maxLine);
      GoodsAdd(visits);
      if visits[n].Good? { GrowingPrefix(Goods(visits), |rest|); }
      RunExact(r, path, visits[..n], k, maxLine);
      if rest != [] {
        CachedIsFull(r, path, rest, maxLine);
        if visits[n].Good? {
          LastGrown(rest, visits[n].file);
          PollsAdd(r, path, rest, visits[n].file, maxLine);
        }
        VisitAdds(r, path, visits[n], was.value, Polls(r, path, rest, maxLine), k, Surplus(r, visits[..n], k, maxLine), maxLine);
      } else if visits[n].Good? {
        FirstCounts(r, path, visits[n].file, k, maxLine);
      }
    }
  }

  lemma LastGrown(rest: seq<Bytes>, file: Bytes)
    requires rest != [] && Growing(rest + [file])
    ensures |rest[|rest| - 1]| <= |file|
  {
    var all := rest + [file];
    assert all[|rest| - 1] <= all[|rest|];
  }

  lemma PollsAdd(r: Reader, path: string, rest: seq<Bytes>, file: Bytes, maxLine: nat)
    requires rest != []
    ensures Polls(r, path, rest + [file], maxLine) == Poll(r, path, file, Some(Polls(r, path, rest, maxLine)), maxLine)
  {
    hide Poll;
    assert (rest + [file])[..|rest|] == rest;
  }

  /** One visit more, when something is cached. */
  lemma VisitAdds(r: Reader, path: string, v: Visit, t: Totals, u: Totals, k: string, twice: (nat, nat), maxLine: nat)
    requires CountsMore(t, u, k, twice) && u.cursor.offset >= 0 && (v.Good? ==> u.cursor.offset <= |v.file|)
    ensures t.cursor == u.cursor
    ensures var from := u.cursor.offset; var now := Visited(r, path, v, Some(t), maxLine);
      && now.Some?
      && if v.Good? then CountsMore(now.value, Poll(r, path, v.file, Some(u), maxLine), k, twice)
         else CountsMore(now.value, u, k,
                         if from < v.size && from <= |v.data| then Plus(twice, MentionsBroken(r, v.data, from, k, maxLine)) else twice)
  {
    assert SansCounts(t).cursor == SansCounts(u).cursor;
    if v.Good? {
      GoodAdds(r, path, v.file, t, u, k, twice, maxLine);
    } else if t.cursor.offset < v.size && t.cursor.offset <= |v.data| {
      FailureAdds(r, v.data, t, u, k, twice, maxLine);
    }
    hide Poll; hide CountsMore; hide MentionsBroken; hide AfterFailure;
  }

  lemma FirstCounts(r: Reader, path: string, file: Bytes, k: string, maxLine: nat)
    ensures Polls(r, path, [file], maxLine) == Poll(r, path, file, None, maxLine)
    ensures CountsMore(Poll(r, path, file, None, maxLine), Polls(r, path, [file], maxLine), k, (0, 0))
  {
    hide Poll;
  }

  /** So the offset and every field but the last time and the counts are a full scan's; and the counts are right
      exactly when every read that failed had counted nothing. */
  lemma FailedReadsExact(r: Reader, path: string, visits: seq<Visit>, maxLine: nat)
    requires Growing(Goods(visits)) && Goods(visits) != []
    ensures Run(r, path, visits, maxLine).Some?
    ensures var t, files := Run(r, path, visits, maxLine).value, Goods(visits);
      var last := files[|files| - 1];
      var full := FullScan(r, path, last, maxLine);
      && SansCounts(SansLast(t)) == SansCounts(SansLast(full)) && t.cursor.offset == End(last, 0)
      && t.last == Polls(r, path, files, maxLine).last
      && (forall k :: Counted(t, k) == More(Counted(full, k), Surplus(r, visits, k, maxLine)))
      && ((forall k :: Counted(t, k) == Counted(full, k)) <==> forall k :: Surplus(r, visits, k, maxLine) == (0, 0))
  {
    hide Run; hide Goods; hide Surplus; hide Polls; hide FullScan; hide End; hide Counted; hide SansCounts; hide SansLast;
    hide More; hide Growing;
    RunFields(r, path, visits, maxLine);
    var t, files := Run(r, path, visits, maxLine).value, Goods(visits);
    var full := FullScan(r, path, files[|files| - 1], maxLine);
    forall k ensures Counted(t, k) == More(Counted(full, k), Surplus(r, visits, k, maxLine)) {
      RunCounts(r, path, visits, k, maxLine);
    }
    forall k ensures Counted(t, k) == Counted(full, k) <==> Surplus(r, visits, k, maxLine) == (0, 0) {
      NoMore(Counted(full, k), Surplus(r, visits, k, maxLine));
    }
  }

  lemma NoMore(c: (int, int), m: (nat, nat))
    ensures More(c, m) == c <==> m == (0, 0)
  {}

  lemma RunCounts(r: Reader, path: string, visits: seq<Visit>, k: string, maxLine: nat)
    requires Growing(Goods(visits)) && Goods(visits) != []
    ensures Run(r, path, visits, maxLine).Some?
    ensures var files := Goods(visits);
      Counted(Run(r, path, visits, maxLine).value, k)
        == More(Counted(FullScan(r, path, files[|files| - 1], maxLine), k), Surplus(r, visits, k, maxLine))
  {
    var files := Goods(visits);
    CachedIsFull(r, path, files, maxLine);
    RunExact(r, path, visits, k, maxLine);
    SansLastCounts(Polls(r, path, files, maxLine), FullScan(r, path, files[|files| - 1], maxLine), k);
    hide Run; hide Goods; hide Surplus; hide Polls; hide FullScan; hide End; hide Counted;
  }

  lemma RunFields(r: Reader, path: string, visits: seq<Visit>, maxLine: nat)
    requires Growing(Goods(visits)) && Goods(visits) != []
    ensures Run(r, path, visits, maxLine).Some?
    ensures var t, files := Run(r, path, visits, maxLine).value, Goods(visits);
      var last := files[|files| - 1];
      && SansCounts(SansLast(t)) == SansCounts(SansLast(FullScan(r, path, last, maxLine)))
      && t.cursor.offset == End(last, 0) && t.last == Polls(r, path, files, maxLine).last
  {
    var files := Goods(visits);
    CachedIsFull(r, path, files, maxLine);
    RunExact(r, path, visits, "", maxLine);
    var t, p := Run(r, path, visits, maxLine).value, Polls(r, path, files, maxLine);
    var full := FullScan(r, path, files[|files| - 1], maxLine);
    hide Run; hide Goods; hide Surplus; hide Polls; hide FullScan; hide End; hide Counted;
    assert SansCounts(t).last == SansCounts(p).last && SansCounts(t).cursor == SansCounts(p).cursor;
    SansBoth(t, p, full);
  }

  lemma SansBoth(t: Totals, p: Totals, full: Totals)
    requires SansCounts(t) == SansCounts(p) && SansLast(p) == SansLast(full)
    ensures SansCounts(SansLast(t)) == SansCounts(SansLast(full))
  {
    assert SansCounts(SansLast(t)) == SansLast(SansCounts(t)) && SansCounts(SansLast(full)) == SansCounts(SansLast(p));
  }
}
