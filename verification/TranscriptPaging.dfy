/** What backward pages of a transcript add up to. */
module TranscriptPaging {
  import opened Basics
  import opened Lines
  import opened Transcript

  // ---- offsets ----

  lemma {:induction false} OffsetsInRange(d: Decoder, lines: seq<Bytes>, end: int, k: nat)
    requires d.Valid() && k < |RecordsEnding(d, lines, end)|
    ensures end - Width(lines) + 2 <= RecordsEnding(d, lines, end)[k].offset <= end
  {
    var n := |lines| - 1;
    var e := end - |lines[n]| - 1;
    if k < |RecordsEnding(d, lines[..n], e)| {
      OffsetsInRange(d, lines[..n], e, k);
    } else {
      assert |lines[n]| >= 1;
    }
  }

  lemma {:induction false} OffsetsIncrease(d: Decoder, lines: seq<Bytes>, end: int, j: nat, k: nat)
    requires d.Valid() && j < k < |RecordsEnding(d, lines, end)|
    ensures RecordsEnding(d, lines, end)[j].offset < RecordsEnding(d, lines, end)[k].offset
  {
    var n := |lines| - 1;
    var e := end - |lines[n]| - 1;
    if k < |RecordsEnding(d, lines[..n], e)| {
      OffsetsIncrease(d, lines[..n], e, j, k);
    } else {
      OffsetsInRange(d, lines[..n], e, j);
    }
  }

  /** Offsets are file positions past the start, because a readable line is not empty. */
  lemma OffsetsPositive(d: Decoder, file: Bytes, k: nat)
    requires d.Valid() && k < |Records(d, file)|
    ensures 1 <= Records(d, file)[k].offset <= |file|
  {
    SplitWidth(file);
    OffsetsInRange(d, Split(file), |file|, k);
  }

  /** Where a line may end: at its newline, or where the file does. */
  predicate LineEnd(file: Bytes, e: int) { 0 <= e <= |file| && (e < |file| ==> file[e] == NEWLINE) }

  lemma SplitAtLineEnd(file: Bytes, e: nat)
    requires e < |file| && file[e] == NEWLINE
    ensures Split(file) == Split(file[..e]) + Split(file[e + 1..])
  {
    var nl: Bytes := [NEWLINE];
    SplitNewline();
    hide Split; hide Join;
    assert file[e..] == nl + file[e + 1..] && file == file[..e] + file[e..];
    SplitConcat(file[..e], file[e..]);
    SplitConcat(nl, file[e + 1..]);
    JoinNewline(Split(file[..e]), Split(file[e + 1..]));
  }

  lemma JoinNewline(p: seq<Bytes>, q: seq<Bytes>)
    requires |p| >= 1 && |q| >= 1
    ensures Join(p, Join([[], []], q)) == p + q
  {
    var b := Join([[], []], q);
    assert b == [[]] + q by { assert [] + q[0] == q[0]; }
    assert p[|p| - 1] + [] == p[|p| - 1];
  }

  lemma SplitNewline()
    ensures Split([NEWLINE]) == [[], []]
  {
    assert [NEWLINE][..0] == [];
  }

  /** The records of a file are those up to any line end, then those after it. */
  lemma RecordsAtLineEnd(d: Decoder, file: Bytes, e: nat)
    requires LineEnd(file, e)
    ensures Records(d, file) == Records(d, file[..e]) + if e < |file| then RecordsEnding(d, Split(file[e + 1..]), |file|) else []
  {
    if e < |file| {
      hide Split;
      SplitAtLineEnd(file, e);
      RecordsConcat(d, Split(file[..e]), Split(file[e + 1..]), |file|);
      SplitWidth(file[e + 1..]);
    } else {
      assert file[..e] == file;
    }
  }

  lemma {:induction false} LastLine(s: Bytes)
    requires |Split(s)| >= 2
    ensures var n := |Split(s)| - 1; var p := |s| - |Split(s)[n]| - 1;
      0 <= p < |s| && s[p] == NEWLINE && Split(s[..p]) == Split(s)[..n]
  {
    var m := |s| - 1;
    if s[m] == NEWLINE {
    } else {
      LastLine(s[..m]);
      var r := Split(s[..m]);
      var p := m - |r[|r| - 1]| - 1;
      assert s[..m][..p] == s[..p];
    }
  }

  /** Every offset is a line end. */
  lemma {:induction false} OffsetIsLineEnd(d: Decoder, file: Bytes, k: nat)
    requires d.Valid() && k < |Records(d, file)|
    ensures LineEnd(file, Records(d, file)[k].offset)
    decreases |file|
  {
    hide Split;
    var lines := Split(file);
    var n := |lines| - 1;
    if n == 0 {
      assert RecordsEnding(d, lines[..0], |file| - |lines[0]| - 1) == [];
    } else {
      LastLine(file);
      var p := |file| - |lines[n]| - 1;
      assert Records(d, file[..p]) == RecordsEnding(d, lines[..n], p);
      if k < |Records(d, file[..p])| {
        OffsetIsLineEnd(d, file[..p], k);
      }
    }
  }

  lemma OffsetsOf(d: Decoder, file: Bytes, j: nat, k: nat)
    requires d.Valid() && j < k < |Records(d, file)|
    ensures Records(d, file)[j].offset < Records(d, file)[k].offset
  {
    OffsetsIncrease(d, Split(file), |file|, j, k);
  }

  /** The file cut where a record ends holds exactly the records up to it. */
  lemma RecordPrefix(d: Decoder, file: Bytes, k: nat)
    requires d.Valid() && k < |Records(d, file)|
    ensures 1 <= Records(d, file)[k].offset <= |file|
    ensures Records(d, file[..Records(d, file)[k].offset]) == Records(d, file)[..k + 1]
  {
    hide Records; hide RecordsEnding;
    var r := Records(d, file);
    var e := r[k].offset;
    OffsetsPositive(d, file, k);
    OffsetIsLineEnd(d, file, k);
    RecordsAtLineEnd(d, file, e);
    var head := Records(d, file[..e]);
    assert head == r[..|head|];
    if k >= |head| {
      assert e < |file|;
      var tail := Split(file[e + 1..]);
      SplitWidth(file[e + 1..]);
      assert RecordsEnding(d, tail, |file|)[k - |head|] == r[k];
      OffsetsInRange(d, tail, |file|, k - |head|);
    } else if k + 1 < |head| {
      OffsetsPositive(d, file[..e], k + 1);
      assert head[k + 1] == r[k + 1];
      OffsetsOf(d, file, k, k + 1);
    }
  }

  /** One byte further, past the newline, is the same place: the empty line there holds nothing. */
  lemma PastNewlineSame(d: Decoder, file: Bytes, e: nat)
    requires d.Valid() && e < |file| && file[e] == NEWLINE
    ensures Records(d, file[..e + 1]) == Records(d, file[..e])
  {
    assert file[..e + 1][..e] == file[..e];
    var lines := Split(file[..e]);
    assert (lines + [[]])[..|lines|] == lines;
  }

  // ---- one page ----

  /** However far a scan went, what it found is the end of all there is. */
  lemma ScannedIsSuffix(d: Decoder, file: Bytes, stop: nat, end: nat)
    requires d.Valid() && stop <= end <= |file|
    ensures var r, all := ScannedRecords(d, file, stop, end), Records(d, file[..end]);
      |r| <= |all| && r == all[|all| - |r|..]
  {
    hide Split;
    if stop > 0 {
      var a, b := file[..stop], file[stop..end];
      assert file[..end] == a + b;
      SplitConcat(a, b);
      var p, q := Split(a), Split(b);
      RecordsConcat(d, p[..|p| - 1] + [p[|p| - 1] + q[0]], q[1..], end);
    }
  }

  /** The page a reader should get: the last limit records of the prefix, and where the one before them ends. */
  function PageAt(d: Decoder, file: Bytes, end: nat, limit: nat): (seq<Event>, int)
    requires end <= |file|
  {
    (Last(Records(d, file[..end]), limit), Before(Records(d, file[..end]), limit))
  }

  /** The records that a scan back from end comes to. */
  function Seen(c: Config, d: Decoder, file: Bytes, end: nat, limit: nat): seq<Event>
    requires c.chunkSize > 0 && end <= |file|
  {
    ScannedRecords(d, file, StopAt(d, file, end, end, limit, c.chunkSize, c.maxScanBack), end)
  }

  /** backward gives that page exactly when it saw more than a page, or left no record unseen; and it says
      "more" exactly when it saw more than a page. */
  lemma PageExact(c: Config, d: Decoder, file: Bytes, end: nat, limit: nat)
    requires c.Valid() && d.Valid() && end <= |file|
    ensures var r := Seen(c, d, file, end, limit);
      && (BackPage(c, d, file, end, limit) == PageAt(d, file, end, limit)
          <==> |r| > limit || |r| == |Records(d, file[..end])|)
      && (BackPage(c, d, file, end, limit).1 > 0 <==> |r| > limit)
  {
    var stop := StopAt(d, file, end, end, limit, c.chunkSize, c.maxScanBack);
    ScannedIsSuffix(d, file, stop, end);
    hide Records; hide ScannedRecords; hide StopAt;
    var r, all := ScannedRecords(d, file, stop, end), Records(d, file[..end]);
    if |all| > limit {
      OffsetsPositive(d, file[..end], |all| - limit - 1);
    }
  }

  /** The page's second part is zero exactly when no earlier record exists. */
  lemma PageStart(d: Decoder, file: Bytes, end: nat, limit: nat)
    requires d.Valid() && end <= |file|
    ensures PageAt(d, file, end, limit).1 > 0 <==> |Records(d, file[..end])| > limit
    ensures PageAt(d, file, end, limit).1 <= end
  {
    hide Records;
    var all := Records(d, file[..end]);
    if |all| > limit { OffsetsPositive(d, file[..end], |all| - limit - 1); }
  }

  // ---- the scan bound ----

  /** How far back the chunks reach before the bound stops them: the bound rounded up to whole chunks. */
  function Reach(chunkSize: nat, maxScanBack: nat, r: nat): (n: nat)
    requires chunkSize > 0
    ensures n >= r && n >= maxScanBack
    decreases maxScanBack - r
  {
    if r >= maxScanBack then r else Reach(chunkSize, maxScanBack, r + chunkSize)
  }

  lemma {:induction false} StopWithinReach(d: Decoder, file: Bytes, pos: nat, end: nat, limit: nat, chunkSize: nat,
                                           maxScanBack: nat)
    requires pos <= end <= |file| && chunkSize > 0 && end <= Reach(chunkSize, maxScanBack, end - pos)
    ensures var s := StopAt(d, file, pos, end, limit, chunkSize, maxScanBack);
      s == 0 || |ScannedRecords(d, file, s, end)| > limit
    decreases pos
  {
    hide ScannedRecords;
    if pos == 0 || |ScannedRecords(d, file, pos, end)| > limit || end - pos >= maxScanBack {
    } else if pos < chunkSize {
    } else {
      StopWithinReach(d, file, pos - chunkSize, end, limit, chunkSize, maxScanBack);
    }
  }

  /** Beyond reach, a scan that does not come to more than limit records stops at the bound. */
  lemma {:induction false} StopBeyondReach(d: Decoder, file: Bytes, pos: nat, end: nat, limit: nat, chunkSize: nat,
                                           maxScanBack: nat)
    requires pos <= end <= |file| && chunkSize > 0 && Reach(chunkSize, maxScanBack, end - pos) < end
    ensures var s := StopAt(d, file, pos, end, limit, chunkSize, maxScanBack);
      |ScannedRecords(d, file, s, end)| > limit || s == end - Reach(chunkSize, maxScanBack, end - pos)
    ensures var s := StopAt(d, file, pos, end, limit, chunkSize, maxScanBack);
      s >= end - Reach(chunkSize, maxScanBack, end - pos)
    decreases pos
  {
    hide ScannedRecords;
    if end - pos < maxScanBack && |ScannedRecords(d, file, pos, end)| <= limit {
      StopBeyondReach(d, file, pos - chunkSize, end, limit, chunkSize, maxScanBack);
    }
  }

  /** Within reach of the bound, every page is the one a reader should get. */
  lemma WithinReach(c: Config, d: Decoder, file: Bytes, end: nat, limit: nat)
    requires c.Valid() && d.Valid() && end <= |file| && end <= Reach(c.chunkSize, c.maxScanBack, 0)
    ensures BackPage(c, d, file, end, limit) == PageAt(d, file, end, limit)
  {
    StopWithinReach(d, file, end, end, limit, c.chunkSize, c.maxScanBack);
    PageExact(c, d, file, end, limit);
    assert file[0..end] == file[..end];
  }

  function Filler(n: nat): (s: Bytes)
    ensures |s| == n && forall i :: 0 <= i < n ==> s[i] == NEWLINE
  {
    seq(n, i => NEWLINE)
  }

  lemma {:induction false} FillerEmpty(d: Decoder, n: nat, end: int)
    requires d.Valid()
    ensures RecordsEnding(d, Split(Filler(n)), end) == []
    ensures Split(Filler(n))[0] == []
  {
    if n > 0 {
      FillerEmpty(d, n - 1, end - 1);
      assert Filler(n)[..n - 1] == Filler(n - 1);
      var r := Split(Filler(n - 1));
      assert (r + [[]])[..|r|] == r;
    } else {
      var one: seq<Bytes> := [[]];
      assert one[..0] == [];
    }
  }

  /** One line, then a run of empty ones. */
  function FarRecord(line: Bytes, end: nat): (f: Bytes)
    requires |line| <= end
    ensures |f| == end
  {
    line + Filler(end - |line|)
  }

  /** The record of the first of some lines, when the others are empty. */
  lemma FarSplit(d: Decoder, head: Bytes, n: nat, end: int)
    requires d.Valid() && Clean(head)
    ensures var s := Split(head + Filler(n));
      s == [head] + s[1..] && RecordsEnding(d, s[1..], end) == []
  {
    hide Split; hide Filler; hide RecordsEnding; hide Clean;
    var s := Split(Filler(n));
    FillerEmpty(d, n, end);
    SplitConcat(head, Filler(n));
    SplitClean(head);
    assert head + [] == head;
    assert Split(head + Filler(n)) == [head] + s[1..];
    assert s == [s[0]] + s[1..];
    RecordsConcat(d, [s[0]], s[1..], end);
  }

  lemma FarScan(d: Decoder, line: Bytes, end: nat, p: nat)
    requires d.Valid() && Clean(line) && |line| <= end && 1 <= p <= end
    ensures ScannedRecords(d, FarRecord(line, end), p, end) == []
  {
    hide Split;
    var k, n := if p < |line| then p else |line|, if p < |line| then end - |line| else end - p;
    assert FarRecord(line, end)[p..end] == line[k..] + Filler(n);
    FarSplit(d, line[k..], n, end);
  }

  /** Beyond reach, for every decoder that reads some line, for every length that has room for it and every limit,
      there is a file whose page is wrong: it comes back empty, saying that the beginning was reached, though a record
      precedes it. */
  lemma BeyondReach(c: Config, d: Decoder, line: Bytes, end: nat, limit: nat) returns (file: Bytes)
    requires c.Valid() && d.Valid() && end > Reach(c.chunkSize, c.maxScanBack, 0)
    requires Clean(line) && d.Readable(line) && |line| <= end
    ensures |file| == end
    ensures BackPage(c, d, file, end, limit) == ([], 0)
    ensures |Records(d, file)| == 1
  {
    file := FarRecord(line, end);
    forall p | 1 <= p <= end ensures |ScannedRecords(d, file, p, end)| <= limit { FarScan(d, line, end, p); }
    StopBeyondReach(d, file, end, end, limit, c.chunkSize, c.maxScanBack);
    FarScan(d, line, end, StopAt(d, file, end, end, limit, c.chunkSize, c.maxScanBack));
    hide ScannedRecords; hide StopAt; hide FarRecord; hide Records;
    FarRecordCount(d, line, end);
  }

  lemma FarRecordCount(d: Decoder, line: Bytes, end: nat)
    requires d.Valid() && Clean(line) && d.Readable(line) && |line| <= end
    ensures |Records(d, FarRecord(line, end))| == 1
  {
    FarSplit(d, line, end - |line|, end);
    hide Split; hide RecordsEnding;
    var rest := Split(FarRecord(line, end))[1..];
    RecordsConcat(d, [line], rest, end);
    OneRecord(d, line, end - Width(rest));
  }

  lemma OneRecord(d: Decoder, line: Bytes, end: int)
    ensures |RecordsEnding(d, [line], end)| == if d.Readable(line) then 1 else 0
  {
    assert [line][..0] == [];
  }

  // ---- all pages ----

  lemma NextPageIsEarlier(d: Decoder, file: Bytes, end: nat, limit: nat)
    requires d.Valid() && end <= |file| && limit > 0 && PageAt(d, file, end, limit).1 > 0
    ensures PageAt(d, file, end, limit).1 < end
  {
    hide Records;
    var all := Records(d, file[..end]);
    OffsetsPositive(d, file[..end], |all| - 1);
    OffsetsOf(d, file[..end], |all| - limit - 1, |all| - 1);
  }

  /** A page that says there is more is the one a reader should get, and its start is further back. */
  lemma FullPage(c: Config, d: Decoder, file: Bytes, end: nat, limit: nat)
    requires c.Valid() && d.Valid() && end <= |file| && limit > 0 && BackPage(c, d, file, end, limit).1 > 0
    ensures BackPage(c, d, file, end, limit) == PageAt(d, file, end, limit)
    ensures BackPage(c, d, file, end, limit).1 < end && LineEnd(file, BackPage(c, d, file, end, limit).1)
  {
    PageExact(c, d, file, end, limit);
    PageStart(d, file, end, limit);
    NextPageIsEarlier(d, file, end, limit);
    OffsetIsLineEnd(d, file[..end], |Records(d, file[..end])| - limit - 1);
    hide Records; hide BackPage; hide Seen; hide LineAt;
  }

  /** The pages a client gets by starting at end and feeding each page's start back as the next end. */
  function Pages(c: Config, d: Decoder, file: Bytes, end: nat, limit: nat): (pages: seq<seq<Event>>)
    requires c.Valid() && d.Valid() && end <= |file| && limit > 0
    decreases end
  {
    var page := BackPage(c, d, file, end, limit);
    if page.1 <= 0 then [page.0]
    else
      FullPage(c, d, file, end, limit);
      Pages(c, d, file, page.1, limit) + [page.0]
  }

  /** Where the oldest of those pages ends. */
  function OldestEnd(c: Config, d: Decoder, file: Bytes, end: nat, limit: nat): (e: nat)
    requires c.Valid() && d.Valid() && end <= |file| && limit > 0
    ensures e <= end
    decreases end
  {
    var page := BackPage(c, d, file, end, limit);
    if page.1 <= 0 then end
    else
      FullPage(c, d, file, end, limit);
      OldestEnd(c, d, file, page.1, limit)
  }

  function Flatten<T>(s: seq<seq<T>>): seq<T> { if s == [] then [] else Flatten(s[..|s| - 1]) + s[|s| - 1] }

  lemma FlattenAdd<T>(s: seq<seq<T>>, x: seq<T>)
    ensures Flatten(s + [x]) == Flatten(s) + x
  {
    assert (s + [x])[..|s|] == s;
  }

  lemma FlattenOne<T>(x: seq<T>)
    ensures Flatten([x]) == x
  {
    assert [x][..0] == [];
  }

  lemma OldestPage(c: Config, d: Decoder, file: Bytes, end: nat, limit: nat)
    requires c.Valid() && d.Valid() && end <= |file| && BackPage(c, d, file, end, limit).1 <= 0
    ensures BackPage(c, d, file, end, limit).0 == Seen(c, d, file, end, limit)
    ensures var r, all := Seen(c, d, file, end, limit), Records(d, file[..end]);
      |r| <= |all| && r == all[|all| - |r|..]
  {
    PageExact(c, d, file, end, limit);
    ScannedIsSuffix(d, file, StopAt(d, file, end, end, limit, c.chunkSize, c.maxScanBack), end);
    hide Records; hide ScannedRecords; hide StopAt;
  }

  /** Whatever the file, paging back ends, and the pages, oldest first, are the newest records, each exactly once:
      all but those that the oldest page's scan did not come to. Every page but the oldest is full. */
  lemma {:induction false} PagesExact(c: Config, d: Decoder, file: Bytes, end: nat, limit: nat)
    requires c.Valid() && d.Valid() && end <= |file| && limit > 0
    ensures var all, got, e := Records(d, file[..end]), Flatten(Pages(c, d, file, end, limit)), OldestEnd(c, d, file, end, limit);
      && |got| <= |all| && got == all[|all| - |got|..]
      && |all| - |got| == |Records(d, file[..e])| - |Seen(c, d, file, e, limit)|
      && (got == all <==> |Seen(c, d, file, e, limit)| == |Records(d, file[..e])|)
    ensures forall i :: 1 <= i < |Pages(c, d, file, end, limit)| ==> |Pages(c, d, file, end, limit)[i]| == limit
    decreases end
  {
    hide Records; hide BackPage; hide Seen; hide LineAt; hide Flatten;
    var page, all := BackPage(c, d, file, end, limit), Records(d, file[..end]);
    if page.1 <= 0 {
      OldestPage(c, d, file, end, limit);
      FlattenOne(page.0);
    } else {
      FullPage(c, d, file, end, limit);
      PageStart(d, file, end, limit);
      var m := |all| - limit - 1;
      RecordPrefix(d, file[..end], m);
      assert file[..end][..page.1] == file[..page.1];
      PagesExact(c, d, file, page.1, limit);
      FlattenAdd(Pages(c, d, file, page.1, limit), page.0);
      Newest(all, m + 1, Flatten(Pages(c, d, file, page.1, limit)));
    }
  }

  lemma Newest<T>(all: seq<T>, m: nat, got: seq<T>)
    requires m <= |all| && |got| <= m && got == all[..m][m - |got|..]
    ensures got + all[m..] == all[m - |got|..] && |got + all[m..]| == |all| - m + |got|
    ensures got + all[m..] == all <==> |got| == m
  {}

  /** The records in the stretch before a position that is as long as the bound reaches. */
  function Stretch(c: Config, d: Decoder, file: Bytes, e: nat): seq<Event>
    requires c.Valid() && Reach(c.chunkSize, c.maxScanBack, 0) <= e <= |file|
  {
    ScannedRecords(d, file, e - Reach(c.chunkSize, c.maxScanBack, 0), e)
  }

  /** Every such stretch, up to the end of a line, holds more records than a page. There is
      none in a file within reach. */
  ghost predicate Dense(c: Config, d: Decoder, file: Bytes, end: nat, limit: nat)
    requires c.Valid() && end <= |file|
  {
    var reach := Reach(c.chunkSize, c.maxScanBack, 0);
    forall e: nat :: reach < e <= end && (e == end || LineEnd(file, e)) ==> |Stretch(c, d, file, e)| > limit
  }

  lemma DenseEarlier(c: Config, d: Decoder, file: Bytes, end: nat, e: nat, limit: nat)
    requires c.Valid() && e <= end <= |file| && LineEnd(file, e) && Dense(c, d, file, end, limit)
    ensures Dense(c, d, file, e, limit)
  {
    hide ScannedRecords; hide Reach;
  }

  lemma DensePage(c: Config, d: Decoder, file: Bytes, end: nat, limit: nat)
    requires c.Valid() && d.Valid() && end <= |file| && Dense(c, d, file, end, limit)
    requires end > Reach(c.chunkSize, c.maxScanBack, 0)
    ensures |Seen(c, d, file, end, limit)| > limit
  {
    var reach := Reach(c.chunkSize, c.maxScanBack, 0);
    StopBeyondReach(d, file, end, end, limit, c.chunkSize, c.maxScanBack);
    hide ScannedRecords; hide Reach; hide StopAt;
    assert |Stretch(c, d, file, end)| > limit;
  }

  lemma {:induction false} OldestWithinReach(c: Config, d: Decoder, file: Bytes, end: nat, limit: nat)
    requires c.Valid() && d.Valid() && end <= |file| && limit > 0 && Dense(c, d, file, end, limit)
    ensures OldestEnd(c, d, file, end, limit) <= Reach(c.chunkSize, c.maxScanBack, 0)
    decreases end
  {
    hide Dense; hide Seen; hide Reach; hide BackPage; hide Records;
    PageExact(c, d, file, end, limit);
    var page := BackPage(c, d, file, end, limit);
    if page.1 > 0 {
      FullPage(c, d, file, end, limit);
      DenseEarlier(c, d, file, end, page.1, limit);
      OldestWithinReach(c, d, file, page.1, limit);
    } else if end > Reach(c.chunkSize, c.maxScanBack, 0) {
      DensePage(c, d, file, end, limit);
    }
  }

  /** So in a file of any length the pages are all the records, if records are never rarer than the bound allows. */
  lemma PagesAreAll(c: Config, d: Decoder, file: Bytes, end: nat, limit: nat)
    requires c.Valid() && d.Valid() && end <= |file| && limit > 0 && Dense(c, d, file, end, limit)
    ensures Flatten(Pages(c, d, file, end, limit)) == Records(d, file[..end])
    ensures forall i :: 1 <= i < |Pages(c, d, file, end, limit)| ==> |Pages(c, d, file, end, limit)[i]| == limit
  {
    var e := OldestEnd(c, d, file, end, limit);
    PagesExact(c, d, file, end, limit);
    OldestWithinReach(c, d, file, end, limit);
    OldestSeen(c, d, file, end, limit);
    hide Records; hide BackPage; hide Seen; hide Pages; hide OldestEnd; hide Dense;
    WithinReach(c, d, file, e, limit);
    PageExact(c, d, file, e, limit);
  }

  lemma {:induction false} OldestSeen(c: Config, d: Decoder, file: Bytes, end: nat, limit: nat)
    requires c.Valid() && d.Valid() && end <= |file| && limit > 0
    ensures |Seen(c, d, file, OldestEnd(c, d, file, end, limit), limit)| <= limit
    decreases end
  {
    PageExact(c, d, file, end, limit);
    hide Seen; hide BackPage;
    if BackPage(c, d, file, end, limit).1 > 0 {
      FullPage(c, d, file, end, limit);
      OldestSeen(c, d, file, BackPage(c, d, file, end, limit).1, limit);
    }
  }

  // ---- one record ----

  /** The line that ends at a position. */
  function LineAt(file: Bytes, e: nat): Bytes
    requires e <= |file|
  {
    var lines := Split(file[..e]); lines[|lines| - 1]
  }

  lemma {:induction false} LastPiece(s: Bytes)
    ensures var l := Split(s)[|Split(s)| - 1]; |l| <= |s| && s[|s| - |l|..] == l
  {
    if s != [] {
      LastPiece(s[..|s| - 1]);
      assert s == s[..|s| - 1] + [s[|s| - 1]];
    }
  }

  /** A scan of a stretch up to the end of a line comes to that line exactly when it comes to the newline before. */
  lemma StretchLines(file: Bytes, stop: nat, e: nat)
    requires 0 < stop <= e <= |file|
    ensures var n, s := |LineAt(file, e)|, Split(file[stop..e]);
      n <= e && if stop < e - n then |s| >= 2 && s[|s| - 1] == LineAt(file, e) else |s| == 1
  {
    hide Split; hide Width;
    var head := file[..e];
    var n := |LineAt(file, e)|;
    LastPiece(head);
    PiecesClean(head);
    if stop < e - n {
      LineBegins(head);
      var b, p := file[stop..e], e - n - 1 - stop;
      assert b[p] == NEWLINE && b[p + 1..] == head[e - n..];
      SplitAtLineEnd(b, p);
      SplitClean(LineAt(file, e));
    } else {
      assert file[stop..e] == head[e - n..][stop - (e - n)..];
      SplitClean(file[stop..e]);
    }
  }

  /** In front of the last piece there is a newline, unless it is the only one. */
  lemma LineBegins(s: Bytes)
    ensures var l := Split(s)[|Split(s)| - 1]; |l| < |s| ==> s[|s| - |l| - 1] == NEWLINE
  {
    hide Split;
    SplitWidth(s);
    if |Split(s)| >= 2 {
      LastLine(s);
    } else {
      assert Width(Split(s)[..0]) == 0;
    }
  }

  /** The line that ends at a record's offset is the record's. */
  lemma RecordLine(d: Decoder, file: Bytes, k: nat)
    requires d.Valid() && k < |Records(d, file)|
    ensures var e := Records(d, file)[k].offset;
      1 <= e <= |file| && d.Readable(LineAt(file, e)) && |LineAt(file, e)| <= e
  {
    hide Split; hide Decoder.Readable;
    var e := Records(d, file)[k].offset;
    RecordPrefix(d, file, k);
    LastPiece(file[..e]);
    var lines := Split(file[..e]);
    var n := |lines| - 1;
    assert Records(d, file[..e])[k].offset == e;
    if !d.Readable(lines[n]) {
      OffsetsInRange(d, lines[..n], e - |lines[n]| - 1, k);
    }
  }

  /** It runs from the start of the file, or from the newline before, to the position. */
  lemma LineAtIs(file: Bytes, e: nat)
    requires e <= |file|
    ensures var s := e - |LineAt(file, e)|;
      0 <= s && LineAt(file, e) == file[s..e] && Clean(file[s..e]) && (s == 0 || file[s - 1] == NEWLINE)
  {
    hide Split;
    LastPiece(file[..e]);
    PiecesClean(file[..e]);
    LineBegins(file[..e]);
  }

  /** The event says what the line up to its offset decodes to. */
  ghost predicate Reads(d: Decoder, file: Bytes, e: Event) {
    && 0 <= e.offset <= |file|
    && !d.blank(LineAt(file, e.offset)) && d.decode(LineAt(file, e.offset)) == Some(e.content)
  }

  /** The records are the lines that decode: each says what its line decodes to, no such line is missing, and they
      come in the order of the file. */
  lemma RecordsExact(d: Decoder, file: Bytes)
    requires d.Valid()
    ensures forall k :: 0 <= k < |Records(d, file)| ==>
      LineEnd(file, Records(d, file)[k].offset) && Reads(d, file, Records(d, file)[k])
    ensures forall e: nat :: LineEnd(file, e) && !d.blank(LineAt(file, e)) && d.decode(LineAt(file, e)).Some? ==>
      exists k :: 0 <= k < |Records(d, file)| && Records(d, file)[k].offset == e
    ensures forall j, k :: 0 <= j < k < |Records(d, file)| ==> Records(d, file)[j].offset < Records(d, file)[k].offset
  {
    hide Records; hide LineAt; hide Reads;
    forall k | 0 <= k < |Records(d, file)|
      ensures LineEnd(file, Records(d, file)[k].offset) && Reads(d, file, Records(d, file)[k])
    {
      RecordReads(d, file, k);
    }
    forall e: nat | LineEnd(file, e) && !d.blank(LineAt(file, e)) && d.decode(LineAt(file, e)).Some?
      ensures exists k :: 0 <= k < |Records(d, file)| && Records(d, file)[k].offset == e
    {
      LineRecorded(d, file, e);
      var k := |Records(d, file[..e])| - 1;
      RecordsAtLineEnd(d, file, e);
      assert Records(d, file)[k] == Records(d, file[..e])[k];
    }
    forall j, k | 0 <= j < k < |Records(d, file)| ensures Records(d, file)[j].offset < Records(d, file)[k].offset {
      OffsetsOf(d, file, j, k);
    }
  }

  lemma RecordReads(d: Decoder, file: Bytes, k: nat)
    requires d.Valid() && k < |Records(d, file)|
    ensures LineEnd(file, Records(d, file)[k].offset) && Reads(d, file, Records(d, file)[k])
  {
    hide Split;
    var e := Records(d, file)[k].offset;
    RecordPrefix(d, file, k);
    OffsetIsLineEnd(d, file, k);
    RecordLine(d, file, k);
    assert Records(d, file[..e])[k] == Records(d, file)[k];
    LineRecorded(d, file, e);
  }

  lemma LineRecorded(d: Decoder, file: Bytes, e: nat)
    requires e <= |file| && !d.blank(LineAt(file, e)) && d.decode(LineAt(file, e)).Some?
    ensures var r := Records(d, file[..e]);
      r != [] && r[|r| - 1] == Event(d.decode(LineAt(file, e)).value, e)
  {
    hide Split;
  }

  /** Every page read backwards says what the lines decode to. */
  lemma PageReads(c: Config, d: Decoder, file: Bytes, end: nat, limit: nat)
    requires c.Valid() && d.Valid() && end <= |file|
    ensures forall e :: e in BackPage(c, d, file, end, limit).0 ==> e.offset <= end && Reads(d, file, e)
  {
    ScannedIsSuffix(d, file, StopAt(d, file, end, end, limit, c.chunkSize, c.maxScanBack), end);
    RecordsExact(d, file[..end]);
    hide Records; hide ScannedRecords; hide StopAt; hide LineAt;
    forall e | e in BackPage(c, d, file, end, limit).0
      ensures e.offset <= end && Reads(d, file, e)
    {
      var all := Records(d, file[..end]);
      assert e in all;
      var k :| 0 <= k < |all| && all[k] == e;
      assert Reads(d, file[..end], all[k]);
      LineAtPrefix(file, end, e.offset);
    }
  }

  lemma LineAtPrefix(file: Bytes, end: nat, e: nat)
    requires e <= end <= |file|
    ensures LineAt(file[..end], e) == LineAt(file, e)
  {
    assert file[..end][..e] == file[..e];
  }

  /** A scan back from a record comes to it exactly when it comes to the newline before its line. */
  lemma ScanSeesLine(d: Decoder, file: Bytes, e: nat, stop: nat, at: nat)
    requires d.Valid() && stop <= at <= |file| && e <= |file| && d.Readable(LineAt(file, e))
    requires at == e || (at == e + 1 && file[e] == NEWLINE)
    ensures |LineAt(file, e)| <= e
    ensures ScannedRecords(d, file, stop, at) != [] <==> stop == 0 || stop < e - |LineAt(file, e)|
  {
    hide Split; hide Decoder.Readable; hide RecordsEnding;
    LastPiece(file[..e]);
    if at > e {
      ScanPastNewline(d, file, stop, e);
    }
    if stop == 0 {
      HasRecord(d, Split(file[..e]), e);
      assert file[0..e] == file[..e];
    } else if stop > e {
      NothingThere(d, file, stop);
    } else {
      StretchLines(file, stop, e);
      var s := Split(file[stop..e]);
      if |s| > 1 { HasRecord(d, s[1..], e); } else { NoRecord(d, e); }
    }
  }

  lemma HasRecord(d: Decoder, lines: seq<Bytes>, end: int)
    requires lines != [] && d.Readable(lines[|lines| - 1])
    ensures RecordsEnding(d, lines, end) != []
  {}

  lemma NoRecord(d: Decoder, end: int)
    ensures RecordsEnding(d, [], end) == []
  {}

  lemma NothingThere(d: Decoder, file: Bytes, stop: nat)
    requires 0 < stop <= |file|
    ensures ScannedRecords(d, file, stop, stop) == []
  {
    assert file[stop..stop] == [];
    SplitNothing(file[stop..stop]);
  }

  lemma EmptyLast(d: Decoder, lines: seq<Bytes>, end: int)
    requires d.Valid()
    ensures RecordsEnding(d, lines + [[]], end + 1) == RecordsEnding(d, lines, end)
  {
    assert (lines + [[]])[..|lines|] == lines;
  }

  lemma ScanPastNewline(d: Decoder, file: Bytes, stop: nat, e: nat)
    requires d.Valid() && stop <= e + 1 <= |file| && file[e] == NEWLINE
    ensures stop <= e ==> ScannedRecords(d, file, stop, e + 1) == ScannedRecords(d, file, stop, e)
  {
    hide Split; hide RecordsEnding;
    if stop <= e {
      var b := file[stop..e + 1];
      assert b[..e - stop] == file[stop..e] && b[e - stop + 1..] == [];
      SplitAtLineEnd(b, e - stop);
      SplitNothing(b[e - stop + 1..]);
      var s := Split(file[stop..e]);
      assert Split(b) == s + [[]] && (s + [[]])[1..] == s[1..] + [[]];
      EmptyLast(d, s, e);
      EmptyLast(d, s[1..], e);
      assert file[..e + 1] == file[0..e + 1] && file[..e] == file[0..e];
    }
  }

  /** Asking for the record at an offset, its newline's or one more, gives that record exactly when its line is
      shorter than the bound reaches, or the file up to there is within reach; and nothing otherwise. */
  lemma RecordAt(c: Config, d: Decoder, file: Bytes, k: nat, at: nat)
    requires c.Valid() && d.Valid() && k < |Records(d, file)|
    requires at == Records(d, file)[k].offset || (at == Records(d, file)[k].offset + 1 && at <= |file|)
    ensures var e, reach := Records(d, file)[k].offset, Reach(c.chunkSize, c.maxScanBack, 0);
      && 1 <= e <= at <= |file|
      && BackPage(c, d, file, at, 1).0
        == if at <= reach || at - (e - |LineAt(file, e)|) < reach then [Records(d, file)[k]] else []
  {
    hide Records; hide Reach; hide LineAt; hide ScannedRecords; hide StopAt; hide Decoder.Readable;
    var e, reach := Records(d, file)[k].offset, Reach(c.chunkSize, c.maxScanBack, 0);
    RecordPrefix(d, file, k);
    OffsetIsLineEnd(d, file, k);
    RecordLine(d, file, k);
    if at == e + 1 { PastNewlineSame(d, file, e); }
    var stop := StopAt(d, file, at, at, 1, c.chunkSize, c.maxScanBack);
    ScannedIsSuffix(d, file, stop, at);
    ScanSeesLine(d, file, e, stop, at);
    if at <= reach {
      StopWithinReach(d, file, at, at, 1, c.chunkSize, c.maxScanBack);
    } else {
      StopBeyondReach(d, file, at, at, 1, c.chunkSize, c.maxScanBack);
    }
    var all, r := Records(d, file[..at]), ScannedRecords(d, file, stop, at);
    assert all[|all| - 1] == Records(d, file)[k];
  }
}
