/** Pages of a transcript, read backwards from the end in chunks and forwards from a cursor. */
module Transcript {
  import opened Basics
  import opened Lines

  /** What a reader sees of a record; the decoded fields are one opaque value here. */
  type Content = string

  datatype Event = Event(content: Content, offset: int)

  /** Whether a line is white space only, and what it decodes to if anything. */
  datatype Decoder = Decoder(blank: Bytes -> bool, decode: Bytes -> Option<Content>)
  {
    ghost predicate Valid() { blank([]) }

    predicate Readable(line: Bytes) { !blank(line) && decode(line).Some? }

    function Read(line: Bytes): Option<Content> { if blank(line) then None else decode(line) }
  }

  /** The records among lines of which the last ends at end, oldest first. */
  function RecordsEnding(d: Decoder, lines: seq<Bytes>, end: int): seq<Event> {
    if lines == [] then []
    else
      var line := lines[|lines| - 1];
      RecordsEnding(d, lines[..|lines| - 1], end - |line| - 1)
      + (if d.Readable(line) then [Event(d.Read(line).value, end)] else [])
  }

  /** All records of a file, or of a prefix of one. */
  function Records(d: Decoder, file: Bytes): seq<Event> {
    RecordsEnding(d, Split(file), |file|)
  }

  /** Where the record before the last n ends; zero when there is none. */
  function Before(r: seq<Event>, n: nat): int { if |r| <= n then 0 else r[|r| - n - 1].offset }

  lemma {:induction false} RecordsConcat(d: Decoder, a: seq<Bytes>, b: seq<Bytes>, end: int)
    ensures RecordsEnding(d, a + b, end) == RecordsEnding(d, a, end - Width(b)) + RecordsEnding(d, b, end)
  {
    if b == [] {
      assert a + b == a;
    } else {
      var n := |b| - 1;
      assert (a + b)[..|a| + n] == a + b[..n];
      RecordsConcat(d, a, b[..n], end - |b[n]| - 1);
    }
  }

  /** The lines that lie wholly in file[stop..end], as far as a scan back to stop can tell. */
  function Scanned(file: Bytes, stop: nat, end: nat): seq<Bytes>
    requires stop <= end <= |file|
  {
    if stop == 0 then Split(file[..end]) else Split(file[stop..end])[1..]
  }

  function ScannedRecords(d: Decoder, file: Bytes, stop: nat, end: nat): seq<Event>
    requires stop <= end <= |file|
  {
    RecordsEnding(d, Scanned(file, stop, end), end)
  }

  /** Where a scan back from end stops, chunk by chunk: at the start of the file, at more than limit records, or
      at the scan bound. */
  function StopAt(d: Decoder, file: Bytes, pos: nat, end: nat, limit: nat, chunkSize: nat, maxScanBack: nat): (stop: nat)
    requires pos <= end <= |file| && chunkSize > 0
    ensures stop <= pos
    ensures stop == 0 || |ScannedRecords(d, file, stop, end)| > limit || end - stop >= maxScanBack
  {
    if pos == 0 || |ScannedRecords(d, file, pos, end)| > limit || end - pos >= maxScanBack then pos
    else StopAt(d, file, if pos < chunkSize then 0 else pos - chunkSize, end, limit, chunkSize, maxScanBack)
  }

  /** What the reader is configured with: buffer and chunk sizes, and the two bounds. */
  datatype Config = Config(bufferSize: nat, chunkSize: nat, maxLine: nat, maxScanBack: nat)
  {
    ghost predicate Valid() { bufferSize > 0 && chunkSize > 0 && maxScanBack > 0 }
  }

  /** A page read backwards: the last limit records the scan reaches, and where the one before them ends. */
  function BackPage(c: Config, d: Decoder, file: Bytes, end: nat, limit: nat): (seq<Event>, int)
    requires c.chunkSize > 0 && end <= |file|
  {
    var r := ScannedRecords(d, file, StopAt(d, file, end, end, limit, c.chunkSize, c.maxScanBack), end);
    (Last(r, limit), Before(r, limit))
  }

  datatype Parsed = Parsed(bytes: int, content: Content, ok: bool)

  /** A line is decoded unless it is white space only. */
  function ParseLine(d: Decoder, line: Bytes): (p: Parsed)
    ensures p.ok <==> d.Readable(line)
  {
    if d.Readable(line) then Parsed(|line| + 1, d.Read(line).value, true) else Parsed(|line| + 1, "", false)
  }

  /** lines, newest first, are the parses of texts, oldest first. */
  ghost predicate Parses(d: Decoder, lines: seq<Parsed>, texts: seq<Bytes>) {
    |lines| == |texts| && forall k :: 0 <= k < |lines| ==> lines[k] == ParseLine(d, texts[|texts| - 1 - k])
  }

  function Count(d: Decoder, texts: seq<Bytes>): nat { |RecordsEnding(d, texts, 0)| }

  lemma {:induction false} CountAnyEnd(d: Decoder, texts: seq<Bytes>, e: int, f: int)
    ensures |RecordsEnding(d, texts, e)| == |RecordsEnding(d, texts, f)|
  {
    if texts != [] {
      var n := |texts| - 1;
      CountAnyEnd(d, texts[..n], e - |texts[n]| - 1, f - |texts[n]| - 1);
    }
  }

  lemma CountCons(d: Decoder, t: Bytes, texts: seq<Bytes>)
    ensures Count(d, [t] + texts) == Count(d, texts) + if d.Readable(t) then 1 else 0
  {
    RecordsConcat(d, [t], texts, 0);
    var w: int := Width(texts);
    CountAnyEnd(d, [t], 0 - w, 0);
    assert [t][..0] == [];
  }

  lemma JoinCons(p: seq<Bytes>, carry: Bytes, texts: seq<Bytes>)
    requires |p| >= 1
    ensures Join(p, [carry] + texts) == Join(p, [carry]) + texts
  {}

  /** Reading one more chunk in front of a scan: the carried fragment closes the chunk's last line. */
  lemma ScanChunk(file: Bytes, pos: nat, next: nat, end: nat, carry: Bytes, texts: seq<Bytes>)
    requires next <= pos <= end <= |file|
    requires Split(file[pos..end]) == [carry] + texts
    ensures Split(file[next..end]) == Split(file[next..pos] + carry) + texts
  {
    hide Split; hide Join;
    var chunk, rest := file[next..pos], file[pos..end];
    assert file[next..end] == chunk + rest;
    SplitConcat(chunk, rest);
    PiecesClean(rest);
    assert carry == Split(rest)[0];
    SplitClean(carry);
    SplitConcat(chunk, carry);
    JoinCons(Split(chunk), carry, texts);
  }

  lemma ParsesCons(d: Decoder, lines: seq<Parsed>, texts: seq<Bytes>, t: Bytes)
    requires Parses(d, lines, texts)
    ensures Parses(d, lines + [ParseLine(d, t)], [t] + texts)
  {
    hide ParseLine;
    var more := [t] + texts;
    forall k | 0 <= k < |lines| ensures lines[k] == ParseLine(d, more[|more| - 1 - k]) {
      assert more[|more| - 1 - k] == texts[|texts| - 1 - k];
    }
  }

  /** seen are the parts from i on, and what was known after them. */
  ghost predicate Walked(parts: seq<Bytes>, texts: seq<Bytes>, i: int, seen: seq<Bytes>) {
    0 <= i <= |parts| && seen == parts[i..] + texts
  }

  lemma WalkOne(d: Decoder, parts: seq<Bytes>, texts: seq<Bytes>, i: nat, seen: seq<Bytes>, lines: seq<Parsed>)
    requires i < |parts| && Walked(parts, texts, i + 1, seen) && Parses(d, lines, seen)
    ensures var more := [parts[i]] + seen;
      && Walked(parts, texts, i, more) && Parses(d, lines + [ParseLine(d, parts[i])], more)
      && Count(d, more) == Count(d, seen) + if d.Readable(parts[i]) then 1 else 0
  {
    hide Parses; hide ParseLine; hide Count; hide Decoder.Readable;
    CountCons(d, parts[i], seen);
    ParsesCons(d, lines, seen, parts[i]);
    assert parts[i..] == [parts[i]] + parts[i + 1..];
  }

  lemma WalkNone(parts: seq<Bytes>, texts: seq<Bytes>)
    ensures Walked(parts, texts, |parts|, texts)
  {}

  lemma WalkedIs(parts: seq<Bytes>, texts: seq<Bytes>, i: int, seen: seq<Bytes>)
    requires Walked(parts, texts, i, seen)
    ensures 0 <= i <= |parts| && seen == parts[i..] + texts
  {}

  /** Walk the parts of a block from the last to the first, until limit + 1 readable ones are known. */
  method ParseParts(d: Decoder, parts: seq<Bytes>, limit: nat, known: seq<Parsed>, ghost texts: seq<Bytes>, count: nat)
    returns (lines: seq<Parsed>, found: nat, ghost left: nat)
    requires Parses(d, known, texts) && count == Count(d, texts) <= limit
    ensures left <= |parts| && Parses(d, lines, parts[left..] + texts)
    ensures found == Count(d, parts[left..] + texts) <= limit + 1
    ensures left == 0 || found == limit + 1
  {
    hide Count; hide Parses; hide ParseLine; hide Decoder.Readable; hide Walked;
    lines, found := known, count;
    var i: int := |parts| - 1;
    ghost var seen := texts;
    WalkNone(parts, texts);
    while i >= 0 && found <= limit
      invariant -1 <= i < |parts| && Walked(parts, texts, i + 1, seen)
      invariant Parses(d, lines, seen) && found == Count(d, seen) <= limit + 1
    {
      WalkOne(d, parts, texts, i, seen, lines);
      var p := ParseLine(d, parts[i]);
      if p.ok {
        found := found + 1;
      }
      lines := lines + [p];
      seen := [parts[i]] + seen;
      i := i - 1;
    }
    left := i + 1;
    WalkedIs(parts, texts, left, seen);
  }

  datatype Result<+T> = Ok(value: T) | ReadError

  /** texts are the lines a scan back to pos has parsed, and rest the pieces before them. */
  ghost predicate ScanState(d: Decoder, file: Bytes, pos: int, end: int, limit: nat, rest: seq<Bytes>,
                            texts: seq<Bytes>, carry: Bytes)
  {
    && 0 <= pos <= end <= |file|
    && Split(file[pos..end]) == rest + texts
    && (Count(d, texts) <= limit ==> rest == if pos == 0 && pos < end then [] else [carry])
    && (pos > 0 ==> |rest| >= 1)
  }

  /** What the next chunk leaves to parse, and the fragment to carry. */
  function Parts(whole: seq<Bytes>, next: nat): seq<Bytes>
    requires |whole| >= 1
  {
    if next > 0 then whole[1..] else whole
  }

  function Carried(whole: seq<Bytes>, next: nat): Bytes
    requires |whole| >= 1
  {
    if next > 0 then whole[0] else []
  }

  lemma ScanStep(d: Decoder, file: Bytes, pos: nat, next: nat, end: nat, limit: nat, rest: seq<Bytes>, texts: seq<Bytes>,
                 carry: Bytes, left: nat)
    returns (unparsed: seq<Bytes>, parsed: seq<Bytes>)
    requires ScanState(d, file, pos, end, limit, rest, texts, carry) && Count(d, texts) <= limit
    requires next < pos
    requires var parts := Parts(Split(file[next..pos] + carry), next);
      left <= |parts| && (left == 0 || Count(d, parts[left..] + texts) > limit)
    ensures var whole := Split(file[next..pos] + carry);
      && parsed == Parts(whole, next)[left..] + texts
      && ScanState(d, file, next, end, limit, unparsed, parsed, Carried(whole, next))
  {
    hide Count; hide Split;
    ScanChunk(file, pos, next, end, carry, texts);
    var whole := Split(file[next..pos] + carry);
    var skip := if next > 0 then 1 else 0;
    unparsed, parsed := whole[..left + skip], Parts(whole, next)[left..] + texts;
    assert whole == whole[..left + skip] + whole[skip..][left..];
  }

  /** Parse the block from next to pos, in front of the lines already known. */
  method ScanBlock(d: Decoder, file: Bytes, pos: nat, next: nat, ghost end: nat, limit: nat, known: seq<Parsed>,
                   count: nat,
                   fragment: Bytes, ghost before: seq<Bytes>, ghost unread: seq<Bytes>)
    returns (lines: seq<Parsed>, found: nat, carry: Bytes, ghost rest: seq<Bytes>, ghost texts: seq<Bytes>)
    requires ScanState(d, file, pos, end, limit, unread, before, fragment) && next < pos
    requires Parses(d, known, before) && count == Count(d, before) <= limit
    ensures Parses(d, lines, texts) && found == Count(d, texts) <= limit + 1
    ensures ScanState(d, file, next, end, limit, rest, texts, carry)
  {
    hide Count; hide Parses; hide Split;
    assert 0 <= next < pos <= |file|;
    hide ScanState;
    var block := file[next..pos] + fragment;
    var parts := Split(block);
    ghost var whole := parts;
    if next > 0 {
      carry := parts[0];
      parts := parts[1..];
    } else {
      carry := [];
    }
    ghost var left;
    lines, found, left := ParseParts(d, parts, limit, known, before, count);
    rest, texts := ScanStep(d, file, pos, next, end, limit, unread, before, fragment, left);
  }

  /** The first half of backward: read chunks and parse lines until the start of the file, limit + 1 readable
      lines, or the scan bound. */
  method ScanBack(d: Decoder, file: Bytes, end: nat, limit: nat, chunkSize: nat, maxScanBack: nat)
    returns (r: Result<seq<Parsed>>, found: nat, ghost stop: nat, ghost rest: seq<Bytes>, ghost texts: seq<Bytes>, ghost carried: Bytes)
    requires d.Valid() && chunkSize > 0 && maxScanBack > 0
    ensures r.ReadError? <==> end > |file|
    ensures r.Ok? ==>
      && Parses(d, r.value, texts) && found == Count(d, texts) <= limit + 1
      && ScanState(d, file, stop, end, limit, rest, texts, carried)
      && stop == StopAt(d, file, end, end, limit, chunkSize, maxScanBack)
  {
    var lines: seq<Parsed> := [];
    var carry: Bytes := [];
    var pos := end;
    var read := 0;
    found, rest, texts := 0, [[]], [];
    assert Count(d, []) == 0;
    assert Parses(d, [], []);
    hide Count; hide Parses; hide StopAt;
    if end <= |file| { ScanStart(d, file, end, limit); }
    hide ScanState;
    while pos > 0 && found <= limit && read < maxScanBack
      invariant pos <= end && read == end - pos
      invariant if pos < end then end <= |file| else found == 0
      invariant Parses(d, lines, texts) && found == Count(d, texts) <= limit + 1
      invariant end <= |file| ==>
        && ScanState(d, file, pos, end, limit, rest, texts, carry)
        && StopAt(d, file, pos, end, limit, chunkSize, maxScanBack) == StopAt(d, file, end, end, limit, chunkSize, maxScanBack)
      decreases pos
    {
      var n := chunkSize;
      if pos < n {
        n := pos;
      }
      pos := pos - n;
      read := read + n;
      if pos + n > |file| {
        return ReadError, found, pos, rest, texts, carry;
      }
      StopStep(d, file, pos + n, end, limit, chunkSize, maxScanBack, rest, texts, carry);
      lines, found, carry, rest, texts := ScanBlock(d, file, pos + n, pos, end, limit, lines, found, carry, texts, rest);
    }
    if end <= |file| { StopStep(d, file, pos, end, limit, chunkSize, maxScanBack, rest, texts, carry); }
    return Ok(lines), found, pos, rest, texts, carry;
  }

  /** What the scan has found so far decides whether it goes on. */
  lemma StopStep(d: Decoder, file: Bytes, pos: nat, end: nat, limit: nat, chunkSize: nat, maxScanBack: nat,
                 rest: seq<Bytes>, texts: seq<Bytes>, carry: Bytes)
    requires d.Valid() && chunkSize > 0 && ScanState(d, file, pos, end, limit, rest, texts, carry)
    ensures StopAt(d, file, pos, end, limit, chunkSize, maxScanBack)
      == if pos == 0 || Count(d, texts) > limit || end - pos >= maxScanBack then pos
         else StopAt(d, file, if pos < chunkSize then 0 else pos - chunkSize, end, limit, chunkSize, maxScanBack)
  {
    hide Count; hide ScannedRecords; hide Split;
    ScannedAre(d, file, pos, end, limit, rest, texts, carry);
    CountIs(d, texts, end);
    hide ScanState;
  }

  lemma ScanStart(d: Decoder, file: Bytes, end: nat, limit: nat)
    requires end <= |file|
    ensures ScanState(d, file, end, end, limit, [[]], [], [])
  {
    assert file[end..end] == [];
  }

  lemma CountIs(d: Decoder, texts: seq<Bytes>, end: int)
    ensures |RecordsEnding(d, texts, end)| == Count(d, texts)
  {
    CountAnyEnd(d, texts, end, 0);
  }

  /** The records of a scan: those of the parsed lines, after whatever the scan read but did not parse. */
  lemma ScannedAre(d: Decoder, file: Bytes, stop: nat, end: nat, limit: nat, rest: seq<Bytes>, texts: seq<Bytes>,
                   carry: Bytes)
    requires d.Valid() && ScanState(d, file, stop, end, limit, rest, texts, carry)
    ensures var r, t := ScannedRecords(d, file, stop, end), RecordsEnding(d, texts, end);
      |t| <= |r| && r[|r| - |t|..] == t && (Count(d, texts) <= limit ==> r == t)
  {
    var pre := if stop == 0 then rest else rest[1..];
    if Count(d, texts) <= limit { UnparsedRecords(d, file, stop, end, limit, rest, texts, carry); }
    ScannedParts(d, file, stop, end, limit, rest, texts, carry);
    hide ScanState; hide Scanned; hide Count; hide RecordsEnding;
    RecordsConcat(d, pre, texts, end);
  }

  lemma ScannedParts(d: Decoder, file: Bytes, stop: nat, end: nat, limit: nat, rest: seq<Bytes>, texts: seq<Bytes>,
                     carry: Bytes)
    requires ScanState(d, file, stop, end, limit, rest, texts, carry)
    ensures Scanned(file, stop, end) == (if stop == 0 then rest else rest[1..]) + texts
  {
    hide Count; hide Split;
    assert file[0..end] == file[..end];
  }

  lemma UnparsedRecords(d: Decoder, file: Bytes, stop: nat, end: nat, limit: nat, rest: seq<Bytes>,
                        texts: seq<Bytes>, carry: Bytes)
    requires d.Valid() && ScanState(d, file, stop, end, limit, rest, texts, carry) && Count(d, texts) <= limit
    ensures RecordsEnding(d, if stop == 0 then rest else rest[1..], end - Width(texts)) == []
  {
    if stop == 0 && stop == end { SplitNothing(file[stop..end]); }
    hide Count; hide Split;
    NothingBefore(d, if stop == 0 then rest else rest[1..], end - Width(texts));
  }

  lemma NothingBefore(d: Decoder, pre: seq<Bytes>, end: int)
    requires d.Valid() && (pre == [] || pre == [[]])
    ensures RecordsEnding(d, pre, end) == []
  {
    if pre != [] { assert pre[..0] == []; }
  }

  lemma SplitNothing(s: Bytes)
    requires s == []
    ensures Split(s) == [[]]
  {}

  /** Drop everything from the (limit + 1)-th readable line backwards, if there is one. */
  method DropExtra(d: Decoder, lines: seq<Parsed>, limit: nat, ghost texts: seq<Bytes>)
    returns (kept: seq<Parsed>, ghost older: int)
    requires Parses(d, lines, texts)
    ensures Count(d, texts) <= limit ==> older == -1 && kept == lines
    ensures Count(d, texts) > limit ==>
      && 0 <= older < |texts| && Parses(d, kept, texts[older + 1..])
      && Count(d, texts[older + 1..]) == limit && d.Readable(texts[older])
  {
    hide Count; hide ParseLine; hide Decoder.Readable; hide Parses;
    kept := lines;
    var seen := 0;
    ghost var n := |texts|;
    CountNothing(d);
    SameLength(d, lines, texts);
    assert texts[n..] == [];
    for i := 0 to |lines|
      invariant kept == lines && seen == Count(d, texts[n - i..]) <= limit
    {
      CountBefore(d, texts, n - 1 - i);
      ParsedAt(d, lines, texts, i);
      if lines[i].ok {
        seen := seen + 1;
        if seen > limit {
          kept := lines[..i];
          older := n - 1 - i;
          ParsesPrefix(d, lines, texts, i);
          CountGrows(d, texts, older);
          return;
        }
      }
    }
    assert texts[0..] == texts;
    older := -1;
  }

  lemma SameLength(d: Decoder, lines: seq<Parsed>, texts: seq<Bytes>)
    requires Parses(d, lines, texts)
    ensures |lines| == |texts|
  {}

  lemma ParsedAt(d: Decoder, lines: seq<Parsed>, texts: seq<Bytes>, i: nat)
    requires Parses(d, lines, texts) && i < |lines|
    ensures i < |texts| && (lines[i].ok <==> d.Readable(texts[|texts| - 1 - i]))
  {
    hide Decoder.Readable;
  }

  lemma ParsesPrefix(d: Decoder, lines: seq<Parsed>, texts: seq<Bytes>, i: nat)
    requires Parses(d, lines, texts) && i <= |lines|
    ensures i <= |texts| && Parses(d, lines[..i], texts[|texts| - i..])
  {
    hide ParseLine;
  }

  lemma CountBefore(d: Decoder, texts: seq<Bytes>, i: nat)
    requires i < |texts|
    ensures Count(d, texts[i..]) == Count(d, texts[i + 1..]) + if d.Readable(texts[i]) then 1 else 0
  {
    hide Count; hide Decoder.Readable;
    CountCons(d, texts[i], texts[i + 1..]);
    assert texts[i..] == [texts[i]] + texts[i + 1..];
  }

  lemma {:induction false} CountGrows(d: Decoder, texts: seq<Bytes>, i: nat)
    requires i <= |texts|
    ensures Count(d, texts) >= Count(d, texts[i..])
  {
    assert texts == texts[..i] + texts[i..];
    RecordsConcat(d, texts[..i], texts[i..], 0);
  }

  lemma CountNothing(d: Decoder)
    ensures Count(d, []) == 0
  {}

  method SumBytes(lines: seq<Parsed>, d: Decoder, ghost texts: seq<Bytes>) returns (consumed: int)
    requires Parses(d, lines, texts)
    ensures consumed == Width(texts)
  {
    consumed := 0;
    ghost var n := |texts|;
    ghost var newest: seq<Bytes> := [];
    for i := 0 to |lines|
      invariant newest == texts[n - i..] && consumed == Width(newest)
    {
      WidthCons(texts[n - 1 - i], newest);
      newest := [texts[n - 1 - i]] + newest;
      consumed := consumed + lines[i].bytes;
    }
  }

  lemma PlaceNone(d: Decoder, off: int)
    ensures RecordsEnding(d, [], off) == [] && Width([]) == 0
  {}

  lemma PlaceOne(d: Decoder, placed: seq<Bytes>, t: Bytes, off: int)
    ensures RecordsEnding(d, placed + [t], off + |t| + 1)
      == RecordsEnding(d, placed, off) + if d.Readable(t) then [Event(d.Read(t).value, off + |t| + 1)] else []
  {
    assert (placed + [t])[..|placed|] == placed;
  }

  /** The kept lines, oldest first, with offsets measured forward from the oldest. */
  method PlaceEvents(d: Decoder, lines: seq<Parsed>, end: int, consumed: int, ghost texts: seq<Bytes>)
    returns (out: seq<Event>)
    requires Parses(d, lines, texts) && consumed == Width(texts)
    ensures out == RecordsEnding(d, texts, end)
  {
    assert |lines| == |texts|;
    hide RecordsEnding; hide Width; hide Decoder.Readable; hide Parses; hide ParseLine;
    out := [];
    PlaceNone(d, end - consumed);
    var off := end - consumed;
    var i: int := |lines| - 1;
    ghost var n := |texts|;
    ghost var placed: seq<Bytes> := [];
    ghost var left := texts;
    while i >= 0
      invariant -1 <= i < n && placed == texts[..n - 1 - i] && left == texts[n - 1 - i..]
      invariant off == end - Width(left)
      invariant out == RecordsEnding(d, placed, off)
    {
      ghost var t := texts[n - 1 - i];
      TakeOne(texts, n - 1 - i);
      ParseOf(d, lines, texts, i);
      WidthCons(t, texts[n - i..]);
      PlaceOne(d, placed, t, off);
      off := off + lines[i].bytes;
      if lines[i].ok {
        out := out + [Event(lines[i].content, off)];
      }
      left := texts[n - i..];
      placed := placed + [t];
      i := i - 1;
    }
    assert placed == texts;
  }

  lemma ParseOf(d: Decoder, lines: seq<Parsed>, texts: seq<Bytes>, k: nat)
    requires Parses(d, lines, texts) && k < |lines|
    ensures |lines| == |texts|
    ensures var p, t := lines[k], texts[|texts| - 1 - k];
      p.bytes == |t| + 1 && (p.ok <==> d.Readable(t)) && (p.ok ==> p.content == d.Read(t).value)
  {}

  lemma TakeOne(texts: seq<Bytes>, k: nat)
    requires k < |texts|
    ensures texts[..k + 1] == texts[..k] + [texts[k]] && texts[k..] == [texts[k]] + texts[k + 1..]
  {}

  lemma DroppedExtra(d: Decoder, texts: seq<Bytes>, older: nat, end: int, limit: nat)
    requires older < |texts| && d.Readable(texts[older]) && Count(d, texts[older + 1..]) == limit
    ensures var t, k := RecordsEnding(d, texts, end), texts[older + 1..];
      && |t| > limit && RecordsEnding(d, k, end) == t[|t| - limit..] && t[|t| - limit - 1].offset == end - Width(k)
  {
    hide Decoder.Readable;
    var k := texts[older + 1..];
    var head := texts[..older + 1];
    assert texts == head + k && head[..older] == texts[..older];
    RecordsConcat(d, head, k, end);
    CountIs(d, k, end);
  }

  lemma NotBeforeStart(d: Decoder, file: Bytes, stop: nat, end: nat, limit: nat, rest: seq<Bytes>,
                       texts: seq<Bytes>, carry: Bytes, from: nat)
    requires ScanState(d, file, stop, end, limit, rest, texts, carry) && 0 < from <= |texts|
    ensures Width(texts[from..]) <= end - stop
  {
    hide Split; hide Count;
    SplitWidth(file[stop..end]);
    WidthConcat(rest, texts);
    assert texts == texts[..from] + texts[from..];
    WidthConcat(texts[..from], texts[from..]);
    WidthPositive(texts[..from]);
  }

  lemma WidthPositive(lines: seq<Bytes>)
    requires lines != []
    ensures Width(lines) >= 1
  {}

  /** backward: the last limit records that end at or before end, and where the one before them ends. It looks
      no further back than the scan bound lets it. */
  method Backward(c: Config, d: Decoder, file: Bytes, end: nat, limit: nat) returns (r: Result<(seq<Event>, int)>)
    requires c.Valid() && d.Valid()
    ensures r == if end > |file| then ReadError else Ok(BackPage(c, d, file, end, limit))
  {
    hide Count; hide Parses; hide Scanned; hide ScanState; hide RecordsEnding; hide Width; hide Decoder.Readable;
    hide StopAt;
    var scan, found; ghost var stop, rest, texts, carried;
    scan, found, stop, rest, texts, carried := ScanBack(d, file, end, limit, c.chunkSize, c.maxScanBack);
    if scan.ReadError? {
      return ReadError;
    }
    ScannedAre(d, file, stop, end, limit, rest, texts, carried);
    CountIs(d, texts, end);
    ghost var t := RecordsEnding(d, texts, end);
    var lines := scan.value;
    var more := found > limit;
    ghost var kept := texts;
    if more {
      ghost var older;
      lines, older := DropExtra(d, lines, limit, texts);
      kept := texts[older + 1..];
      DroppedExtra(d, texts, older, end, limit);
      NotBeforeStart(d, file, stop, end, limit, rest, texts, carried, older + 1);
    }
    var consumed := SumBytes(lines, d, kept);
    var start := end - consumed;
    if start < 0 {
      start := 0;
    }
    if !more {
      start := 0;
    }
    var out := PlaceEvents(d, lines, end, consumed, kept);
    return Ok((out, start));
  }
}
