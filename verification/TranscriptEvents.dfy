/** Events: one page of a transcript, forward from a cursor, backward from an offset, or at the tail. */
module TranscriptEvents {
  import opened Basics
  import opened Lines
  import opened ReadLine
  import opened Transcript
  import opened TranscriptPaging

  /** Everything that reading forward from a position finds. An offset is one past the record here, and a
      record longer than maxLine is passed over. */
  function ForwardRecords(d: Decoder, file: Bytes, from: nat, maxLine: nat): seq<Event>
    requires from <= |file|
    decreases |file| - from
  {
    if from == |file| then []
    else
      var e := RecordEnd(file, from);
      (if e - from <= maxLine && d.Readable(file[from..e]) then [Event(d.Read(file[from..e]).value, e)] else [])
      + ForwardRecords(d, file, e, maxLine)
  }

  /** The record between from and e, unless it is too long. */
  function ForwardRecord(d: Decoder, line: Bytes, n: nat, e: nat, maxLine: nat): seq<Event> {
    if n <= maxLine && d.Readable(line) then [Event(d.Read(line).value, e)] else []
  }

  lemma ForwardStep(d: Decoder, file: Bytes, from: nat, maxLine: nat)
    requires from < |file|
    ensures var e := RecordEnd(file, from);
      ForwardRecords(d, file, from, maxLine)
        == ForwardRecord(d, file[from..e], e - from, e, maxLine) + ForwardRecords(d, file, e, maxLine)
    ensures !Terminated(file, from) ==> RecordEnd(file, from) == |file|
    ensures ForwardRecords(d, file, |file|, maxLine) == []
  {
    hide NextNewline;
  }

  /** forward: the first limit records at or after from. */
  method Forward(d: Decoder, file: Bytes, from: nat, limit: nat, bufferSize: nat, maxLine: nat) returns (out: seq<Event>)
    requires d.Valid() && from <= |file| && bufferSize > 0
    ensures out == First(ForwardRecords(d, file, from, maxLine), limit)
  {
    hide ForwardRecords; hide RecordEnd; hide Terminated; hide ForwardRecord; hide First;
    out := [];
    var pos := from;
    if from == |file| { ForwardNothing(d, file, maxLine); }
    while |out| < limit && pos < |file|
      invariant pos <= |file| && |out| <= limit
      invariant ForwardRecords(d, file, from, maxLine) == out + ForwardRecords(d, file, pos, maxLine)
      invariant pos == |file| ==> ForwardRecords(d, file, pos, maxLine) == []
      decreases |file| - pos
    {
      ForwardStep(d, file, pos, maxLine);
      var line, n, atEnd := NextLine(file, pos, bufferSize, maxLine);
      NextRecord(d, file[pos..pos + n], n, pos + n, maxLine, line);
      Regroup(out, ForwardRecord(d, file[pos..pos + n], n, pos + n, maxLine), ForwardRecords(d, file, pos + n, maxLine));
      pos := pos + n;
      if !d.blank(line) && d.decode(line).Some? {
        out := out + [Event(d.decode(line).value, pos)];
      }
      if atEnd {
        Enough(out, [], limit);
        return;
      }
    }
    Enough(out, ForwardRecords(d, file, pos, maxLine), limit);
  }

  lemma NextRecord(d: Decoder, record: Bytes, n: nat, e: nat, maxLine: nat, line: Bytes)
    requires d.Valid() && line == if n <= maxLine then record else []
    ensures ForwardRecord(d, record, n, e, maxLine)
      == if !d.blank(line) && d.decode(line).Some? then [Event(d.decode(line).value, e)] else []
  {}

  lemma Regroup<T>(a: seq<T>, b: seq<T>, c: seq<T>)
    ensures a + (b + c) == (a + b) + c
    ensures b == [] ==> a + (b + c) == a + c
  {}

  lemma Enough<T>(out: seq<T>, rest: seq<T>, limit: nat)
    requires |out| == limit || (|out| <= limit && rest == [])
    ensures First(out + rest, limit) == out
  {}

  lemma ForwardNothing(d: Decoder, file: Bytes, maxLine: nat)
    ensures ForwardRecords(d, file, |file|, maxLine) == []
  {}

  /** The event says what the record before its offset decodes to, that record being one from a position on. */
  ghost predicate ReadsAhead(d: Decoder, file: Bytes, from: nat, e: Event) {
    exists s :: from <= s < e.offset <= |file| && IsRecord(file, from, s, e.offset)
      && !d.blank(file[s..e.offset]) && d.decode(file[s..e.offset]) == Some(e.content)
  }

  /** From s to e there is one record: a line with its newline, or what there is of it. */
  predicate IsRecord(file: Bytes, from: nat, s: nat, e: nat)
    requires from <= s < e <= |file|
  {
    (s == from || file[s - 1] == NEWLINE) && Clean(file[s..e - 1]) && (e == |file| || file[e - 1] == NEWLINE)
  }

  /** What reading forward finds says what the records decode to. */
  lemma {:induction false} ForwardReads(d: Decoder, file: Bytes, from: nat, maxLine: nat)
    requires from <= |file|
    ensures forall e :: e in ForwardRecords(d, file, from, maxLine) ==> ReadsAhead(d, file, from, e)
    decreases |file| - from
  {
    if from < |file| {
      var n := RecordEnd(file, from);
      ForwardStep(d, file, from, maxLine);
      ForwardReads(d, file, n, maxLine);
      FirstRecord(file, from);
      var rest := ForwardRecords(d, file, n, maxLine);
      hide ForwardRecords; hide RecordEnd; hide Clean;
      forall e | e in ForwardRecords(d, file, from, maxLine) ensures ReadsAhead(d, file, from, e) {
        if e in rest {
          var s :| n <= s < e.offset <= |file| && IsRecord(file, n, s, e.offset)
            && !d.blank(file[s..e.offset]) && d.decode(file[s..e.offset]) == Some(e.content);
          assert IsRecord(file, from, s, e.offset);
        } else {
          assert IsRecord(file, from, from, n);
        }
      }
    } else {
      ForwardNothing(d, file, maxLine);
    }
  }

  lemma FirstRecord(file: Bytes, from: nat)
    requires from < |file|
    ensures var n := RecordEnd(file, from);
      from < n <= |file| && IsRecord(file, from, from, n) && (n < |file| ==> file[n - 1] == NEWLINE)
  {
    var k := NextNewline(file, from);
    if k == |file| { CleanPart(file, from, k); }
  }

  lemma CleanPart(file: Bytes, from: nat, k: nat)
    requires from < k <= |file| && Clean(file[from..k])
    ensures Clean(file[from..k - 1])
  {
    assert forall i :: from <= i < k - 1 ==> file[i] in file[from..k];
  }

  const MAX_EVENTS := 200

  datatype EventOpts = EventOpts(after: int, before: int, limit: int, at: int)

  datatype EventPage = EventPage(events: seq<Event>, cursor: int, prev: int, more: bool, size: int, reset: bool)

  function PageLimit(limit: int): (n: nat)
    ensures 1 <= limit <= 200 ==> n == limit
    ensures limit < 1 || limit > 200 ==> n == 50
  {
    if limit <= 0 || limit > MAX_EVENTS then 50 else limit
  }

  /** d decodes for a page, and whole decodes one record at full size. A file is a snapshot of its bytes. */
  method Events(c: Config, d: Decoder, whole: Decoder, file: Bytes, opts: EventOpts) returns (r: Result<EventPage>)
    requires c.Valid() && d.Valid() && whole.Valid()
    ensures r.ReadError? <==> opts.at > |file|
    ensures r.Ok? ==> var page, limit, size := r.value, PageLimit(opts.limit), |file|;
      && page.size == size && page.reset == (opts.at <= 0 && opts.after > size)
      && if opts.at > 0 then
           page.events == BackPage(c, whole, file, opts.at, 1).0 && page.cursor == size && !page.more
         else if 0 < opts.after <= size then
           && page.events == First(ForwardRecords(d, file, opts.after, c.maxLine), limit)
           && page.cursor == (if page.events == [] then opts.after else page.events[|page.events| - 1].offset)
           && page.more && page.prev == opts.after
         else
           var end: nat := if 0 < opts.before < size then opts.before else size;
           && (page.events, page.prev) == BackPage(c, d, file, end, limit)
           && page.more == (page.prev > 0)
           && page.cursor == (if opts.before > 0 then opts.before else size)
    ensures r.Ok? ==> forall e :: e in r.value.events ==>
      if opts.at > 0 then Reads(whole, file, e)
      else if 0 < opts.after <= |file| then ReadsAhead(d, file, opts.after, e)
      else Reads(d, file, e)
  {
    hide BackPage; hide ForwardRecords; hide LineAt; hide ReadsAhead;
    var limit := PageLimit(opts.limit);
    var size := |file|;
    var page := EventPage([], size, 0, false, size, false);
    if opts.at > 0 {
      var back := Backward(c, whole, file, opts.at, 1);
      if back.ReadError? {
        return ReadError;
      }
      PageReads(c, whole, file, opts.at, 1);
      return Ok(page.(events := back.value.0, more := false));
    }
    var after := opts.after;
    if after > 0 {
      if after > size {
        after := 0;
        page := page.(reset := true);
      } else {
        var evs := Forward(d, file, after, limit, c.bufferSize, c.maxLine);
        page := page.(events := evs);
        ForwardReads(d, file, after, c.maxLine);
        if |evs| > 0 {
          page := page.(cursor := evs[|evs| - 1].offset);
        } else {
          page := page.(cursor := after);
        }
        return Ok(page.(more := after > 0, prev := after));
      }
    }
    var end: nat := size;
    if opts.before > 0 && opts.before < size {
      end := opts.before;
    }
    var back := Backward(c, d, file, end, limit);
    if back.ReadError? {
      return ReadError;
    }
    PageReads(c, d, file, end, limit);
    page := page.(events := back.value.0, prev := back.value.1, more := back.value.1 > 0);
    if opts.before > 0 {
      page := page.(cursor := opts.before);
    }
    return Ok(page);
  }
}
