/** Transcript summaries, kept between polls and folded forward as the file grows. */
module SummaryCache {
  import opened Basics
  import opened Lines
  import opened ReadLine

  datatype Tokens = Tokens(input: int, output: int, cacheRead: int, cacheWrite: int)

  datatype Block = Block(kind: string, name: string)

  /** An assistant message; blocks is None when its content is not an array. */
  datatype Message = Message(model: string, usage: Option<Tokens>, blocks: Option<seq<Block>>)

  datatype Record = Record(kind: string, sessionId: string, cwd: string, gitBranch: string, version: string,
                           timestamp: string, customTitle: string, permissionMode: string, lastPrompt: string,
                           isSidechain: bool, isMeta: bool, message: Option<Message>)

  /** How a line decodes, what a timestamp says, and what trimming leaves of a prompt. */
  datatype Reader = Reader(parse: Bytes -> Option<Record>, time: string -> Option<int>, trim: string -> string)

  /** What a session says it is. */
  datatype Identity = Identity(sessionId: string, cwd: string, gitBranch: string, version: string, title: string,
                               permissionMode: string, lastPrompt: string, started: int)

  datatype Tally = Tally(model: string, messages: int, userTurns: int, assistantTurns: int, sidechains: int,
                         tokens: Tokens)

  /** Which file, how big it was, and how much of it is folded in. */
  datatype Cursor = Cursor(file: string, size: int, offset: int)

  type Count = map<string, int>

  /** A summary as a value. */
  datatype Totals = Totals(id: Identity, tally: Tally, last: int, cursor: Cursor, models: Count, tools: Count)

  const NO_TOTALS := Totals(Identity("", "", "", "", "", "", "", 0), Tally("", 0, 0, 0, 0, Tokens(0, 0, 0, 0)), 0,
                            Cursor("", 0, 0), map[], map[])

  const LAST_PROMPT_MAX := 400
  const ELLIPSIS: string := "\U{2026}"

  function Truncate(r: Reader, s: string, n: nat): string {
    var t := r.trim(s);
    if |t| <= n then t else t[..n] + ELLIPSIS
  }

  function Bump(m: Count, k: string): Count { m[k := (if k in m then m[k] else 0) + 1] }

  function CountTools(m: Count, blocks: seq<Block>): Count {
    if blocks == [] then m
    else
      var n := |blocks| - 1;
      var sofar := CountTools(m, blocks[..n]);
      if blocks[n].kind == "tool_use" && blocks[n].name != "" then Bump(sofar, blocks[n].name) else sofar
  }

  // ---- folding as a function ----

  function Keep(now: string, was: string): string { if now != "" then now else was }

  function FoldIdentity(r: Reader, f: Identity, rec: Record): Identity {
    Identity(Keep(rec.sessionId, f.sessionId), Keep(rec.cwd, f.cwd), Keep(rec.gitBranch, f.gitBranch),
             Keep(rec.version, f.version), Keep(rec.customTitle, f.title), Keep(rec.permissionMode, f.permissionMode),
             if rec.lastPrompt != "" then Truncate(r, rec.lastPrompt, LAST_PROMPT_MAX) else f.lastPrompt,
             if rec.timestamp != "" && f.started == 0 && r.time(rec.timestamp).Some? then r.time(rec.timestamp).value else f.started)
  }

  function AddTokens(a: Tokens, b: Tokens): Tokens {
    Tokens(a.input + b.input, a.output + b.output, a.cacheRead + b.cacheRead, a.cacheWrite + b.cacheWrite)
  }

  function FoldTurn(f: Tally, rec: Record): Tally {
    var side := f.sidechains + if rec.isSidechain then 1 else 0;
    if rec.kind == "user" && !rec.isMeta then f.(messages := f.messages + 1, userTurns := f.userTurns + 1, sidechains := side)
    else if rec.kind == "assistant" then f.(messages := f.messages + 1, assistantTurns := f.assistantTurns + 1, sidechains := side)
    else f
  }

  function FoldMessage(t: Totals, m: Message): Totals {
    t.(tally := t.tally.(model := Keep(m.model, t.tally.model),
                         tokens := if m.usage.Some? then AddTokens(t.tally.tokens, m.usage.value) else t.tally.tokens),
       models := if m.model != "" then Bump(t.models, m.model) else t.models,
       tools := if m.blocks.Some? then CountTools(t.tools, m.blocks.value) else t.tools)
  }

  /** One record more. */
  function FoldLine(r: Reader, t: Totals, line: Bytes): Totals {
    match r.parse(line)
    case None => t
    case Some(rec) =>
      var u := t.(id := FoldIdentity(r, t.id, rec), tally := FoldTurn(t.tally, rec));
      if rec.kind == "assistant" && rec.message.Some? then FoldMessage(u, rec.message.value) else u
  }

  function StampOf(r: Reader, line: Bytes): string {
    match r.parse(line)
    case None => ""
    case Some(rec) => rec.timestamp
  }

  /** Where the complete records at or after a position end. */
  function End(content: Bytes, from: nat): (e: nat)
    requires from <= |content|
    ensures from <= e <= |content| && !Terminated(content, e)
    ensures e == from || content[e - 1] == NEWLINE
    decreases |content| - from
  {
    if Terminated(content, from) then End(content, RecordEnd(content, from)) else from
  }

  /** Every complete record from a position on, folded in order: over-long ones are passed over, and a record
      still being written is left for later. */
  function FoldFrom(r: Reader, content: Bytes, from: nat, t: Totals, maxLine: nat): Totals
    requires from <= |content|
    decreases |content| - from
  {
    if Terminated(content, from) then
      var e := RecordEnd(content, from);
      FoldFrom(r, content, e, if e - from <= maxLine then FoldLine(r, t, content[from..e]) else t, maxLine)
    else t
  }

  /** The last timestamp there, or stamp when there is none. */
  function StampFrom(r: Reader, content: Bytes, from: nat, stamp: string, maxLine: nat): string
    requires from <= |content|
    decreases |content| - from
  {
    if Terminated(content, from) then
      var e := RecordEnd(content, from);
      StampFrom(r, content, e, if e - from <= maxLine then Keep(StampOf(r, content[from..e]), stamp) else stamp, maxLine)
    else stamp
  }

  function Started(t: Totals, path: string, size: int, offset: int): Totals {
    t.(cursor := Cursor(path, size, offset))
  }

  function Stamped(r: Reader, t: Totals, stamp: string): Totals {
    if stamp != "" && r.time(stamp).Some? then t.(last := r.time(stamp).value) else t
  }

  /** One pass over a file, from where t left off. */
  function Scan(r: Reader, path: string, content: Bytes, t: Totals, maxLine: nat): (u: Totals)
    requires 0 <= t.cursor.offset <= |content|
    ensures t.cursor.offset <= u.cursor.offset <= |content|
  {
    var o := t.cursor.offset;
    Stamped(r, Started(FoldFrom(r, content, o, t, maxLine), path, |content|, End(content, o)), StampFrom(r, content, o, "", maxLine))
  }

  /** The file from the start. */
  function FullScan(r: Reader, path: string, content: Bytes, maxLine: nat): Totals { Scan(r, path, content, NO_TOTALS, maxLine) }

  /** What a poll leaves in the cache. */
  function Poll(r: Reader, path: string, content: Bytes, cached: Option<Totals>, maxLine: nat): Totals
    requires cached.Some? ==> cached.value.cursor.offset >= 0
  {
    if cached.None? || cached.value.cursor.offset > |content| then FullScan(r, path, content, maxLine)
    else if cached.value.cursor.offset == |content| then cached.value
    else Scan(r, path, content, cached.value, maxLine)
  }

  // ---- the cached maps ----

  class Counts {
    var m: Count

    constructor ()
      ensures m == map[]
    {
      m := map[];
    }
  }

  /** A summary as the program holds it: a struct whose maps are shared by every copy of it. */
  datatype Summary = Summary(id: Identity, tally: Tally, last: int, cursor: Cursor, models: Counts?, tools: Counts?)

  ghost function CountView(c: Counts?): Count
    reads c
  {
    if c == null then map[] else c.m
  }

  ghost function View(s: Summary): Totals
    reads s.models, s.tools
  {
    Totals(s.id, s.tally, s.last, s.cursor, CountView(s.models), CountView(s.tools))
  }

  ghost predicate Separate(s: Summary) { s.models != null && s.tools != null && s.models != s.tools }

  /** Tool uses, counted in the shared map. */
  method FoldBlocks(tools: Counts, blocks: seq<Block>)
    modifies tools
    ensures tools.m == CountTools(old(tools.m), blocks)
  {
    assert blocks[..0] == [];
    for i := 0 to |blocks|
      invariant tools.m == CountTools(old(tools.m), blocks[..i])
    {
      assert blocks[..i + 1][..i] == blocks[..i];
      var b := blocks[i];
      if b.kind == "tool_use" && b.name != "" {
        tools.m := tools.m[b.name := (if b.name in tools.m then tools.m[b.name] else 0) + 1];
      }
    }
    assert blocks[..|blocks|] == blocks;
  }

  /** The identity fields: the last writer wins. */
  method FoldFields(r: Reader, was: Identity, rec: Record) returns (f: Identity)
    ensures f == FoldIdentity(r, was, rec)
  {
    f := was;
    if rec.sessionId != "" { f := f.(sessionId := rec.sessionId); }
    if rec.cwd != "" { f := f.(cwd := rec.cwd); }
    if rec.gitBranch != "" { f := f.(gitBranch := rec.gitBranch); }
    if rec.version != "" { f := f.(version := rec.version); }
    if rec.customTitle != "" { f := f.(title := rec.customTitle); }
    if rec.permissionMode != "" { f := f.(permissionMode := rec.permissionMode); }
    if rec.lastPrompt != "" { f := f.(lastPrompt := Truncate(r, rec.lastPrompt, LAST_PROMPT_MAX)); }
    if rec.timestamp != "" && f.started == 0 {
      var t := r.time(rec.timestamp);
      if t.Some? { f := f.(started := t.value); }
    }
  }

  /** The message of an assistant record. */
  method FoldAssistant(sum: Summary, msg: Message) returns (f: Tally)
    requires Separate(sum)
    modifies sum.models, sum.tools
    ensures View(sum.(tally := f)) == FoldMessage(old(View(sum)), msg)
  {
    f := sum.tally;
    if msg.model != "" {
      sum.models.m := sum.models.m[msg.model := (if msg.model in sum.models.m then sum.models.m[msg.model] else 0) + 1];
      f := f.(model := msg.model);
    }
    if msg.usage.Some? {
      var u := msg.usage.value;
      f := f.(tokens := Tokens(f.tokens.input + u.input, f.tokens.output + u.output,
                               f.tokens.cacheRead + u.cacheRead, f.tokens.cacheWrite + u.cacheWrite));
    }
    if msg.blocks.Some? {
      FoldBlocks(sum.tools, msg.blocks.value);
    }
  }

  /** fold: one record into a summary, whose maps change in place. */
  method Fold(r: Reader, sum: Summary, line: Bytes) returns (out: Summary, stamp: string)
    requires Separate(sum)
    modifies sum.models, sum.tools
    ensures out.models == sum.models && out.tools == sum.tools
    ensures View(out) == FoldLine(r, old(View(sum)), line) && stamp == StampOf(r, line)
  {
    hide FoldIdentity; hide FoldMessage;
    var parsed := r.parse(line);
    if parsed.None? {
      return sum, "";
    }
    var rec := parsed.value;
    var id := FoldFields(r, sum.id, rec);
    var f := sum.tally;
    if rec.kind == "user" {
      if !rec.isMeta {
        f := f.(messages := f.messages + 1, userTurns := f.userTurns + 1);
        if rec.isSidechain { f := f.(sidechains := f.sidechains + 1); }
      }
    } else if rec.kind == "assistant" {
      f := f.(messages := f.messages + 1, assistantTurns := f.assistantTurns + 1);
      if rec.isSidechain { f := f.(sidechains := f.sidechains + 1); }
      if rec.message.Some? {
        f := FoldAssistant(sum.(id := id, tally := f), rec.message.value);
      }
    }
    return sum.(id := id, tally := f), rec.timestamp;
  }

  lemma FoldStep(r: Reader, content: Bytes, from: nat, t: Totals, stamp: string, maxLine: nat)
    requires from <= |content|
    ensures var e := RecordEnd(content, from);
      if Terminated(content, from) then
        var short := e - from <= maxLine;
        && End(content, from) == End(content, e)
        && FoldFrom(r, content, from, t, maxLine) == FoldFrom(r, content, e, if short then FoldLine(r, t, content[from..e]) else t, maxLine)
        && StampFrom(r, content, from, stamp, maxLine)
           == StampFrom(r, content, e, if short then Keep(StampOf(r, content[from..e]), stamp) else stamp, maxLine)
      else
        && End(content, from) == from
        && FoldFrom(r, content, from, t, maxLine) == t && StampFrom(r, content, from, stamp, maxLine) == stamp
  {}

  lemma TerminatedLine(content: Bytes, from: nat)
    requires from <= |content|
    ensures var e := RecordEnd(content, from); var line := content[from..e];
      Terminated(content, from) <==> line != [] && line[|line| - 1] == NEWLINE
    ensures Terminated(content, from) ==> RecordEnd(content, from) > from
  {
    var k := NextNewline(content, from);
    if k == |content| && from < |content| {
      assert content[|content| - 1] in content[from..k];
    }
  }

  /** What a failed read leaves behind: the records before it, and the part of one it broke off in. */
  function FoldBroken(r: Reader, data: Bytes, from: nat, t: Totals, maxLine: nat): Totals
    requires from <= |data|
  {
    var e := End(data, from);
    var u := FoldFrom(r, data, from, t, maxLine);
    if e < |data| && |data| - e <= maxLine then FoldLine(r, u, data[e..]) else u
  }

  lemma BrokenOff(r: Reader, data: Bytes, from: nat, t: Totals, maxLine: nat, pos: nat, u: Totals)
    requires from <= |data| && pos <= |data| && !Terminated(data, pos)
    requires End(data, pos) == End(data, from) && FoldFrom(r, data, pos, u, maxLine) == FoldFrom(r, data, from, t, maxLine)
    ensures RecordEnd(data, pos) == |data| && data[pos..|data|] == data[pos..]
    ensures FoldBroken(r, data, from, t, maxLine)
      == if pos < |data| && |data| - pos <= maxLine then FoldLine(r, u, data[pos..]) else u
  {
    FoldStep(r, data, pos, u, "", maxLine);
  }

  /** The cursor and the file it is in play no part in folding. */
  lemma FoldStarted(r: Reader, t: Totals, line: Bytes, path: string, size: int, offset: int)
    ensures FoldLine(r, Started(t, path, size, offset), line) == Started(FoldLine(r, t, line), path, size, offset)
  {
    hide CountTools; hide Bump; hide Truncate;
  }

  /** The maps of a fresh summary come from scan. */
  method Prepare(sum: Summary) returns (out: Summary)
    requires (sum.models == null && sum.tools == null) || Separate(sum)
    ensures Separate(out) && View(out) == View(sum)
    ensures if sum.models == null then fresh(out.models) && fresh(out.tools) else out == sum
  {
    out := sum;
    if out.models == null {
      var c := new Counts();
      out := out.(models := c);
    }
    if out.tools == null {
      var c := new Counts();
      out := out.(tools := c);
    }
  }

  /** scan: fold in every record from where sum left off. data is what can be read of a file of that size: all of
      it, or less when reading on fails. */
  method ScanFile(r: Reader, path: string, size: nat, data: Bytes, fails: bool, sum: Summary, maxLine: nat,
                  bufferSize: nat)
    returns (ok: bool, out: Summary)
    requires 0 <= sum.cursor.offset <= |data| && (!fails ==> size == |data|) && bufferSize > 0
    requires (sum.models == null && sum.tools == null) || Separate(sum)
    modifies sum.models, sum.tools
    ensures ok <==> !fails
    ensures Separate(out)
    ensures if sum.models == null then fresh(out.models) && fresh(out.tools) else out.models == sum.models && out.tools == sum.tools
    ensures ok ==> View(out) == Scan(r, path, data, old(View(sum)), maxLine)
    ensures !ok ==>
      var t := FoldBroken(r, data, sum.cursor.offset, old(View(sum)), maxLine);
      View(out).models == t.models && View(out).tools == t.tools
  {
    hide FoldLine; hide FoldFrom; hide StampFrom; hide StampOf; hide End; hide RecordEnd; hide NextNewline;
    hide Terminated; hide FoldBroken;
    out := Prepare(sum);
    ghost var was := View(out);
    out := out.(cursor := out.cursor.(file := path, size := size));
    var pos: nat := sum.cursor.offset;
    ghost var o := pos;
    var lastTS := "";
    ghost var t := was;
    ghost var models, tools := out.models, out.tools;
    while true
      invariant o <= pos <= |data| && Separate(out) && out.models == models && out.tools == tools
      invariant End(data, pos) == End(data, o)
      invariant FoldFrom(r, data, pos, t, maxLine) == FoldFrom(r, data, o, was, maxLine)
      invariant StampFrom(r, data, pos, lastTS, maxLine) == StampFrom(r, data, o, "", maxLine)
      invariant View(out) == Started(t, path, size, pos)
      decreases |data| - pos
    {
      FoldStep(r, data, pos, t, lastTS, maxLine);
      TerminatedLine(data, pos);
      var line, n, atEnd := NextLine(data, pos, bufferSize, maxLine);
      if atEnd { BrokenOff(r, data, o, was, maxLine, pos, t); }
      var eof := atEnd && !fails;
      var complete := |line| > 0 && line[|line| - 1] == NEWLINE;
      if !complete && eof {
        break;
      }
      pos := pos + n;
      out := out.(cursor := out.cursor.(offset := out.cursor.offset + n));
      if |line| > 0 {
        FoldStarted(r, t, line, path, size, pos);
        var ts;
        out, ts := Fold(r, out, line);
        if ts != "" {
          lastTS := ts;
        }
        t := FoldLine(r, t, line);
      }
      if atEnd {
        return false, out;
      }
    }
    if lastTS != "" {
      var p := r.time(lastTS);
      if p.Some? {
        out := out.(last := p.value);
      }
    }
    return true, out;
  }

  // ---- the cache ----

  method CloneCount(c: Counts) returns (out: Counts?)
    ensures CountView(out) == c.m
    ensures out != null ==> fresh(out)
  {
    if |c.m| == 0 {
      return null;
    }
    out := new Counts();
    var keys := c.m.Keys;
    while keys != {}
      invariant fresh(out) && keys <= c.m.Keys
      invariant out.m == map k | k in c.m && k !in keys :: c.m[k]
      decreases |keys|
    {
      var k :| k in keys;
      out.m := out.m[k := c.m[k]];
      keys := keys - {k};
    }
  }

  /** copySummary: a caller may do with its maps what it likes. */
  method CopySummary(s: Summary) returns (out: Summary)
    requires Separate(s)
    ensures View(out) == View(s)
    ensures (out.models != null ==> fresh(out.models)) && (out.tools != null ==> fresh(out.tools))
  {
    var models := CloneCount(s.models);
    var tools := CloneCount(s.tools);
    out := s.(models := models, tools := tools);
  }

  ghost function Maps(s: Summary): set<object?> { {s.models, s.tools} }

  class Cache {
    var entries: map<string, Summary>

    /** Every entry has maps of its own. */
    ghost predicate Valid()
      reads this
    {
      && (forall p :: p in entries ==> Separate(entries[p]) && entries[p].cursor.offset >= 0)
      && forall p, q :: p in entries && q in entries && p != q ==> Maps(entries[p]) !! Maps(entries[q])
    }

    ghost function Cached(path: string): Option<Totals>
      reads this, if path in entries then Maps(entries[path]) else {}
    {
      if path in entries then Some(View(entries[path])) else None
    }

    constructor ()
      ensures Valid() && entries == map[]
    {
      entries := map[];
    }

    method Store(path: string, sum: Summary)
      requires Valid() && Separate(sum) && sum.cursor.offset >= 0
      requires forall q :: q in entries && q != path ==> Maps(entries[q]) !! Maps(sum)
      modifies this
      ensures Valid() && entries == old(entries)[path := sum]
    {
      entries := entries[path := sum];
    }

    /** What a poll starts from: the entry, unless it is missing or the file has shrunk. */
    function Base(path: string, size: nat): Summary
      reads this
    {
      if path in entries && entries[path].cursor.offset <= size then entries[path]
      else Summary(NO_TOTALS.id, NO_TOTALS.tally, 0, NO_TOTALS.cursor, null, null)
    }

    /** The part of summarize that reads the file. */
    method Rescan(r: Reader, path: string, size: nat, data: Bytes, fails: bool, maxLine: nat, bufferSize: nat)
      returns (ok: bool, sum: Summary)
      requires Valid() && bufferSize > 0 && (!fails ==> size == |data|)
      requires 0 <= Base(path, size).cursor.offset <= |data|
      modifies Maps(Base(path, size))
      ensures Valid() && ok == !fails
      ensures forall q :: q in entries && q != path ==> Cached(q) == old(Cached(q)) && Maps(entries[q]) !! Maps(sum)
      ensures ok ==> Separate(sum) && View(sum) == Scan(r, path, data, old(View(Base(path, size))), maxLine)
      ensures !ok && path in entries ==>
        Cached(path) == Some(if Base(path, size) == entries[path] then AfterFailure(r, data, old(View(entries[path])), maxLine)
                             else old(View(entries[path])))
    {
      hide Scan; hide FoldBroken;
      sum := Base(path, size);
      ok, sum := ScanFile(r, path, size, data, fails, sum, maxLine, bufferSize);
    }

    /** summarize: the summary of a file of that size, of which data can be read. A caller gets maps of its own. */
    method Summarize(r: Reader, path: string, size: nat, data: Bytes, fails: bool, maxLine: nat, bufferSize: nat)
      returns (res: Option<Summary>)
      requires Valid() && bufferSize > 0 && (!fails ==> size == |data|)
      requires 0 <= Base(path, size).cursor.offset <= |data|
      modifies this, Maps(Base(path, size))
      ensures Valid()
      ensures forall q :: q in old(entries) && q != path ==> q in entries && Cached(q) == old(Cached(q))
      ensures res.None? <==> fails && !(path in old(entries) && old(entries[path]).cursor.offset == size)
      ensures res.Some? && !fails ==> View(res.value) == Poll(r, path, data, old(Cached(path)), maxLine)
      ensures res.Some? ==>
        && entries.Keys == old(entries).Keys + {path} && Cached(path) == Some(View(res.value))
        && (res.value.models != null ==> fresh(res.value.models)) && (res.value.tools != null ==> fresh(res.value.tools))
      ensures res.None? ==> entries == old(entries)
      ensures res.None? && path in entries ==>
        Cached(path) == Some(if old(Base(path, size)) == entries[path] then AfterFailure(r, data, old(View(entries[path])), maxLine)
                             else old(View(entries[path])))
      ensures old(Cached(path)).Some? ==> old(Cached(path)).value.cursor.offset >= 0
      ensures Cached(path) == Visited(r, path, if fails then Broken(size, data) else Good(data), old(Cached(path)), maxLine)
    {
      hide Scan; hide AfterFailure;
      if path in entries && entries[path].cursor.offset == size {
        var copy := CopySummary(entries[path]);
        return Some(copy);
      }
      var ok, sum := Rescan(r, path, size, data, fails, maxLine, bufferSize);
      if !ok {
        return None;
      }
      Store(path, sum);
      var copy := CopySummary(sum);
      return Some(copy);
    }
  }

  /** A failed poll leaves the entry as it was, but for its maps: it shares them with the copy that was folded into. */
  function AfterFailure(r: Reader, data: Bytes, was: Totals, maxLine: nat): (now: Totals)
    requires 0 <= was.cursor.offset <= |data|
    ensures now.cursor == was.cursor
  {
    var t := FoldBroken(r, data, was.cursor.offset, was, maxLine);
    was.(models := t.models, tools := t.tools)
  }

  /** A poll of a file, or one of a file of some size of which only data can be read. */
  datatype Visit = Good(file: Bytes) | Broken(size: nat, data: Bytes)

  /** What a poll leaves in the cache, whether it fails or not. It reads nothing when nothing was appended, and what it
      folds into is the entry's only if there is one that the file has outgrown. */
  function Visited(r: Reader, path: string, v: Visit, was: Option<Totals>, maxLine: nat): (now: Option<Totals>)
    requires was.Some? ==> was.value.cursor.offset >= 0
    ensures was.Some? ==> now.Some?
    ensures now.Some? ==> now.value.cursor.offset >= 0
  {
    match v
    case Good(file) => Some(Poll(r, path, file, was, maxLine))
    case Broken(size, data) =>
      if was.None? || was.value.cursor.offset >= size || was.value.cursor.offset > |data| then was
      else Some(AfterFailure(r, data, was.value, maxLine))
  }
}
