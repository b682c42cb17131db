/** What the fields of a summary say about the records of the file. */
module SummaryFields {
  import opened Basics
  import opened Lines
  import opened ReadLine
  import opened SummaryCache
  import opened SummaryRuns

  /** The records of a file from a position on: complete lines, short enough, that decode. */
  function Recs(r: Reader, content: Bytes, from: nat, maxLine: nat): seq<Record>
    requires from <= |content|
    decreases |content| - from
  {
    if Terminated(content, from) then
      var e := RecordEnd(content, from);
      (if e - from <= maxLine && r.parse(content[from..e]).Some? then [r.parse(content[from..e]).value] else [])
      + Recs(r, content, e, maxLine)
    else []
  }

  function Count(s: seq<Record>, p: Record -> bool): nat {
    if s == [] then 0 else (if p(s[0]) then 1 else 0) + Count(s[1..], p)
  }

  function Sum(s: seq<Record>, f: Record -> int): int { if s == [] then 0 else f(s[0]) + Sum(s[1..], f) }

  /** The last that is not empty. */
  function LastOf(s: seq<Record>, f: Record -> string): string {
    if s == [] then "" else if LastOf(s[1..], f) != "" then LastOf(s[1..], f) else f(s[0])
  }

  /** The first that is not zero. */
  function FirstOf(s: seq<Record>, f: Record -> int): int {
    if s == [] then 0 else if f(s[0]) != 0 then f(s[0]) else FirstOf(s[1..], f)
  }

  predicate UserTurn(rec: Record) { rec.kind == "user" && !rec.isMeta }

  predicate AssistantTurn(rec: Record) { rec.kind == "assistant" }

  predicate AnyTurn(rec: Record) { rec.kind == "assistant" || (rec.kind == "user" && !rec.isMeta) }

  predicate SideTurn(rec: Record) { AnyTurn(rec) && rec.isSidechain }

  /** What an assistant's record says it used; nothing for others. */
  function Used(rec: Record): Tokens {
    if rec.kind == "assistant" && rec.message.Some? && rec.message.value.usage.Some? then rec.message.value.usage.value
    else Tokens(0, 0, 0, 0)
  }

  function Input(rec: Record): int { Used(rec).input }

  function Output(rec: Record): int { Used(rec).output }

  function CacheRead(rec: Record): int { Used(rec).cacheRead }

  function CacheWrite(rec: Record): int { Used(rec).cacheWrite }

  function Model(rec: Record): string { if rec.kind == "assistant" && rec.message.Some? then rec.message.value.model else "" }

  function SessionId(rec: Record): string { rec.sessionId }

  function Cwd(rec: Record): string { rec.cwd }

  function Branch(rec: Record): string { rec.gitBranch }

  function Version(rec: Record): string { rec.version }

  function Title(rec: Record): string { rec.customTitle }

  function Mode(rec: Record): string { rec.permissionMode }

  function Prompt(rec: Record): string { rec.lastPrompt }

  function Stamp(rec: Record): string { rec.timestamp }

  /** A prompt as it is kept: trimmed, and cut after 400 characters. */
  function Cut(r: Reader, s: string): string {
    var p := r.trim(s);
    if |p| <= 400 then p else p[..400] + "\U{2026}"
  }

  function Begun(r: Reader): Record -> int {
    (rec: Record) => if rec.timestamp != "" && r.time(rec.timestamp).Some? then r.time(rec.timestamp).value else 0
  }

  /** From t to u, the tallies have grown by what the records add. */
  ghost predicate Tallied(t: Tally, s: seq<Record>, u: Tally) {
    && u.messages == t.messages + Count(s, AnyTurn)
    && u.userTurns == t.userTurns + Count(s, UserTurn)
    && u.assistantTurns == t.assistantTurns + Count(s, AssistantTurn)
    && u.sidechains == t.sidechains + Count(s, SideTurn)
    && u.tokens.input == t.tokens.input + Sum(s, Input)
    && u.tokens.output == t.tokens.output + Sum(s, Output)
    && u.tokens.cacheRead == t.tokens.cacheRead + Sum(s, CacheRead)
    && u.tokens.cacheWrite == t.tokens.cacheWrite + Sum(s, CacheWrite)
    && u.model == Keep(LastOf(s, Model), t.model)
  }

  /** From t to u, the last of each field that some record sets stands. */
  ghost predicate Identified(r: Reader, t: Identity, s: seq<Record>, u: Identity) {
    && u.sessionId == Keep(LastOf(s, SessionId), t.sessionId)
    && u.cwd == Keep(LastOf(s, Cwd), t.cwd)
    && u.gitBranch == Keep(LastOf(s, Branch), t.gitBranch)
    && u.version == Keep(LastOf(s, Version), t.version)
    && u.title == Keep(LastOf(s, Title), t.title)
    && u.permissionMode == Keep(LastOf(s, Mode), t.permissionMode)
    && u.lastPrompt == (if LastOf(s, Prompt) != "" then Cut(r, LastOf(s, Prompt)) else t.lastPrompt)
    && u.started == (if t.started != 0 then t.started else FirstOf(s, Begun(r)))
  }

  lemma CountCons(x: Record, s: seq<Record>, p: Record -> bool)
    ensures Count([x] + s, p) == Count([x], p) + Count(s, p) && Count([x], p) == (if p(x) then 1 else 0)
  {
    assert ([x] + s)[1..] == s && [x][1..] == [];
  }

  lemma SumCons(x: Record, s: seq<Record>, f: Record -> int)
    ensures Sum([x] + s, f) == Sum([x], f) + Sum(s, f) && Sum([x], f) == f(x)
  {
    assert ([x] + s)[1..] == s && [x][1..] == [];
  }

  lemma LastCons(x: Record, s: seq<Record>, f: Record -> string)
    ensures LastOf([x] + s, f) == Keep(LastOf(s, f), LastOf([x], f)) && LastOf([x], f) == f(x)
  {
    assert ([x] + s)[1..] == s && [x][1..] == [];
  }

  lemma FirstCons(x: Record, s: seq<Record>, f: Record -> int)
    ensures FirstOf([x] + s, f) == (if FirstOf([x], f) != 0 then FirstOf([x], f) else FirstOf(s, f)) && FirstOf([x], f) == f(x)
  {
    assert ([x] + s)[1..] == s && [x][1..] == [];
  }

  lemma TalliedCons(x: Record, s: seq<Record>, t: Tally, u: Tally, v: Tally)
    requires Tallied(t, [x], u) && Tallied(u, s, v)
    ensures Tallied(t, [x] + s, v)
  {
    CountCons(x, s, AnyTurn); CountCons(x, s, UserTurn); CountCons(x, s, AssistantTurn); CountCons(x, s, SideTurn);
    SumCons(x, s, Input); SumCons(x, s, Output); SumCons(x, s, CacheRead); SumCons(x, s, CacheWrite);
    LastCons(x, s, Model);
    hide Count; hide Sum; hide LastOf;
  }

  lemma IdentifiedCons(r: Reader, x: Record, s: seq<Record>, t: Identity, u: Identity, v: Identity)
    requires Identified(r, t, [x], u) && Identified(r, u, s, v)
    ensures Identified(r, t, [x] + s, v)
  {
    LastCons(x, s, SessionId); LastCons(x, s, Cwd); LastCons(x, s, Branch); LastCons(x, s, Version);
    LastCons(x, s, Title); LastCons(x, s, Mode); LastCons(x, s, Prompt);
    FirstCons(x, s, Begun(r));
    hide LastOf; hide FirstOf; hide Cut; hide Begun;
  }

  /** One record. */
  lemma FoldOne(r: Reader, t: Totals, line: Bytes)
    requires r.parse(line).Some?
    ensures var rec, u := r.parse(line).value, FoldLine(r, t, line);
      Tallied(t.tally, [rec], u.tally) && Identified(r, t.id, [rec], u.id)
  {
    var rec := r.parse(line).value;
    CountCons(rec, [], AnyTurn); CountCons(rec, [], UserTurn); CountCons(rec, [], AssistantTurn); CountCons(rec, [], SideTurn);
    SumCons(rec, [], Input); SumCons(rec, [], Output); SumCons(rec, [], CacheRead); SumCons(rec, [], CacheWrite);
    LastCons(rec, [], Model);
    LastCons(rec, [], SessionId); LastCons(rec, [], Cwd); LastCons(rec, [], Branch); LastCons(rec, [], Version);
    LastCons(rec, [], Title); LastCons(rec, [], Mode); LastCons(rec, [], Prompt);
    FirstCons(rec, [], Begun(r));
    hide Count; hide Sum; hide LastOf; hide FirstOf; hide CountTools; hide Bump;
  }

  lemma NoRecords(r: Reader, t: Totals)
    ensures Tallied(t.tally, [], t.tally) && Identified(r, t.id, [], t.id)
  {}

  lemma {:induction false} FoldMeans(r: Reader, content: Bytes, from: nat, t: Totals, maxLine: nat)
    requires from <= |content|
    ensures var s, u := Recs(r, content, from, maxLine), FoldFrom(r, content, from, t, maxLine);
      Tallied(t.tally, s, u.tally) && Identified(r, t.id, s, u.id)
    decreases |content| - from
  {
    hide FoldLine; hide RecordEnd; hide Terminated; hide FoldFrom; hide Tallied; hide Identified;
    FoldStep(r, content, from, t, "", maxLine);
    TerminatedLine(content, from);
    NoRecords(r, t);
    if Terminated(content, from) {
      var e := RecordEnd(content, from);
      var line := content[from..e];
      var rest := Recs(r, content, e, maxLine);
      assert [] + rest == rest;
      if e - from <= maxLine && r.parse(line).Some? {
        var u := FoldLine(r, t, line);
        FoldOne(r, t, line);
        FoldMeans(r, content, e, u, maxLine);
        TalliedCons(r.parse(line).value, rest, t.tally, u.tally, FoldFrom(r, content, e, u, maxLine).tally);
        IdentifiedCons(r, r.parse(line).value, rest, t.id, u.id, FoldFrom(r, content, e, u, maxLine).id);
      } else {
        Unparsed(r, t, line);
        FoldMeans(r, content, e, t, maxLine);
      }
    }
  }

  /** The last timestamp of a scan is that of the last record that has one. */
  lemma {:induction false} StampMeans(r: Reader, content: Bytes, from: nat, stamp: string, maxLine: nat)
    requires from <= |content|
    ensures StampFrom(r, content, from, stamp, maxLine) == Keep(LastOf(Recs(r, content, from, maxLine), Stamp), stamp)
    decreases |content| - from
  {
    hide RecordEnd; hide Terminated; hide StampFrom; hide FoldFrom;
    FoldStep(r, content, from, NO_TOTALS, stamp, maxLine);
    TerminatedLine(content, from);
    if Terminated(content, from) {
      var e := RecordEnd(content, from);
      var line := content[from..e];
      var rest := Recs(r, content, e, maxLine);
      assert [] + rest == rest;
      if e - from <= maxLine && r.parse(line).Some? {
        LastCons(r.parse(line).value, rest, Stamp);
        StampMeans(r, content, e, Keep(StampOf(r, line), stamp), maxLine);
      } else {
        StampMeans(r, content, e, stamp, maxLine);
      }
      hide LastOf;
    }
  }

  lemma Unparsed(r: Reader, t: Totals, line: Bytes)
    ensures r.parse(line).None? ==> FoldLine(r, t, line) == t
  {}

  lemma {:induction false} ScanMentions(r: Reader, path: string, content: Bytes, k: string, maxLine: nat)
    ensures Counted(FullScan(r, path, content, maxLine), k) == MentionsFrom(r, content, 0, k, maxLine)
  {
    hide MentionsFrom; hide Scan;
    ScanAdds(r, path, content, NO_TOTALS, k, maxLine);
  }

  /** A full scan's fields: the turns are counted by kind, tokens are summed over assistants' records, and of everything
      that names or describes the session the last value that is set stands. */
  lemma FullScanMeans(r: Reader, path: string, content: Bytes, maxLine: nat)
    ensures var t, s := FullScan(r, path, content, maxLine), Recs(r, content, 0, maxLine);
      && t.tally == Tally(LastOf(s, Model), Count(s, AnyTurn), Count(s, UserTurn), Count(s, AssistantTurn),
                          Count(s, SideTurn), Tokens(Sum(s, Input), Sum(s, Output), Sum(s, CacheRead), Sum(s, CacheWrite)))
      && t.id == Identity(LastOf(s, SessionId), LastOf(s, Cwd), LastOf(s, Branch), LastOf(s, Version), LastOf(s, Title),
                          LastOf(s, Mode), if LastOf(s, Prompt) != "" then Cut(r, LastOf(s, Prompt)) else "",
                          FirstOf(s, Begun(r)))
      && t.cursor == Cursor(path, |content|, End(content, 0))
      && t.last == (if LastOf(s, Stamp) != "" && r.time(LastOf(s, Stamp)).Some? then r.time(LastOf(s, Stamp)).value else 0)
      && forall k :: Counted(t, k) == MentionsFrom(r, content, 0, k, maxLine)
  {
    hide FoldFrom; hide Recs; hide Count; hide Sum; hide LastOf; hide FirstOf; hide End; hide MentionsFrom; hide Counted;
    hide StampFrom;
    ScanShape(r, path, content, NO_TOTALS, maxLine);
    FoldMeans(r, content, 0, NO_TOTALS, maxLine);
    ScanLast(r, path, content, NO_TOTALS, maxLine);
    StampMeans(r, content, 0, "", maxLine);
    forall k ensures Counted(FullScan(r, path, content, maxLine), k) == MentionsFrom(r, content, 0, k, maxLine) {
      ScanMentions(r, path, content, k, maxLine);
    }
    var t, u := FullScan(r, path, content, maxLine), FoldFrom(r, content, 0, NO_TOTALS, maxLine);
    assert SansLast(t).tally == u.tally && SansLast(t).id == u.id && SansLast(t).cursor == t.cursor;
  }
}
