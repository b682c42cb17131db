/** The launcher's env file: quoted values, read as a map and edited line by line. */
module EnvFile {
  import opened Basics

  // ---- quoting ----

  /** Every occurrence of a pattern, from the left, without overlap. */
  function ReplaceAll(s: string, pat: string, sub: string): string
    requires pat != ""
  {
    if |s| < |pat| then s
    else if s[..|pat|] == pat then sub + ReplaceAll(s[|pat|..], pat, sub)
    else [s[0]] + ReplaceAll(s[1..], pat, sub)
  }

  const QUOTE: string := "'"
  const ESCAPED: string := "'\\''"

  /** What tells a shell to take s as it is. */
  function ShellQuote(s: string): string { QUOTE + ReplaceAll(s, QUOTE, ESCAPED) + QUOTE }

  /** Backslash escapes inside double quotes. */
  function Unescape(s: string): string {
    if |s| < 2 then s
    else if s[0] == '\\' && (s[1] == '"' || s[1] == '\\' || s[1] == '$') then [s[1]] + Unescape(s[2..])
    else [s[0]] + Unescape(s[1..])
  }

  function Unquote(v: string): string {
    if |v| >= 2 && v[0] == '\'' && v[|v| - 1] == '\'' then ReplaceAll(v[1..|v| - 1], ESCAPED, QUOTE)
    else if |v| >= 2 && v[0] == '"' && v[|v| - 1] == '"' then Unescape(v[1..|v| - 1])
    else v
  }

  lemma {:induction false} ReplaceBack(s: string)
    ensures ReplaceAll(ReplaceAll(s, QUOTE, ESCAPED), ESCAPED, QUOTE) == s
  {
    if s != "" {
      ReplaceBack(s[1..]);
      var rest := ReplaceAll(s[1..], QUOTE, ESCAPED);
      assert s == [s[0]] + s[1..];
      if s[0] == '\'' {
        assert s[..1] == QUOTE;
        assert (ESCAPED + rest)[..4] == ESCAPED && (ESCAPED + rest)[4..] == rest;
      } else {
        assert s[..1] != QUOTE by { assert s[..1][0] == s[0]; }
        var r := [s[0]] + rest;
        assert r[1..] == rest;
        if |r| >= 4 { assert r[..4][0] != ESCAPED[0]; }
        if |r| < 4 { ShortReplaced(rest); }
      }
    }
  }

  /** Quoting leaves nothing shorter than the pattern unless it is the string itself. */
  lemma ShortReplaced(r: string)
    requires |r| < 4
    ensures ReplaceAll(r, ESCAPED, QUOTE) == r
  {}

  /** Reading a quoted value gives back exactly what was quoted, whatever it holds. */
  lemma UnquoteShellQuote(s: string)
    ensures Unquote(ShellQuote(s)) == s
  {
    var r := ReplaceAll(s, QUOTE, ESCAPED);
    var q := QUOTE + r + QUOTE;
    assert q[0] == '\'' && q[|q| - 1] == '\'' && q[1..|q| - 1] == r;
    ReplaceBack(s);
  }

  /** What a shell makes of a word of single-quoted parts and escaped characters. */
  function Shell(s: string, quoted: bool): Option<string>
    decreases |s|
  {
    if s == "" then if quoted then None else Some("")
    else if s[0] == '\'' then Shell(s[1..], !quoted)
    else if quoted then Then(s[0], Shell(s[1..], true))
    else if s[0] == '\\' && |s| >= 2 then Then(s[1], Shell(s[2..], false))
    else None
  }

  function Then(c: char, rest: Option<string>): Option<string> { if rest.Some? then Some([c] + rest.value) else None }

  lemma {:induction false} ShellInside(s: string)
    ensures Shell(ReplaceAll(s, QUOTE, ESCAPED) + QUOTE, true) == Some(s)
  {
    if s == "" {
      assert (QUOTE)[1..] == "" && ReplaceAll(s, QUOTE, ESCAPED) + QUOTE == QUOTE;
    } else {
      ShellInside(s[1..]);
      var rest := ReplaceAll(s[1..], QUOTE, ESCAPED) + QUOTE;
      assert s == [s[0]] + s[1..];
      if s[0] == '\'' {
        assert s[..1] == QUOTE;
        ShellEscaped(rest);
        assert ReplaceAll(s, QUOTE, ESCAPED) + QUOTE == ESCAPED + rest;
      } else {
        assert s[..1] != QUOTE by { assert s[..1][0] == s[0]; }
        var r := [s[0]] + rest;
        assert ReplaceAll(s, QUOTE, ESCAPED) + QUOTE == r && r[1..] == rest;
      }
    }
  }

  lemma ShellEscaped(rest: string)
    ensures Shell(ESCAPED + rest, true) == Then('\'', Shell(rest, true))
  {
    var s := ESCAPED + rest;
    var t := s[1..];
    assert s[0] == '\'' && t[0] == '\\' && t[1] == '\'' && t[2..][0] == '\'' && t[2..][1..] == rest;
    assert Shell(s, true) == Shell(t, false);
    assert Shell(t, false) == Then('\'', Shell(t[2..], false));
    assert Shell(t[2..], false) == Shell(rest, true);
  }

  /** A shell takes a quoted value for exactly that value. */
  lemma ShellReads(value: string)
    ensures Shell(ShellQuote(value), false) == Some(value)
  {
    ShellInside(value);
    var q := ShellQuote(value);
    assert q[1..] == ReplaceAll(value, QUOTE, ESCAPED) + QUOTE;
  }

  /** A value as it is written in double quotes. */
  function Escaped(s: string): string {
    if s == "" then ""
    else (if s[0] == '"' || s[0] == '\\' || s[0] == '$' then ['\\', s[0]] else [s[0]]) + Escaped(s[1..])
  }

  lemma {:induction false} UnescapeEscaped(s: string)
    ensures Unescape(Escaped(s)) == s
  {
    if s != "" {
      UnescapeEscaped(s[1..]);
      var rest := Escaped(s[1..]);
      assert s == [s[0]] + s[1..];
      if s[0] == '"' || s[0] == '\\' || s[0] == '$' {
        var e := ['\\', s[0]] + rest;
        assert e[2..] == rest;
      } else {
        var e := [s[0]] + rest;
        assert e[1..] == rest;
        if rest == "" { assert s[1..] == ""; }
      }
    }
  }

  /** A value in double quotes reads as itself, and so does one without quotes around it. */
  lemma UnquoteDoubleQuoted(s: string)
    ensures Unquote("\"" + Escaped(s) + "\"") == s
    ensures s == "" || (s[0] != '"' && s[0] != '\'') ==> Unquote(s) == s
  {
    var q := "\"" + Escaped(s) + "\"";
    assert q[0] == '"' && q[|q| - 1] == '"' && q[1..|q| - 1] == Escaped(s);
    UnescapeEscaped(s);
  }

  // ---- lines ----

  /** One more character at the end of some pieces. */
  function AddChar(r: seq<string>, c: char): (t: seq<string>)
    requires |r| >= 1
    ensures |t| >= 1
  {
    if c == '\n' then r + [""] else r[..|r| - 1] + [r[|r| - 1] + [c]]
  }

  /** The pieces between newlines. */
  function Split(s: string): (r: seq<string>)
    ensures |r| >= 1
  {
    if s == "" then [""] else AddChar(Split(s[..|s| - 1]), s[|s| - 1])
  }

  lemma AddCharConcat(p: seq<string>, q: seq<string>, c: char)
    requires |q| >= 1
    ensures AddChar(p + q, c) == p + AddChar(q, c)
  {
    assert (p + q)[..|p| + |q| - 1] == p + q[..|q| - 1];
  }

  function Join(lines: seq<string>): string {
    if lines == [] then ""
    else if |lines| == 1 then lines[0]
    else Join(lines[..|lines| - 1]) + "\n" + lines[|lines| - 1]
  }

  predicate OneLine(s: string) { '\n' !in s }

  ghost predicate AllOneLine(lines: seq<string>) { forall i :: 0 <= i < |lines| ==> OneLine(lines[i]) }

  lemma {:induction false} SplitAtNewline(a: string, b: string)
    ensures Split(a + "\n" + b) == Split(a) + Split(b)
  {
    hide AddChar;
    var s := a + "\n" + b;
    var n := |s| - 1;
    if b == "" {
      assert s[..n] == a && s[n] == '\n';
      AddNewline(Split(a));
    } else {
      var m := |b| - 1;
      assert s[..n] == a + "\n" + b[..m] && s[n] == b[m];
      SplitAtNewline(a, b[..m]);
      AddCharConcat(Split(a), Split(b[..m]), b[m]);
    }
  }

  lemma AddNewline(r: seq<string>)
    requires |r| >= 1
    ensures AddChar(r, '\n') == r + [""]
  {}

  lemma {:induction false} SplitOneLine(s: string)
    requires OneLine(s)
    ensures Split(s) == [s]
  {
    if s != "" {
      SplitOneLine(s[..|s| - 1]);
      assert s == s[..|s| - 1] + [s[|s| - 1]];
    }
  }

  lemma {:induction false} SplitsAreLines(s: string)
    ensures AllOneLine(Split(s))
  {
    if s != "" { SplitsAreLines(s[..|s| - 1]); }
  }

  lemma {:induction false} SplitJoin(lines: seq<string>)
    requires AllOneLine(lines) && lines != []
    ensures Split(Join(lines)) == lines
  {
    var n := |lines| - 1;
    SplitOneLine(lines[n]);
    if n > 0 {
      SplitJoin(lines[..n]);
      SplitAtNewline(Join(lines[..n]), lines[n]);
    }
  }

  lemma SplitJoinNewline(lines: seq<string>)
    requires AllOneLine(lines) && lines != []
    ensures Split(Join(lines) + "\n") == lines + [""]
  {
    SplitJoin(lines);
    assert Join(lines) + "\n" == Join(lines) + "\n" + "";
    SplitAtNewline(Join(lines), "");
  }

  // ---- one line ----

  predicate IsSpace(c: char) {
    c == ' ' || '\t' <= c <= '\r' || c == '\U{0085}' || c == '\U{00A0}' || c == '\U{1680}' || '\U{2000}' <= c <= '\U{200A}'
    || c == '\U{2028}' || c == '\U{2029}' || c == '\U{202F}' || c == '\U{205F}' || c == '\U{3000}'
  }

  /** The characters that Unicode calls white space, one by one. */
  const SPACES: string :=
    "\t\n\U{000B}\U{000C}\r \U{0085}\U{00A0}\U{1680}\U{2000}\U{2001}\U{2002}\U{2003}\U{2004}\U{2005}\U{2006}\U{2007}"
    + "\U{2008}\U{2009}\U{200A}\U{2028}\U{2029}\U{202F}\U{205F}\U{3000}"

  lemma SpacesAre(c: char)
    ensures IsSpace(c) <==> c in SPACES
  {
    if IsSpace(c) {
      var k := c as int;
      if k <= 13 { assert SPACES[k - 9] == c; }
      else if 0x2000 <= k <= 0x200A { assert SPACES[k - 0x2000 + 9] == c; }
    }
  }

  function TrimLeft(s: string): string { if s != "" && IsSpace(s[0]) then TrimLeft(s[1..]) else s }

  function TrimRight(s: string): string { if s != "" && IsSpace(s[|s| - 1]) then TrimRight(s[..|s| - 1]) else s }

  function Trim(s: string): string { TrimRight(TrimLeft(s)) }

  const EXPORT: string := "export "

  function TrimPrefix(s: string, p: string): string { if p <= s then s[|p|..] else s }

  /** The parts of a string before and after its first equals sign. */
  function Cut(s: string): Option<(string, string)> {
    if s == "" then None
    else if s[0] == '=' then Some(("", s[1..]))
    else match Cut(s[1..]) case None => None case Some((a, b)) => Some(([s[0]] + a, b))
  }

  /** The key and the raw value of an assignment, with or without export; comments assign nothing. */
  function Assignment(line: string): Option<(string, string)> {
    var t := Trim(line);
    if t == "" || t[0] == '#' then None
    else match Cut(TrimPrefix(t, EXPORT)) case None => None case Some((k, v)) => Some((Trim(k), Trim(v)))
  }

  predicate AssignsKey(line: string, key: string) {
    var t := Trim(line);
    if t == "" || t[0] == '#' then false
    else match Cut(TrimPrefix(t, EXPORT)) case None => false case Some((name, _)) => Trim(name) == key
  }

  /** The editor and the reader agree on what a line assigns. */
  lemma AssignsIs(line: string, key: string)
    ensures AssignsKey(line, key) <==> Assignment(line).Some? && Assignment(line).value.0 == key
  {}

  function Assigned(key: string, value: string): string { EXPORT + key + "=" + ShellQuote(value) }

  /** What is written is an export, of what a shell takes for exactly the value. */
  lemma AssignedRuns(key: string, value: string) returns (word: string)
    ensures Assigned(key, value) == "export " + key + "=" + word && Shell(word, false) == Some(value)
  {
    word := ShellQuote(value);
    ShellReads(value);
  }

  /** A key that can be written: on one line, without an equals sign or space around it. */
  predicate WellFormed(key: string) { OneLine(key) && '=' !in key && Trim(key) == key }

  lemma {:induction false} CutAt(a: string, b: string)
    requires '=' !in a
    ensures Cut(a + "=" + b) == Some((a, b))
  {
    var s := a + "=" + b;
    if a == "" {
      assert s[1..] == b;
    } else {
      assert s[1..] == a[1..] + "=" + b;
      CutAt(a[1..], b);
      assert a == [a[0]] + a[1..];
    }
  }

  lemma TrimNothing(s: string)
    requires s != "" && !IsSpace(s[0]) && !IsSpace(s[|s| - 1])
    ensures Trim(s) == s
  {}

  lemma ShellQuoteTrimmed(value: string)
    ensures Trim(ShellQuote(value)) == ShellQuote(value)
  {
    var q := ShellQuote(value);
    assert q[0] == '\'' && q[|q| - 1] == '\'';
    TrimNothing(q);
  }

  /** A written assignment reads as the key and the value. */
  lemma ReadsBack(key: string, value: string)
    requires WellFormed(key)
    ensures var a := Assignment(Assigned(key, value));
      a == Some((key, ShellQuote(value))) && Unquote(ShellQuote(value)) == value
  {
    var line, q := Assigned(key, value), ShellQuote(value);
    assert line[0] == 'e' && line[|line| - 1] == q[|q| - 1] == '\'';
    hide Trim; hide ShellQuote;
    TrimNothing(line);
    assert EXPORT <= line && line[|EXPORT|..] == key + "=" + q;
    CutAt(key, q);
    ShellQuoteTrimmed(value);
    UnquoteShellQuote(value);
  }

  lemma {:induction false} QuoteOneLine(s: string)
    requires OneLine(s)
    ensures OneLine(ReplaceAll(s, QUOTE, ESCAPED))
  {
    if s != "" {
      QuoteOneLine(s[1..]);
      if s[..1] == QUOTE { assert s[|QUOTE|..] == s[1..]; }
    }
  }

  lemma AssignedOneLine(key: string, value: string)
    requires OneLine(key) && OneLine(value)
    ensures OneLine(Assigned(key, value))
  {
    QuoteOneLine(value);
  }

  // ---- the file as a map ----

  type Env = map<string, string>

  /** The longest line a scanner takes; it stops for good at a longer one. */
  const MAX_LINE := 65535

  predicate Short(line: string) { |line| <= MAX_LINE }

  function WithLine(env: Env, line: string): Env {
    match Assignment(line) case None => env case Some((k, v)) => env[k := Unquote(v)]
  }

  /** What some lines assign, the last one winning. */
  function MapOf(lines: seq<string>): Env { if lines == [] then map[] else WithLine(MapOf(lines[..|lines| - 1]), lines[|lines| - 1]) }

  /** The lines before the first that is too long. */
  function Scanned(lines: seq<string>): seq<string> {
    if lines == [] || !Short(lines[0]) then [] else [lines[0]] + Scanned(lines[1..])
  }

  function EnvOf(body: string): Env { MapOf(Scanned(Split(body))) }

  ghost predicate AllShort(lines: seq<string>) { forall i :: 0 <= i < |lines| ==> Short(lines[i]) }

  lemma {:induction false} ScannedAll(lines: seq<string>)
    requires AllShort(lines)
    ensures Scanned(lines) == lines
  {
    if lines != [] {
      ScannedAll(lines[1..]);
      assert lines == [lines[0]] + lines[1..];
    }
  }

  lemma MapAdd(lines: seq<string>, line: string)
    ensures MapOf(lines + [line]) == WithLine(MapOf(lines), line)
  {
    assert (lines + [line])[..|lines|] == lines;
  }

  /** What some more lines make of a map. */
  function MapOn(env: Env, lines: seq<string>): Env
    decreases |lines|
  {
    if lines == [] then env else MapOn(WithLine(env, lines[0]), lines[1..])
  }

  lemma {:induction false} MapOnIs(a: seq<string>, b: seq<string>)
    ensures MapOn(MapOf(a), b) == MapOf(a + b)
    decreases |b|
  {
    hide WithLine;
    if b == [] {
      assert a + b == a;
    } else {
      MapAdd(a, b[0]);
      MapOnIs(a + [b[0]], b[1..]);
      assert a + [b[0]] + b[1..] == a + b;
    }
  }

  lemma EnvIs(body: string)
    ensures EnvOf(body) == MapOn(map[], Scanned(Split(body)))
  {
    hide Scanned; hide Split;
    MapOnIs([], Scanned(Split(body)));
    assert [] + Scanned(Split(body)) == Scanned(Split(body));
  }

  lemma MapOnAt(env: Env, lines: seq<string>, i: nat)
    requires i < |lines|
    ensures MapOn(env, Scanned(lines[i..])) ==
      if Short(lines[i]) then MapOn(WithLine(env, lines[i]), Scanned(lines[i + 1..])) else env
  {
    hide WithLine;
    assert lines[i..][1..] == lines[i + 1..];
    var rest := Scanned(lines[i + 1..]);
    assert Scanned(lines[i..]) == if Short(lines[i]) then [lines[i]] + rest else [];
    assert ([lines[i]] + rest)[1..] == rest;
  }

  lemma WithLineIs(env: Env, raw: string)
    ensures WithLine(env, raw) == var t := Trim(raw);
      if t == "" || t[0] == '#' then env
      else match Cut(TrimPrefix(t, EXPORT)) case None => env case Some((k, v)) => env[Trim(k) := Unquote(Trim(v))]
  {
    hide Trim; hide Cut; hide Unquote; hide TrimPrefix;
  }

  /** envFileMap. */
  method EnvFileMap(body: string) returns (env: Env)
    ensures env == EnvOf(body)
  {
    env := map[];
    var lines := Split(body);
    var i := 0;
    EnvIs(body);
    assert lines[0..] == lines;
    hide Trim; hide Cut; hide Unquote; hide MapOn; hide Scanned; hide Split; hide TrimPrefix; hide WithLine; hide EnvOf;
    while i < |lines|
      invariant 0 <= i <= |lines| && MapOn(env, Scanned(lines[i..])) == EnvOf(body)
    {
      MapOnAt(env, lines, i);
      if |lines[i]| > MAX_LINE {
        return;
      }
      WithLineIs(env, lines[i]);
      var line := Trim(lines[i]);
      i := i + 1;
      if line == "" || line[0] == '#' {
        continue;
      }
      line := TrimPrefix(line, EXPORT);
      var cut := Cut(line);
      if cut.None? {
        continue;
      }
      env := env[Trim(cut.value.0) := Unquote(Trim(cut.value.1))];
    }
    MapOnNothing(env);
    assert lines[|lines|..] == [];
  }

  lemma MapOnNothing(env: Env)
    ensures MapOn(env, Scanned([])) == env
  {}

  // ---- editing ----

  function Others(lines: seq<string>, key: string): seq<string> {
    if lines == [] then []
    else Others(lines[..|lines| - 1], key) + if AssignsKey(lines[|lines| - 1], key) then [] else [lines[|lines| - 1]]
  }

  /** The first assignment of a key is replaced, and later ones are dropped. */
  function Replaced(lines: seq<string>, key: string, line: string): seq<string> {
    if lines == [] then []
    else
      var n := |lines| - 1;
      var rest := Replaced(lines[..n], key, line);
      if !AssignsKey(lines[n], key) then rest + [lines[n]] else if Assigns(lines[..n], key) then rest else rest + [line]
  }

  /** Whether some line assigns a key. */
  predicate Assigns(lines: seq<string>, key: string) {
    lines != [] && (Assigns(lines[..|lines| - 1], key) || AssignsKey(lines[|lines| - 1], key))
  }

  function DropBlank(lines: seq<string>): (r: seq<string>)
    ensures r <= lines
  {
    if lines != [] && Trim(lines[|lines| - 1]) == "" then DropBlank(lines[..|lines| - 1]) else lines
  }

  function Concat(words: seq<string>): string { if words == [] then "" else Concat(words[..|words| - 1]) + words[|words| - 1] }

  const NOTE: seq<string> := ["# Per-host ", "launcher settings, ", "read by shabadoo ", "attach / win / boot."]
  const WINS: seq<string> := ["# Anything set ", "here wins over ", "the process ", "environment."]

  function Header(): seq<string> { [Concat(NOTE), Concat(WINS), ""] }

  lemma {:induction false} ConcatWords(words: seq<string>)
    requires words != [] && forall i :: 0 <= i < |words| ==> words[i] != "" && OneLine(words[i])
    ensures var c := Concat(words); var w := words[|words| - 1];
      c != "" && c[0] == words[0][0] && c[|c| - 1] == w[|w| - 1] && OneLine(c)
  {
    if |words| > 1 {
      ConcatWords(words[..|words| - 1]);
    } else {
      assert Concat(words[..0]) == "";
    }
  }

  lemma {:induction false} ConcatLength(words: seq<string>, each: nat)
    requires forall i :: 0 <= i < |words| ==> |words[i]| <= each
    ensures |Concat(words)| <= |words| * each
  {
    if words != [] { ConcatLength(words[..|words| - 1], each); }
  }

  /** The header is two comments and a blank line. */
  lemma HeaderLines()
    ensures |Header()| == 3 && Header()[2] == ""
    ensures var h := Header();
      && h[0] != "" && h[0][0] == '#' && h[0][|h[0]| - 1] == '.' && OneLine(h[0]) && |h[0]| <= 80
      && h[1] != "" && h[1][0] == '#' && h[1][|h[1]| - 1] == '.' && OneLine(h[1]) && |h[1]| <= 80
  {
    hide Concat;
    NoteWords();
    ConcatWords(NOTE);
    ConcatWords(WINS);
    ConcatLength(NOTE, 20);
    ConcatLength(WINS, 20);
  }

  lemma NoteWords()
    ensures forall i :: 0 <= i < |NOTE| ==> NOTE[i] != "" && OneLine(NOTE[i]) && |NOTE[i]| <= 20
    ensures forall i :: 0 <= i < |WINS| ==> WINS[i] != "" && OneLine(WINS[i]) && |WINS[i]| <= 20
  {}

  /** What a new assignment goes after: the file without the blank lines at its end, or a header for an empty one. */
  function Base(lines: seq<string>): seq<string> { if DropBlank(lines) == [] then Header() else DropBlank(lines) }

  /** The lines of the file once a key is set. */
  function SetLines(lines: seq<string>, key: string, line: string): seq<string> {
    if Assigns(lines, key) then Replaced(lines, key, line)
    else Base(lines) + [line]
  }

  function SetBody(body: string, key: string, value: string): string {
    Join(SetLines(Split(body), key, Assigned(key, value))) + "\n"
  }

  /** setEnvFileValue, on the contents of the file; a missing file is an empty one. */
  method SetEnvFileValue(body: string, key: string, value: string) returns (after: string)
    ensures after == SetBody(body, key, value)
  {
    hide AssignsKey; hide Assigned; hide Trim; hide Header;
    var line := Assigned(key, value);
    var lines := Split(body);
    var out: seq<string> := [];
    var replaced := false;
    assert lines[..0] == [];
    NothingAssigned(key);
    for i := 0 to |lines|
      invariant replaced == Assigns(lines[..i], key) && out == Replaced(lines[..i], key, line)
    {
      var raw := lines[i];
      assert lines[..i + 1][..i] == lines[..i];
      if AssignsKey(raw, key) && !replaced {
        out := out + [line];
        replaced := true;
        continue;
      }
      if AssignsKey(raw, key) {
        continue;
      }
      out := out + [raw];
    }
    assert lines[..|lines|] == lines;
    if !replaced {
      ReplacedNothing(lines, key, line);
      while |out| > 0 && Trim(out[|out| - 1]) == ""
        invariant DropBlank(out) == DropBlank(lines)
        decreases |out|
      {
        out := out[..|out| - 1];
      }
      if |out| == 0 {
        out := Header();
      }
      out := out + [line];
    }
    after := Join(out) + "\n";
  }

  lemma NothingAssigned(key: string)
    ensures !Assigns([], key)
  {}

  lemma {:induction false} ReplacedNothing(lines: seq<string>, key: string, line: string)
    requires !Assigns(lines, key)
    ensures Replaced(lines, key, line) == lines && Others(lines, key) == lines
  {
    if lines != [] {
      var n := |lines| - 1;
      ReplacedNothing(lines[..n], key, line);
      assert lines == lines[..n] + [lines[n]];
    }
  }

  /** removeEnvFileKey: the new contents, if the key was there. */
  method RemoveEnvFileKey(body: string, key: string) returns (after: Option<string>)
    ensures after == if Assigns(Split(body), key) then Some(Join(Others(Split(body), key))) else None
  {
    hide AssignsKey;
    var lines := Split(body);
    var out: seq<string> := [];
    var removed := false;
    assert lines[..0] == [];
    NothingAssigned(key);
    for i := 0 to |lines|
      invariant removed == Assigns(lines[..i], key) && out == Others(lines[..i], key)
    {
      assert lines[..i + 1][..i] == lines[..i];
      if AssignsKey(lines[i], key) {
        removed := true;
        continue;
      }
      out := out + [lines[i]];
    }
    assert lines[..|lines|] == lines;
    if !removed {
      return None;
    }
    return Some(Join(out));
  }

  // ---- what an edit does to the map ----

  lemma WithOther(env: Env, line: string, key: string, value: string)
    requires !AssignsKey(line, key)
    ensures WithLine(env[key := value], line) == WithLine(env, line)[key := value]
    ensures WithLine(env - {key}, line) == WithLine(env, line) - {key}
  {
    hide Trim; hide Cut; hide Unquote; hide TrimPrefix;
  }

  lemma WithOwn(env: Env, line: string, key: string, value: string)
    requires AssignsKey(line, key)
    ensures WithLine(env, line)[key := value] == env[key := value]
    ensures WithLine(env, line) - {key} == env - {key}
  {
    hide Trim; hide Cut; hide TrimPrefix;
    AssignsIs(line, key);
    assert WithLine(env, line) == env[key := Unquote(Assignment(line).value.1)];
  }

  lemma AssignedReads(env: Env, key: string, value: string)
    requires WellFormed(key)
    ensures AssignsKey(Assigned(key, value), key) && WithLine(env, Assigned(key, value)) == env[key := value]
  {
    hide Assigned; hide ShellQuote; hide Unquote; hide Trim; hide Cut; hide TrimPrefix;
    ReadsBack(key, value);
    AssignsIs(Assigned(key, value), key);
  }

  lemma BlankAssignsNothing(line: string, env: Env)
    requires Trim(line) == ""
    ensures WithLine(env, line) == env && Assignment(line).None?
  {}

  lemma {:induction false} DropBlankMap(lines: seq<string>)
    ensures MapOf(DropBlank(lines)) == MapOf(lines)
  {
    if lines != [] && Trim(lines[|lines| - 1]) == "" {
      DropBlankMap(lines[..|lines| - 1]);
      BlankAssignsNothing(lines[|lines| - 1], MapOf(lines[..|lines| - 1]));
    }
  }

  lemma CommentAssignsNothing(line: string, env: Env)
    requires line != "" && line[0] == '#' && !IsSpace(line[|line| - 1])
    ensures WithLine(env, line) == env && Assignment(line).None?
  {
    TrimNothing(line);
  }

  lemma HeaderMap()
    ensures MapOf(Header()) == map[]
  {
    HeaderLines();
    hide Header;
    var h := Header();
    CommentAssignsNothing(h[0], map[]);
    CommentAssignsNothing(h[1], map[]);
    BlankAssignsNothing("", map[]);
    assert h == [h[0]] + [h[1]] + [""] && [] + [h[0]] == [h[0]];
    hide WithLine;
    MapAdd([h[0]] + [h[1]], "");
    MapAdd([h[0]], h[1]);
    MapAdd([], h[0]);
  }

  /** What a new assignment goes after assigns what the file did, and nothing to the key. */
  lemma BaseMap(lines: seq<string>)
    ensures MapOf(Base(lines)) == MapOf(lines)
  {
    hide Header;
    DropBlankMap(lines);
    HeaderMap();
    MapOfNothing();
    hide MapOf; hide DropBlank;
  }

  lemma BaseAssigns(lines: seq<string>, key: string)
    ensures Assigns(Base(lines), key) <==> Assigns(lines, key)
  {
    hide Base; hide MapOf; hide Assigns;
    BaseMap(lines);
    MapKeys(Base(lines), key);
    MapKeys(lines, key);
  }

  lemma BaseFrom(lines: seq<string>)
    ensures forall l :: l in Base(lines) ==> l in lines || (OneLine(l) && |l| <= 80)
    ensures Base(lines) != []
  {
    HeaderLines();
    hide Header; hide OneLine;
    forall l | l in Base(lines) ensures l in lines || (OneLine(l) && |l| <= 80) {
      var i :| 0 <= i < |Base(lines)| && Base(lines)[i] == l;
      assert DropBlank(lines) != [] ==> lines[i] == l;
      BlankIsShort();
    }
  }

  lemma BlankIsShort()
    ensures OneLine("") && |""| <= 80
  {}

  lemma MapOfNothing()
    ensures MapOf([]) == map[]
  {}

  /** The lines of a file once a key is set, as they are read back. */
  lemma SetLinesBack(body: string, key: string, value: string)
    requires OneLine(key) && OneLine(value)
    ensures Split(SetBody(body, key, value)) == SetLines(Split(body), key, Assigned(key, value)) + [""]
  {
    SplitsAreLines(body);
    AssignedOneLine(key, value);
    hide Assigned; hide Split; hide OneLine;
    SetOneLine(Split(body), key, Assigned(key, value));
    SplitJoinNewline(SetLines(Split(body), key, Assigned(key, value)));
  }

  lemma {:induction false} ReplacedFrom(lines: seq<string>, key: string, line: string)
    ensures forall l :: l in Replaced(lines, key, line) ==> l == line || l in lines
    ensures Assigns(lines, key) ==> Replaced(lines, key, line) != []
  {
    if lines != [] {
      var n := |lines| - 1;
      ReplacedFrom(lines[..n], key, line);
      assert forall l :: l in lines[..n] ==> l in lines;
    }
  }

  lemma SetFrom(lines: seq<string>, key: string, line: string)
    ensures forall l :: l in SetLines(lines, key, line) ==> l == line || l in lines || (OneLine(l) && |l| <= 80)
    ensures SetLines(lines, key, line) != []
  {
    hide AssignsKey; hide Base; hide OneLine;
    ReplacedFrom(lines, key, line);
    BaseFrom(lines);
    hide Replaced;
  }

  lemma SetOneLine(lines: seq<string>, key: string, line: string)
    requires AllOneLine(lines) && OneLine(line)
    ensures AllOneLine(SetLines(lines, key, line)) && SetLines(lines, key, line) != []
  {
    SetFrom(lines, key, line);
    hide SetLines; hide OneLine;
    forall i | 0 <= i < |SetLines(lines, key, line)| ensures OneLine(SetLines(lines, key, line)[i]) {
      assert SetLines(lines, key, line)[i] in SetLines(lines, key, line);
    }
  }

  // ---- what an edit leaves alone ----

  lemma {:induction false} ReplacedOthers(lines: seq<string>, key: string, line: string)
    requires AssignsKey(line, key)
    ensures Others(Replaced(lines, key, line), key) == Others(lines, key)
  {
    hide AssignsKey;
    if lines != [] {
      var n := |lines| - 1;
      var rest := Replaced(lines[..n], key, line);
      ReplacedOthers(lines[..n], key, line);
      OthersAdd(rest, lines[n], key);
      OthersAdd(rest, line, key);
    }
  }

  /** Every line that assigns something else, and every comment, stays, in order; only blank lines at the end of a
      file that did not have the key may go. */
  lemma SetKeepsOthers(lines: seq<string>, key: string, value: string)
    requires WellFormed(key)
    ensures var after := Others(SetLines(lines, key, Assigned(key, value)), key);
      after == if Assigns(lines, key) then Others(lines, key) else Base(lines)
  {
    var line := Assigned(key, value);
    AssignedReads(map[], key, value);
    hide AssignsKey; hide Assigned; hide WellFormed; hide Base;
    if Assigns(lines, key) {
      ReplacedOthers(lines, key, line);
    } else {
      BaseAssigns(lines, key);
      ReplacedNothing(Base(lines), key, line);
      OthersAdd(Base(lines), line, key);
    }
  }

  // ---- setting twice ----

  lemma ReplacedAdd(lines: seq<string>, last: string, key: string, line: string)
    ensures Replaced(lines + [last], key, line) == var rest := Replaced(lines, key, line);
      if !AssignsKey(last, key) then rest + [last] else if Assigns(lines, key) then rest else rest + [line]
    ensures Assigns(lines + [last], key) <==> Assigns(lines, key) || AssignsKey(last, key)
  {
    assert (lines + [last])[..|lines|] == lines;
  }

  lemma {:induction false} ReplacedTwice(lines: seq<string>, key: string, line: string)
    requires AssignsKey(line, key)
    ensures Replaced(Replaced(lines, key, line), key, line) == Replaced(lines, key, line)
    ensures Assigns(Replaced(lines, key, line), key) <==> Assigns(lines, key)
  {
    hide AssignsKey;
    if lines != [] {
      var n := |lines| - 1;
      var rest := Replaced(lines[..n], key, line);
      ReplacedTwice(lines[..n], key, line);
      ReplacedAdd(rest, lines[n], key, line);
      ReplacedAdd(rest, line, key, line);
    }
  }

  lemma SetLinesTwice(lines: seq<string>, key: string, line: string)
    requires AssignsKey(line, key)
    ensures SetLines(SetLines(lines, key, line) + [""], key, line) == SetLines(lines, key, line) + [""]
  {
    var once := SetLines(lines, key, line);
    assert !AssignsKey("", key) by { BlankAssignsNothing("", map[]); AssignsIs("", key); }
    hide AssignsKey;
    ReplacedAdd(once, "", key, line);
    if Assigns(lines, key) {
      ReplacedTwice(lines, key, line);
    } else {
      BaseAssigns(lines, key);
      hide Base;
      ReplacedNothing(Base(lines), key, line);
      ReplacedAdd(Base(lines), line, key, line);
    }
  }

  /** Setting the same value again changes nothing but to add a newline at the end. */
  lemma SetTwice(body: string, key: string, value: string)
    requires WellFormed(key) && OneLine(value)
    ensures SetBody(SetBody(body, key, value), key, value) == SetBody(body, key, value) + "\n"
  {
    hide Split; hide SetLines; hide Assigned; hide AssignsKey; hide Join; hide OneLine; hide Trim;
    var line := Assigned(key, value);
    var once := SetLines(Split(body), key, line);
    AssignedReads(map[], key, value);
    SetFrom(Split(body), key, line);
    SetLinesBack(body, key, value);
    SetLinesTwice(Split(body), key, line);
    JoinBlank(once);
  }

  lemma JoinBlank(lines: seq<string>)
    requires lines != []
    ensures Join(lines + [""]) == Join(lines) + "\n"
  {
    assert (lines + [""])[..|lines|] == lines;
    assert Join(lines) + "\n" + "" == Join(lines) + "\n";
  }

  // ---- lines and spaces ----

  /** Trimming takes off spaces at both ends, and nothing else. */
  lemma TrimIs(s: string) returns (a: string, b: string)
    ensures s == a + Trim(s) + b && (forall c :: c in a + b ==> IsSpace(c))
    ensures Trim(s) != "" ==> !IsSpace(Trim(s)[0]) && !IsSpace(Trim(s)[|Trim(s)| - 1])
  {
    a := TrimLeftIs(s);
    b := TrimRightIs(TrimLeft(s));
  }

  lemma {:induction false} TrimLeftIs(s: string) returns (a: string)
    ensures s == a + TrimLeft(s) && (forall c :: c in a ==> IsSpace(c)) && (TrimLeft(s) != "" ==> !IsSpace(TrimLeft(s)[0]))
  {
    if s != "" && IsSpace(s[0]) {
      a := TrimLeftIs(s[1..]);
      a := [s[0]] + a;
      assert s == [s[0]] + s[1..];
    } else {
      a := "";
    }
  }

  lemma {:induction false} TrimRightIs(s: string) returns (b: string)
    ensures s == TrimRight(s) + b && (forall c :: c in b ==> IsSpace(c))
    ensures TrimRight(s) != "" ==> TrimRight(s)[0] == s[0] && !IsSpace(TrimRight(s)[|TrimRight(s)| - 1])
  {
    if s != "" && IsSpace(s[|s| - 1]) {
      b := TrimRightIs(s[..|s| - 1]);
      b := b + [s[|s| - 1]];
      assert s == s[..|s| - 1] + [s[|s| - 1]];
    } else {
      b := "";
    }
  }

  /** An assignment without export reads too; a comment assigns nothing. */
  lemma PlainReads(key: string, value: string, other: string)
    requires WellFormed(key) && key != "" && key[0] != '#' && !(EXPORT <= key + "=" + value)
    requires value != "" && Trim(value) == value && value[0] != '"' && value[0] != '\''
    ensures Assignment(key + "=" + value) == Some((key, value)) && Unquote(value) == value
    ensures !AssignsKey("#" + value, other) && Assignment("#" + value).None?
  {
    var line := key + "=" + value;
    TrimmedEnds(key);
    TrimmedEnds(value);
    TrimNothing(line);
    TrimNothing("#" + value);
    CutAt(key, value);
    UnquoteDoubleQuoted(value);
    hide Trim; hide Cut; hide Unquote;
  }

  lemma TrimmedEnds(s: string)
    requires Trim(s) == s && s != ""
    ensures !IsSpace(s[0]) && !IsSpace(s[|s| - 1])
  {
    var a, b := TrimIs(s);
  }

  // ---- the lines an edit keeps ----

  predicate Blank(line: string) { Trim(line) == "" }

  /** The lines that say something, and do not assign the key. */
  function Solid(lines: seq<string>, key: string): seq<string> {
    if lines == [] then []
    else (if Blank(lines[0]) || AssignsKey(lines[0], key) then [] else [lines[0]]) + Solid(lines[1..], key)
  }

  lemma {:induction false} SolidConcat(a: seq<string>, b: seq<string>, key: string)
    ensures Solid(a + b, key) == Solid(a, key) + Solid(b, key)
  {
    hide Blank; hide AssignsKey;
    if a == [] {
      assert a + b == b;
    } else {
      assert (a + b)[0] == a[0] && (a + b)[1..] == a[1..] + b;
      SolidConcat(a[1..], b, key);
    }
  }

  lemma SolidOne(line: string, key: string)
    ensures Solid([line], key) == if Blank(line) || AssignsKey(line, key) then [] else [line]
  {
    assert [line][1..] == [];
  }

  lemma {:induction false} SolidOthers(lines: seq<string>, key: string)
    ensures Solid(Others(lines, key), key) == Solid(lines, key)
  {
    hide Blank; hide AssignsKey; hide Solid;
    if lines != [] {
      var n := |lines| - 1;
      SolidOthers(lines[..n], key);
      assert lines == lines[..n] + [lines[n]];
      SolidConcat(lines[..n], [lines[n]], key);
      SolidConcat(Others(lines[..n], key), [lines[n]], key);
      SolidOne(lines[n], key);
      assert Others(lines[..n], key) + [] == Others(lines[..n], key);
    }
  }

  lemma {:induction false} SolidDropBlank(lines: seq<string>, key: string)
    ensures Solid(DropBlank(lines), key) == Solid(lines, key)
    ensures DropBlank(lines) == [] <==> forall i :: 0 <= i < |lines| ==> Blank(lines[i])
    ensures DropBlank(lines) != [] ==> !Blank(DropBlank(lines)[|DropBlank(lines)| - 1])
  {
    hide AssignsKey; hide Solid;
    if lines != [] && Blank(lines[|lines| - 1]) {
      var n := |lines| - 1;
      SolidDropBlank(lines[..n], key);
      assert lines == lines[..n] + [lines[n]];
      SolidConcat(lines[..n], [lines[n]], key);
      SolidOne(lines[n], key);
    }
  }

  /** Every line that says something and does not assign the key is there after a set, as it was and in order; and
      nothing is added but the assignment, and the header of a file that said nothing. */
  lemma SetKeepsSolid(lines: seq<string>, key: string, value: string)
    requires WellFormed(key)
    ensures Solid(SetLines(lines, key, Assigned(key, value)), key) ==
      if forall i :: 0 <= i < |lines| ==> Blank(lines[i]) then Solid(Header(), key) else Solid(lines, key)
  {
    var line := Assigned(key, value);
    AssignedReads(map[], key, value);
    SetKeepsOthers(lines, key, value);
    SolidOthers(SetLines(lines, key, line), key);
    SolidOthers(lines, key);
    SolidDropBlank(lines, key);
    if forall i :: 0 <= i < |lines| ==> Blank(lines[i]) { AllBlankAssignNothing(lines, key); }
    hide Solid; hide SetLines; hide Others; hide Header; hide AssignsKey; hide Assigned; hide DropBlank; hide Blank;
    hide WellFormed;
  }

  lemma {:induction false} AllBlankAssignNothing(lines: seq<string>, key: string)
    requires forall i :: 0 <= i < |lines| ==> Blank(lines[i])
    ensures !Assigns(lines, key)
  {
    if lines != [] { AllBlankAssignNothing(lines[..|lines| - 1], key); }
  }

  // ---- what is read back after an edit ----

  lemma {:induction false} MapKeys(lines: seq<string>, key: string)
    ensures key in MapOf(lines) <==> Assigns(lines, key)
  {
    hide AssignsKey; hide Unquote; hide Assignment;
    if lines != [] {
      MapKeys(lines[..|lines| - 1], key);
      AssignsIs(lines[|lines| - 1], key);
    }
  }

  lemma {:induction false} OthersMap(lines: seq<string>, key: string)
    ensures MapOf(Others(lines, key)) == MapOf(lines) - {key}
    ensures forall l :: l in Others(lines, key) ==> l in lines
  {
    hide AssignsKey; hide WithLine;
    if lines != [] {
      var n := |lines| - 1;
      OthersMap(lines[..n], key);
      assert forall l :: l in lines[..n] ==> l in lines;
      if AssignsKey(lines[n], key) {
        WithOwn(MapOf(lines[..n]), lines[n], key, "");
        assert Others(lines[..n], key) + [] == Others(lines[..n], key);
      } else {
        WithOther(MapOf(lines[..n]), lines[n], key, "");
        MapAdd(Others(lines[..n], key), lines[n]);
      }
    }
  }

  lemma OthersAdd(lines: seq<string>, line: string, key: string)
    ensures Others(lines + [line], key) == Others(lines, key) + if AssignsKey(line, key) then [] else [line]
  {
    assert (lines + [line])[..|lines|] == lines;
  }

  lemma {:induction false} ScannedConcat(a: seq<string>, b: seq<string>)
    ensures Scanned(a + b) == if AllShort(a) then a + Scanned(b) else Scanned(a)
  {
    if a == [] {
      assert a + b == b && a + Scanned(b) == Scanned(b);
    } else {
      hide Scanned; hide Short;
      var x, t := a[0], a[1..];
      assert a == [x] + t && a + b == [x] + (t + b);
      ScannedConcat(t, b);
      ScannedOne(x, t + b);
      ScannedOne(x, t);
      AllShortCons(x, t);
      hide AllShort;
      assert [x] + (t + Scanned(b)) == [x] + t + Scanned(b);
    }
  }

  lemma AllShortCons(x: string, t: seq<string>)
    ensures AllShort([x] + t) <==> Short(x) && AllShort(t)
  {
    hide Short;
    assert forall i :: 0 <= i < |t| ==> ([x] + t)[i + 1] == t[i];
    if AllShort([x] + t) {
      assert ([x] + t)[0] == x;
      forall i | 0 <= i < |t| ensures Short(t[i]) { assert Short(([x] + t)[i + 1]); }
    }
  }

  lemma {:induction false} MapConcat(a: seq<string>, b: seq<string>)
    ensures MapOf(a + b) == MapOf(a) + MapOf(b)
  {
    hide Assignment; hide Unquote;
    var s := a + b;
    if b == [] {
      assert s == a;
    } else {
      assert s[..|s| - 1] == a + b[..|b| - 1];
      MapConcat(a, b[..|b| - 1]);
    }
  }

  lemma {:induction false} OthersConcat(a: seq<string>, b: seq<string>, key: string)
    ensures Others(a + b, key) == Others(a, key) + Others(b, key)
    ensures Assigns(a + b, key) <==> Assigns(a, key) || Assigns(b, key)
  {
    hide AssignsKey;
    var s := a + b;
    if b == [] {
      assert s == a;
    } else {
      assert s[..|s| - 1] == a + b[..|b| - 1];
      OthersConcat(a, b[..|b| - 1], key);
    }
  }

  lemma {:induction false} OthersAssignNothing(lines: seq<string>, key: string)
    ensures !Assigns(Others(lines, key), key)
  {
    hide AssignsKey;
    if lines != [] {
      OthersAssignNothing(lines[..|lines| - 1], key);
      OthersConcat(Others(lines[..|lines| - 1], key), [lines[|lines| - 1]], key);
      OneAssigns(lines[|lines| - 1], key);
      assert Others(lines[..|lines| - 1], key) + [] == Others(lines[..|lines| - 1], key);
    }
  }

  lemma OneAssigns(line: string, key: string)
    ensures Assigns([line], key) <==> AssignsKey(line, key)
    ensures Others([line], key) == if AssignsKey(line, key) then [] else [line]
  {
    hide AssignsKey;
    assert [line][..0] == [] && !Assigns([], key);
  }

  lemma {:induction false} ScannedAssigns(lines: seq<string>, key: string)
    ensures Assigns(Scanned(lines), key) ==> Assigns(lines, key)
  {
    hide AssignsKey;
    if lines != [] && Short(lines[0]) {
      ScannedAssigns(lines[1..], key);
      assert lines == [lines[0]] + lines[1..];
      OthersConcat([lines[0]], lines[1..], key);
      OthersConcat([lines[0]], Scanned(lines[1..]), key);
    }
  }

  /** The lines a scanner would come to, were it not stopped by an assignment of the key that is too long. */
  function Hidden(lines: seq<string>, key: string): seq<string> {
    if lines == [] then []
    else if Short(lines[0]) then Hidden(lines[1..], key)
    else if AssignsKey(lines[0], key) then Scanned(Others(lines[1..], key))
    else []
  }

  lemma HiddenCons(x: string, rest: seq<string>, key: string)
    ensures Hidden([x] + rest, key) ==
      if Short(x) then Hidden(rest, key) else if AssignsKey(x, key) then Scanned(Others(rest, key)) else []
  {
    assert ([x] + rest)[1..] == rest;
  }

  lemma OthersCons(x: string, rest: seq<string>, key: string)
    ensures Others([x] + rest, key) == if AssignsKey(x, key) then Others(rest, key) else [x] + Others(rest, key)
  {
    hide AssignsKey; hide Others;
    OthersConcat([x], rest, key);
    OneAssigns(x, key);
    assert [] + Others(rest, key) == Others(rest, key);
  }

  lemma {:induction false} HiddenLines(lines: seq<string>, key: string)
    ensures Scanned(Others(lines, key)) == Others(Scanned(lines), key) + Hidden(lines, key)
  {
    if lines != [] {
      hide AssignsKey; hide Short; hide Others; hide Scanned; hide Hidden;
      var x, rest := lines[0], lines[1..];
      assert lines == [x] + rest;
      OthersCons(x, rest, key);
      HiddenCons(x, rest, key);
      ScannedOne(x, rest);
      ScannedOne(x, Others(rest, key));
      NoOthers(key);
      if Short(x) {
        HiddenLines(rest, key);
        OthersCons(x, Scanned(rest), key);
        AfterOne(x, Others(Scanned(rest), key), Hidden(rest, key));
      } else {
        assert [] + Hidden(lines, key) == Hidden(lines, key);
      }
    }
  }

  lemma AfterOne(x: string, a: seq<string>, b: seq<string>)
    ensures [x] + (a + b) == [x] + a + b
  {}

  lemma NoOthers(key: string)
    ensures Others([], key) == []
  {}

  /** The other keys of a file, once nothing in it assigns this one: those read before, and what was hidden. */
  function OtherKeys(body: string, key: string): Env { (EnvOf(body) - {key}) + MapOf(Hidden(Split(body), key)) }

  lemma OtherKeysAre(body: string, key: string)
    ensures OtherKeys(body, key) == MapOf(Scanned(Others(Split(body), key)))
    ensures key !in OtherKeys(body, key)
  {
    hide MapOf; hide Scanned; hide Others; hide Split; hide Hidden; hide Assigns;
    var lines := Split(body);
    HiddenLines(lines, key);
    MapConcat(Others(Scanned(lines), key), Hidden(lines, key));
    OthersMap(Scanned(lines), key);
    MapKeys(Scanned(Others(lines, key)), key);
    ScannedAssigns(Others(lines, key), key);
    OthersAssignNothing(lines, key);
  }

  /** They are as before exactly when what was hidden assigns nothing new. */
  lemma OthersAsBefore(body: string, key: string)
    ensures var hidden, env := MapOf(Hidden(Split(body), key)), EnvOf(body);
      OtherKeys(body, key) == env - {key} <==> forall k :: k in hidden ==> k in env && env[k] == hidden[k]
  {
    OtherKeysAre(body, key);
    hide EnvOf; hide MapOf; hide Hidden; hide Split;
    var hidden, env := MapOf(Hidden(Split(body), key)), EnvOf(body);
    if OtherKeys(body, key) == env - {key} {
      forall k | k in hidden ensures k in env && env[k] == hidden[k] { assert k in OtherKeys(body, key); }
    }
  }

  /** When no assignment of the key is too long to scan, nothing was hidden. */
  lemma {:induction false} NothingHidden(lines: seq<string>, key: string)
    requires forall i :: 0 <= i < |lines| && AssignsKey(lines[i], key) ==> Short(lines[i])
    ensures Hidden(lines, key) == []
  {
    hide AssignsKey; hide Short;
    if lines != [] { NothingHidden(lines[1..], key); }
  }

  function Before(lines: seq<string>, key: string): seq<string> {
    if lines == [] || AssignsKey(lines[0], key) then [] else [lines[0]] + Before(lines[1..], key)
  }

  /** The lines that are in front of the assignment, once the key is set: those before the first assignment, or all
      but the blank ones at the end. */
  function Ahead(lines: seq<string>, key: string): seq<string> {
    if Assigns(lines, key) then Before(lines, key) else DropBlank(lines)
  }

  lemma {:induction false} FirstAssignment(lines: seq<string>, key: string) returns (old_: string, rest: seq<string>)
    requires Assigns(lines, key)
    ensures lines == Before(lines, key) + [old_] + rest && AssignsKey(old_, key) && !Assigns(Before(lines, key), key)
  {
    hide AssignsKey;
    var x, t := lines[0], lines[1..];
    assert lines == [x] + t;
    OthersConcat([x], t, key);
    OneAssigns(x, key);
    if AssignsKey(x, key) {
      old_, rest := x, t;
      assert !Assigns([], key);
    } else {
      old_, rest := FirstAssignment(t, key);
      OthersConcat([x], Before(t, key), key);
    }
  }

  lemma {:induction false} ReplacedAt(a: seq<string>, old_: string, rest: seq<string>, key: string, line: string)
    requires !Assigns(a, key) && AssignsKey(old_, key)
    ensures Replaced(a + [old_] + rest, key, line) == a + [line] + Others(rest, key)
  {
    hide AssignsKey; hide Replaced; hide Assigns;
    if rest == [] {
      ReplacedNothing(a, key, line);
      ReplacedAdd(a, old_, key, line);
      assert a + [old_] + rest == a + [old_];
    } else {
      var n := |rest| - 1;
      var p, x, seen := a + [old_] + rest[..n], rest[n], Others(rest[..n], key);
      ReplacedAt(a, old_, rest[..n], key, line);
      assert Assigns(p, key) by {
        OthersConcat(a, [old_], key);
        OneAssigns(old_, key);
        OthersConcat(a + [old_], rest[..n], key);
      }
      ReplacedAdd(p, x, key, line);
      assert Others(rest, key) == seen + if AssignsKey(x, key) then [] else [x];
      hide Others;
      assert a + [old_] + rest == p + [x];
      assert a + [line] + seen + [x] == a + [line] + (seen + [x]) && seen + [] == seen;
    }
  }

  lemma OthersAround(a: seq<string>, old_: string, rest: seq<string>, key: string)
    requires !Assigns(a, key) && AssignsKey(old_, key)
    ensures Others(a + [old_] + rest, key) == a + Others(rest, key)
  {
    hide AssignsKey; hide Others; hide Assigns; hide Replaced;
    OthersConcat(a, [old_], key);
    OneAssigns(old_, key);
    OthersConcat(a + [old_], rest, key);
    ReplacedNothing(a, key, "");
    assert a + [] == a;
  }

  lemma ScannedBlankEnd(a: seq<string>)
    ensures MapOf(Scanned(a + [""])) == MapOf(Scanned(a))
  {
    hide Short;
    BlankMap(a, "");
  }

  lemma BlankMap(a: seq<string>, blank: string)
    requires Trim(blank) == ""
    ensures MapOf(Scanned(a + [blank])) == MapOf(Scanned(a))
  {
    ScannedConcat(a, [blank]);
    ScannedConcat(a, []);
    assert a + [] == a && Scanned([]) == [] && [blank][1..] == [];
    BlankAssignsNothing(blank, MapOf(a));
    MapAdd(a, blank);
  }

  lemma {:induction false} DropBlankScanned(lines: seq<string>)
    ensures MapOf(Scanned(DropBlank(lines))) == MapOf(Scanned(lines))
  {
    hide MapOf; hide Scanned;
    if lines != [] && Trim(lines[|lines| - 1]) == "" {
      var n := |lines| - 1;
      DropBlankScanned(lines[..n]);
      BlankMap(lines[..n], lines[n]);
      assert lines == lines[..n] + [lines[n]];
    }
  }

  lemma BaseScanned(lines: seq<string>)
    ensures MapOf(Scanned(Base(lines))) == MapOf(Scanned(lines))
    ensures AllShort(Base(lines)) <==> AllShort(DropBlank(lines))
  {
    DropBlankScanned(lines);
    if DropBlank(lines) == [] {
      HeaderMap();
      HeaderLines();
      hide Header;
      ScannedAll(Header());
      MapOfNothing();
    }
  }

  /** What some lines assign with one more assignment between them, after which nothing assigns its key. */
  lemma MapInsert(a: seq<string>, key: string, value: string, b: seq<string>)
    requires WellFormed(key) && !Assigns(b, key)
    ensures MapOf(a + [Assigned(key, value)] + b) == MapOf(a + b)[key := value]
  {
    hide WellFormed; hide Assigned; hide MapOf; hide WithLine;
    MapConcat(a + [Assigned(key, value)], b);
    MapConcat(a, b);
    MapAdd(a, Assigned(key, value));
    AssignedReads(MapOf(a), key, value);
    MapKeys(b, key);
  }

  /** The lines written, with the assignment between what is ahead of it and the others that follow. */
  lemma SetAround(lines: seq<string>, key: string, line: string) returns (a: seq<string>, b: seq<string>)
    ensures SetLines(lines, key, line) == a + [line] + b && !Assigns(b, key)
    ensures MapOf(Scanned(a)) == MapOf(Scanned(Ahead(lines, key))) && (AllShort(a) <==> AllShort(Ahead(lines, key)))
    ensures MapOf(Scanned(a + b)) == MapOf(Scanned(Others(lines, key)))
  {
    hide MapOf; hide Scanned; hide Replaced; hide Others; hide Before; hide DropBlank; hide AllShort; hide AssignsKey;
    hide Base;
    if Assigns(lines, key) {
      var old_, rest := FirstAssignment(lines, key);
      a, b := Before(lines, key), Others(rest, key);
      ReplacedAt(a, old_, rest, key, line);
      OthersAround(a, old_, rest, key);
      OthersAssignNothing(rest, key);
    } else {
      a, b := Base(lines), [];
      assert a + [line] + b == a + [line] && a + b == a;
      BaseScanned(lines);
      DropBlankScanned(lines);
      ReplacedNothing(lines, key, line);
    }
  }

  lemma ScanAround(a: seq<string>, key: string, value: string, b: seq<string>)
    requires WellFormed(key) && !Assigns(b, key)
    ensures var line := Assigned(key, value);
      MapOf(Scanned(a + [line] + b)) ==
        if !Short(line) then MapOf(Scanned(a))
        else if AllShort(a) then MapOf(Scanned(a + b))[key := value]
        else MapOf(Scanned(a + b))
  {
    hide MapOf; hide Scanned; hide AllShort; hide Assigned; hide Assigns; hide WellFormed; hide Short;
    var line := Assigned(key, value);
    assert a + [line] + b == a + ([line] + b);
    ScannedConcat(a, [line] + b);
    ScannedConcat(a, b);
    ScannedOne(line, b);
    ScannedIf(a);
    if AllShort(a) && Short(line) {
      ScannedAssigns(b, key);
      MapInsert(a, key, value, Scanned(b));
      assert a + ([line] + Scanned(b)) == a + [line] + Scanned(b);
    }
  }

  /** What is read of the file after its key is set, whatever was in it. A line too long to scan hides what follows
      it: the assignment is read if it is short and nothing ahead of it is too long. */
  lemma SetExact(body: string, key: string, value: string)
    requires WellFormed(key) && OneLine(value)
    ensures var ahead := Ahead(Split(body), key);
      EnvOf(SetBody(body, key, value)) ==
        if !Short(Assigned(key, value)) then MapOf(Scanned(ahead))
        else if AllShort(ahead) then OtherKeys(body, key)[key := value]
        else OtherKeys(body, key)
  {
    assert OneLine(key);
    hide Split; hide SetLines; hide SetBody; hide MapOf; hide Scanned; hide AllShort; hide Assigned; hide Assigns;
    hide OtherKeys; hide Ahead; hide Others; hide WellFormed; hide Short; hide OneLine;
    var lines, line := Split(body), Assigned(key, value);
    SetLinesBack(body, key, value);
    OtherKeysAre(body, key);
    var a, b := SetAround(lines, key, line);
    ScannedBlankEnd(SetLines(lines, key, line));
    ScanAround(a, key, value, b);
  }

  lemma ScannedOne(line: string, b: seq<string>)
    ensures Scanned([line] + b) == if Short(line) then [line] + Scanned(b) else []
  {
    assert ([line] + b)[1..] == b;
  }

  lemma ScannedIf(a: seq<string>)
    ensures AllShort(a) ==> Scanned(a) == a
    ensures a + [] == a
  {
    if AllShort(a) { ScannedAll(a); }
  }

  /** So a value reads back exactly when its line is short enough, and every line ahead of it. */
  lemma SetReadsBack(body: string, key: string, value: string)
    requires WellFormed(key) && OneLine(value)
    ensures var env := EnvOf(SetBody(body, key, value));
      key in env && env[key] == value <==>
        |Assigned(key, value)| <= 65535 && forall l :: l in Ahead(Split(body), key) ==> |l| <= 65535
  {
    var ahead := Ahead(Split(body), key);
    ShortIs(Assigned(key, value), ahead);
    SetExact(body, key, value);
    OtherKeysAre(body, key);
    AheadAssignsNothing(Split(body), key);
    hide EnvOf; hide SetBody; hide Assigned; hide WellFormed; hide OneLine; hide AllShort; hide Short; hide Ahead;
    hide MapOf; hide Scanned; hide OtherKeys; hide Split; hide Assigns;
    MapKeys(Scanned(ahead), key);
    ScannedAssigns(ahead, key);
  }

  lemma ShortIs(line: string, lines: seq<string>)
    ensures Short(line) <==> |line| <= 65535
    ensures AllShort(lines) <==> forall l :: l in lines ==> |l| <= 65535
  {
    if AllShort(lines) {
      forall l | l in lines ensures |l| <= 65535 {
        var i :| 0 <= i < |lines| && lines[i] == l;
        assert Short(lines[i]);
      }
    } else {
      var i :| 0 <= i < |lines| && !Short(lines[i]);
      assert lines[i] in lines;
    }
  }

  lemma AheadAssignsNothing(lines: seq<string>, key: string)
    ensures !Assigns(Ahead(lines, key), key)
  {
    hide AssignsKey;
    if Assigns(lines, key) {
      var old_, rest := FirstAssignment(lines, key);
    } else {
      var b := DropBlank(lines);
      assert lines == b + lines[|b|..];
      OthersConcat(b, lines[|b|..], key);
    }
  }

  /** In a file all of which can be scanned, the key maps to exactly the value, and every other key as before. */
  lemma SetClean(body: string, key: string, value: string)
    requires WellFormed(key) && OneLine(value) && AllShort(Split(body)) && Short(Assigned(key, value))
    ensures EnvOf(SetBody(body, key, value)) == EnvOf(body)[key := value]
  {
    var lines := Split(body);
    SetExact(body, key, value);
    AheadShort(lines, key);
    NothingHidden(lines, key);
    hide EnvOf; hide SetBody; hide Assigned; hide WellFormed; hide OneLine; hide AllShort; hide Short; hide Ahead;
    hide Split; hide MapOf;
    MapOfNothing();
  }

  lemma AheadShort(lines: seq<string>, key: string)
    requires AllShort(lines)
    ensures AllShort(Ahead(lines, key))
  {
    hide AssignsKey; hide Assigns; hide Short;
    if Assigns(lines, key) {
      var old_, rest := FirstAssignment(lines, key);
      hide Before;
      assert forall i :: 0 <= i < |Before(lines, key)| ==> Before(lines, key)[i] == lines[i];
    }
  }

  /** Removing a key leaves the other keys, and what its own lines kept hidden; there is nothing to do when no line
      assigns it. A key that is read is one that some line assigns, and the other way round if no line is too long. */
  lemma RemoveExact(body: string, key: string)
    ensures EnvOf(Join(Others(Split(body), key))) == OtherKeys(body, key)
    ensures key in EnvOf(body) <==> Assigns(Scanned(Split(body)), key)
    ensures key in EnvOf(body) ==> Assigns(Split(body), key)
    ensures AllShort(Split(body)) ==>
      (Assigns(Split(body), key) ==> key in EnvOf(body)) && OtherKeys(body, key) == EnvOf(body) - {key}
  {
    hide MapOf; hide Scanned; hide Others; hide Assigns; hide Short; hide OneLine; hide OtherKeys; hide AssignsKey;
    var lines := Split(body);
    var left := Others(lines, key);
    SplitsAreLines(body);
    OtherKeysAre(body, key);
    MapKeys(Scanned(lines), key);
    ScannedAssigns(lines, key);
    OthersMap(lines, key);
    if AllShort(lines) {
      ScannedAll(lines);
      NothingHidden(lines, key);
      assert OtherKeys(body, key) == (EnvOf(body) - {key}) + MapOf([]) by {
        hide EnvOf; hide Split;
        UnfoldOthers(body, key);
      }
      MapOfNothing();
    }
    if left == [] {
      NothingLeft();
    } else {
      forall i | 0 <= i < |left| ensures OneLine(left[i]) { assert left[i] in left; }
      hide Split;
      SplitJoin(left);
    }
  }

  lemma UnfoldOthers(body: string, key: string)
    ensures OtherKeys(body, key) == (EnvOf(body) - {key}) + MapOf(Hidden(Split(body), key))
  {}

  lemma NothingLeft()
    ensures EnvOf(Join([])) == map[] && MapOf(Scanned([])) == map[] && MapOf([]) == map[]
  {
    BlankAssignsNothing("", map[]);
    assert Scanned([""]) == [""] by { assert [""][1..] == []; }
    MapAdd([], "");
    assert [] + [""] == [""];
  }
}
