/** One newline-terminated record at a time, however long, with over-long ones consumed but not kept. */
module ReadLine {
  import opened Lines

  /** The first position at or after p that holds a newline, or the length of the data. */
  function NextNewline(data: Bytes, p: nat): (k: nat)
    requires p <= |data|
    ensures p <= k <= |data|
    ensures k < |data| ==> data[k] == NEWLINE
    ensures Clean(data[p..k])
    decreases |data| - p
  {
    if p == |data| || data[p] == NEWLINE then p
    else
      var k := NextNewline(data, p + 1);
      assert data[p..k] == [data[p]] + data[p + 1..k];
      k
  }

  /** One past the record at p: past its newline, or at the end of the data when it has none yet. */
  function RecordEnd(data: Bytes, p: nat): (e: nat)
    requires p <= |data|
    ensures p <= e <= |data| && (p < |data| ==> p < e)
  {
    var k := NextNewline(data, p);
    if k < |data| then k + 1 else k
  }

  /** Whether the record at p ends in a newline. */
  predicate Terminated(data: Bytes, p: nat)
    requires p <= |data|
  {
    NextNewline(data, p) < |data|
  }

  lemma {:induction false} NextNewlineUnique(data: Bytes, p: nat, k: nat)
    requires p <= k <= |data| && Clean(data[p..k]) && (k < |data| ==> data[k] == NEWLINE)
    ensures NextNewline(data, p) == k
    decreases |data| - p
  {
    if p < k {
      assert data[p] in data[p..k];
      assert data[p..k] == [data[p]] + data[p + 1..k];
      NextNewlineUnique(data, p + 1, k);
    }
  }

  /** A complete record of a file is a record of whatever the file grows into. */
  lemma SameRecord(f: Bytes, g: Bytes, p: nat)
    requires f <= g && p <= |f| && Terminated(f, p)
    ensures RecordEnd(g, p) == RecordEnd(f, p) && g[p..RecordEnd(g, p)] == f[p..RecordEnd(f, p)]
  {
    var k := NextNewline(f, p);
    assert g[p..k] == f[p..k];
    NextNewlineUnique(g, p, k);
  }

  lemma CleanTail(data: Bytes, p: nat, q: nat, k: nat)
    requires p <= q <= k <= |data| && Clean(data[p..k])
    ensures Clean(data[q..k])
  {
    assert forall i :: q <= i < k ==> data[i] in data[p..k];
  }

  /** How one call of the buffered reader ended. */
  datatype SliceEnd = Delimiter | BufferFull | OutOfData

  /** What bufio's ReadSlice returns from position q with a buffer of size bytes: up to the newline, a full
      buffer, or what is left. */
  function ReadSlice(data: Bytes, q: nat, size: nat): (r: (nat, SliceEnd))
    requires q <= |data| && size > 0
    ensures q <= r.0 <= |data|
  {
    var k := NextNewline(data, q);
    if k < |data| && k - q < size then (k + 1, Delimiter)
    else if k - q >= size then (q + size, BufferFull)
    else (|data|, OutOfData)
  }

  /** readLine from position p. The number of bytes consumed is not the length of the line when an over-long
      record was dropped. atEnd reports that the data ended before a newline came. */
  method NextLine(data: Bytes, p: nat, bufferSize: nat, maxLine: nat) returns (line: Bytes, n: nat, atEnd: bool)
    requires p <= |data| && bufferSize > 0
    ensures n == RecordEnd(data, p) - p
    ensures line == if n <= maxLine then data[p..p + n] else []
    ensures atEnd <==> !Terminated(data, p)
  {
    hide NextNewline;
    var buf: Bytes := [];
    var dropped := false;
    n := 0;
    while true
      invariant p + n <= |data|
      invariant NextNewline(data, p + n) == NextNewline(data, p)
      invariant dropped == (n > maxLine)
      invariant buf == if dropped then [] else data[p..p + n]
      decreases |data| - (p + n)
    {
      var (q, end) := ReadSlice(data, p + n, bufferSize);
      var chunk := data[p + n..q];
      ghost var k := NextNewline(data, p + n);
      assert data[p..p + n] + chunk == data[p..q];
      n := n + |chunk|;
      if !dropped && |buf| + |chunk| <= maxLine {
        buf := buf + chunk;
      } else {
        dropped := true;
        buf := [];
      }
      if end == BufferFull {
        CleanTail(data, q - |chunk|, q, k);
        NextNewlineUnique(data, q, k);
        continue;
      }
      return buf, n, end == OutOfData;
    }
  }
}
