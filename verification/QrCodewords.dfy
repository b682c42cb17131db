/** From a payload to the final codeword sequence, and back: clauses 7.4 to 7.6 of ISO/IEC 18004:2015,
    byte mode at error correction level M. */
module QrCodewords {
  import opened Basics
  import opened Arithmetic
  import opened Bits
  import opened Gf256
  import opened Polynomials
  import opened ReedSolomon

  datatype QrVersion = QrVersion(version: nat, dataBytes: nat, ecPerBlk: nat, group1: nat, blk1: nat, group2: nat,
                                 blk2: nat)
  {
    /** The width of the length field. */
    function LenBits(): nat { if version >= 10 then 16 else 8 }

    predicate Fits(n: nat) { 4 + LenBits() + n * 8 <= dataBytes * 8 }

    function Blocks(): nat { group1 + group2 }

    function BlockLen(b: nat): nat { if b < group1 then blk1 else blk2 }

    /** Where block b starts in the data codewords. */
    function BlockStart(b: nat): nat {
      if b <= group1 then b * blk1 else group1 * blk1 + (b - group1) * blk2
    }

    function Total(): nat { dataBytes + Blocks() * ecPerBlk }

    /** The position in the final sequence of data codeword i of block b: the blocks are read in turn,
        one codeword each, and only the longer blocks of group 2 take part in the last round. */
    function DataAt(b: nat, i: nat): int {
      if i < blk1 then i * Blocks() + b else blk1 * Blocks() + (b - group1)
    }

    /** The position in the final sequence of error correction codeword i of block b. */
    function EcAt(b: nat, i: nat): nat { dataBytes + i * Blocks() + b }

    ghost predicate WellShaped() {
      && 1 <= version <= 10
      && group1 >= 1 && blk1 >= 1 && ecPerBlk <= 255
      && (if group2 == 0 then blk2 == 0 else blk2 == blk1 + 1)
      && dataBytes == group1 * blk1 + group2 * blk2
      && dataBytes <= 216 && (version < 10 ==> dataBytes <= 182)
    }
  }

  const VERSIONS: seq<QrVersion> := [
    QrVersion(1, 16, 10, 1, 16, 0, 0),
    QrVersion(2, 28, 16, 1, 28, 0, 0),
    QrVersion(3, 44, 26, 1, 44, 0, 0),
    QrVersion(4, 64, 18, 2, 32, 0, 0),
    QrVersion(5, 86, 24, 2, 43, 0, 0),
    QrVersion(6, 108, 16, 4, 27, 0, 0),
    QrVersion(7, 124, 18, 4, 31, 0, 0),
    QrVersion(8, 154, 22, 2, 38, 2, 39),
    QrVersion(9, 182, 22, 3, 36, 2, 37),
    QrVersion(10, 216, 26, 4, 43, 1, 44)
  ]

  lemma VersionsWellShaped(k: nat)
    requires k < |VERSIONS|
    ensures VERSIONS[k].WellShaped() && VERSIONS[k].version == k + 1
  {}

  const MAX_PAYLOAD := 213

  /** v is the first version of the table that holds n bytes. */
  ghost predicate IsSmallestVersion(v: QrVersion, n: nat) {
    exists k :: 0 <= k < |VERSIONS| && v == VERSIONS[k] && v.Fits(n) && forall j :: 0 <= j < k ==> !VERSIONS[j].Fits(n)
  }

  /** pickVersion: the smallest version that holds n bytes, or none when n is too long. */
  method PickVersion(n: nat) returns (r: Option<QrVersion>)
    ensures r.None? <==> n > MAX_PAYLOAD
    ensures r.Some? ==> IsSmallestVersion(r.value, n)
  {
    for k := 0 to |VERSIONS|
      invariant forall j :: 0 <= j < k ==> !VERSIONS[j].Fits(n)
    {
      var v := VERSIONS[k];
      var lenBits := 8;
      if v.version >= 10 {
        lenBits := 16;
      }
      if 4 + lenBits + n * 8 <= v.dataBytes * 8 {
        return Some(v);
      }
    }
    assert !VERSIONS[9].Fits(n);
    return None;
  }

  // ---- the bit stream ----

  /** All bits of a codeword sequence. */
  function Flatten(s: seq<Byte>): (r: Bits)
    ensures |r| == 8 * |s|
  {
    seq(8 * |s|, k requires 0 <= k < 8 * |s| => s[k / 8][k % 8])
  }

  const BYTE_MODE: Bits := [false, true, false, false]
  const PAD0: Byte := ByteOf(0xEC)
  const PAD1: Byte := ByteOf(0x11)

  /** Mode indicator, character count, data and terminator (clauses 7.4.1 to 7.4.9). */
  function Stream(payload: seq<Byte>, lenBits: nat): (r: Bits)
    ensures |r| == 8 + lenBits + 8 * |payload|
  {
    BYTE_MODE + LowBits(|payload|, lenBits) + Flatten(payload) + [false, false, false, false]
  }

  /** d is the stream followed by alternating pad codewords (clause 7.4.10). */
  ghost predicate IsDataCodewords(payload: seq<Byte>, v: QrVersion, d: seq<Byte>) {
    var used := (8 + v.LenBits()) / 8 + |payload|;
    && |d| == v.dataBytes
    && used <= |d|
    && Flatten(d[..used]) == Stream(payload, v.LenBits())
    && forall i :: used <= i < |d| ==> d[i] == if (i - used) % 2 == 0 then PAD0 else PAD1
  }

  /** What a reader makes of the data codewords: mode, length, bytes. */
  function ReadPayload(v: QrVersion, d: seq<Byte>): Option<seq<Byte>> {
    var bits := Flatten(d);
    var start := 4 + v.LenBits();
    if |bits| < start || bits[..4] != BYTE_MODE then None
    else
      var n := Value(bits[4..start]);
      if |bits| < start + 8 * n then None
      else Some(seq(n, i requires 0 <= i < n => bits[start + 8 * i..start + 8 * i + 8]))
  }

  lemma FlattenSlice(s: seq<Byte>, i: nat)
    requires i < |s|
    ensures Flatten(s)[8 * i..8 * i + 8] == s[i]
  {
    forall j | 0 <= j < 8 ensures Flatten(s)[8 * i + j] == s[i][j] {
      assert (8 * i + j) / 8 == i && (8 * i + j) % 8 == j;
    }
  }

  lemma FlattenPrefix(s: seq<Byte>, n: nat)
    requires n <= |s|
    ensures Flatten(s)[..8 * n] == Flatten(s[..n])
  {}

  lemma FlattenSnoc(s: seq<Byte>, b: Byte)
    ensures Flatten(s + [b]) == Flatten(s) + b
  {
    FlattenPrefix(s + [b], |s|);
    FlattenSlice(s + [b], |s|);
    assert (s + [b])[..|s|] == s;
    var f := Flatten(s + [b]);
    assert f == f[..8 * |s|] + f[8 * |s|..8 * |s| + 8];
  }

  lemma StreamParts(payload: seq<Byte>, lenBits: nat)
    ensures var s := Stream(payload, lenBits);
      && s[..4] == BYTE_MODE
      && s[4..4 + lenBits] == LowBits(|payload|, lenBits)
      && s[4 + lenBits..4 + lenBits + 8 * |payload|] == Flatten(payload)
  {}

  lemma StreamPayload(payload: seq<Byte>, lenBits: nat, i: nat)
    requires i < |payload|
    ensures var at := 4 + lenBits + 8 * i; Stream(payload, lenBits)[at..at + 8] == payload[i]
  {
    hide Flatten;
    FlattenSlice(payload, i);
    StreamParts(payload, lenBits);
    var s, start := Stream(payload, lenBits), 4 + lenBits;
    assert s[start..start + 8 * |payload|][8 * i..8 * i + 8] == s[start + 8 * i..start + 8 * i + 8];
  }

  lemma ReadStream(payload: seq<Byte>, v: QrVersion, d: seq<Byte>)
    requires IsDataCodewords(payload, v, d)
    requires |payload| < Pow(v.LenBits())
    ensures ReadPayload(v, d) == Some(payload)
  {
    hide Flatten; hide Stream; hide LowBits; hide Value; hide Pow;
    var L := v.LenBits();
    var start, used, n := 4 + L, (8 + L) / 8 + |payload|, |payload|;
    var bits, s := Flatten(d), Stream(payload, L);
    FlattenPrefix(d, used);
    assert bits[..8 * used] == s;
    assert bits[..4] == s[..4] && bits[4..start] == s[4..start];
    StreamParts(payload, L);
    ValueOfLowBits(n, L);
    forall i | 0 <= i < n ensures bits[start + 8 * i..start + 8 * i + 8] == payload[i] {
      StreamPayload(payload, L, i);
      assert bits[start + 8 * i..start + 8 * i + 8] == s[start + 8 * i..start + 8 * i + 8];
    }
    var r := ReadPayload(v, d);
    assert r.Some? && |r.value| == n;
    assert r.value == payload;
  }

  class BitBuf {
    var bits: Bits

    constructor ()
      ensures bits == []
    {
      bits := [];
    }

    /** The low n bits of a value, highest first. */
    method Add(value: nat, n: nat)
      modifies this
      ensures bits == old(bits) + LowBits(value, n)
    {
      var i := n;
      while i > 0
        invariant 0 <= i <= n
        invariant bits == old(bits) + LowBits(value, n)[..n - i]
      {
        i := i - 1;
        LowBitsAt(value, n, n - 1 - i);
        bits := bits + [(value / Pow(i)) % 2 == 1];
      }
    }
  }

  lemma SmallFields()
    ensures LowBits(4, 4) == BYTE_MODE
    ensures LowBits(0, 1) == [false]
  {
    assert LowBits(4, 3) == [true, false, false];
  }

  /** Zeros up to a codeword boundary. */
  method Align(b: BitBuf)
    modifies b
    ensures b.bits == old(b.bits) + seq((8 - |old(b.bits)| % 8) % 8, _ => false)
  {
    SmallFields();
    ghost var n := 0;
    while |b.bits| % 8 != 0
      invariant n <= (8 - |old(b.bits)| % 8) % 8
      invariant b.bits == old(b.bits) + seq(n, _ => false)
      decreases 8 - n
    {
      b.Add(0, 1);
      n := n + 1;
    }
  }

  method AddBytes(b: BitBuf, payload: seq<Byte>)
    modifies b
    ensures b.bits == old(b.bits) + Flatten(payload)
  {
    hide Value; hide LowBits; hide Flatten;
    assert Flatten(payload[..0]) == [];
    for k := 0 to |payload|
      invariant b.bits == old(b.bits) + Flatten(payload[..k])
    {
      LowBitsOfValue(payload[k]);
      FlattenSnoc(payload[..k], payload[k]);
      assert payload[..k + 1] == payload[..k] + [payload[k]];
      b.Add(Value(payload[k]), 8);
    }
    assert payload[..|payload|] == payload;
  }

  function TerminatorLength(n: nat, capacity: nat): nat {
    if n + 4 <= capacity then 4 else if n < capacity then capacity - n else 0
  }

  /** Up to four zero bits, cut short at the capacity. */
  method AddTerminator(b: BitBuf, capacity: nat)
    modifies b
    ensures b.bits == old(b.bits) + seq(TerminatorLength(|old(b.bits)|, capacity), _ => false)
  {
    SmallFields();
    for k := 0 to 4
      invariant b.bits == old(b.bits) + seq(k, _ => false)
      invariant k == 0 || |b.bits| <= capacity
    {
      if |b.bits| >= capacity {
        break;
      }
      b.Add(0, 1);
    }
  }

  /** The bit stream: mode, length, payload, a terminator cut short at the capacity, and zeros up to a
      codeword boundary. */
  method BuildStream(payload: seq<Byte>, v: QrVersion) returns (bits: Bits)
    requires v.Fits(|payload|)
    ensures bits == Stream(payload, v.LenBits())
  {
    hide Value; hide LowBits; hide Flatten;
    SmallFields();
    var b := new BitBuf();
    b.Add(4, 4);
    var lenBits := 8;
    if v.version >= 10 {
      lenBits := 16;
    }
    b.Add(|payload|, lenBits);
    AddBytes(b, payload);
    AddTerminator(b, v.dataBytes * 8);
    Align(b);
    bits := b.bits;
  }

  /** The first half of encodeData: the stream as codewords, padded to the version's capacity. */
  method DataCodewords(payload: seq<Byte>, v: QrVersion) returns (data: seq<Byte>)
    requires v.Fits(|payload|)
    ensures IsDataCodewords(payload, v, data)
  {
    hide Flatten; hide Stream; hide ByteOf;
    var bits := BuildStream(payload, v);
    data := PackBytes(bits);
    ghost var packed := data;
    var i := 0;
    while |data| < v.dataBytes
      invariant |packed| + i == |data| <= v.dataBytes
      invariant packed <= data
      invariant forall j :: |packed| <= j < |data| ==> data[j] == if (j - |packed|) % 2 == 0 then PAD0 else PAD1
    {
      if i % 2 == 0 {
        data := data + [ByteOf(0xEC)];
      } else {
        data := data + [ByteOf(0x11)];
      }
      i := i + 1;
    }
    assert data[..|packed|] == packed;
  }

  /** Eight bits to a codeword, most significant first. */
  method PackBytes(bits: Bits) returns (data: seq<Byte>)
    requires |bits| % 8 == 0
    ensures Flatten(data) == bits
  {
    hide Flatten;
    data := [];
    var i := 0;
    assert Flatten([]) == bits[..0];
    while i < |bits|
      invariant 0 <= i <= |bits| && i % 8 == 0
      invariant Flatten(data) == bits[..i]
    {
      var c: Byte := ZERO;
      for j := 0 to 8
        invariant forall k :: 0 <= k < 8 ==> c[k] == (k < j && bits[i + k])
      {
        if bits[i + j] {
          c := c[j := true];
        }
      }
      assert c == bits[i..i + 8];
      FlattenSnoc(data, c);
      data := data + [c];
      i := i + 8;
    }
  }

  // ---- blocks and interleaving ----

  lemma DataCount(v: QrVersion)
    requires v.WellShaped()
    ensures v.dataBytes == v.blk1 * v.Blocks() + v.group2
  {
    var g1, g2, k := v.group1, v.group2, v.blk1;
    assert k * (g1 + g2) == g1 * k + g2 * k;
    if g2 != 0 { assert g2 * (k + 1) == g2 * k + g2; }
  }

  lemma DataPosition(v: QrVersion, b: nat, i: nat)
    requires v.WellShaped() && b < v.Blocks() && i < v.BlockLen(b)
    ensures 0 <= v.DataAt(b, i) < v.dataBytes <= v.Total()
  {
    NonNegative(v.Blocks(), v.ecPerBlk);
    DataCount(v);
    if i < v.blk1 {
      MulStep(i, v.blk1, v.Blocks());
    }
  }

  lemma EcPosition(v: QrVersion, b: nat, i: nat)
    requires b < v.Blocks() && i < v.ecPerBlk
    ensures v.dataBytes <= v.EcAt(b, i) < v.Total()
  {
    MulStep(i, v.ecPerBlk, v.Blocks());
    var nb, e := v.Blocks(), v.ecPerBlk;
    assert nb * e == e * nb;
  }

  lemma BlockBounds(v: QrVersion, b: nat)
    requires v.WellShaped() && b < v.Blocks()
    ensures v.BlockStart(b) + v.BlockLen(b) == v.BlockStart(b + 1) <= v.dataBytes
    ensures v.BlockStart(v.Blocks()) == v.dataBytes
  {
    NonNegative(v.group2, v.blk2);
    if b < v.group1 {
      MulStep(b, v.group1, v.blk1);
    } else {
      MulStep(b - v.group1, v.group2, v.blk2);
    }
  }

  /** Data codeword i of block b. */
  function DataOf(v: QrVersion, cw: seq<Byte>, b: nat, i: nat): Byte
    requires v.WellShaped() && b < v.Blocks() && |cw| == v.Total() && i < v.BlockLen(b)
  {
    DataPosition(v, b, i);
    cw[v.DataAt(b, i)]
  }

  function EcOf(v: QrVersion, cw: seq<Byte>, b: nat, i: nat): Byte
    requires v.WellShaped() && b < v.Blocks() && |cw| == v.Total() && i < v.ecPerBlk
  {
    EcPosition(v, b, i);
    cw[v.EcAt(b, i)]
  }

  /** Block b of a codeword sequence, as the reader collects it. */
  function DataBlock(v: QrVersion, cw: seq<Byte>, b: nat): (r: seq<Byte>)
    requires v.WellShaped() && b < v.Blocks() && |cw| == v.Total()
    ensures |r| == v.BlockLen(b)
  {
    seq(v.BlockLen(b), i requires 0 <= i < v.BlockLen(b) => DataOf(v, cw, b, i))
  }

  function EcBlock(v: QrVersion, cw: seq<Byte>, b: nat): (r: seq<Byte>)
    requires v.WellShaped() && b < v.Blocks() && |cw| == v.Total()
    ensures |r| == v.ecPerBlk
  {
    seq(v.ecPerBlk, i requires 0 <= i < v.ecPerBlk => EcOf(v, cw, b, i))
  }

  function JoinBlocks(v: QrVersion, cw: seq<Byte>, n: nat): seq<Byte>
    requires v.WellShaped() && n <= v.Blocks() && |cw| == v.Total()
  {
    if n == 0 then [] else JoinBlocks(v, cw, n - 1) + DataBlock(v, cw, n - 1)
  }

  /** The reader of clauses 7.4 to 7.6: reassemble the blocks, refuse one whose syndromes are not all zero,
      and parse the data. */
  ghost function ReadCodewords(v: QrVersion, cw: seq<Byte>): Option<seq<Byte>>
    requires v.WellShaped() && |cw| == v.Total()
  {
    if forall b :: 0 <= b < v.Blocks() ==> IsParity(DataBlock(v, cw, b), EcBlock(v, cw, b))
    then ReadPayload(v, JoinBlocks(v, cw, v.Blocks()))
    else None
  }

  /** cw holds the data codewords d, block by block, each with its error correction. */
  ghost predicate IsInterleaving(v: QrVersion, d: seq<Byte>, cw: seq<Byte>)
    requires v.WellShaped() && |d| == v.dataBytes
  {
    && |cw| == v.Total()
    && forall b :: 0 <= b < v.Blocks() ==> BlockInterleaved(v, d, cw, b)
  }

  ghost predicate BlockInterleaved(v: QrVersion, d: seq<Byte>, cw: seq<Byte>, b: nat)
    requires v.WellShaped() && |d| == v.dataBytes && b < v.Blocks() && |cw| == v.Total()
  {
    BlockBounds(v, b);
    && DataBlock(v, cw, b) == d[v.BlockStart(b)..v.BlockStart(b) + v.BlockLen(b)]
    && IsParity(DataBlock(v, cw, b), EcBlock(v, cw, b))
  }

  lemma {:induction false} JoinInterleaved(v: QrVersion, d: seq<Byte>, cw: seq<Byte>, n: nat)
    requires v.WellShaped() && |d| == v.dataBytes && n <= v.Blocks()
    requires IsInterleaving(v, d, cw)
    ensures v.BlockStart(n) <= |d|
    ensures JoinBlocks(v, cw, n) == d[..v.BlockStart(n)]
  {
    if n > 0 {
      JoinInterleaved(v, d, cw, n - 1);
      BlockBounds(v, n - 1);
      assert BlockInterleaved(v, d, cw, n - 1);
    }
  }

  /** What encodeData promises of its result. */
  ghost predicate IsCodewords(payload: seq<Byte>, v: QrVersion, cw: seq<Byte>) {
    && v.WellShaped() && v.Fits(|payload|)
    && exists d :: IsDataCodewords(payload, v, d) && IsInterleaving(v, d, cw)
  }

  /** A reader of the codewords recovers the payload. */
  lemma CodewordsRoundTrip(payload: seq<Byte>, v: QrVersion, cw: seq<Byte>)
    requires IsCodewords(payload, v, cw)
    ensures ReadCodewords(v, cw) == Some(payload)
  {
    hide Value; hide LowBits; hide Flatten;
    var d :| IsDataCodewords(payload, v, d) && IsInterleaving(v, d, cw);
    JoinInterleaved(v, d, cw, v.Blocks());
    BlockBounds(v, 0);
    assert d[..|d|] == d;
    forall b | 0 <= b < v.Blocks() ensures IsParity(DataBlock(v, cw, b), EcBlock(v, cw, b)) {
      assert BlockInterleaved(v, d, cw, b);
    }
    PowOf8();
    assert Pow(16) == Pow(8) * 256 by { PowSum(8, 8); }
    ReadStream(payload, v, d);
  }

  /** blocks are the consecutive pieces of d that the version prescribes. */
  ghost predicate AreBlocks(v: QrVersion, d: seq<Byte>, blocks: seq<seq<Byte>>, n: nat)
    requires v.WellShaped() && |d| == v.dataBytes && n <= v.Blocks()
  {
    && |blocks| == n
    && forall b :: 0 <= b < n ==>
        v.BlockStart(b) + v.BlockLen(b) <= |d| && blocks[b] == d[v.BlockStart(b)..v.BlockStart(b) + v.BlockLen(b)]
  }

  /** The blocks of the two groups, one slice after the other. */
  method SplitBlocks(v: QrVersion, d: seq<Byte>) returns (blocks: seq<seq<Byte>>)
    requires v.WellShaped() && |d| == v.dataBytes
    ensures AreBlocks(v, d, blocks, v.Blocks())
  {
    hide QrVersion.LenBits; hide QrVersion.Total;
    blocks := [];
    var pos := 0;
    for k := 0 to v.group1
      invariant pos == v.BlockStart(k)
      invariant AreBlocks(v, d, blocks, k)
    {
      BlockBounds(v, k);
      blocks := blocks + [d[pos..pos + v.blk1]];
      pos := pos + v.blk1;
    }
    for k := 0 to v.group2
      invariant pos == v.BlockStart(v.group1 + k)
      invariant AreBlocks(v, d, blocks, v.group1 + k)
    {
      BlockBounds(v, v.group1 + k);
      blocks := blocks + [d[pos..pos + v.blk2]];
      pos := pos + v.blk2;
    }
  }

  /** How many codewords are out when round i has served the blocks below b. */
  function Served(v: QrVersion, i: nat, b: nat): int {
    if i < v.blk1 then i * v.Blocks() + b
    else if i == v.blk1 then v.blk1 * v.Blocks() + (if b < v.group1 then 0 else b - v.group1)
    else v.dataBytes
  }

  lemma NextRound(v: QrVersion, i: nat)
    requires v.WellShaped() && i <= v.blk1
    ensures Served(v, i, v.Blocks()) == Served(v, i + 1, 0)
  {
    DataCount(v);
    Distribute(i, 1, v.Blocks());
  }

  ghost predicate DataPlaced(v: QrVersion, blocks: seq<seq<Byte>>, out: seq<Byte>, i: nat, b: nat)
    requires |blocks| == v.Blocks()
  {
    && |out| == Served(v, i, b)
    && forall c, k :: 0 <= c < |blocks| && 0 <= k < |blocks[c]| && (k < i || (k == i && c < b)) ==>
        0 <= v.DataAt(c, k) < |out| && out[v.DataAt(c, k)] == blocks[c][k]
  }

  /** The first data codeword of every block, then the second of every block that has one, and so on. */
  method InterleaveData(v: QrVersion, blocks: seq<seq<Byte>>) returns (out: seq<Byte>)
    requires v.WellShaped() && |blocks| == v.Blocks()
    requires forall b :: 0 <= b < |blocks| ==> |blocks[b]| == v.BlockLen(b)
    ensures |out| == v.dataBytes
    ensures forall c, k :: 0 <= c < |blocks| && 0 <= k < |blocks[c]| ==>
        0 <= v.DataAt(c, k) < |out| && out[v.DataAt(c, k)] == blocks[c][k]
  {
    out := [];
    DataCount(v);
    var maxData := if v.blk1 > v.blk2 then v.blk1 else v.blk2;
    for i := 0 to maxData
      invariant DataPlaced(v, blocks, out, i, 0)
    {
      for b := 0 to |blocks|
        invariant DataPlaced(v, blocks, out, i, b)
      {
        if i < |blocks[b]| {
          out := out + [blocks[b][i]];
        }
      }
      NextRound(v, i);
    }
  }

  /** The error correction of the blocks, interleaved after the data. */
  method InterleaveEc(v: QrVersion, ecBlocks: seq<seq<Byte>>, start: seq<Byte>) returns (out: seq<Byte>)
    requires v.WellShaped() && |ecBlocks| == v.Blocks() && |start| == v.dataBytes
    requires forall b :: 0 <= b < |ecBlocks| ==> |ecBlocks[b]| == v.ecPerBlk
    ensures |out| == v.Total() && start <= out
    ensures forall c, k :: 0 <= c < |ecBlocks| && 0 <= k < v.ecPerBlk ==>
        v.EcAt(c, k) < |out| && out[v.EcAt(c, k)] == ecBlocks[c][k]
  {
    out := start;
    for i := 0 to v.ecPerBlk
      invariant EcPlaced(v, ecBlocks, start, out, i, 0)
    {
      for b := 0 to |ecBlocks|
        invariant EcPlaced(v, ecBlocks, start, out, i, b)
      {
        out := out + [ecBlocks[b][i]];
      }
      Distribute(i, 1, v.Blocks());
    }
    var nb, e := v.Blocks(), v.ecPerBlk;
    assert nb * e == e * nb;
  }

  ghost predicate EcPlaced(v: QrVersion, ecBlocks: seq<seq<Byte>>, start: seq<Byte>, out: seq<Byte>, i: nat, b: nat)
    requires |ecBlocks| == v.Blocks()
    requires forall b :: 0 <= b < |ecBlocks| ==> |ecBlocks[b]| == v.ecPerBlk
  {
    && start <= out
    && |out| == v.EcAt(b, i)
    && forall c, k :: 0 <= c < |ecBlocks| && 0 <= k < v.ecPerBlk && (k < i || (k == i && c < b)) ==>
        v.EcAt(c, k) < |out| && out[v.EcAt(c, k)] == ecBlocks[c][k]
  }

  /** The second half of encodeData: error correction per block, then the codewords of all blocks interleaved. */
  method Interleave(t: Tables, v: QrVersion, d: seq<Byte>) returns (cw: seq<Byte>)
    requires t.Valid() && v.WellShaped() && |d| == v.dataBytes
    ensures IsInterleaving(v, d, cw)
  {
    hide IsParity;
    var blocks := SplitBlocks(v, d);
    var ecBlocks: seq<seq<Byte>> := [];
    for b := 0 to |blocks|
      invariant |ecBlocks| == b
      invariant forall c :: 0 <= c < b ==> |ecBlocks[c]| == v.ecPerBlk && IsParity(blocks[c], ecBlocks[c])
    {
      var ec := RsEncode(t, blocks[b], v.ecPerBlk);
      ecBlocks := ecBlocks + [ec];
    }
    forall b | 0 <= b < v.Blocks() ensures |blocks[b]| == v.BlockLen(b) { BlockBounds(v, b); }
    var out := InterleaveData(v, blocks);
    cw := InterleaveEc(v, ecBlocks, out);
    forall b | 0 <= b < v.Blocks() ensures BlockInterleaved(v, d, cw, b) {
      BlockBounds(v, b);
      assert DataBlock(v, cw, b) == blocks[b];
      assert EcBlock(v, cw, b) == ecBlocks[b];
    }
  }

  /** encodeData. */
  method EncodeData(t: Tables, payload: seq<Byte>) returns (r: Option<(QrVersion, seq<Byte>)>)
    requires t.Valid()
    ensures r.None? <==> |payload| > MAX_PAYLOAD
    ensures r.Some? ==> IsSmallestVersion(r.value.0, |payload|) && IsCodewords(payload, r.value.0, r.value.1)
  {
    var picked := PickVersion(|payload|);
    if picked.None? {
      return None;
    }
    var v := picked.value;
    ghost var k :| 0 <= k < |VERSIONS| && v == VERSIONS[k];
    VersionsWellShaped(k);
    var d := DataCodewords(payload, v);
    var cw := Interleave(t, v, d);
    return Some((v, cw));
  }
}
